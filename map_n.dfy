// MapN: combining several values in a context with one function, by
// taking their `product` and mapping over it. `product_r` / `product_l`
// keep one side of each pair. The family beyond `map3` is generated by a
// macro from the same pattern.

module MapN {
  import opened Wrappers
  import opened Semigroup
  import opened Functor
  import opened Semigroupal
  import opened Apply
  import opened FlatMap
  import opened Validation

  // ---------------------------------------------------------------------
  // `map2`: `product` then `map` by the binary function

  function Map2Option<A, B, Z>(x: Option<A>, y: Option<B>, f: (A, B) -> Z): (r: Option<Z>)
    ensures r.Some? <==> x.Some? && y.Some?
    ensures r.Some? ==> r.value == f(x.value, y.value)
  {
    MapOption(ProductOption(x, y), (p: (A, B)) => f(p.0, p.1))
  }

  function Map2Result<A, B, Z, E>(x: Result<A, E>, y: Result<B, E>, f: (A, B) -> Z): (r: Result<Z, E>)
    ensures r.Ok? <==> x.Ok? && y.Ok?
    ensures r.Ok? ==> r.value == f(x.value, y.value)
    ensures x.Err? ==> r == Err(x.error)
    ensures x.Ok? && y.Err? ==> r == Err(y.error)
  {
    MapResult(ProductResult(x, y), (p: (A, B)) => f(p.0, p.1))
  }

  function Map2Vec<A, B, Z>(s: seq<A>, t: seq<B>, f: (A, B) -> Z): (r: seq<Z>)
    ensures |r| == |s| * |t|
  {
    MapVec(ProductVec(s, t), (p: (A, B)) => f(p.0, p.1))
  }

  /** `map2` accumulates the errors of both operands, because it goes through `product`. */
  function Map2Validated<A, B, Z, E>(combine: (E, E) -> E, x: Validated<A, E>, y: Validated<B, E>, f: (A, B) -> Z): (r: Validated<Z, E>)
    ensures r.Valid? <==> x.Valid? && y.Valid?
    ensures r.Valid? ==> r.value == f(x.value, y.value)
    ensures x.Invalid? && y.Invalid? ==> r == Invalid(combine(x.error, y.error))
    ensures x.Invalid? && y.Valid? ==> r == Invalid(x.error)
    ensures x.Valid? && y.Invalid? ==> r == Invalid(y.error)
  {
    Product(combine, x, y).Map((p: (A, B)) => f(p.0, p.1))
  }

  /** Row-major order: `f(s[i], t[j])` sits at `i * |t| + j`. */
  lemma Map2VecAt<A, B, Z>(s: seq<A>, t: seq<B>, f: (A, B) -> Z, i: nat, j: nat)
    requires i < |s| && j < |t|
    ensures 0 <= i * |t| + j < |Map2Vec(s, t, f)|
    ensures Map2Vec(s, t, f)[i * |t| + j] == f(s[i], t[j])
  {
    ProductVecAt(s, t, i, j);
  }

  /** One step of the outer loop: the first row is `t` mapped with `s[0]` fixed. */
  lemma Map2VecUnfold<A, B, Z>(s: seq<A>, t: seq<B>, f: (A, B) -> Z)
    requires s != []
    ensures Map2Vec(s, t, f) == MapVec(t, (b: B) => f(s[0], b)) + Map2Vec(s[1..], t, f)
  {
    var g := (p: (A, B)) => f(p.0, p.1);
    MapVecAppend(Row(s[0], t), ProductVec(s[1..], t), g);
    assert MapVec(Row(s[0], t), g) == MapVec(t, (b: B) => f(s[0], b));
  }

  /** `map2` is `ap` of the curried function mapped over the first operand. */
  lemma {:induction false} Map2VecIsAp<A, B, Z>(s: seq<A>, t: seq<B>, f: (A, B) -> Z)
    ensures Map2Vec(s, t, f) == ApVec(MapVec(s, (a: A) => (b: B) => f(a, b)), t)
    decreases |s|
  {
    var curried := (a: A) => (b: B) => f(a, b);
    if s != [] {
      Map2VecUnfold(s, t, f);
      Map2VecIsAp(s[1..], t, f);
      assert MapVec(s, curried)[1..] == MapVec(s[1..], curried);
      assert MapVec(t, MapVec(s, curried)[0]) == MapVec(t, (b: B) => f(s[0], b));
    }
  }

  lemma OptionMap2IsAp<A, B, Z>(x: Option<A>, y: Option<B>, f: (A, B) -> Z)
    ensures Map2Option(x, y, f) == ApOption(MapOption(x, (a: A) => (b: B) => f(a, b)), y)
  {
  }

  // ---------------------------------------------------------------------
  // `map3`: the nested product `((a, b), c)` mapped by the ternary function

  function Map3Option<A, B, C, Z>(x: Option<A>, y: Option<B>, z: Option<C>, f: (A, B, C) -> Z): (r: Option<Z>)
    ensures r.Some? <==> x.Some? && y.Some? && z.Some?
    ensures r.Some? ==> r.value == f(x.value, y.value, z.value)
  {
    MapOption(ProductOption(ProductOption(x, y), z), (p: ((A, B), C)) => f(p.0.0, p.0.1, p.1))
  }

  function Map3Vec<A, B, C, Z>(s: seq<A>, t: seq<B>, u: seq<C>, f: (A, B, C) -> Z): (r: seq<Z>)
    ensures |r| == |s| * |t| * |u|
  {
    MapVec(ProductVec(ProductVec(s, t), u), (p: ((A, B), C)) => f(p.0.0, p.0.1, p.1))
  }

  function Map3Validated<A, B, C, Z, E>(combine: (E, E) -> E, x: Validated<A, E>, y: Validated<B, E>, z: Validated<C, E>, f: (A, B, C) -> Z): (r: Validated<Z, E>)
    ensures r.Valid? <==> x.Valid? && y.Valid? && z.Valid?
    ensures r.Valid? ==> r.value == f(x.value, y.value, z.value)
    ensures x.Invalid? && y.Invalid? && z.Invalid? ==> r == Invalid(combine(combine(x.error, y.error), z.error))
    ensures r.Invalid? ==> Some(r.error) == CombineAllOption(combine, Errors(x) + Errors(y) + Errors(z))
  {
    NestedProductErrors(combine, x, y, z);
    Product(combine, Product(combine, x, y), z).Map((p: ((A, B), C)) => f(p.0.0, p.0.1, p.1))
  }

  /** Row-major order over three sequences: `f(s[i], t[j], u[k])` sits at `(i * |t| + j) * |u| + k`. */
  lemma Map3VecAt<A, B, C, Z>(s: seq<A>, t: seq<B>, u: seq<C>, f: (A, B, C) -> Z, i: nat, j: nat, k: nat)
    requires i < |s| && j < |t| && k < |u|
    ensures 0 <= (i * |t| + j) * |u| + k < |Map3Vec(s, t, u, f)|
    ensures Map3Vec(s, t, u, f)[(i * |t| + j) * |u| + k] == f(s[i], t[j], u[k])
  {
    var st := ProductVec(s, t);
    ProductVecAt(s, t, i, j);
    var n := i * |t| + j;
    ProductVecAt(st, u, n, k);
  }

  // ---------------------------------------------------------------------
  // `product_r` / `product_l`: `map2` keeping one side

  function KeepRight<A, B>(a: A, b: B): B
  {
    b
  }

  function KeepLeft<A, B>(a: A, b: B): A
  {
    a
  }

  function ProductROption<A, B>(x: Option<A>, y: Option<B>): (r: Option<B>)
    ensures r.Some? <==> x.Some? && y.Some?
    ensures r.Some? ==> r.value == y.value
  {
    Map2Option(x, y, KeepRight)
  }

  function ProductLOption<A, B>(x: Option<A>, y: Option<B>): (r: Option<A>)
    ensures r.Some? <==> x.Some? && y.Some?
    ensures r.Some? ==> r.value == x.value
  {
    Map2Option(x, y, KeepLeft)
  }

  function ProductRVec<A, B>(s: seq<A>, t: seq<B>): (r: seq<B>)
    ensures |r| == |s| * |t|
  {
    Map2Vec(s, t, KeepRight)
  }

  function ProductLVec<A, B>(s: seq<A>, t: seq<B>): (r: seq<A>)
    ensures |r| == |s| * |t|
  {
    Map2Vec(s, t, KeepLeft)
  }

  /** The errors of both sides still accumulate, although one side's value is dropped. */
  function ProductRValidated<A, B, E>(combine: (E, E) -> E, x: Validated<A, E>, y: Validated<B, E>): (r: Validated<B, E>)
    ensures r.Valid? <==> x.Valid? && y.Valid?
    ensures r.Valid? ==> r.value == y.value
    ensures x.Invalid? && y.Invalid? ==> r == Invalid(combine(x.error, y.error))
    ensures x.Invalid? && y.Valid? ==> r == Invalid(x.error)
    ensures x.Valid? && y.Invalid? ==> r == Invalid(y.error)
  {
    Map2Validated(combine, x, y, KeepRight)
  }

  function ProductLValidated<A, B, E>(combine: (E, E) -> E, x: Validated<A, E>, y: Validated<B, E>): (r: Validated<A, E>)
    ensures r.Valid? <==> x.Valid? && y.Valid?
    ensures r.Valid? ==> r.value == x.value
    ensures x.Invalid? && y.Invalid? ==> r == Invalid(combine(x.error, y.error))
    ensures x.Invalid? && y.Valid? ==> r == Invalid(x.error)
    ensures x.Valid? && y.Invalid? ==> r == Invalid(y.error)
  {
    Map2Validated(combine, x, y, KeepLeft)
  }

  /** `n` copies of `t`, one after the other. */
  function Repeat<T>(t: seq<T>, n: nat): (r: seq<T>)
    ensures |r| == n * |t|
  {
    if n == 0 then [] else t + Repeat(t, n - 1)
  }

  /** `n` copies of the single value `x`. */
  function Copies<T>(x: T, n: nat): (r: seq<T>)
    ensures |r| == n
    ensures forall j :: 0 <= j < n ==> r[j] == x
  {
    seq(n, _ => x)
  }

  /** Every element of `s` repeated `n` times in place. */
  function Stretch<T>(s: seq<T>, n: nat): (r: seq<T>)
    ensures |r| == |s| * n
  {
    if s == [] then [] else Copies(s[0], n) + Stretch(s[1..], n)
  }

  lemma ProductRVecUnfold<A, B>(s: seq<A>, t: seq<B>)
    requires s != []
    ensures ProductRVec(s, t) == t + ProductRVec(s[1..], t)
  {
    var row := MapVec(t, (b: B) => KeepRight(s[0], b));
    assert row == t by {
      assert forall j :: 0 <= j < |t| ==> row[j] == t[j];
    }
    Map2VecUnfold(s, t, KeepRight);
  }

  lemma RepeatUnfold<T>(t: seq<T>, n: nat)
    requires n > 0
    ensures Repeat(t, n) == t + Repeat(t, n - 1)
  {
  }

  /** For sequences, `product_r` is `t` once per element of `s`. */
  lemma {:induction false} ProductRVecIsRepeat<A, B>(s: seq<A>, t: seq<B>)
    ensures ProductRVec(s, t) == Repeat(t, |s|)
    decreases |s|
  {
    if s != [] {
      var rest := s[1..];
      assert |rest| == |s| - 1;
      ProductRVecUnfold(s, t);
      ProductRVecIsRepeat(rest, t);
      RepeatUnfold(t, |s|);
    }
  }

  lemma ProductLVecUnfold<A, B>(s: seq<A>, t: seq<B>)
    requires s != []
    ensures ProductLVec(s, t) == Copies(s[0], |t|) + ProductLVec(s[1..], t)
  {
    var row := MapVec(t, (b: B) => KeepLeft(s[0], b));
    assert row == Copies(s[0], |t|);
    Map2VecUnfold(s, t, KeepLeft);
  }

  /** For sequences, `product_l` is every element of `s` repeated `|t|` times. */
  lemma {:induction false} ProductLVecIsStretch<A, B>(s: seq<A>, t: seq<B>)
    ensures ProductLVec(s, t) == Stretch(s, |t|)
    decreases |s|
  {
    if s != [] {
      ProductLVecUnfold(s, t);
      ProductLVecIsStretch(s[1..], t);
    }
  }

  /** For `Option`, `product_r` is `flat_map` to the constant second operand. */
  lemma OptionProductRIsFlatMap<A, B>(x: Option<A>, y: Option<B>)
    ensures ProductROption(x, y) == FlatMapOption(x, _ => y)
    ensures ProductLOption(x, y) == FlatMapOption(x, (a: A) => MapOption(y, _ => a))
  {
  }

  /** The documented examples, and the accumulated error of `map2`. */
  lemma Examples()
    ensures Map2Option(Some(1), Some(2), (x: int, y: int) => x + y) == Some(3)
    ensures Map2Option(None, Some(2), (x: int, y: int) => x + y) == None
    ensures Map3Option(Some(1), Some(2), Some(3), (x: int, y: int, z: int) => x + y + z) == Some(6)
    ensures ProductROption(Some(1), Some(2)) == Some(2)
    ensures ProductLOption(Some(1), Some(2)) == Some(1)
    ensures Map2Validated((e1: seq<int>, e2: seq<int>) => e1 + e2, Validated<int, seq<int>>.Invalid([1]), Validated<int, seq<int>>.Invalid([2]), (x: int, y: int) => x + y)
         == Invalid([1, 2])
  {
    var combine := (e1: seq<int>, e2: seq<int>) => e1 + e2;
    assert combine([1], [2]) == [1, 2];
  }
}
