// ApN: applying a function of several arguments, held in a context, to
// several values in the same context. The arguments are first combined by
// `product`; the function side is then opened with `and_then`, so its own
// failure short-circuits even where `product` would accumulate.

module ApN {
  import opened Wrappers
  import opened Semigroup
  import opened Functor
  import opened Semigroupal
  import opened Apply
  import opened FlatMap
  import opened Validation
  import opened MapN

  // ---------------------------------------------------------------------
  // `ap2`

  function Ap2Option<A, B, Z>(ff: Option<(A, B) -> Z>, x: Option<A>, y: Option<B>): (r: Option<Z>)
    ensures r.Some? <==> ff.Some? && x.Some? && y.Some?
    ensures r.Some? ==> r.value == ff.value(x.value, y.value)
  {
    FlatMapOption(ff, (f: (A, B) -> Z) => Map2Option(x, y, f))
  }

  /** The block `ap2` produces for one function: that function over the whole product of the arguments. */
  function Map2Block<A, B, Z>(s: seq<A>, t: seq<B>): ((A, B) -> Z) -> seq<Z>
  {
    (f: (A, B) -> Z) => Map2Vec(s, t, f)
  }

  /** For each function in order, its block. */
  function Ap2Vec<A, B, Z>(ff: seq<(A, B) -> Z>, s: seq<A>, t: seq<B>): (r: seq<Z>)
  {
    FlatMapVec(ff, Map2Block(s, t))
  }

  /** A `Valid` function sees the accumulated errors of its arguments; an `Invalid` one returns only its own. */
  function Ap2Validated<A, B, Z, E>(combine: (E, E) -> E, ff: Validated<(A, B) -> Z, E>, x: Validated<A, E>, y: Validated<B, E>): (r: Validated<Z, E>)
    ensures r.Valid? <==> ff.Valid? && x.Valid? && y.Valid?
    ensures r.Valid? ==> r.value == ff.value(x.value, y.value)
    ensures ff.Invalid? ==> r == Invalid(ff.error)
    ensures ff.Valid? && x.Invalid? && y.Invalid? ==> r == Invalid(combine(x.error, y.error))
    ensures ff.Valid? && x.Invalid? && y.Valid? ==> r == Invalid(x.error)
    ensures ff.Valid? && x.Valid? && y.Invalid? ==> r == Invalid(y.error)
  {
    ff.AndThen((f: (A, B) -> Z) => Map2Validated(combine, x, y, f))
  }

  /** The length of a `flat_map` whose every block has the same length. */
  lemma {:induction false} FlatMapVecUniform<A, B>(s: seq<A>, f: A -> seq<B>, n: nat)
    requires forall a :: a in s ==> |f(a)| == n
    ensures |FlatMapVec(s, f)| == |s| * n
    decreases |s|
  {
    if s != [] {
      FlatMapVecUniform(s[1..], f, n);
      assert |FlatMapVec(s, f)| == n + (|s| - 1) * n;
    }
  }

  /** The block of `s[i]` in a uniform `flat_map` starts at `i * n`. */
  lemma {:induction false} FlatMapVecUniformAt<A, B>(s: seq<A>, f: A -> seq<B>, n: nat, i: nat, k: nat)
    requires forall a :: a in s ==> |f(a)| == n
    requires i < |s| && k < n
    ensures 0 <= i * n + k < |FlatMapVec(s, f)|
    ensures k < |f(s[i])|
    ensures FlatMapVec(s, f)[i * n + k] == f(s[i])[k]
    decreases i
  {
    FlatMapVecUniform(s, f, n);
    BlockOffset(i, k, n, |s|);
    var rest := s[1..];
    var head := f(s[0]);
    assert |head| == n;
    assert FlatMapVec(s, f) == head + FlatMapVec(rest, f);
    if i > 0 {
      assert forall a :: a in rest ==> a in s;
      FlatMapVecUniformAt(rest, f, n, i - 1, k);
      assert rest[i - 1] == s[i];
    }
  }

  /** Function-major order: `ff[i](s[j], t[k])` sits at `i * (|s| * |t|) + (j * |t| + k)`. */
  lemma Ap2VecAt<A, B, Z>(ff: seq<(A, B) -> Z>, s: seq<A>, t: seq<B>, i: nat, j: nat, k: nat)
    requires i < |ff| && j < |s| && k < |t|
    ensures |Ap2Vec(ff, s, t)| == |ff| * (|s| * |t|)
    ensures 0 <= i * (|s| * |t|) + (j * |t| + k) < |Ap2Vec(ff, s, t)|
    ensures Ap2Vec(ff, s, t)[i * (|s| * |t|) + (j * |t| + k)] == ff[i](s[j], t[k])
  {
    var n := |s| * |t|;
    var m := j * |t| + k;
    Map2VecAt(s, t, ff[i], j, k);
    forall f | f in ff
      ensures |Map2Block(s, t)(f)| == n
    {
    }
    FlatMapVecUniform(ff, Map2Block(s, t), n);
    FlatMapVecUniformAt(ff, Map2Block(s, t), n, i, m);
  }

  // ---------------------------------------------------------------------
  // `ap3`

  function Ap3Option<A, B, C, Z>(ff: Option<(A, B, C) -> Z>, x: Option<A>, y: Option<B>, z: Option<C>): (r: Option<Z>)
    ensures r.Some? <==> ff.Some? && x.Some? && y.Some? && z.Some?
    ensures r.Some? ==> r.value == ff.value(x.value, y.value, z.value)
  {
    FlatMapOption(ff, (f: (A, B, C) -> Z) => Map3Option(x, y, z, f))
  }

  /** The block `ap3` produces for one function: that function over the whole nested product of the arguments. */
  function Map3Block<A, B, C, Z>(s: seq<A>, t: seq<B>, u: seq<C>): ((A, B, C) -> Z) -> seq<Z>
  {
    (f: (A, B, C) -> Z) => Map3Vec(s, t, u, f)
  }

  function Ap3Vec<A, B, C, Z>(ff: seq<(A, B, C) -> Z>, s: seq<A>, t: seq<B>, u: seq<C>): (r: seq<Z>)
    ensures |r| == |ff| * (|s| * |t| * |u|)
  {
    FlatMapVecUniform(ff, Map3Block(s, t, u), |s| * |t| * |u|);
    FlatMapVec(ff, Map3Block(s, t, u))
  }

  /** Function-major order: `ff[i](s[j], t[k], u[l])` sits at `i * (|s| * |t| * |u|) + ((j * |t| + k) * |u| + l)`. */
  lemma Ap3VecAt<A, B, C, Z>(ff: seq<(A, B, C) -> Z>, s: seq<A>, t: seq<B>, u: seq<C>, i: nat, j: nat, k: nat, l: nat)
    requires i < |ff| && j < |s| && k < |t| && l < |u|
    ensures 0 <= i * (|s| * |t| * |u|) + ((j * |t| + k) * |u| + l) < |Ap3Vec(ff, s, t, u)|
    ensures Ap3Vec(ff, s, t, u)[i * (|s| * |t| * |u|) + ((j * |t| + k) * |u| + l)] == ff[i](s[j], t[k], u[l])
  {
    var n := |s| * |t| * |u|;
    var m := (j * |t| + k) * |u| + l;
    Map3VecAt(s, t, u, ff[i], j, k, l);
    forall f | f in ff
      ensures |Map3Block(s, t, u)(f)| == n
    {
    }
    FlatMapVecUniformAt(ff, Map3Block(s, t, u), n, i, m);
  }

  function Ap3Validated<A, B, C, Z, E>(combine: (E, E) -> E, ff: Validated<(A, B, C) -> Z, E>, x: Validated<A, E>, y: Validated<B, E>, z: Validated<C, E>): (r: Validated<Z, E>)
    ensures r.Valid? <==> ff.Valid? && x.Valid? && y.Valid? && z.Valid?
    ensures r.Valid? ==> r.value == ff.value(x.value, y.value, z.value)
    ensures ff.Invalid? ==> r == Invalid(ff.error)
    ensures ff.Valid? && x.Invalid? && y.Invalid? && z.Invalid? ==> r == Invalid(combine(combine(x.error, y.error), z.error))
    ensures ff.Valid? && r.Invalid? ==> Some(r.error) == CombineAllOption(combine, Errors(x) + Errors(y) + Errors(z))
  {
    ff.AndThen((f: (A, B, C) -> Z) => Map3Validated(combine, x, y, z, f))
  }

  // ---------------------------------------------------------------------
  // Relations

  function Curry<A, B, Z>(f: (A, B) -> Z): A -> B -> Z
  {
    a => b => f(a, b)
  }

  /**
   * `ap2` on `Option` is two applications of `ap`; on `Validated` it is not
   * when the function is an error: nested `ap` also collects the arguments'
   * errors, `ap2` drops them.
   */
  lemma Ap2AgainstNestedAp<A, B, Z, E>(combine: (E, E) -> E, ff: Validated<(A, B) -> Z, E>, x: Validated<A, E>, y: Validated<B, E>, g: Option<(A, B) -> Z>, a: Option<A>, b: Option<B>)
    ensures Ap2Option(g, a, b) == ApOption(ApOption(MapOption(g, Curry), a), b)
    ensures ff.Valid? ==> Ap2Validated(combine, ff, x, y) == Ap(combine, Ap(combine, ff.Map(Curry), x), y)
    ensures ff.Invalid? && x.Invalid? && y.Valid? ==>
      Ap2Validated(combine, ff, x, y) == Invalid(ff.error) &&
      Ap(combine, Ap(combine, ff.Map(Curry), x), y) == Invalid(combine(ff.error, x.error))
  {
  }

  /** The documented examples, and the fail-fast function side of `Validated`. */
  lemma Examples()
    ensures Ap2Option(Some((x: int, y: int) => x + y), Some(1), Some(2)) == Some(3)
    ensures Ap3Option(Some((x: int, y: int, z: int) => x + y + z), Some(1), Some(2), Some(3)) == Some(6)
    ensures Ap2Option(Some((x: int, y: int) => x + y), None, Some(2)) == None
    ensures Ap2Validated((e1: seq<int>, e2: seq<int>) => e1 + e2,
                         Validated<(int, int) -> int, seq<int>>.Invalid([0]),
                         Validated<int, seq<int>>.Invalid([1]), Validated<int, seq<int>>.Invalid([2]))
         == Invalid([0])
    ensures Ap2Validated((e1: seq<int>, e2: seq<int>) => e1 + e2,
                         Validated<(int, int) -> int, seq<int>>.Valid((x: int, y: int) => x + y),
                         Validated<int, seq<int>>.Invalid([1]), Validated<int, seq<int>>.Invalid([2]))
         == Invalid([1, 2])
  {
    var combine := (e1: seq<int>, e2: seq<int>) => e1 + e2;
    assert combine([1], [2]) == [1, 2];
  }
}
