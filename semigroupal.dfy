// Semigroupal: `product` combines two independent effectful values into
// one holding the pair, keeping the effects of both. It is associative up
// to the bijection `((a, b), c) <-> (a, (b, c))`.

module Semigroupal {
  import opened Wrappers
  import opened Functor

  function ProductPhantom<A, B>(x: Phantom<A>, y: Phantom<B>): (r: Phantom<(A, B)>)
  {
    Phantom
  }

  /** `Option`: a pair exactly when both are present. */
  function ProductOption<A, B>(x: Option<A>, y: Option<B>): (r: Option<(A, B)>)
    ensures r.Some? <==> x.Some? && y.Some?
    ensures r.Some? ==> r.value == (x.value, y.value)
  {
    match (x, y)
    case (Some(a), Some(b)) => Some((a, b))
    case _ => None
  }

  /** `Result`: a pair exactly when both succeed; otherwise the first error, `self`'s before `fb`'s. */
  function ProductResult<A, B, E>(x: Result<A, E>, y: Result<B, E>): (r: Result<(A, B), E>)
    ensures r.Ok? <==> x.Ok? && y.Ok?
    ensures r.Ok? ==> r.value == (x.value, y.value)
    ensures x.Err? ==> r == Err(x.error)
    ensures x.Ok? && y.Err? ==> r == Err(y.error)
  {
    match (x, y)
    case (Ok(a), Ok(b)) => Ok((a, b))
    case (Err(e), _) => Err(e)
    case (_, Err(e)) => Err(e)
  }

  function ProductBox<A, B>(x: Box<A>, y: Box<B>): (r: Box<(A, B)>)
    ensures r.value == (x.value, y.value)
  {
    Box((x.value, y.value))
  }

  /** One row of the sequence product: `a` paired with every element of `t`, in order. */
  function Row<A, B>(a: A, t: seq<B>): (r: seq<(A, B)>)
    ensures |r| == |t|
    ensures forall j :: 0 <= j < |t| ==> r[j] == (a, t[j])
  {
    MapVec(t, b => (a, b))
  }

  /**
   * The sequence instances (`Vec`, `LinkedList`, `VecDeque`): every pair,
   * the outer loop running over `self`.
   */
  function ProductVec<A, B>(s: seq<A>, t: seq<B>): (r: seq<(A, B)>)
    ensures |r| == |s| * |t|
  {
    if s == [] then [] else Row(s[0], t) + ProductVec(s[1..], t)
  }

  /** Offset `k` into block `i` of `m` blocks of length `n`: inside the whole, and one block past offset `k` of block `i - 1`. */
  lemma BlockOffset(i: nat, k: nat, n: nat, m: nat)
    requires i < m && k < n
    ensures 0 <= i * n + k < m * n
    ensures i > 0 ==> i * n + k == n + ((i - 1) * n + k)
  {
    assert (i + 1) * n <= m * n;
  }

  /** Row-major order: the pair `(s[i], t[j])` sits at `i * |t| + j`. */
  lemma {:induction false} ProductVecAt<A, B>(s: seq<A>, t: seq<B>, i: nat, j: nat)
    requires i < |s| && j < |t|
    ensures 0 <= i * |t| + j < |ProductVec(s, t)|
    ensures ProductVec(s, t)[i * |t| + j] == (s[i], t[j])
  {
    BlockOffset(i, j, |t|, |s|);
    if i > 0 {
      ProductVecAt(s[1..], t, i - 1, j);
    }
  }

  /** Exactly the pairs of an element of `s` and an element of `t` occur. */
  lemma {:induction false} ProductVecMembers<A, B>(s: seq<A>, t: seq<B>, p: (A, B))
    ensures p in ProductVec(s, t) <==> p.0 in s && p.1 in t
  {
    if s != [] {
      ProductVecMembers(s[1..], t, p);
      assert s == [s[0]] + s[1..];
      if p in Row(s[0], t) {
        var j :| 0 <= j < |t| && Row(s[0], t)[j] == p;
      }
      if p.0 == s[0] && p.1 in t {
        var j :| 0 <= j < |t| && t[j] == p.1;
        assert Row(s[0], t)[j] == p;
      }
    }
  }

  /** A product with an empty operand is empty. */
  lemma ProductVecEmpty<A, B>(s: seq<A>, t: seq<B>)
    ensures ProductVec<A, B>([], t) == [] && ProductVec<A, B>(s, []) == []
  {
    assert |ProductVec<A, B>(s, [])| == |s| * 0 == 0;
  }

  /** The documented example. */
  lemma ProductVecExample()
    ensures ProductVec([1, 2], [3, 4]) == [(1, 3), (1, 4), (2, 3), (2, 4)]
  {
    assert Row(1, [3, 4]) == [(1, 3), (1, 4)];
    assert Row(2, [3, 4]) == [(2, 3), (2, 4)];
    assert ProductVec([2], [3, 4]) == Row(2, [3, 4]) + ProductVec([], [3, 4]);
  }

  /** `HashMap`: exactly the keys of both maps, each holding the pair of values. */
  function ProductHashMap<K, A, B>(a: map<K, A>, b: map<K, B>): (r: map<K, (A, B)>)
    ensures r.Keys == a.Keys * b.Keys
    ensures forall k :: k in r ==> r[k] == (a[k], b[k])
  {
    map k | k in a.Keys * b.Keys :: (a[k], b[k])
  }

  /**
   * The `HashMap` instance as the source runs it: walk `self`'s entries in an
   * unspecified order, taking each key's value out of (a mutable copy of)
   * `fb` when it is there.
   */
  method ProductHashMapLoop<K, A, B>(a: map<K, A>, fb: map<K, B>) returns (r: map<K, (A, B)>)
    ensures r == ProductHashMap(a, fb)
  {
    var rest := fb;
    var todo := a.Keys;
    r := map[];
    while todo != {}
      invariant todo <= a.Keys
      invariant r.Keys == (a.Keys - todo) * fb.Keys
      invariant forall k :: k in r ==> r[k] == (a[k], fb[k])
      invariant rest.Keys == fb.Keys - (a.Keys - todo)
      invariant forall k :: k in rest ==> rest[k] == fb[k]
      decreases todo
    {
      var k :| k in todo;
      if k in rest {
        r := r[k := (a[k], rest[k])];
        rest := rest - {k};
      }
      todo := todo - {k};
    }
  }

  // ---------------------------------------------------------------------
  // Associativity, up to flattening both nestings to a triple

  function FlattenLeft<A, B, C>(x: ((A, B), C)): (A, B, C)
  {
    (x.0.0, x.0.1, x.1)
  }

  function FlattenRight<A, B, C>(x: (A, (B, C))): (A, B, C)
  {
    (x.0, x.1.0, x.1.1)
  }

  lemma OptionAssociative<A, B, C>(x: Option<A>, y: Option<B>, z: Option<C>)
    ensures MapOption(ProductOption(ProductOption(x, y), z), FlattenLeft)
         == MapOption(ProductOption(x, ProductOption(y, z)), FlattenRight)
  {
  }

  lemma ResultAssociative<A, B, C, E>(x: Result<A, E>, y: Result<B, E>, z: Result<C, E>)
    ensures MapResult(ProductResult(ProductResult(x, y), z), FlattenLeft)
         == MapResult(ProductResult(x, ProductResult(y, z)), FlattenRight)
  {
  }

  lemma BoxAssociative<A, B, C>(x: Box<A>, y: Box<B>, z: Box<C>)
    ensures MapBox(ProductBox(ProductBox(x, y), z), FlattenLeft)
         == MapBox(ProductBox(x, ProductBox(y, z)), FlattenRight)
  {
  }

  lemma HashMapAssociative<K, A, B, C>(x: map<K, A>, y: map<K, B>, z: map<K, C>)
    ensures MapHashMap(ProductHashMap(ProductHashMap(x, y), z), FlattenLeft)
         == MapHashMap(ProductHashMap(x, ProductHashMap(y, z)), FlattenRight)
  {
    var lhs := MapHashMap(ProductHashMap(ProductHashMap(x, y), z), FlattenLeft);
    var rhs := MapHashMap(ProductHashMap(x, ProductHashMap(y, z)), FlattenRight);
    assert lhs.Keys == rhs.Keys;
  }

  /** The product of a concatenation is the concatenation of the products. */
  lemma {:induction false} ProductVecAppend<A, B>(s: seq<A>, s': seq<A>, t: seq<B>)
    ensures ProductVec(s + s', t) == ProductVec(s, t) + ProductVec(s', t)
    decreases |s|
  {
    if s == [] {
      assert s + s' == s';
    } else {
      assert (s + s')[0] == s[0];
      assert (s + s')[1..] == s[1..] + s';
      ProductVecAppend(s[1..], s', t);
    }
  }

  /** Associativity for a fixed pair `(a, b)`. */
  lemma RowOfPairAssociative<A, B, C>(a: A, b: B, u: seq<C>)
    ensures MapVec(Row((a, b), u), FlattenLeft) == MapVec(Row(a, Row(b, u)), FlattenRight)
  {
    var left, right := MapVec(Row((a, b), u), FlattenLeft), MapVec(Row(a, Row(b, u)), FlattenRight);
    assert forall k :: 0 <= k < |u| ==> left[k] == (a, b, u[k]) == right[k];
  }

  /** Associativity for one row: a fixed first component `a`. */
  lemma {:induction false} RowAssociative<A, B, C>(a: A, t: seq<B>, u: seq<C>)
    ensures MapVec(ProductVec(Row(a, t), u), FlattenLeft) == MapVec(Row(a, ProductVec(t, u)), FlattenRight)
    decreases |t|
  {
    if t != [] {
      var row := Row(a, t);
      assert row == [row[0]] + Row(a, t[1..]);
      ProductVecAppend([row[0]], Row(a, t[1..]), u);
      assert ProductVec([row[0]], u) == Row(row[0], u);
      MapVecAppend(Row(row[0], u), ProductVec(Row(a, t[1..]), u), FlattenLeft);
      RowAssociative(a, t[1..], u);
      assert Row(a, ProductVec(t, u)) == Row(a, Row(t[0], u)) + Row(a, ProductVec(t[1..], u));
      MapVecAppend(Row(a, Row(t[0], u)), Row(a, ProductVec(t[1..], u)), FlattenRight);
      RowOfPairAssociative(a, t[0], u);
    } else {
      assert ProductVec(t, u) == [];
    }
  }

  /** The semigroupal law for sequences. */
  lemma {:induction false} VecAssociative<A, B, C>(s: seq<A>, t: seq<B>, u: seq<C>)
    ensures MapVec(ProductVec(ProductVec(s, t), u), FlattenLeft)
         == MapVec(ProductVec(s, ProductVec(t, u)), FlattenRight)
    decreases |s|
  {
    if s != [] {
      ProductVecAppend(Row(s[0], t), ProductVec(s[1..], t), u);
      MapVecAppend(ProductVec(Row(s[0], t), u), ProductVec(ProductVec(s[1..], t), u), FlattenLeft);
      RowAssociative(s[0], t, u);
      VecAssociative(s[1..], t, u);
      MapVecAppend(Row(s[0], ProductVec(t, u)), ProductVec(s[1..], ProductVec(t, u)), FlattenRight);
    }
  }
}
