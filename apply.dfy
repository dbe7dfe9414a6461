// Apply: `ap` applies the functions held in one context to the values held
// in another. Every instance agrees with `product` followed by applying the
// function of each pair to its value.

module Apply {
  import opened Wrappers
  import opened Functor
  import opened Semigroupal

  /** Applying the first component of a pair to the second. */
  function ApplyPair<A, B>(p: (A -> B, A)): B
  {
    p.0(p.1)
  }

  function ApPhantom<A, B, F>(ff: Phantom<F>, fa: Phantom<A>): (r: Phantom<B>)
  {
    Phantom
  }

  /** `Option`: a value exactly when both the function and the argument are present. */
  function ApOption<A, B>(ff: Option<A -> B>, fa: Option<A>): (r: Option<B>)
    ensures r.Some? <==> ff.Some? && fa.Some?
    ensures r.Some? ==> r.value == ff.value(fa.value)
  {
    match (ff, fa)
    case (Some(f), Some(a)) => Some(f(a))
    case _ => None
  }

  /** `Result`: the function's error wins over the argument's. */
  function ApResult<A, B, E>(ff: Result<A -> B, E>, fa: Result<A, E>): (r: Result<B, E>)
    ensures r.Ok? <==> ff.Ok? && fa.Ok?
    ensures r.Ok? ==> r.value == ff.value(fa.value)
    ensures ff.Err? ==> r == Err(ff.error)
    ensures ff.Ok? && fa.Err? ==> r == Err(fa.error)
  {
    match (ff, fa)
    case (Ok(f), Ok(a)) => Ok(f(a))
    case (Err(e), _) => Err(e)
    case (_, Err(e)) => Err(e)
  }

  function ApBox<A, B>(ff: Box<A -> B>, fa: Box<A>): (r: Box<B>)
    ensures r.value == ff.value(fa.value)
  {
    Box(ff.value(fa.value))
  }

  /**
   * The sequence instances (`Vec`, `LinkedList`, `VecDeque`): for each
   * function in turn, its images of all the values.
   */
  function ApVec<A, B>(ff: seq<A -> B>, fa: seq<A>): (r: seq<B>)
    ensures |r| == |ff| * |fa|
  {
    if ff == [] then [] else MapVec(fa, ff[0]) + ApVec(ff[1..], fa)
  }

  /** Function-major order: `ff[i](fa[j])` sits at `i * |fa| + j`. */
  lemma ApVecAt<A, B>(ff: seq<A -> B>, fa: seq<A>, i: nat, j: nat)
    requires i < |ff| && j < |fa|
    ensures 0 <= i * |fa| + j < |ApVec(ff, fa)|
    ensures ApVec(ff, fa)[i * |fa| + j] == ff[i](fa[j])
  {
    ProductVecAt(ff, fa, i, j);
    VecApIsProduct(ff, fa);
  }

  /** `HashMap`: the keys present in both maps, each function applied to its key's value. */
  function ApHashMap<K, A, B>(ff: map<K, A -> B>, fa: map<K, A>): (r: map<K, B>)
    ensures r.Keys == ff.Keys * fa.Keys
    ensures forall k :: k in r ==> r[k] == ff[k](fa[k])
  {
    map k | k in ff.Keys * fa.Keys :: ff[k](fa[k])
  }

  /**
   * The `HashMap` instance as the source runs it: walk `fa`'s entries in an
   * unspecified order, taking each key's function out of `self` (which the
   * instance owns and mutates) when it is there.
   */
  method ApHashMapLoop<K, A, B>(ff: map<K, A -> B>, fa: map<K, A>) returns (r: map<K, B>)
    ensures r == ApHashMap(ff, fa)
  {
    var fs := ff;
    var todo := fa.Keys;
    r := map[];
    while todo != {}
      invariant todo <= fa.Keys
      invariant r.Keys == ff.Keys * (fa.Keys - todo)
      invariant forall k :: k in r ==> r[k] == ff[k](fa[k])
      invariant fs.Keys == ff.Keys - (fa.Keys - todo)
      invariant forall k :: k in fs ==> fs[k] == ff[k]
      decreases todo
    {
      var k :| k in todo;
      if k in fs {
        r := r[k := fs[k](fa[k])];
        fs := fs - {k};
      }
      todo := todo - {k};
    }
  }

  // ---------------------------------------------------------------------
  // `ap` is `product` followed by application

  lemma OptionApIsProduct<A, B>(ff: Option<A -> B>, fa: Option<A>)
    ensures ApOption(ff, fa) == MapOption(ProductOption(ff, fa), ApplyPair)
  {
  }

  lemma ResultApIsProduct<A, B, E>(ff: Result<A -> B, E>, fa: Result<A, E>)
    ensures ApResult(ff, fa) == MapResult(ProductResult(ff, fa), ApplyPair)
  {
  }

  lemma BoxApIsProduct<A, B>(ff: Box<A -> B>, fa: Box<A>)
    ensures ApBox(ff, fa) == MapBox(ProductBox(ff, fa), ApplyPair)
  {
  }

  lemma {:induction false} VecApIsProduct<A, B>(ff: seq<A -> B>, fa: seq<A>)
    ensures ApVec(ff, fa) == MapVec(ProductVec(ff, fa), ApplyPair)
    decreases |ff|
  {
    if ff != [] {
      VecApIsProduct(ff[1..], fa);
      MapVecAppend(Row(ff[0], fa), ProductVec(ff[1..], fa), ApplyPair);
      assert MapVec(Row(ff[0], fa), ApplyPair) == MapVec(fa, ff[0]);
    }
  }

  lemma HashMapApIsProduct<K, A, B>(ff: map<K, A -> B>, fa: map<K, A>)
    ensures ApHashMap(ff, fa) == MapHashMap(ProductHashMap(ff, fa), ApplyPair)
  {
  }

  /** The documented examples (an integer function stands in for `to_string`). */
  lemma Examples()
    ensures ApOption(Some((x: int) => x + 10), Some(1)) == Some(11)
    ensures ApVec([(x: int) => x + 1, (x: int) => x + 2], [3, 4]) == [4, 5, 5, 6]
  {
    var f1 := (x: int) => x + 1;
    var f2 := (x: int) => x + 2;
    assert MapVec([3, 4], f1) == [4, 5];
    assert MapVec([3, 4], f2) == [5, 6];
    assert ApVec([f2], [3, 4]) == MapVec([3, 4], f2) + ApVec([], [3, 4]);
  }
}
