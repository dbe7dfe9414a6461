// FlatMap: `flat_map` maps each value to a context and flattens the result;
// `flatten`, `m_product`, `if_m` and `flat_tap` are derived from it. Together
// with `pure` it satisfies the monad laws.

module FlatMap {
  import opened Wrappers
  import opened Functor
  import opened Pure
  import opened Apply

  // ---------------------------------------------------------------------
  // Instances

  function FlatMapPhantom<A, B>(x: Phantom<A>, f: A -> Phantom<B>): (r: Phantom<B>)
  {
    Phantom
  }

  /** `Option`: `None` short-circuits, `f` is called only on a present value. */
  function FlatMapOption<A, B>(o: Option<A>, f: A -> Option<B>): (r: Option<B>)
    ensures o.None? ==> r.None?
    ensures o.Some? ==> r == f(o.value)
  {
    match o
    case None => None
    case Some(a) => f(a)
  }

  /** `Result`: an error is passed on untouched. */
  function FlatMapResult<A, B, E>(x: Result<A, E>, f: A -> Result<B, E>): (r: Result<B, E>)
    ensures x.Err? ==> r == Err(x.error)
    ensures x.Ok? ==> r == f(x.value)
  {
    match x
    case Err(e) => Err(e)
    case Ok(a) => f(a)
  }

  function FlatMapBox<A, B>(x: Box<A>, f: A -> Box<B>): (r: Box<B>)
    ensures r == f(x.value)
  {
    f(x.value)
  }

  /** The sequence instances: the images of the elements, concatenated in order. */
  function FlatMapVec<A, B>(s: seq<A>, f: A -> seq<B>): (r: seq<B>)
  {
    if s == [] then [] else f(s[0]) + FlatMapVec(s[1..], f)
  }

  /** The set instances: the union of the images. */
  function FlatMapSet<A, B>(s: set<A>, f: A -> set<B>): (r: set<B>)
    ensures forall a, b :: a in s && b in f(a) ==> b in r
    ensures forall b :: b in r ==> exists a :: a in s && b in f(a)
  {
    set a, b | a in s && b in f(a) :: b
  }

  /** Flat-mapping a concatenation concatenates the results. */
  lemma {:induction false} FlatMapVecAppend<A, B>(s: seq<A>, t: seq<A>, f: A -> seq<B>)
    ensures FlatMapVec(s + t, f) == FlatMapVec(s, f) + FlatMapVec(t, f)
    decreases |s|
  {
    if s == [] {
      assert s + t == t;
    } else {
      assert (s + t)[0] == s[0];
      assert (s + t)[1..] == s[1..] + t;
      FlatMapVecAppend(s[1..], t, f);
    }
  }

  /** An element of the result comes from the image of some element, and every such one occurs. */
  lemma {:induction false} FlatMapVecMembers<A, B>(s: seq<A>, f: A -> seq<B>, b: B)
    ensures b in FlatMapVec(s, f) <==> exists i :: 0 <= i < |s| && b in f(s[i])
    decreases |s|
  {
    if s != [] {
      FlatMapVecMembers(s[1..], f, b);
      if b in f(s[0]) {
        assert 0 < |s| && b in f(s[0]);
      }
      if exists i :: 0 <= i < |s[1..]| && b in f(s[1..][i]) {
        var i :| 0 <= i < |s[1..]| && b in f(s[1..][i]);
        assert s[i + 1] == s[1..][i];
      }
      if exists i :: 0 <= i < |s| && b in f(s[i]) {
        var i :| 0 <= i < |s| && b in f(s[i]);
        if i > 0 {
          assert s[1..][i - 1] == s[i];
        }
      }
    }
  }

  // ---------------------------------------------------------------------
  // Derived operations

  /** `flatten`: `flat_map` with the identity. */
  function FlattenOption<A>(o: Option<Option<A>>): (r: Option<A>)
    ensures r.Some? <==> o.Some? && o.value.Some?
    ensures r.Some? ==> r.value == o.value.value
  {
    FlatMapOption(o, (x: Option<A>) => x)
  }

  function FlattenVec<A>(s: seq<seq<A>>): (r: seq<A>)
  {
    FlatMapVec(s, (x: seq<A>) => x)
  }

  /** `m_product`: every value paired with each of the values `f` gives for it. */
  function MProductOption<A, B>(o: Option<A>, f: A -> Option<B>): (r: Option<(A, B)>)
    ensures r.Some? <==> o.Some? && f(o.value).Some?
    ensures r.Some? ==> r.value == (o.value, f(o.value).value)
  {
    FlatMapOption(o, a => MapOption(f(a), b => (a, b)))
  }

  function MProductVec<A, B>(s: seq<A>, f: A -> seq<B>): (r: seq<(A, B)>)
  {
    FlatMapVec(s, a => MapVec(f(a), b => (a, b)))
  }

  /** `if_m`: each boolean selects the context its branch produces. */
  function IfMOption<B>(o: Option<bool>, ifTrue: () -> Option<B>, ifFalse: () -> Option<B>): (r: Option<B>)
    ensures o == Some(true) ==> r == ifTrue()
    ensures o == Some(false) ==> r == ifFalse()
    ensures o.None? ==> r.None?
  {
    FlatMapOption(o, (x: bool) => if x then ifTrue() else ifFalse())
  }

  function IfMVec<B>(s: seq<bool>, ifTrue: () -> seq<B>, ifFalse: () -> seq<B>): (r: seq<B>)
  {
    FlatMapVec(s, (x: bool) => if x then ifTrue() else ifFalse())
  }

  /** `flat_tap`: keep each value, once for every value `f` gives for it. */
  function FlatTapOption<A, B>(o: Option<A>, f: A -> Option<B>): (r: Option<A>)
    ensures r.Some? <==> o.Some? && f(o.value).Some?
    ensures r.Some? ==> r.value == o.value
  {
    FlatMapOption(o, a => MapOption(f(a), (_: B) => a))
  }

  function FlatTapVec<A, B>(s: seq<A>, f: A -> seq<B>): (r: seq<A>)
  {
    FlatMapVec(s, a => MapVec(f(a), (_: B) => a))
  }

  // ---------------------------------------------------------------------
  // Properties of the derived operations

  /** `flatten` concatenates the inner sequences. */
  lemma {:induction false} FlattenVecAppend<A>(s: seq<seq<A>>, t: seq<seq<A>>)
    ensures FlattenVec(s + t) == FlattenVec(s) + FlattenVec(t)
  {
    FlatMapVecAppend(s, t, (x: seq<A>) => x);
  }

  /** `flat_map` is `map` then `flatten`, on every instance with sequences and options. */
  lemma {:induction false} FlatMapIsMapFlatten<A, B>(s: seq<A>, o: Option<A>, f: A -> seq<B>, g: A -> Option<B>)
    ensures FlatMapVec(s, f) == FlattenVec(MapVec(s, f))
    ensures FlatMapOption(o, g) == FlattenOption(MapOption(o, g))
    decreases |s|
  {
    if s != [] {
      FlatMapIsMapFlatten(s[1..], o, f, g);
      assert MapVec(s, f)[1..] == MapVec(s[1..], f);
    }
  }

  /** The second components of `m_product` are `flat_map`'s result, the first ones `flat_tap`'s. */
  lemma {:induction false} MProductProjections<A, B>(s: seq<A>, f: A -> seq<B>)
    ensures MapVec(MProductVec(s, f), (p: (A, B)) => p.1) == FlatMapVec(s, f)
    ensures MapVec(MProductVec(s, f), (p: (A, B)) => p.0) == FlatTapVec(s, f)
    decreases |s|
  {
    if s != [] {
      MProductProjections(s[1..], f);
      var row := MapVec(f(s[0]), b => (s[0], b));
      MapVecAppend(row, MProductVec(s[1..], f), (p: (A, B)) => p.1);
      MapVecAppend(row, MProductVec(s[1..], f), (p: (A, B)) => p.0);
      assert MapVec(row, (p: (A, B)) => p.1) == f(s[0]);
    }
  }

  /** Every pair of `m_product` is a value of `s` and one of its images under `f`. */
  lemma MProductMembers<A, B>(s: seq<A>, f: A -> seq<B>, p: (A, B))
    ensures p in MProductVec(s, f) <==> p.0 in s && p.1 in f(p.0)
  {
    var g := a => MapVec(f(a), b => (a, b));
    FlatMapVecMembers(s, g, p);
    if p.0 in s && p.1 in f(p.0) {
      var i :| 0 <= i < |s| && s[i] == p.0;
      var j :| 0 <= j < |f(p.0)| && f(p.0)[j] == p.1;
      assert g(s[i])[j] == p;
    }
    if p in MProductVec(s, f) {
      var i :| 0 <= i < |s| && p in g(s[i]);
      var j :| 0 <= j < |g(s[i])| && g(s[i])[j] == p;
    }
  }

  /** `if_m` is `if_f` followed by `flatten`. */
  lemma IfMIsFlattenedIfF<B>(s: seq<bool>, o: Option<bool>, ifTrue: () -> seq<B>, ifFalse: () -> seq<B>,
                             t: () -> Option<B>, e: () -> Option<B>)
    ensures IfMVec(s, ifTrue, ifFalse) == FlattenVec(IfFVec(s, ifTrue, ifFalse))
    ensures IfMOption(o, t, e) == FlattenOption(IfFOption(o, t, e))
  {
    var sel := (x: bool) => if x then ifTrue() else ifFalse();
    var selOption := (x: bool) => if x then t() else e();
    FlatMapIsMapFlatten(s, o, sel, selOption);
    assert IfFVec(s, ifTrue, ifFalse) == MapVec(s, sel);
  }

  // ---------------------------------------------------------------------
  // Monad laws

  lemma OptionMonadLaws<A, B, C>(a: A, m: Option<A>, f: A -> Option<B>, g: B -> Option<C>, h: A -> B)
    ensures FlatMapOption(PureOption(a), f) == f(a)
    ensures FlatMapOption(m, PureOption) == m
    ensures FlatMapOption(FlatMapOption(m, f), g) == FlatMapOption(m, x => FlatMapOption(f(x), g))
    ensures FlatMapOption(m, x => PureOption(h(x))) == MapOption(m, h)
  {
  }

  lemma ResultMonadLaws<A, B, C, E>(a: A, m: Result<A, E>, f: A -> Result<B, E>, g: B -> Result<C, E>, h: A -> B)
    ensures FlatMapResult(PureResult(a), f) == f(a)
    ensures FlatMapResult(m, PureResult) == m
    ensures FlatMapResult(FlatMapResult(m, f), g) == FlatMapResult(m, x => FlatMapResult(f(x), g))
    ensures FlatMapResult(m, x => PureResult(h(x))) == MapResult(m, h)
  {
  }

  lemma BoxMonadLaws<A, B, C>(a: A, m: Box<A>, f: A -> Box<B>, g: B -> Box<C>, h: A -> B)
    ensures FlatMapBox(PureBox(a), f) == f(a)
    ensures FlatMapBox(m, PureBox) == m
    ensures FlatMapBox(FlatMapBox(m, f), g) == FlatMapBox(m, x => FlatMapBox(f(x), g))
    ensures FlatMapBox(m, x => PureBox(h(x))) == MapBox(m, h)
  {
  }

  lemma {:induction false} VecIdentityLaws<A, B>(a: A, m: seq<A>, f: A -> seq<B>, h: A -> B)
    ensures FlatMapVec(PureVec(a), f) == f(a)
    ensures FlatMapVec(m, PureVec) == m
    ensures FlatMapVec(m, x => PureVec(h(x))) == MapVec(m, h)
    decreases |m|
  {
    assert FlatMapVec(PureVec(a), f) == f(a) + FlatMapVec([], f);
    if m != [] {
      VecIdentityLaws(a, m[1..], f, h);
      assert m == [m[0]] + m[1..];
    }
  }

  lemma {:induction false} VecAssociative<A, B, C>(m: seq<A>, f: A -> seq<B>, g: B -> seq<C>)
    ensures FlatMapVec(FlatMapVec(m, f), g) == FlatMapVec(m, x => FlatMapVec(f(x), g))
    decreases |m|
  {
    if m != [] {
      FlatMapVecAppend(f(m[0]), FlatMapVec(m[1..], f), g);
      VecAssociative(m[1..], f, g);
    }
  }

  lemma SetLeftIdentity<A, B>(a: A, f: A -> set<B>)
    ensures FlatMapSet(PureSet(a), f) == f(a)
  {
    assert forall b :: b in FlatMapSet(PureSet(a), f) ==> b in f(a);
  }

  lemma SetRightIdentity<A>(m: set<A>)
    ensures FlatMapSet(m, PureSet) == m
  {
    var r := FlatMapSet(m, PureSet);
    forall x | x in r ensures x in m {
      var y :| y in m && x in PureSet(y);
    }
    forall x | x in m ensures x in r {
      assert x in PureSet(x);
    }
  }

  lemma SetMapCoherence<A, B>(m: set<A>, h: A -> B)
    ensures FlatMapSet(m, x => PureSet(h(x))) == MapSet(m, h)
  {
    var k := x => PureSet(h(x));
    var r := FlatMapSet(m, k);
    forall b | b in r ensures b in MapSet(m, h) {
      var x :| x in m && b in k(x);
    }
    forall x | x in m ensures h(x) in r {
      assert h(x) in k(x);
    }
  }

  lemma SetAssociative<A, B, C>(m: set<A>, f: A -> set<B>, g: B -> set<C>)
    ensures FlatMapSet(FlatMapSet(m, f), g) == FlatMapSet(m, x => FlatMapSet(f(x), g))
  {
    var k := x => FlatMapSet(f(x), g);
    var lhs := FlatMapSet(FlatMapSet(m, f), g);
    var rhs := FlatMapSet(m, k);
    forall c | c in lhs ensures c in rhs {
      var b :| b in FlatMapSet(m, f) && c in g(b);
      var a :| a in m && b in f(a);
      assert c in k(a);
    }
    forall c | c in rhs ensures c in lhs {
      var a :| a in m && c in k(a);
      var b :| b in f(a) && c in g(b);
      assert b in FlatMapSet(m, f);
    }
  }

  /** `flat_map` over the functions agrees with `ap`, function by function. */
  lemma {:induction false} VecFlatMapIsAp<A, B>(ff: seq<A -> B>, fa: seq<A>)
    ensures FlatMapVec(ff, f => MapVec(fa, f)) == ApVec(ff, fa)
    decreases |ff|
  {
    if ff != [] {
      VecFlatMapIsAp(ff[1..], fa);
    }
  }

  lemma OptionFlatMapIsAp<A, B>(ff: Option<A -> B>, fa: Option<A>)
    ensures FlatMapOption(ff, f => MapOption(fa, f)) == ApOption(ff, fa)
  {
  }

  /** The documented examples (an integer function stands in for `to_string`). */
  lemma Examples()
    ensures FlatMapOption(Some(1), (x: int) => Some(x + 1)) == Some(2)
    ensures FlattenOption(Some(Some(1))) == Some(1)
    ensures FlattenVec([[1, 2], [], [3]]) == [1, 2, 3]
    ensures MProductOption(Some(1), (x: int) => Some(x + 1)) == Some((1, 2))
    ensures IfMOption(Some(true), () => Some(1), () => Some(0)) == Some(1)
    ensures FlatTapOption(Some(1), (x: int) => Some(x + 1)) == Some(1)
  {
    assert FlattenVec([[3]]) == [3] + FlattenVec([]);
    assert FlattenVec([[], [3]]) == [] + FlattenVec([[3]]);
  }
}
