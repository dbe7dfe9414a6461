// Covariant functors: `map` for every container of the library, the
// operations the trait derives from `map`, and the functor laws
// (identity and composition) for each instance.
//
// `Vec`, `LinkedList` and `VecDeque` are all sequences here and share the
// instance `MapVec`; `BTreeSet` and `HashSet` share `MapSet`.

module Functor {
  import opened Wrappers

  // ---------------------------------------------------------------------
  // Instances of `map`

  function MapOption<A, B>(o: Option<A>, f: A -> B): (r: Option<B>)
    ensures r.Some? <==> o.Some?
    ensures r.Some? ==> r.value == f(o.value)
  {
    match o
    case None => None
    case Some(a) => Some(f(a))
  }

  /** `Result<A, E>`: the success value is mapped, an error is passed on untouched. */
  function MapResult<A, B, E>(x: Result<A, E>, f: A -> B): (r: Result<B, E>)
    ensures r.Ok? <==> x.Ok?
    ensures r.Ok? ==> r.value == f(x.value)
    ensures r.Err? ==> r.error == x.error
  {
    match x
    case Ok(a) => Ok(f(a))
    case Err(e) => Err(e)
  }

  function MapBox<A, B>(x: Box<A>, f: A -> B): (r: Box<B>)
    ensures r.value == f(x.value)
  {
    Box(f(x.value))
  }

  /** `PhantomData` holds no value: `f` is never called. */
  function MapPhantom<A, B>(x: Phantom<A>, f: A -> B): (r: Phantom<B>)
  {
    Phantom
  }

  /** The sequence instance: iterate, map each element, collect in order. */
  function MapVec<A, B>(s: seq<A>, f: A -> B): (r: seq<B>)
    ensures |r| == |s|
    ensures forall i :: 0 <= i < |s| ==> r[i] == f(s[i])
  {
    if s == [] then [] else [f(s[0])] + MapVec(s[1..], f)
  }

  /** The set instances: the image of the set (equal images merge). */
  function MapSet<A, B>(s: set<A>, f: A -> B): (r: set<B>)
    ensures forall a :: a in s ==> f(a) in r
    ensures forall b :: b in r ==> exists a :: a in s && f(a) == b
  {
    set a | a in s :: f(a)
  }

  /** `HashMap<K, A>`: every key is kept and its value mapped. */
  function MapHashMap<K, A, B>(m: map<K, A>, f: A -> B): (r: map<K, B>)
    ensures r.Keys == m.Keys
    ensures forall k :: k in r ==> r[k] == f(m[k])
  {
    map k | k in m :: f(m[k])
  }

  // ---------------------------------------------------------------------
  // The laws of every instance

  lemma OptionLaws<A, B, C>(o: Option<A>, f: A -> B, g: B -> C)
    ensures MapOption(o, x => x) == o
    ensures MapOption(MapOption(o, f), g) == MapOption(o, x => g(f(x)))
  {
  }

  lemma ResultLaws<A, B, C, E>(x: Result<A, E>, f: A -> B, g: B -> C)
    ensures MapResult(x, y => y) == x
    ensures MapResult(MapResult(x, f), g) == MapResult(x, y => g(f(y)))
  {
  }

  lemma BoxLaws<A, B, C>(x: Box<A>, f: A -> B, g: B -> C)
    ensures MapBox(x, y => y) == x
    ensures MapBox(MapBox(x, f), g) == MapBox(x, y => g(f(y)))
  {
  }

  lemma PhantomLaws<A, B, C>(x: Phantom<A>, f: A -> B, g: B -> C)
    ensures MapPhantom(x, y => y) == x
    ensures MapPhantom(MapPhantom(x, f), g) == MapPhantom(x, y => g(f(y)))
  {
  }

  lemma VecLaws<A, B, C>(s: seq<A>, f: A -> B, g: B -> C)
    ensures MapVec(s, x => x) == s
    ensures MapVec(MapVec(s, f), g) == MapVec(s, x => g(f(x)))
  {
  }

  lemma SetLaws<A, B, C>(s: set<A>, f: A -> B, g: B -> C)
    ensures MapSet(s, x => x) == s
    ensures MapSet(MapSet(s, f), g) == MapSet(s, x => g(f(x)))
  {
  }

  lemma HashMapLaws<K, A, B, C>(m: map<K, A>, f: A -> B, g: B -> C)
    ensures MapHashMap(m, x => x) == m
    ensures MapHashMap(MapHashMap(m, f), g) == MapHashMap(m, x => g(f(x)))
  {
  }

  /** Mapping distributes over concatenation of sequences. */
  lemma MapVecAppend<A, B>(s: seq<A>, t: seq<A>, f: A -> B)
    ensures MapVec(s + t, f) == MapVec(s, f) + MapVec(t, f)
  {
  }

  // ---------------------------------------------------------------------
  // Operations derived from `map` (shown on `Option`, as documented, and on
  // sequences)

  /** `lift(f)`: the function `fa -> fa.map(f)`. */
  function LiftVec<A, B>(f: A -> B): (r: seq<A> -> seq<B>)
  {
    s => MapVec(s, f)
  }

  /** Lifting respects identity and composition. */
  lemma LiftLaws<A, B, C>(s: seq<A>, f: A -> B, g: B -> C)
    ensures LiftVec((x: A) => x)(s) == s
    ensures LiftVec(g)(LiftVec(f)(s)) == LiftVec((x: A) => g(f(x)))(s)
  {
  }

  /** `fproduct`: pair every value with `f` of it. */
  function FProductVec<A, B>(s: seq<A>, f: A -> B): (r: seq<(A, B)>)
    ensures |r| == |s|
    ensures forall i :: 0 <= i < |s| ==> r[i] == (s[i], f(s[i]))
  {
    MapVec(s, a => (a, f(a)))
  }

  function FProductOption<A, B>(o: Option<A>, f: A -> B): (r: Option<(A, B)>)
    ensures r.Some? <==> o.Some?
    ensures r.Some? ==> r.value == (o.value, f(o.value))
  {
    MapOption(o, a => (a, f(a)))
  }

  /** `fproduct_left`: the same pairs with the function's result on the left. */
  function FProductLeftVec<A, B>(s: seq<A>, f: A -> B): (r: seq<(B, A)>)
    ensures |r| == |s|
    ensures forall i :: 0 <= i < |s| ==> r[i] == (f(s[i]), s[i])
  {
    MapVec(s, a => (f(a), a))
  }

  function FProductLeftOption<A, B>(o: Option<A>, f: A -> B): (r: Option<(B, A)>)
    ensures r.Some? <==> o.Some?
    ensures r.Some? ==> r.value == (f(o.value), o.value)
  {
    MapOption(o, a => (f(a), a))
  }

  /** `map_const`: every value replaced by `b`, the shape kept. */
  function MapConstVec<A, B>(s: seq<A>, b: B): (r: seq<B>)
    ensures |r| == |s|
    ensures forall i :: 0 <= i < |s| ==> r[i] == b
  {
    MapVec(s, _ => b)
  }

  function MapConstOption<A, B>(o: Option<A>, b: B): (r: Option<B>)
    ensures r.Some? <==> o.Some?
    ensures r.Some? ==> r.value == b
  {
    MapOption(o, _ => b)
  }

  /** `void`: only the shape is left. */
  function VoidVec<A>(s: seq<A>): (r: seq<()>)
    ensures |r| == |s|
  {
    MapConstVec(s, ())
  }

  function VoidOption<A>(o: Option<A>): (r: Option<()>)
    ensures r.Some? <==> o.Some?
  {
    MapConstOption(o, ())
  }

  /** `tuple_left`: `b` on the left of every value. */
  function TupleLeftVec<A, B>(s: seq<A>, b: B): (r: seq<(B, A)>)
    ensures |r| == |s|
    ensures forall i :: 0 <= i < |s| ==> r[i] == (b, s[i])
  {
    MapVec(s, a => (b, a))
  }

  function TupleLeftOption<A, B>(o: Option<A>, b: B): (r: Option<(B, A)>)
    ensures r.Some? <==> o.Some?
    ensures r.Some? ==> r.value == (b, o.value)
  {
    MapOption(o, a => (b, a))
  }

  /** `tuple_right`: `b` on the right of every value. */
  function TupleRightVec<A, B>(s: seq<A>, b: B): (r: seq<(A, B)>)
    ensures |r| == |s|
    ensures forall i :: 0 <= i < |s| ==> r[i] == (s[i], b)
  {
    MapVec(s, a => (a, b))
  }

  function TupleRightOption<A, B>(o: Option<A>, b: B): (r: Option<(A, B)>)
    ensures r.Some? <==> o.Some?
    ensures r.Some? ==> r.value == (o.value, b)
  {
    MapOption(o, a => (a, b))
  }

  /** `unzip`: a container of pairs split into the container of first and of second components. */
  function UnzipVec<A, B>(s: seq<(A, B)>): (r: (seq<A>, seq<B>))
    ensures |r.0| == |s| && |r.1| == |s|
    ensures forall i :: 0 <= i < |s| ==> s[i] == (r.0[i], r.1[i])
  {
    (MapVec(s, (x: (A, B)) => x.0), MapVec(s, (x: (A, B)) => x.1))
  }

  function UnzipOption<A, B>(o: Option<(A, B)>): (r: (Option<A>, Option<B>))
    ensures r.0.Some? == r.1.Some? == o.Some?
    ensures o.Some? ==> o.value == (r.0.value, r.1.value)
  {
    (MapOption(o, (x: (A, B)) => x.0), MapOption(o, (x: (A, B)) => x.1))
  }

  /** `if_f`: each boolean chooses which of two producers supplies the value. */
  function IfFVec<B>(s: seq<bool>, ifTrue: () -> B, ifFalse: () -> B): (r: seq<B>)
    ensures |r| == |s|
    ensures forall i :: 0 <= i < |s| ==> r[i] == if s[i] then ifTrue() else ifFalse()
  {
    MapVec(s, (x: bool) => if x then ifTrue() else ifFalse())
  }

  function IfFOption<B>(o: Option<bool>, ifTrue: () -> B, ifFalse: () -> B): (r: Option<B>)
    ensures r.Some? <==> o.Some?
    ensures r.Some? ==> r.value == if o.value then ifTrue() else ifFalse()
  {
    MapOption(o, (x: bool) => if x then ifTrue() else ifFalse())
  }

  /** `fproduct` followed by `unzip` gives back the values and their images under `f`. */
  lemma FProductUnzip<A, B>(s: seq<A>, f: A -> B)
    ensures UnzipVec(FProductVec(s, f)) == (s, MapVec(s, f))
    ensures UnzipVec(FProductLeftVec(s, f)) == (MapVec(s, f), s)
  {
    var (l, r) := UnzipVec(FProductLeftVec(s, f));
    assert l == MapVec(s, f);
    assert r == s;
  }

  /** `tuple_left` and `tuple_right` are `fproduct_left` and `fproduct` with a constant function. */
  lemma TuplesAreConstantProducts<A, B>(s: seq<A>, b: B)
    ensures TupleLeftVec(s, b) == FProductLeftVec(s, _ => b)
    ensures TupleRightVec(s, b) == FProductVec(s, _ => b)
    ensures UnzipVec(TupleRightVec(s, b)).1 == MapConstVec(s, b)
  {
  }

  /** The documented examples on `Option`. */
  lemma OptionExamples()
    ensures MapOption(Some(1), (x: int) => x + 1) == Some(2)
    ensures FProductOption(Some(1), (x: int) => x + 1) == Some((1, 2))
    ensures FProductLeftOption(Some(1), (x: int) => x + 1) == Some((2, 1))
    ensures MapConstOption(Some(1), "foo") == Some("foo")
    ensures VoidOption(Some(1)) == Some(())
    ensures TupleLeftOption(Some(1), "foo") == Some(("foo", 1))
    ensures TupleRightOption(Some(1), "foo") == Some((1, "foo"))
    ensures UnzipOption(Some((1, "foo"))) == (Some(1), Some("foo"))
    ensures IfFOption(Some(true), () => 1, () => 0) == Some(1)
  {
  }
}
