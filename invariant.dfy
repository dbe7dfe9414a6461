// Invariant (exponential) functors: `imap(f, g)` with a function each way.
// For a covariant functor the library derives `imap(f, g) = map(f)` and
// never calls `g`; for a contravariant one it derives `contramap(g)` and
// never calls `f`.

module Invariant {
  import opened Wrappers
  import Functor
  import Contravariant

  function IMapOption<A, B>(o: Option<A>, f: A -> B, g: B -> A): (r: Option<B>)
    ensures r == Functor.MapOption(o, f)
  {
    Functor.MapOption(o, f)
  }

  function IMapResult<A, B, E>(x: Result<A, E>, f: A -> B, g: B -> A): (r: Result<B, E>)
    ensures r == Functor.MapResult(x, f)
  {
    Functor.MapResult(x, f)
  }

  /** `Vec`, `LinkedList`, `VecDeque`. */
  function IMapVec<A, B>(s: seq<A>, f: A -> B, g: B -> A): (r: seq<B>)
    ensures r == Functor.MapVec(s, f)
  {
    Functor.MapVec(s, f)
  }

  function IMapBox<A, B>(x: Box<A>, f: A -> B, g: B -> A): (r: Box<B>)
    ensures r == Functor.MapBox(x, f)
  {
    Functor.MapBox(x, f)
  }

  /** `BTreeSet`, `HashSet`. */
  function IMapSet<A, B>(s: set<A>, f: A -> B, g: B -> A): (r: set<B>)
    ensures r == Functor.MapSet(s, f)
  {
    Functor.MapSet(s, f)
  }

  /** `HashMap<K, A>`: its own implementation, which maps the values with `f`. */
  function IMapHashMap<K, A, B>(m: map<K, A>, f: A -> B, g: B -> A): (r: map<K, B>)
    ensures r.Keys == m.Keys
    ensures forall k :: k in r ==> r[k] == f(m[k])
  {
    map k | k in m :: f(m[k])
  }

  /** `PhantomData`: its own implementation, calling neither function. */
  function IMapPhantom<A, B>(p: Phantom<A>, f: A -> B, g: B -> A): (r: Phantom<B>)
  {
    Phantom
  }

  /** The derivation `invariant_contravariant!`, shown on the one contravariant instance. */
  function IMapViaContramap<A, B>(p: Phantom<A>, f: A -> B, g: B -> A): (r: Phantom<B>)
  {
    Contravariant.ContramapPhantom(p, g)
  }

  /** The own `imap` of `HashMap` and `PhantomData` agree with the derived ones. */
  lemma OwnInstancesAgree<K, A, B>(m: map<K, A>, p: Phantom<A>, f: A -> B, g: B -> A)
    ensures IMapHashMap(m, f, g) == Functor.MapHashMap(m, f)
    ensures IMapPhantom(p, f, g) == Functor.MapPhantom(p, f) == IMapViaContramap(p, f, g)
  {
  }

  /** The derived `imap` of a covariant functor does not depend on the backward function. */
  lemma BackwardFunctionUnused<A, B>(o: Option<A>, s: seq<A>, f: A -> B, g1: B -> A, g2: B -> A)
    ensures IMapOption(o, f, g1) == IMapOption(o, f, g2)
    ensures IMapVec(s, f, g1) == IMapVec(s, f, g2)
  {
  }

  /**
   * The invariant laws: `imap(id, id)` is the identity and
   * `imap(f1, f2).imap(g1, g2) == imap(compose!(g1, f1), compose!(f2, g2))`.
   */
  lemma OptionLaws<A, B, C>(o: Option<A>, f1: A -> B, f2: B -> A, g1: B -> C, g2: C -> B)
    ensures IMapOption(o, x => x, x => x) == o
    ensures IMapOption(IMapOption(o, f1, f2), g1, g2) == IMapOption(o, x => g1(f1(x)), x => f2(g2(x)))
  {
  }

  lemma ResultLaws<A, B, C, E>(x: Result<A, E>, f1: A -> B, f2: B -> A, g1: B -> C, g2: C -> B)
    ensures IMapResult(x, y => y, y => y) == x
    ensures IMapResult(IMapResult(x, f1, f2), g1, g2) == IMapResult(x, y => g1(f1(y)), y => f2(g2(y)))
  {
  }

  lemma VecLaws<A, B, C>(s: seq<A>, f1: A -> B, f2: B -> A, g1: B -> C, g2: C -> B)
    ensures IMapVec(s, x => x, x => x) == s
    ensures IMapVec(IMapVec(s, f1, f2), g1, g2) == IMapVec(s, x => g1(f1(x)), x => f2(g2(x)))
  {
  }

  lemma BoxLaws<A, B, C>(x: Box<A>, f1: A -> B, f2: B -> A, g1: B -> C, g2: C -> B)
    ensures IMapBox(x, y => y, y => y) == x
    ensures IMapBox(IMapBox(x, f1, f2), g1, g2) == IMapBox(x, y => g1(f1(y)), y => f2(g2(y)))
  {
  }

  lemma SetLaws<A, B, C>(s: set<A>, f1: A -> B, f2: B -> A, g1: B -> C, g2: C -> B)
    ensures IMapSet(s, x => x, x => x) == s
    ensures IMapSet(IMapSet(s, f1, f2), g1, g2) == IMapSet(s, x => g1(f1(x)), x => f2(g2(x)))
  {
  }

  lemma HashMapLaws<K, A, B, C>(m: map<K, A>, f1: A -> B, f2: B -> A, g1: B -> C, g2: C -> B)
    ensures IMapHashMap(m, x => x, x => x) == m
    ensures IMapHashMap(IMapHashMap(m, f1, f2), g1, g2) == IMapHashMap(m, x => g1(f1(x)), x => f2(g2(x)))
  {
  }

  lemma PhantomLaws<A, B, C>(p: Phantom<A>, f1: A -> B, f2: B -> A, g1: B -> C, g2: C -> B)
    ensures IMapPhantom(p, x => x, x => x) == p
    ensures IMapPhantom(IMapPhantom(p, f1, f2), g1, g2) == IMapPhantom(p, x => g1(f1(x)), x => f2(g2(x)))
  {
  }
}
