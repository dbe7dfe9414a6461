// Bifunctor: a type with two parameters, mapped over both at once by
// `bimap(f, g)`. `Validated`'s instance is in the Validation module.

module Bifunctor {
  import opened Wrappers
  import opened Functor

  /** `Ok(x)` to `Ok(f(x))`, `Err(e)` to `Err(g(e))`. */
  function BimapResult<A, B, C, D>(x: Result<A, B>, f: A -> C, g: B -> D): (r: Result<C, D>)
    ensures r.Ok? <==> x.Ok?
    ensures r.Ok? ==> r.value == f(x.value)
    ensures r.Err? ==> r.error == g(x.error)
  {
    match x
    case Ok(a) => Ok(f(a))
    case Err(e) => Err(g(e))
  }

  function BimapPair<A, B, C, D>(p: (A, B), f: A -> C, g: B -> D): (C, D)
  {
    (f(p.0), g(p.1))
  }

  /**
   * The map instance: every entry `(k, v)` becomes `(f(k), g(v))`, collected
   * into a new map. Where `f` sends two keys to one, the entry visited last
   * wins; the visiting order is unspecified, so the loop picks keys in any
   * order and the contract states only what holds for every order.
   */
  method BimapHashMap<A, B, C(==), D>(m: map<A, B>, f: A -> C, g: B -> D) returns (r: map<C, D>)
    ensures r.Keys == set k | k in m :: f(k)
    ensures forall c :: c in r ==> exists k :: k in m && f(k) == c && r[c] == g(m[k])
    ensures KeysInjective(m, f) ==> forall k :: k in m ==> f(k) in r && r[f(k)] == g(m[k])
  {
    r := map[];
    var todo := m.Keys;
    while todo != {}
      invariant todo <= m.Keys
      invariant r.Keys == set k | k in m && k !in todo :: f(k)
      invariant forall c :: c in r ==> exists k :: k in m && k !in todo && f(k) == c && r[c] == g(m[k])
      decreases todo
    {
      var k :| k in todo;
      r := r[f(k) := g(m[k])];
      todo := todo - {k};
    }
  }

  /** `f` sends no two keys of `m` to the same key. */
  ghost predicate KeysInjective<A, B, C>(m: map<A, B>, f: A -> C)
  {
    forall k1, k2 :: k1 in m && k2 in m && f(k1) == f(k2) ==> k1 == k2
  }

  /** Identity and composition laws of `Result`'s and the pair's `bimap`. */
  lemma ResultLaws<A, B, C, D, E, F>(x: Result<A, B>, f1: A -> C, f2: C -> E, g1: B -> D, g2: D -> F)
    ensures BimapResult(x, a => a, b => b) == x
    ensures BimapResult(BimapResult(x, f1, g1), f2, g2) == BimapResult(x, a => f2(f1(a)), b => g2(g1(b)))
  {
  }

  lemma PairLaws<A, B, C, D, E, F>(p: (A, B), f1: A -> C, f2: C -> E, g1: B -> D, g2: D -> F)
    ensures BimapPair(p, a => a, b => b) == p
    ensures BimapPair(BimapPair(p, f1, g1), f2, g2) == BimapPair(p, a => f2(f1(a)), b => g2(g1(b)))
  {
  }

  /** Keeping one side fixed, `Result`'s `bimap` is `map`. */
  lemma ResultBimapIsMap<A, B, C>(x: Result<A, B>, f: A -> C)
    ensures BimapResult(x, f, (b: B) => b) == MapResult(x, f)
  {
  }

  /** With the identity on keys, the map instance is `map` over the values. */
  method HashMapBimapIdentityKeys<K, B, D>(m: map<K, B>, g: B -> D) returns (r: map<K, D>)
    ensures r == MapHashMap(m, g)
  {
    r := BimapHashMap(m, (k: K) => k, g);
    assert r.Keys == m.Keys;
  }
}
