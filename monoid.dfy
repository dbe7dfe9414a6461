// Monoids: semigroups with an identity element `empty`, the test
// `is_empty`, and `combine_all`, the fold of a sequence starting from
// `empty`.

module Monoid {
  import opened Wrappers
  import opened Semigroup

  /** The monoid laws for the identity: `empty` is neutral on both sides. */
  ghost predicate IsIdentity<T(!new)>(combine: (T, T) -> T, empty: T)
  {
    forall a :: combine(empty, a) == a && combine(a, empty) == a
  }

  // ---------------------------------------------------------------------
  // Generic members of the trait

  /** The default `is_empty`: equality with `empty`. */
  function IsEmpty<T(==)>(empty: T, a: T): bool
  {
    a == empty
  }

  /** `combine_all`: fold the values from `empty`. */
  function CombineAll<T>(combine: (T, T) -> T, empty: T, xs: seq<T>): (r: T)
    ensures xs == [] ==> r == empty
  {
    Fold(combine, empty, xs)
  }

  // ---------------------------------------------------------------------
  // Instances

  /** The numeric instances: zero. */
  function EmptyInt(): int
  {
    0
  }

  function EmptyUnit(): ()
  {
    ()
  }

  /** `()` overrides `is_empty`: it is the trivial monoid. */
  function IsEmptyUnit(a: ()): bool
  {
    true
  }

  /** Tuples: the tuple of the components' identities (shown for pairs). */
  function EmptyPair<A, B>(ea: A, eb: B): (A, B)
  {
    (ea, eb)
  }

  function EmptyPhantom<T>(): Phantom<T>
  {
    Phantom
  }

  /** `PhantomData` overrides `is_empty`: it is the trivial monoid. */
  function IsEmptyPhantom<T>(a: Phantom<T>): bool
  {
    true
  }

  /** `Option<T>`: `None`, whatever the semigroup of `T`. */
  function EmptyOption<T>(): Option<T>
  {
    None
  }

  /** `String`, `Vec`, `LinkedList`, `VecDeque`: the empty sequence. */
  function EmptySeq<T>(): seq<T>
  {
    []
  }

  /** Their `is_empty` override asks for the length. */
  function IsEmptySeq<T>(s: seq<T>): bool
  {
    |s| == 0
  }

  /** `BinaryHeap`: the empty bag. */
  function EmptyMultiset<T>(): multiset<T>
  {
    multiset{}
  }

  function IsEmptyMultiset<T>(s: multiset<T>): bool
  {
    |s| == 0
  }

  /** `BTreeSet`, `HashSet`: the empty set. */
  function EmptySet<T>(): set<T>
  {
    {}
  }

  function IsEmptySet<T>(s: set<T>): bool
  {
    |s| == 0
  }

  /** `HashMap<K, V>`: the empty map. */
  function EmptyHashMap<K, V>(): map<K, V>
  {
    map[]
  }

  function IsEmptyHashMap<K, V>(m: map<K, V>): bool
  {
    |m| == 0
  }

  // ---------------------------------------------------------------------
  // Laws

  lemma IntMonoid()
    ensures IsIdentity(CombineInt, EmptyInt())
    ensures IsEmpty(EmptyInt(), 0) && !IsEmpty(EmptyInt(), 1)
  {
  }

  /** The overridden `is_empty` of `()` and `PhantomData` agrees with the default. */
  lemma TrivialMonoids<T(!new)>(u: (), p: Phantom<T>)
    ensures IsIdentity(CombineUnit, EmptyUnit())
    ensures IsIdentity(CombinePhantom<T>, EmptyPhantom<T>())
    ensures IsEmptyUnit(u) == IsEmpty(EmptyUnit(), u)
    ensures IsEmptyPhantom(p) == IsEmpty(EmptyPhantom(), p)
  {
  }

  lemma PairMonoid<A(!new), B(!new)>(ca: (A, A) -> A, ea: A, cb: (B, B) -> B, eb: B)
    requires IsIdentity(ca, ea) && IsIdentity(cb, eb)
    ensures IsIdentity((x, y) => CombinePair(ca, cb, x, y), EmptyPair(ea, eb))
  {
  }

  /** `None` is the identity of the `Option` semigroup built on any semigroup. */
  lemma OptionMonoid<T(!new)>(combine: (T, T) -> T)
    ensures IsIdentity((x, y) => CombineOption(combine, x, y), EmptyOption())
  {
  }

  /** The empty collections are identities, and the overridden `is_empty` agrees with the default. */
  lemma SeqMonoid<T(!new)>(s: seq<T>)
    ensures IsIdentity(CombineSeq<T>, EmptySeq())
    ensures IsEmptySeq(s) == IsEmpty(EmptySeq(), s)
  {
    forall a: seq<T> ensures CombineSeq(EmptySeq(), a) == a && CombineSeq(a, EmptySeq()) == a {
      assert [] + a == a && a + [] == a;
    }
  }

  lemma MultisetMonoid<T(!new)>(s: multiset<T>)
    ensures IsIdentity(CombineMultiset<T>, EmptyMultiset())
    ensures IsEmptyMultiset(s) == IsEmpty(EmptyMultiset(), s)
  {
    forall a: multiset<T> ensures CombineMultiset(EmptyMultiset(), a) == a && CombineMultiset(a, EmptyMultiset()) == a {
      assert multiset{} + a == a && a + multiset{} == a;
    }
  }

  lemma SetMonoid<T(!new)>(s: set<T>)
    ensures IsIdentity(CombineSet<T>, EmptySet())
    ensures IsEmptySet(s) == IsEmpty(EmptySet(), s)
  {
    forall a: set<T> ensures CombineSet(EmptySet(), a) == a && CombineSet(a, EmptySet()) == a {
      assert {} + a == a && a + {} == a;
    }
  }

  /** The empty map is an identity of the merge, in the intended form and as the source writes it. */
  lemma HashMapMonoid<K(!new), V(!new)>(combine: (V, V) -> V, m: map<K, V>)
    ensures IsIdentity((a: map<K, V>, b: map<K, V>) => CombineHashMap(combine, a, b), EmptyHashMap())
    ensures IsIdentity((a: map<K, V>, b: map<K, V>) => CombineHashMapBySize(combine, a, b), EmptyHashMap())
    ensures IsEmptyHashMap(m) == IsEmpty(EmptyHashMap(), m)
  {
    forall a: map<K, V>
      ensures CombineHashMap(combine, EmptyHashMap(), a) == a && CombineHashMap(combine, a, EmptyHashMap()) == a
      ensures CombineHashMapBySize(combine, EmptyHashMap(), a) == a && CombineHashMapBySize(combine, a, EmptyHashMap()) == a
    {
      var e: map<K, V> := EmptyHashMap();
      assert CombineHashMap(combine, e, a).Keys == a.Keys;
      assert CombineHashMap(combine, a, e).Keys == a.Keys;
      assert CombineHashMapBySize(combine, e, a).Keys == a.Keys;
      assert CombineHashMapBySize(combine, a, e).Keys == a.Keys;
    }
    if m != map[] {
      var k :| k in m;
    }
  }

  /**
   * `combine_all` is `combine_all_option` with `empty` for no values: the
   * identity does not change a total.
   */
  lemma CombineAllIsCombineAllOption<T(!new)>(combine: (T, T) -> T, empty: T, xs: seq<T>)
    requires Associative(combine) && IsIdentity(combine, empty)
    ensures CombineAll(combine, empty, xs) == match CombineAllOption(combine, xs) case None => empty case Some(v) => v
  {
    if xs != [] {
      FoldShift(combine, empty, xs[0], xs[1..]);
    }
  }

  /** `combine_all` of a concatenation combines the two totals. */
  lemma CombineAllAppend<T(!new)>(combine: (T, T) -> T, empty: T, xs: seq<T>, ys: seq<T>)
    requires Associative(combine) && IsIdentity(combine, empty)
    ensures CombineAll(combine, empty, xs + ys) == combine(CombineAll(combine, empty, xs), CombineAll(combine, empty, ys))
  {
    FoldAppend(combine, empty, xs, ys);
    FoldShift(combine, CombineAll(combine, empty, xs), empty, ys);
  }

  /** The documented examples of `combine_all`. */
  lemma CombineAllExamples()
    ensures CombineAll(CombineInt, EmptyInt(), []) == 0
    ensures CombineAll(CombineInt, EmptyInt(), [1, 2, 3]) == 6
  {
  }
}
