// Semigroups: a type with an associative binary `combine`.
//
// A Rust `impl Semigroup for X` is modelled as a Dafny function
// `(X, X) -> X`; the generic members of the trait (`combine_n`,
// `combine_all_option`) take that function as a parameter. Associativity is
// the law every instance must satisfy; it is proved here per instance.

module Semigroup {
  import opened Wrappers

  /** The semigroup law: `combine` is associative. */
  ghost predicate Associative<T(!new)>(combine: (T, T) -> T)
  {
    forall a, b, c :: combine(combine(a, b), c) == combine(a, combine(b, c))
  }

  /** `combine` is commutative (true of numbers and sets, not of strings or vectors). */
  ghost predicate Commutative<T(!new)>(combine: (T, T) -> T)
  {
    forall a, b :: combine(a, b) == combine(b, a)
  }

  // ---------------------------------------------------------------------
  // Generic members of the trait

  /** `k` copies of `a` combined from the left: `((a · a) · a) · ...`. */
  function Repeat<T>(combine: (T, T) -> T, a: T, k: nat): T
    requires k >= 1
  {
    if k == 1 then a else combine(Repeat(combine, a, k - 1), a)
  }

  /**
   * `combine_n`: `a` combined with itself `n` times, that is `n + 1` copies
   * of `a`; with `n == 0` it is `a` itself.
   */
  method CombineN<T>(combine: (T, T) -> T, a: T, n: nat) returns (r: T)
    ensures n == 0 ==> r == a
    ensures n >= 1 ==> r == Repeat(combine, a, n + 1)
  {
    if n == 0 {
      return a;
    }
    r := a;
    var i := 1;
    while i < n
      invariant 1 <= i <= n
      invariant r == Repeat(combine, a, i)
    {
      r := combine(r, a);
      i := i + 1;
    }
    r := combine(r, a);
  }

  /** The left fold `acc · xs[0] · xs[1] · ...` that `Iterator::fold` computes. */
  function Fold<T>(combine: (T, T) -> T, acc: T, xs: seq<T>): T
    decreases |xs|
  {
    if xs == [] then acc else Fold(combine, combine(acc, xs[0]), xs[1..])
  }

  /** `combine_all_option`: `None` for no values, otherwise the fold of all of them. */
  function CombineAllOption<T>(combine: (T, T) -> T, xs: seq<T>): (r: Option<T>)
    ensures r.None? <==> xs == []
    ensures |xs| == 1 ==> r == Some(xs[0])
  {
    if xs == [] then None else Some(Fold(combine, xs[0], xs[1..]))
  }

  // ---------------------------------------------------------------------
  // Instances

  /** The numeric instances: addition. */
  function CombineInt(a: int, b: int): int
  {
    a + b
  }

  /** `()`: the only value. */
  function CombineUnit(a: (), b: ()): ()
  {
    ()
  }

  /** Tuples combine component-wise (shown for pairs). */
  function CombinePair<A, B>(ca: (A, A) -> A, cb: (B, B) -> B, x: (A, B), y: (A, B)): (r: (A, B))
    ensures r.0 == ca(x.0, y.0) && r.1 == cb(x.1, y.1)
  {
    (ca(x.0, y.0), cb(x.1, y.1))
  }

  /** `PhantomData`: the only value. */
  function CombinePhantom<T>(a: Phantom<T>, b: Phantom<T>): Phantom<T>
  {
    Phantom
  }

  /**
   * `Option<T>`: two present values are combined; otherwise the present one
   * (if any) is kept.
   */
  function CombineOption<T>(combine: (T, T) -> T, x: Option<T>, y: Option<T>): (r: Option<T>)
    ensures r.Some? <==> x.Some? || y.Some?
    ensures x.Some? && y.Some? ==> r.value == combine(x.value, y.value)
    ensures x.None? ==> r == y
    ensures y.None? ==> r == x
  {
    match (x, y)
    case (Some(l), Some(r)) => Some(combine(l, r))
    case (Some(_), None) => x
    case (None, _) => y
  }

  /** `String`, `Vec`, `LinkedList` and `VecDeque`: concatenation. */
  function CombineSeq<T>(s: seq<T>, t: seq<T>): (r: seq<T>)
    ensures |r| == |s| + |t|
    ensures r[..|s|] == s && r[|s|..] == t
  {
    s + t
  }

  /** `BinaryHeap`: the union of the two bags of elements. */
  function CombineMultiset<T>(s: multiset<T>, t: multiset<T>): (r: multiset<T>)
    ensures |r| == |s| + |t|
    ensures forall x :: x in r ==> r[x] == s[x] + t[x]
  {
    s + t
  }

  /** `BTreeSet` and `HashSet`: set union. */
  function CombineSet<T>(s: set<T>, t: set<T>): (r: set<T>)
    ensures s <= r && t <= r
    ensures forall x :: x in r ==> x in s || x in t
  {
    s + t
  }

  /** `Box<T>`: combine the boxed values. */
  function CombineBox<T>(combine: (T, T) -> T, x: Box<T>, y: Box<T>): (r: Box<T>)
    ensures r.value == combine(x.value, y.value)
  {
    Box(combine(x.value, y.value))
  }

  /**
   * `HashMap<K, V>`, as the merge is evidently meant: every key of either map,
   * and for a key of both, `self[k].combine(other[k])`.
   */
  function CombineHashMap<K, V>(combine: (V, V) -> V, a: map<K, V>, b: map<K, V>): (r: map<K, V>)
    ensures r.Keys == a.Keys + b.Keys
    ensures forall k :: k in r ==> r[k] == (if k in a && k in b then combine(a[k], b[k]) else if k in a then a[k] else b[k])
  {
    map k | k in a.Keys + b.Keys :: if k in a && k in b then combine(a[k], b[k]) else if k in a then a[k] else b[k]
  }

  /**
   * `HashMap<K, V>` as the source merges: the larger map (`self` only when it
   * is strictly larger) is the accumulator, and a shared key receives
   * `smaller[k].combine(larger[k])`, so the order of the operands of `combine`
   * depends on the sizes of the maps.
   */
  function CombineHashMapBySize<K, V>(combine: (V, V) -> V, a: map<K, V>, b: map<K, V>): (r: map<K, V>)
    ensures r.Keys == a.Keys + b.Keys
    ensures forall k :: k in a && k in b && |a| <= |b| ==> r[k] == combine(a[k], b[k])
    ensures forall k :: k in a && k in b && |a| > |b| ==> r[k] == combine(b[k], a[k])
    ensures forall k :: k in r && !(k in a && k in b) ==> r[k] == if k in a then a[k] else b[k]
  {
    var (acc, other) := if |a| > |b| then (a, b) else (b, a);
    map k | k in acc.Keys + other.Keys :: if k in other && k in acc then combine(other[k], acc[k]) else if k in other then other[k] else acc[k]
  }

  /**
   * The loop of the `HashMap` instance: walk the smaller map's entries in an
   * unspecified order, taking each key out of the accumulator and putting it
   * back combined.
   */
  method CombineHashMapLoop<K, V>(combine: (V, V) -> V, a: map<K, V>, b: map<K, V>) returns (acc: map<K, V>)
    ensures acc == CombineHashMapBySize(combine, a, b)
  {
    var other: map<K, V>;
    if |a| > |b| {
      acc, other := a, b;
    } else {
      acc, other := b, a;
    }
    ghost var acc0 := acc;
    var todo := other.Keys;
    while todo != {}
      invariant todo <= other.Keys
      invariant acc.Keys == acc0.Keys + (other.Keys - todo)
      invariant forall k :: k in acc && k in todo ==> acc[k] == acc0[k]
      invariant forall k :: k in acc && k !in other ==> acc[k] == acc0[k]
      invariant forall k :: k in acc && k in other && k !in todo ==>
        acc[k] == if k in acc0 then combine(other[k], acc0[k]) else other[k]
      decreases todo
    {
      var k :| k in todo;
      var v := other[k];
      if k in acc {
        var vAcc := acc[k];
        acc := acc - {k};
        acc := acc[k := combine(v, vAcc)];
      } else {
        acc := acc[k := v];
      }
      todo := todo - {k};
    }
    BySizeFromMerge(combine, a, b, acc0, other, acc);
  }

  /** What the loop of `CombineHashMapLoop` has built once every key is visited. */
  lemma BySizeFromMerge<K, V>(combine: (V, V) -> V, a: map<K, V>, b: map<K, V>, acc0: map<K, V>, other: map<K, V>, acc: map<K, V>)
    requires (acc0, other) == if |a| > |b| then (a, b) else (b, a)
    requires acc.Keys == acc0.Keys + other.Keys
    requires forall k :: k in acc && k !in other ==> acc[k] == acc0[k]
    requires forall k :: k in acc && k in other ==>
      acc[k] == if k in acc0 then combine(other[k], acc0[k]) else other[k]
    ensures acc == CombineHashMapBySize(combine, a, b)
  {
    var expected := CombineHashMapBySize(combine, a, b);
    assert acc.Keys == expected.Keys;
    forall k | k in acc ensures acc[k] == expected[k] {
    }
  }

  // ---------------------------------------------------------------------
  // Laws

  lemma IntAssociative()
    ensures Associative(CombineInt) && Commutative(CombineInt)
  {
  }

  lemma UnitAssociative()
    ensures Associative(CombineUnit)
  {
  }

  lemma PhantomAssociative<T(!new)>()
    ensures Associative(CombinePhantom<T>)
  {
  }

  lemma PairAssociative<A(!new), B(!new)>(ca: (A, A) -> A, cb: (B, B) -> B)
    requires Associative(ca) && Associative(cb)
    ensures Associative((x, y) => CombinePair(ca, cb, x, y))
  {
  }

  lemma OptionAssociative<T(!new)>(combine: (T, T) -> T)
    requires Associative(combine)
    ensures Associative((x, y) => CombineOption(combine, x, y))
  {
  }

  lemma SeqAssociative<T(!new)>()
    ensures Associative(CombineSeq<T>)
  {
    forall a: seq<T>, b: seq<T>, c: seq<T> ensures CombineSeq(CombineSeq(a, b), c) == CombineSeq(a, CombineSeq(b, c)) {
      assert (a + b) + c == a + (b + c);
    }
  }

  lemma MultisetAssociative<T(!new)>()
    ensures Associative(CombineMultiset<T>) && Commutative(CombineMultiset<T>)
  {
    forall a: multiset<T>, b: multiset<T>, c: multiset<T>
      ensures CombineMultiset(CombineMultiset(a, b), c) == CombineMultiset(a, CombineMultiset(b, c))
    {
      assert (a + b) + c == a + (b + c);
    }
    forall a: multiset<T>, b: multiset<T> ensures CombineMultiset(a, b) == CombineMultiset(b, a) {
      assert a + b == b + a;
    }
  }

  lemma SetAssociative<T(!new)>()
    ensures Associative(CombineSet<T>) && Commutative(CombineSet<T>)
  {
    forall a: set<T>, b: set<T>, c: set<T> ensures CombineSet(CombineSet(a, b), c) == CombineSet(a, CombineSet(b, c)) {
      assert (a + b) + c == a + (b + c);
    }
    forall a: set<T>, b: set<T> ensures CombineSet(a, b) == CombineSet(b, a) {
      assert a + b == b + a;
    }
  }

  lemma BoxAssociative<T(!new)>(combine: (T, T) -> T)
    requires Associative(combine)
    ensures Associative((x, y) => CombineBox(combine, x, y))
  {
  }

  lemma HashMapAssociative<K(!new), V(!new)>(combine: (V, V) -> V)
    requires Associative(combine)
    ensures Associative((a: map<K, V>, b: map<K, V>) => CombineHashMap(combine, a, b))
  {
    forall a: map<K, V>, b: map<K, V>, c: map<K, V>
      ensures CombineHashMap(combine, CombineHashMap(combine, a, b), c)
           == CombineHashMap(combine, a, CombineHashMap(combine, b, c))
    {
      var lhs := CombineHashMap(combine, CombineHashMap(combine, a, b), c);
      var rhs := CombineHashMap(combine, a, CombineHashMap(combine, b, c));
      assert lhs.Keys == rhs.Keys;
      forall k | k in lhs ensures lhs[k] == rhs[k] {
      }
    }
  }

  /** The size-based merge is the intended one when `self` is not larger, or when `combine` commutes. */
  lemma HashMapBySizeAgrees<K, V(!new)>(combine: (V, V) -> V, a: map<K, V>, b: map<K, V>)
    requires |a| <= |b| || Commutative(combine)
    ensures CombineHashMapBySize(combine, a, b) == CombineHashMap(combine, a, b)
  {
  }

  /**
   * With string values the size-based merge is not associative:
   * `(a · b) · c` holds "cba" at key 0 while `a · (b · c)` holds "bca".
   */
  lemma HashMapBySizeNotAssociative()
    ensures var a, b, c := map[0 := "a", 1 := "x"], map[0 := "b"], map[0 := "c"];
      CombineHashMapBySize(CombineSeq, CombineHashMapBySize(CombineSeq, a, b), c)
      != CombineHashMapBySize(CombineSeq, a, CombineHashMapBySize(CombineSeq, b, c))
  {
    var a, b, c := map[0 := "a", 1 := "x"], map[0 := "b"], map[0 := "c"];
    assert a.Keys == {0, 1} && b.Keys == {0} && c.Keys == {0};
    assert |a| == 2 && |b| == 1 && |c| == 1;
    var ab := CombineHashMapBySize(CombineSeq, a, b);
    assert ab.Keys == {0, 1};
    assert |ab| == 2;
    assert ab[0] == "b" + "a";
    var bc := CombineHashMapBySize(CombineSeq, b, c);
    assert bc.Keys == {0};
    assert |bc| == 1;
    assert bc[0] == "b" + "c";
    var lhs := CombineHashMapBySize(CombineSeq, ab, c);
    var rhs := CombineHashMapBySize(CombineSeq, a, bc);
    assert lhs[0] == "c" + ("b" + "a");
    assert rhs[0] == ("b" + "c") + "a";
    assert lhs[0][0] == 'c' && rhs[0][0] == 'b';
  }

  /** `combine_n(0)` is the value and `combine_n(1)` is the value combined with itself. */
  lemma RepeatLaws<T>(combine: (T, T) -> T, a: T)
    ensures Repeat(combine, a, 1) == a
    ensures Repeat(combine, a, 2) == combine(a, a)
  {
  }

  /** Repetitions add up: `a^(m+n) == a^m · a^n` for an associative `combine`. */
  lemma {:induction false} RepeatAdd<T(!new)>(combine: (T, T) -> T, a: T, m: nat, n: nat)
    requires Associative(combine)
    requires m >= 1 && n >= 1
    ensures Repeat(combine, a, m + n) == combine(Repeat(combine, a, m), Repeat(combine, a, n))
    decreases n
  {
    if n > 1 {
      RepeatAdd(combine, a, m, n - 1);
    }
  }

  /** For numbers, `k` copies of `a` add up to `k * a` (so `1.combine_n(3) == 4`). */
  lemma {:induction false} RepeatInt(a: int, k: nat)
    requires k >= 1
    ensures Repeat(CombineInt, a, k) == k * a
  {
    if k > 1 {
      RepeatInt(a, k - 1);
    }
  }

  /** Folding over a concatenation folds the second part from the first part's total. */
  lemma {:induction false} FoldAppend<T>(combine: (T, T) -> T, acc: T, xs: seq<T>, ys: seq<T>)
    ensures Fold(combine, acc, xs + ys) == Fold(combine, Fold(combine, acc, xs), ys)
    decreases |xs|
  {
    if xs != [] {
      assert (xs + ys)[0] == xs[0];
      assert (xs + ys)[1..] == xs[1..] + ys;
      FoldAppend(combine, combine(acc, xs[0]), xs[1..], ys);
    } else {
      assert xs + ys == ys;
    }
  }

  /** For an associative `combine`, a value in front can be taken out of the fold. */
  lemma {:induction false} FoldShift<T(!new)>(combine: (T, T) -> T, a: T, b: T, xs: seq<T>)
    requires Associative(combine)
    ensures Fold(combine, combine(a, b), xs) == combine(a, Fold(combine, b, xs))
    decreases |xs|
  {
    if xs != [] {
      FoldShift(combine, a, combine(b, xs[0]), xs[1..]);
    }
  }

  /**
   * `combine_all_option` respects concatenation: the total of `xs + ys` is the
   * `Option` combination of the two totals.
   */
  lemma CombineAllOptionAppend<T(!new)>(combine: (T, T) -> T, xs: seq<T>, ys: seq<T>)
    requires Associative(combine)
    ensures CombineAllOption(combine, xs + ys)
         == CombineOption(combine, CombineAllOption(combine, xs), CombineAllOption(combine, ys))
  {
    if xs == [] {
      assert xs + ys == ys;
    } else if ys != [] {
      assert (xs + ys)[1..] == xs[1..] + ys;
      FoldAppend(combine, xs[0], xs[1..], ys);
      assert ys == [ys[0]] + ys[1..];
      FoldAppend(combine, Fold(combine, xs[0], xs[1..]), [ys[0]], ys[1..]);
      FoldShift(combine, Fold(combine, xs[0], xs[1..]), ys[0], ys[1..]);
    } else {
      assert xs + ys == xs;
    }
  }

  /** `combine_n(n)` agrees with `combine_all_option` of `n + 1` copies. */
  lemma {:induction false} CombineAllOptionRepeat<T>(combine: (T, T) -> T, a: T, k: nat)
    requires k >= 1
    ensures CombineAllOption(combine, seq(k, _ => a)) == Some(Repeat(combine, a, k))
  {
    if k > 1 {
      CombineAllOptionRepeat(combine, a, k - 1);
      var s := seq(k, _ => a);
      assert s == seq(k - 1, _ => a) + [a];
      FoldAppend(combine, a, seq(k - 1, _ => a)[1..], [a]);
      assert s[1..] == seq(k - 1, _ => a)[1..] + [a];
    }
  }

  /** The documented examples of `combine_all_option`. */
  lemma CombineAllOptionExamples()
    ensures CombineAllOption(CombineInt, []) == None
    ensures CombineAllOption(CombineInt, [1, 2, 3]) == Some(6)
    ensures CombineAllOption(CombineSeq, ["hey", "hey", "hey"]) == Some("heyheyhey")
  {
    assert "hey" + "hey" + "hey" == "heyheyhey";
  }
}
