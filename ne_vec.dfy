// NEVec: a growable vector that always holds at least one element, kept as
// a `head` and a (possibly empty) `tail`. The object is updated in place by
// `insert`, `remove`, `swap_remove` and `extend`; its contents are the
// sequence `[head] + tail`, and every operation is specified against that
// view. Operations that would leave no element panic in the source; here
// they are preconditions.

module NeVec {
  import opened Wrappers
  import opened Functor
  import opened Semigroupal
  import opened Apply
  import opened FlatMap
  import opened Combinator

  // ---------------------------------------------------------------------
  // The sequence operations the vector's methods perform

  /** `s` with `e` inserted at position `i`, later elements shifted up. */
  function Inserted<T>(s: seq<T>, i: nat, e: T): (r: seq<T>)
    requires i <= |s|
    ensures |r| == |s| + 1 && r[i] == e
    ensures forall j :: 0 <= j < i ==> r[j] == s[j]
    ensures forall j :: i < j < |r| ==> r[j] == s[j - 1]
  {
    s[..i] + [e] + s[i..]
  }

  /** `s` without position `i`, later elements shifted down. */
  function Removed<T>(s: seq<T>, i: nat): (r: seq<T>)
    requires i < |s|
    ensures |r| == |s| - 1
    ensures forall j :: 0 <= j < i ==> r[j] == s[j]
    ensures forall j :: i <= j < |r| ==> r[j] == s[j + 1]
  {
    s[..i] + s[i + 1..]
  }

  /** `s` without position `i`, the last element moved into its place. */
  function SwapRemoved<T>(s: seq<T>, i: nat): (r: seq<T>)
    requires i < |s|
    ensures |r| == |s| - 1
    ensures forall j :: 0 <= j < |r| && j != i ==> r[j] == s[j]
    ensures i < |r| ==> r[i] == s[|s| - 1]
  {
    s[i := s[|s| - 1]][..|s| - 1]
  }

  /** Removing what was inserted gives back the sequence, and re-inserting what was removed does too. */
  lemma InsertRemoveInverse<T>(s: seq<T>, i: nat, e: T)
    requires i <= |s|
    ensures Removed(Inserted(s, i, e), i) == s
    ensures i < |s| ==> Inserted(Removed(s, i), i, s[i]) == s
  {
  }

  /** Both removals take away exactly one occurrence of the removed element. */
  lemma RemovalsArePermutations<T>(s: seq<T>, i: nat)
    requires i < |s|
    ensures multiset(Removed(s, i)) == multiset(s) - multiset{s[i]}
    ensures multiset(SwapRemoved(s, i)) == multiset(s) - multiset{s[i]}
  {
    RemovedIsPermutation(s, i);
    SwapRemovedIsPermutation(s, i);
  }

  lemma RemovedIsPermutation<T>(s: seq<T>, i: nat)
    requires i < |s|
    ensures multiset(Removed(s, i)) == multiset(s) - multiset{s[i]}
  {
    var front, back := s[..i], s[i + 1..];
    assert s == front + [s[i]] + back;
    assert multiset(s) == multiset(front) + multiset{s[i]} + multiset(back);
    assert Removed(s, i) == front + back;
  }

  lemma SwapRemovedIsPermutation<T>(s: seq<T>, i: nat)
    requires i < |s|
    ensures multiset(SwapRemoved(s, i)) == multiset(s) - multiset{s[i]}
  {
    var last := |s| - 1;
    if i < last {
      var front, middle := s[..i], s[i + 1..last];
      assert s == front + [s[i]] + middle + [s[last]];
      assert multiset(s) == multiset(front) + multiset{s[i]} + multiset(middle) + multiset{s[last]};
      assert SwapRemoved(s, i) == front + [s[last]] + middle;
    } else {
      assert SwapRemoved(s, i) == Removed(s, i);
      RemovedIsPermutation(s, i);
    }
  }

  /** Swap-removing the last element is an ordinary removal. */
  lemma SwapRemoveLast<T>(s: seq<T>)
    requires |s| >= 1
    ensures SwapRemoved(s, |s| - 1) == Removed(s, |s| - 1) == s[..|s| - 1]
  {
  }

  /** The head and the tail split a non-empty sequence. */
  function SplitFirst<T>(s: seq<T>): (r: Option<(T, seq<T>)>)
    ensures r.None? <==> s == []
    ensures r.Some? ==> [r.value.0] + r.value.1 == s
  {
    if s == [] then None else Some((s[0], s[1..]))
  }

  // ---------------------------------------------------------------------
  // The vector

  class NEVec<T> {
    var head: T
    var tail: seq<T>

    /** The contents, in index and iteration order: the head, then the tail. */
    function Elements(): seq<T>
      reads this
    {
      [head] + tail
    }

    /** `new`: a vector of one element. */
    constructor (head: T)
      ensures this.head == head && tail == []
      ensures Elements() == [head]
    {
      this.head := head;
      tail := [];
    }

    /** `From<(T, Vec<T>)>`: the parts become the vector, unchanged. */
    constructor FromParts(head: T, tail: seq<T>)
      ensures this.head == head && this.tail == tail
      ensures Elements() == [head] + tail
    {
      this.head := head;
      this.tail := tail;
    }

    /** `from_elem`: `n` copies of `elem`; `n` is a non-zero count. */
    constructor FromElem(elem: T, n: nat)
      requires n >= 1
      ensures |Elements()| == n
      ensures forall i :: 0 <= i < n ==> Elements()[i] == elem
    {
      head := elem;
      tail := seq(n - 1, _ => elem);
    }

    /** `len`: the tail's length plus the head; never zero. */
    function Len(): (n: nat)
      reads this
      ensures n == |Elements()|
      ensures n >= 1
    {
      |tail| + 1
    }

    /** `first`: always the head. */
    function First(): (r: T)
      reads this
      ensures r == Elements()[0]
    {
      head
    }

    /** `last`: the tail's last element, or the head when the tail is empty. */
    function Last(): (r: T)
      reads this
      ensures r == Elements()[Len() - 1]
    {
      if tail == [] then head else tail[|tail| - 1]
    }

    /** `get`: the element at `index` when there is one. */
    function Get(index: nat): (r: Option<T>)
      reads this
      ensures r.Some? <==> index < Len()
      ensures r.Some? ==> r.value == Elements()[index]
    {
      if index == 0 then Some(head)
      else if index - 1 < |tail| then Some(tail[index - 1])
      else None
    }

    /** `Index`: the element at `index`; an index past the end panics. */
    function Index(index: nat): (r: T)
      reads this
      requires index < Len()
      ensures r == Elements()[index]
      ensures Get(index) == Some(r)
    {
      if index == 0 then head else tail[index - 1]
    }

    /**
     * `insert`: `element` takes position `index` and the elements from there
     * on move up one. An index past `Len()` panics.
     */
    method Insert(index: nat, element: T)
      requires index <= Len()
      modifies this
      ensures Elements() == Inserted(old(Elements()), index, element)
    {
      if index == 0 {
        tail := Inserted(tail, 0, head);
        head := element;
      } else {
        tail := Inserted(tail, index - 1, element);
      }
    }

    /**
     * `remove`: takes out and returns the element at `index`, the later ones
     * moving down. It panics for an index past the end, and for the head
     * when it is the only element.
     */
    method Remove(index: nat) returns (x: T)
      requires index < Len()
      requires tail != []
      modifies this
      ensures x == old(Elements())[index]
      ensures Elements() == Removed(old(Elements()), index)
    {
      if index == 0 {
        x := head;
        head := tail[0];
        tail := Removed(tail, 0);
      } else {
        x := tail[index - 1];
        tail := Removed(tail, index - 1);
      }
    }

    /**
     * `swap_remove`: takes out and returns the element at `index`, the last
     * element taking its place; with the same panics as `remove`.
     */
    method SwapRemove(index: nat) returns (x: T)
      requires index < Len()
      requires tail != []
      modifies this
      ensures x == old(Elements())[index]
      ensures Elements() == SwapRemoved(old(Elements()), index)
    {
      var newTailLen := |tail| - 1;
      if index == 0 {
        x := head;
        head := tail[newTailLen];
      } else {
        x := tail[index - 1];
        tail := tail[index - 1 := tail[newTailLen]];
      }
      tail := tail[..newTailLen];
    }

    /** `Extend`: the items are appended to the tail; the head stays. */
    method Extend(items: seq<T>)
      modifies this
      ensures head == old(head)
      ensures tail == old(tail) + items
    {
      tail := tail + items;
    }

    /** The semigroup `combine`: `other`'s elements, head first, appended to this vector. */
    method Combine(other: NEVec<T>)
      modifies this
      ensures Elements() == old(Elements()) + old(other.Elements())
    {
      var items := other.Elements();
      Extend(items);
    }

    /** `to_vec` / `into_vec`: push the head, then extend with the tail. */
    method ToVec() returns (v: seq<T>)
      ensures v == Elements()
      ensures |v| == Len()
    {
      v := [head];
      v := v + tail;
    }

    /** `From<NEVec<T>> for (T, Vec<T>)`: the two parts. */
    method IntoParts() returns (h: T, t: seq<T>)
      ensures [h] + t == Elements()
      ensures h == head && t == tail
    {
      h, t := head, tail;
    }

    /** `map`: `f` applied to the head and to every tail element, in order. */
    method Map<U>(f: T -> U) returns (r: NEVec<U>)
      ensures fresh(r)
      ensures r.Elements() == MapVec(Elements(), f)
    {
      r := new NEVec.FromParts(f(head), MapVec(tail, f));
      assert MapVec(Elements(), f)[1..] == MapVec(tail, f);
    }

    /** `product`: every pair, the outer loop over this vector, collected into a new vector. */
    method Product<U>(fb: NEVec<U>) returns (r: NEVec<(T, U)>)
      ensures fresh(r)
      ensures r.Elements() == ProductVec(Elements(), fb.Elements())
    {
      var pairs := ProductVec(Elements(), fb.Elements());
      ProductVecAt(Elements(), fb.Elements(), 0, 0);
      r := NEVec<(T, U)>.FromIter(pairs);
    }

    /** `pure`: the one-element vector. */
    static method Pure(x: T) returns (r: NEVec<T>)
      ensures fresh(r)
      ensures r.Elements() == [x]
    {
      r := new NEVec(x);
    }

    /** `from_vec`: `None` for an empty vector, else its first element becomes the head. */
    static method FromVec(v: seq<T>) returns (r: Option<NEVec<T>>)
      ensures r.None? <==> v == []
      ensures r.Some? ==> fresh(r.value) && r.value.Elements() == v
    {
      if |v| == 0 {
        return None;
      }
      var vec := v;
      var h := vec[0];
      vec := Removed(vec, 0);
      var n := new NEVec.FromParts(h, vec);
      return Some(n);
    }

    /** `from_slice`: split off the first element and copy the rest. */
    static method FromSlice(slice: seq<T>) returns (r: Option<NEVec<T>>)
      ensures r.None? <==> slice == []
      ensures r.Some? ==> fresh(r.value) && r.value.Elements() == slice
    {
      var split := SplitFirst(slice);
      if split.None? {
        return None;
      }
      var n := new NEVec.FromParts(split.value.0, split.value.1);
      return Some(n);
    }

    /** `TryFrom<Vec<T>>`: an empty vector is handed back as the error. */
    static method TryFrom(v: seq<T>) returns (r: Result<NEVec<T>, seq<T>>)
      ensures r.Err? <==> v == []
      ensures r.Err? ==> r.error == v
      ensures r.Ok? ==> fresh(r.value) && r.value.Elements() == v
    {
      if |v| == 0 {
        return Err(v);
      }
      var vec := v;
      var h := vec[0];
      vec := Removed(vec, 0);
      var n := new NEVec.FromParts(h, vec);
      return Ok(n);
    }

    /**
     * `FromIterator`: the first item becomes the head and the rest, pulled one
     * at a time, the tail. An empty iterator panics.
     */
    static method FromIter(items: seq<T>) returns (r: NEVec<T>)
      requires items != []
      ensures fresh(r)
      ensures r.Elements() == items
    {
      var h := items[0];
      var t: seq<T> := [];
      var i := 1;
      while i < |items|
        invariant 1 <= i <= |items|
        invariant t == items[1..i]
      {
        t := t + [items[i]];
        i := i + 1;
      }
      r := new NEVec.FromParts(h, t);
    }
  }

  /** `ap` on vectors of functions: every function applied to every value, collected. */
  method Ap<A, B>(ff: NEVec<A -> B>, fa: NEVec<A>) returns (r: NEVec<B>)
    ensures fresh(r)
    ensures r.Elements() == ApVec(ff.Elements(), fa.Elements())
  {
    var images := ApVec(ff.Elements(), fa.Elements());
    ApVecAt(ff.Elements(), fa.Elements(), 0, 0);
    r := NEVec.FromIter(images);
  }

  /**
   * `flat_map`: the images of the elements, in order, collected into a new
   * vector. Each image is itself a vector, never empty, so the collection
   * never meets the empty-iterator panic; the images are given here by their
   * element sequences, with non-emptiness as the requirement on `f`.
   */
  method FlatMapNEVec<A, B>(v: NEVec<A>, f: A -> seq<B>) returns (r: NEVec<B>)
    requires forall a :: a in v.Elements() ==> f(a) != []
    ensures fresh(r)
    ensures r.Elements() == FlatMapVec(v.Elements(), f)
  {
    var images := FlatMapVec(v.Elements(), f);
    FlatMapKeepsNonEmpty(v.Elements(), f);
    r := NEVec.FromIter(images);
  }

  /** With no empty image, `flat_map` yields at least one element per input element. */
  lemma {:induction false} FlatMapKeepsNonEmpty<A, B>(s: seq<A>, f: A -> seq<B>)
    requires forall a :: a in s ==> f(a) != []
    ensures |FlatMapVec(s, f)| >= |s|
    decreases |s|
  {
    if s != [] {
      assert forall a :: a in s[1..] ==> a in s;
      FlatMapKeepsNonEmpty(s[1..], f);
      assert s[0] in s;
    }
  }

  // ---------------------------------------------------------------------
  // Properties of the vector

  /** A vector removal is allowed exactly when it leaves an element behind. */
  lemma RemovalKeepsAnElement<T>(s: seq<T>, index: nat)
    requires index < |s|
    ensures |s| >= 2 <==> |Removed(s, index)| >= 1
    ensures |Removed(s, index)| == |SwapRemoved(s, index)|
  {
  }

  /** Iteration yields the head first, then the tail in order, `Len()` items in all. */
  lemma IterationOrder<T>(v: NEVec<T>)
    ensures |v.Elements()| == v.Len()
    ensures v.Elements()[0] == v.head
    ensures forall i :: 1 <= i < v.Len() ==> v.Elements()[i] == v.tail[i - 1]
  {
  }

  /** Iterating from the back starts with `last` and ends with the head. */
  lemma IterationFromBack<T>(v: NEVec<T>)
    ensures Reversed(v.Elements())[0] == v.Last()
    ensures Reversed(v.Elements())[v.Len() - 1] == v.head
  {
  }

  // ---------------------------------------------------------------------
  // Equality

  /** Two vectors are equal when their heads and their tails are. */
  predicate Eq<T(==)>(a: NEVec<T>, b: NEVec<T>)
    reads a, b
  {
    a.head == b.head && a.tail == b.tail
  }

  /** Vector and slice: same length first, so an empty slice is never indexed. */
  predicate EqSlice<T(==)>(v: NEVec<T>, other: seq<T>)
    reads v
  {
    v.Len() == |other| && v.head == other[0] && v.tail == other[1..]
  }

  /** Slice and vector: the comparison the other way round. */
  predicate SliceEq<T(==)>(other: seq<T>, v: NEVec<T>)
    reads v
  {
    EqSlice(v, other)
  }

  lemma EqIsContentEquality<T>(a: NEVec<T>, b: NEVec<T>)
    ensures Eq(a, b) <==> a.Elements() == b.Elements()
  {
    if a.Elements() == b.Elements() {
      assert a.head == a.Elements()[0] && b.head == b.Elements()[0];
      assert a.tail == a.Elements()[1..] && b.tail == b.Elements()[1..];
    }
  }

  lemma SliceEqIsContentEquality<T>(v: NEVec<T>, other: seq<T>)
    ensures EqSlice(v, other) <==> v.Elements() == other
    ensures SliceEq(other, v) <==> EqSlice(v, other)
    ensures !EqSlice(v, [])
  {
    if v.Elements() == other {
      assert v.tail == v.Elements()[1..];
    }
  }

  // ---------------------------------------------------------------------
  // Round trips of the conversions

  /** `(head, tail)` to a vector and back, and a vector to its parts and back. */
  method PartsRoundTrip<T>(h: T, t: seq<T>, v: NEVec<T>) returns (h': T, t': seq<T>, w: NEVec<T>)
    ensures h' == h && t' == t
    ensures w.Elements() == v.Elements()
  {
    var n := new NEVec.FromParts(h, t);
    h', t' := n.IntoParts();
    var vh, vt := v.IntoParts();
    w := new NEVec.FromParts(vh, vt);
  }

  /** A non-empty vector converted to a `NEVec` and back is unchanged. */
  method VecRoundTrip<T>(v: seq<T>) returns (r: Result<seq<T>, seq<T>>)
    ensures r == Ok(v) || (v == [] && r == Err(v))
  {
    var n := NEVec.TryFrom(v);
    if n.Err? {
      return Err(n.error);
    }
    var back := n.value.ToVec();
    return Ok(back);
  }

  /** The documented examples of the index-changing operations. */
  method Examples()
  {
    var v := new NEVec.FromParts(1, [2, 3]);
    v.Insert(1, 4);
    assert v.Elements() == [1, 4, 2, 3];
    var x := v.Remove(1);
    assert x == 4 && v.Elements() == [1, 2, 3];
    var y := v.SwapRemove(0);
    assert y == 1 && v.Elements() == [3, 2];
  }
}
