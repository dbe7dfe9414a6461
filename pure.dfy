// Pure: lifting a value into a context, and `unit`, the lifted `()`.
// Each instance builds the smallest container holding the value.

module Pure {
  import opened Wrappers
  import opened Functor

  function PureOption<A>(x: A): Option<A>
  {
    Some(x)
  }

  function PureResult<A, E>(x: A): Result<A, E>
  {
    Ok(x)
  }

  function PureBox<A>(x: A): Box<A>
  {
    Box(x)
  }

  /** `Vec`, `LinkedList`, `VecDeque`: the one-element sequence. */
  function PureVec<A>(x: A): seq<A>
  {
    [x]
  }

  /** `BinaryHeap`: a heap holding `x` once. */
  function PureMultiset<A>(x: A): multiset<A>
  {
    multiset{x}
  }

  /** `BTreeSet`, `HashSet`: the one-element set. */
  function PureSet<A>(x: A): set<A>
  {
    {x}
  }

  /** `unit()` is `pure(())`, for whichever `pure` the context supplies. */
  function Unit<F>(pure: (()) -> F): F
  {
    pure(())
  }

  /** Every `pure` builds a container holding exactly `x`, once. */
  lemma Singletons<A>(x: A, y: A)
    ensures PureOption(x).Some? && PureOption(x).value == x
    ensures PureResult<A, ()>(x).Ok? && PureResult<A, ()>(x).value == x
    ensures PureBox(x).value == x
    ensures |PureVec(x)| == 1 && PureVec(x)[0] == x
    ensures |PureMultiset(x)| == 1 && PureMultiset(x)[x] == 1
    ensures |PureSet(x)| == 1 && (y in PureSet(x) <==> y == x)
  {
  }

  /** `pure` commutes with `map`: lifting then mapping is mapping then lifting. */
  lemma Naturality<A, B, E>(x: A, f: A -> B)
    ensures MapOption(PureOption(x), f) == PureOption(f(x))
    ensures MapResult(PureResult<A, E>(x), f) == PureResult(f(x))
    ensures MapBox(PureBox(x), f) == PureBox(f(x))
    ensures MapVec(PureVec(x), f) == PureVec(f(x))
    ensures MapSet(PureSet(x), f) == PureSet(f(x))
  {
  }

  /** The documented `unit` on `Option`, and the same on the other instances. */
  lemma UnitExamples()
    ensures PureOption(1) == Some(1)
    ensures Unit(PureOption) == Some(())
    ensures Unit(PureResult<(), int>) == Ok(())
    ensures Unit(PureVec) == [()]
    ensures Unit(PureSet) == {()}
  {
  }
}
