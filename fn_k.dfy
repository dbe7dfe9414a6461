// FnK: natural transformations, which turn one container into another
// the same way for every element type: first / last / n-th element of a
// sequence as an `Option` or `Result`, `Option` and `Result` as sequences,
// `Option` into any context with `pure` and `empty`. A transformation is a
// Dafny function; a closure is one as it stands, and `apply` is the call.

module FnK {
  import opened Wrappers
  import opened Functor
  import opened Pure
  import opened Combinator

  // ---------------------------------------------------------------------
  // Composition

  /** `Composition { f, g }`: `f` first, then `g`. */
  function Composition<A, B, C>(f: A -> B, g: B -> C): A -> C
  {
    a => g(f(a))
  }

  /** `self.compose(f)`: `f` runs first, `self` on its result. */
  function ComposeK<A, B, C>(self: B -> C, f: A -> B): A -> C
  {
    Composition(f, self)
  }

  /** `self.and_then(f)`: `self` runs first; it is `f.compose(self)`. */
  function AndThenK<A, B, C>(self: A -> B, f: B -> C): A -> C
  {
    ComposeK(f, self)
  }

  /** Application order of the three ways to chain two transformations. */
  lemma CompositionOrder<A, B, C>(f: A -> B, g: B -> C, a: A)
    ensures Composition(f, g)(a) == g(f(a))
    ensures ComposeK(g, f)(a) == g(f(a))
    ensures AndThenK(f, g)(a) == g(f(a))
  {
  }

  // ---------------------------------------------------------------------
  // From sequences (any `IntoIterator`) to `Option`

  /** `next()` on a fresh iterator: the first element. */
  function FirstToOption<T>(s: seq<T>): (r: Option<T>)
    ensures r.Some? <==> s != []
    ensures r.Some? ==> r.value == s[0]
  {
    if s == [] then None else Some(s[0])
  }

  /** `last()`: run the iterator to its end, remembering the latest element. */
  function LastFrom<T>(latest: Option<T>, s: seq<T>): (r: Option<T>)
    ensures s == [] ==> r == latest
    ensures s != [] ==> r == Some(s[|s| - 1])
    decreases |s|
  {
    if s == [] then latest else LastFrom(Some(s[0]), s[1..])
  }

  function LastToOption<T>(s: seq<T>): (r: Option<T>)
    ensures r.Some? <==> s != []
    ensures r.Some? ==> r.value == s[|s| - 1]
  {
    LastFrom(None, s)
  }

  /** `nth(n)`: skip `n` elements, then `next()`. */
  function NthToOption<T>(n: nat, s: seq<T>): (r: Option<T>)
    ensures r.Some? <==> n < |s|
    ensures r.Some? ==> r.value == s[n]
  {
    if s == [] then None
    else if n == 0 then Some(s[0])
    else NthToOption(n - 1, s[1..])
  }

  /** The three agree where they overlap, and the last element is the first of the reversal. */
  lemma PositionsAgree<T>(s: seq<T>)
    ensures NthToOption(0, s) == FirstToOption(s)
    ensures s != [] ==> NthToOption(|s| - 1, s) == LastToOption(s)
    ensures LastToOption(s) == FirstToOption(Reversed(s))
  {
  }

  // ---------------------------------------------------------------------
  // To `Result`: the same element, or the stored error

  /** `ok_or_else(|| e.clone())`. */
  function OkOr<T, E>(o: Option<T>, e: E): (r: Result<T, E>)
    ensures r.Ok? <==> o.Some?
    ensures r.Ok? ==> r.value == o.value
    ensures r.Err? ==> r.error == e
  {
    match o
    case Some(x) => Ok(x)
    case None => Err(e)
  }

  function FirstToResult<T, E>(e: E, s: seq<T>): (r: Result<T, E>)
    ensures r.Err? <==> FirstToOption(s).None?
    ensures r.Err? ==> r.error == e
  {
    OkOr(FirstToOption(s), e)
  }

  function LastToResult<T, E>(e: E, s: seq<T>): (r: Result<T, E>)
    ensures r.Err? <==> LastToOption(s).None?
  {
    OkOr(LastToOption(s), e)
  }

  function NthToResult<T, E>(n: nat, e: E, s: seq<T>): (r: Result<T, E>)
    ensures r.Err? <==> NthToOption(n, s).None?
  {
    OkOr(NthToOption(n, s), e)
  }

  /** `Result::ok`: the success value, dropping the error. */
  function ResultOk<T, E>(x: Result<T, E>): (r: Option<T>)
    ensures r.Some? <==> x.Ok?
    ensures r.Some? ==> r.value == x.value
  {
    match x
    case Ok(v) => Some(v)
    case Err(_) => None
  }

  /** Each `*ToResult` returns the element exactly where the `Option` form does, else the stored error. */
  lemma ResultFormsAgree<T, E>(n: nat, e: E, s: seq<T>)
    ensures ResultOk(FirstToResult(e, s)) == FirstToOption(s)
    ensures ResultOk(LastToResult(e, s)) == LastToOption(s)
    ensures ResultOk(NthToResult(n, e, s)) == NthToOption(n, s)
    ensures LastToResult(e, s).Err? ==> LastToResult(e, s).error == e
    ensures NthToResult(n, e, s).Err? ==> NthToResult(n, e, s).error == e
  {
  }

  // ---------------------------------------------------------------------
  // From `Option` and `Result`

  function OptionToVec<T>(o: Option<T>): (r: seq<T>)
    ensures |r| <= 1
    ensures r == [] <==> o.None?
    ensures o.Some? ==> r == [o.value]
  {
    match o
    case Some(x) => [x]
    case None => []
  }

  function ResultToVec<T, E>(x: Result<T, E>): (r: seq<T>)
    ensures |r| <= 1
    ensures r == [] <==> x.Err?
    ensures x.Ok? ==> r == [x.value]
  {
    match x
    case Ok(v) => [v]
    case Err(_) => []
  }

  /** `OptionToF`: `pure(x)` for `Some(x)`, the monoid's `empty` for `None`. */
  function OptionToF<T, F>(pure: T -> F, empty: F, o: Option<T>): (r: F)
    ensures o.None? ==> r == empty
    ensures o.Some? ==> r == pure(o.value)
  {
    match o
    case Some(x) => pure(x)
    case None => empty
  }

  /** `OptionToF` into sequences is `OptionToVec`, into `Option` the identity; into a set it is the singleton or `{}`. */
  lemma OptionToFInstances<T>(o: Option<T>)
    ensures OptionToF(PureVec, [], o) == OptionToVec(o)
    ensures OptionToF(PureOption, None, o) == o
    ensures o.Some? ==> OptionToF(PureSet, {}, o) == {o.value}
    ensures o.None? ==> OptionToF(PureSet, {}, o) == {}
    ensures ResultToVec(OkOr(o, ())) == OptionToVec(o)
  {
  }

  // ---------------------------------------------------------------------
  // Naturality: a transformation commutes with `map`

  lemma NthNatural<A, B>(n: nat, s: seq<A>, f: A -> B)
    ensures NthToOption(n, MapVec(s, f)) == MapOption(NthToOption(n, s), f)
  {
  }

  lemma Naturality<A, B, E>(s: seq<A>, o: Option<A>, x: Result<A, E>, f: A -> B)
    ensures FirstToOption(MapVec(s, f)) == MapOption(FirstToOption(s), f)
    ensures LastToOption(MapVec(s, f)) == MapOption(LastToOption(s), f)
    ensures OptionToVec(MapOption(o, f)) == MapVec(OptionToVec(o), f)
    ensures ResultToVec(MapResult(x, f)) == MapVec(ResultToVec(x), f)
    ensures ResultOk(MapResult(x, f)) == MapOption(ResultOk(x), f)
  {
  }

  /** The documented examples. */
  lemma Examples()
    ensures MapVec([Ok(1), Err(2)], ResultOk) == [Some(1), None]
    ensures FirstToOption([1, 2, 3]) == Some(1) && FirstToOption<int>([]) == None
    ensures LastToOption([1, 2, 3]) == Some(3) && LastToOption<int>([]) == None
    ensures NthToOption(1, [1, 2, 3]) == Some(2) && NthToOption(1, [1]) == None
    ensures FirstToResult("err", [1, 2, 3]) == Ok(1) && LastToResult("err", [1, 2, 3]) == Ok(3)
    ensures NthToResult(1, "err", [1]) == Err("err")
    ensures ComposeK(ResultOk, (s: seq<int>) => NthToResult(1, "err", s))([1, 2]) == Some(2)
    ensures AndThenK((s: seq<int>) => NthToResult(1, "err", s), ResultOk)([]) == None
    ensures OptionToVec(Some(1)) == [1] && ResultToVec(Result<int, int>.Err(1)) == []
    ensures OptionToF(PureSet, {}, Some(1)) == {1}
  {
    var nth := (s: seq<int>) => NthToResult(1, "err", s);
    CompositionOrder(nth, ResultOk, [1, 2]);
    CompositionOrder(nth, ResultOk, []);
  }
}
