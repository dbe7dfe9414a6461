// Validated: a success value (`Valid`) or an error (`Invalid`), like
// `Result`, but whose applicative operations (`product`, `ap`, `combine`)
// ACCUMULATE the errors of both operands through the error type's
// semigroup, while `and`/`and_then` fail fast on the first error.
// `ValidatedNev` is `Validated` with a non-empty vector of errors.

module Validation {
  import opened Wrappers
  import opened Semigroup
  import opened Functor
  import opened Semigroupal
  import opened Apply
  import opened NeVec

  datatype Validated<T, E> = Valid(value: T) | Invalid(error: E)
  {
    function IsValid(): bool
    {
      Valid?
    }

    /** `is_invalid` is the negation of `is_valid`. */
    function IsInvalid(): (b: bool)
      ensures b <==> Invalid?
    {
      !IsValid()
    }

    /** `valid`: the success value, if any. */
    function ValidOption(): (r: Option<T>)
      ensures r.Some? <==> Valid?
      ensures r.Some? ==> r.value == value
    {
      match this
      case Valid(x) => Some(x)
      case Invalid(_) => None
    }

    /** `invalid`: the error, if any. */
    function InvalidOption(): (r: Option<E>)
      ensures r.Some? <==> Invalid?
      ensures r.Some? ==> r.value == error
    {
      match this
      case Valid(_) => None
      case Invalid(x) => Some(x)
    }

    /** `into_result`: `Valid` to `Ok`, `Invalid` to `Err`. */
    function IntoResult(): (r: Result<T, E>)
      ensures r.Ok? <==> Valid?
      ensures r.Ok? ==> r.value == value
      ensures r.Err? ==> r.error == error
    {
      match this
      case Valid(x) => Ok(x)
      case Invalid(x) => Err(x)
    }

    /** `map`: only a success value is changed. */
    function Map<U>(f: T -> U): (r: Validated<U, E>)
      ensures r.Valid? <==> Valid?
      ensures r.Valid? ==> r.value == f(value)
      ensures r.Invalid? ==> r.error == error
    {
      match this
      case Valid(x) => Valid(f(x))
      case Invalid(x) => Invalid(x)
    }

    /** `map_or`: `f` of the success value, or `default` for an error. */
    function MapOr<U>(default: U, f: T -> U): (r: U)
    {
      match this
      case Valid(x) => f(x)
      case Invalid(_) => default
    }

    /** `map_or_else`: `f` of the success value, or `default` of the error. */
    function MapOrElse<U>(default: E -> U, f: T -> U): (r: U)
    {
      match this
      case Valid(x) => f(x)
      case Invalid(x) => default(x)
    }

    /** `map_err`: only an error is changed. */
    function MapErr<U>(f: E -> U): (r: Validated<T, U>)
      ensures r.Valid? <==> Valid?
      ensures r.Valid? ==> r.value == value
      ensures r.Invalid? ==> r.error == f(error)
    {
      match this
      case Valid(x) => Valid(x)
      case Invalid(x) => Invalid(f(x))
    }

    /** `unwrap` / `expect`: the success value; an error panics. */
    function Unwrap(): (r: T)
      requires Valid?
      ensures Valid(r) == this
    {
      value
    }

    /** `unwrap_err` / `expect_err`: the error; a success value panics. */
    function UnwrapErr(): (r: E)
      requires Invalid?
      ensures Invalid(r) == this
    {
      error
    }

    /** `unwrap_or` (and `unwrap_or_default`, given the default): the success value, or `default`. */
    function UnwrapOr(default: T): (r: T)
      ensures Valid? ==> r == value
      ensures Invalid? ==> r == default
    {
      match this
      case Valid(x) => x
      case Invalid(_) => default
    }

    /** `unwrap_or_else`: the success value, or `f` of the error. */
    function UnwrapOrElse(f: E -> T): (r: T)
      ensures Valid? ==> r == value
      ensures Invalid? ==> r == f(error)
    {
      match this
      case Valid(x) => x
      case Invalid(x) => f(x)
    }

    /** `and`: `other` after a success; an error is returned and `other` dropped. */
    function And<U>(other: Validated<U, E>): (r: Validated<U, E>)
      ensures Valid? ==> r == other
      ensures Invalid? ==> r == Invalid(error)
    {
      match this
      case Valid(_) => other
      case Invalid(x) => Invalid(x)
    }

    /** `and_then`: fail fast; `f` is only called on a success value. */
    function AndThen<U>(f: T -> Validated<U, E>): (r: Validated<U, E>)
      ensures Valid? ==> r == f(value)
      ensures Invalid? ==> r == Invalid(error)
    {
      match this
      case Valid(x) => f(x)
      case Invalid(x) => Invalid(x)
    }

    /** `or`: a success value is kept; an error is replaced by `other`. */
    function Or<U>(other: Validated<T, U>): (r: Validated<T, U>)
      ensures Valid? ==> r == Valid(value)
      ensures Invalid? ==> r == other
    {
      match this
      case Valid(x) => Valid(x)
      case Invalid(_) => other
    }

    /** `or_else`: a success value is kept; an error is replaced by `f` of it. */
    function OrElse<U>(f: E -> Validated<T, U>): (r: Validated<T, U>)
      ensures Valid? ==> r == Valid(value)
      ensures Invalid? ==> r == f(error)
    {
      match this
      case Valid(x) => Valid(x)
      case Invalid(x) => f(x)
    }
  }

  // ---------------------------------------------------------------------
  // Conversions with `Result`

  /** `From<Result<T, E>>`: `Ok` to `Valid`, `Err` to `Invalid`. */
  function FromResult<T, E>(x: Result<T, E>): (r: Validated<T, E>)
    ensures r.Valid? <==> x.Ok?
    ensures r.Valid? ==> r.value == x.value
    ensures r.Invalid? ==> r.error == x.error
  {
    match x
    case Ok(v) => Valid(v)
    case Err(e) => Invalid(e)
  }

  /** The two conversions are inverse to each other. */
  lemma ResultRoundTrips<T, E>(v: Validated<T, E>, x: Result<T, E>)
    ensures FromResult(v.IntoResult()) == v
    ensures FromResult(x).IntoResult() == x
  {
  }

  // ---------------------------------------------------------------------
  // Type-class instances

  /** `product`: the pair of two successes; the errors of both combined, left first; else the one error. */
  function Product<A, B, E>(combine: (E, E) -> E, x: Validated<A, E>, y: Validated<B, E>): (r: Validated<(A, B), E>)
    ensures r.Valid? <==> x.Valid? && y.Valid?
    ensures r.Valid? ==> r.value == (x.value, y.value)
    ensures x.Invalid? && y.Invalid? ==> r == Invalid(combine(x.error, y.error))
    ensures x.Invalid? && y.Valid? ==> r == Invalid(x.error)
    ensures x.Valid? && y.Invalid? ==> r == Invalid(y.error)
  {
    match (x, y)
    case (Valid(a), Valid(b)) => Valid((a, b))
    case (Invalid(lhs), Invalid(rhs)) => Invalid(combine(lhs, rhs))
    case (Invalid(e), _) => Invalid(e)
    case (_, Invalid(e)) => Invalid(e)
  }

  /** `ap`: the same case split as `product`, the function applied on success. */
  function Ap<A, B, E>(combine: (E, E) -> E, ff: Validated<A -> B, E>, fa: Validated<A, E>): (r: Validated<B, E>)
    ensures r.Valid? <==> ff.Valid? && fa.Valid?
    ensures r.Valid? ==> r.value == ff.value(fa.value)
    ensures ff.Invalid? && fa.Invalid? ==> r == Invalid(combine(ff.error, fa.error))
    ensures ff.Invalid? && fa.Valid? ==> r == Invalid(ff.error)
    ensures ff.Valid? && fa.Invalid? ==> r == Invalid(fa.error)
  {
    match (ff, fa)
    case (Valid(f), Valid(a)) => Valid(f(a))
    case (Invalid(lhs), Invalid(rhs)) => Invalid(combine(lhs, rhs))
    case (Invalid(e), _) => Invalid(e)
    case (_, Invalid(e)) => Invalid(e)
  }

  function PureValidated<A, E>(x: A): Validated<A, E>
  {
    Valid(x)
  }

  /** `combine`: two values or two errors are combined; in a mixed pair the error wins. */
  function Combine<T, E>(combineT: (T, T) -> T, combineE: (E, E) -> E, x: Validated<T, E>, y: Validated<T, E>): (r: Validated<T, E>)
    ensures x.Valid? && y.Valid? ==> r == Valid(combineT(x.value, y.value))
    ensures x.Invalid? && y.Invalid? ==> r == Invalid(combineE(x.error, y.error))
    ensures x.Invalid? && y.Valid? ==> r == x
    ensures x.Valid? && y.Invalid? ==> r == y
  {
    match (x, y)
    case (Valid(lhs), Valid(rhs)) => Valid(combineT(lhs, rhs))
    case (Invalid(lhs), Invalid(rhs)) => Invalid(combineE(lhs, rhs))
    case (Invalid(_), _) => x
    case (_, Invalid(_)) => y
  }

  /** `bimap`: `f` on a success value, `g` on an error. */
  function Bimap<A, B, C, D>(x: Validated<A, B>, f: A -> C, g: B -> D): (r: Validated<C, D>)
    ensures r.Valid? <==> x.Valid?
    ensures r.Valid? ==> r.value == f(x.value)
    ensures r.Invalid? ==> r.error == g(x.error)
  {
    match x
    case Valid(a) => Valid(f(a))
    case Invalid(e) => Invalid(g(e))
  }

  /** `imap` of the functor-derived invariant instance: `map` by `f`, `g` unused. */
  function IMap<A, B, E>(x: Validated<A, E>, f: A -> B, g: B -> A): (r: Validated<B, E>)
    ensures r.Valid? <==> x.Valid?
    ensures r.Valid? ==> r.value == f(x.value)
    ensures r.Invalid? ==> r.error == x.error
  {
    x.Map(f)
  }

  /** The errors a value brings to an accumulating operation: none for a success, its one error otherwise. */
  function Errors<T, E>(v: Validated<T, E>): (r: seq<E>)
    ensures |r| <= 1
    ensures r == [] <==> v.Valid?
    ensures v.Invalid? ==> r == [v.error]
  {
    if v.Valid? then [] else [v.error]
  }

  // ---------------------------------------------------------------------
  // Laws and relations between the operations

  /** `is_invalid` is exactly `!is_valid`, and a `Valid` is valid. */
  lemma ValidityTests<T, E>(v: Validated<T, E>, x: T)
    ensures v.IsInvalid() == !v.IsValid()
    ensures Validated<T, E>.Valid(x).IsValid()
  {
  }

  /** `map` and `map_err` correspond to `Result`'s `map` and to `bimap`. */
  lemma MapsAgree<A, B, C, D>(v: Validated<A, B>, f: A -> C, g: B -> D)
    ensures v.Map(f).IntoResult() == MapResult(v.IntoResult(), f)
    ensures Bimap(v, f, g) == v.Map(f).MapErr(g)
    ensures Bimap(v, f, g) == v.MapErr(g).Map(f)
  {
  }

  /** `map_or` and `map_or_else` are `map` followed by `unwrap_or` / `unwrap_or_else`. */
  lemma MapOrIsMapThenUnwrap<A, B, E>(v: Validated<A, E>, d: B, g: E -> B, f: A -> B)
    ensures v.MapOr(d, f) == v.Map(f).UnwrapOr(d)
    ensures v.MapOrElse(g, f) == v.Map(f).UnwrapOrElse(g)
  {
  }

  /** `and` is `and_then` with a constant function, and `or` is `or_else` with one. */
  lemma AndOrAreConstant<T, U, E, F>(v: Validated<T, E>, other: Validated<U, E>, alt: Validated<T, F>)
    ensures v.And(other) == v.AndThen(_ => other)
    ensures v.Or(alt) == v.OrElse(_ => alt)
  {
  }

  /** `and_then` on `Validated` and `Result` agree through the conversions. */
  lemma AndThenIsResultAndThen<A, B, E>(v: Validated<A, E>, f: A -> Validated<B, E>)
    ensures v.AndThen(f).IntoResult()
         == match v.IntoResult() case Ok(a) => f(a).IntoResult() case Err(e) => Err(e)
  {
  }

  /** Functor laws of `map` and bifunctor laws of `bimap`. */
  lemma FunctorLaws<A, B, C, E, F, G>(v: Validated<A, E>, f: A -> B, g: B -> C, h: E -> F, k: F -> G)
    ensures v.Map(x => x) == v
    ensures v.Map(f).Map(g) == v.Map(x => g(f(x)))
    ensures Bimap(v, x => x, e => e) == v
    ensures Bimap(Bimap(v, f, h), g, k) == Bimap(v, x => g(f(x)), e => k(h(e)))
  {
  }

  /** The invariant instance never uses the backward function. */
  lemma IMapIgnoresBackward<A, B, E>(v: Validated<A, E>, f: A -> B, g1: B -> A, g2: B -> A)
    ensures IMap(v, f, g1) == IMap(v, f, g2)
  {
  }

  /** `ap` is `product` followed by application. */
  lemma ApIsProduct<A, B, E>(combine: (E, E) -> E, ff: Validated<A -> B, E>, fa: Validated<A, E>)
    ensures Ap(combine, ff, fa) == Product(combine, ff, fa).Map(ApplyPair)
  {
  }

  /** Applicative laws with `pure`: identity, homomorphism and agreement with `map`. */
  lemma ApplicativeLaws<A, B, E>(combine: (E, E) -> E, v: Validated<A, E>, f: A -> B, x: A)
    ensures Ap(combine, PureValidated((a: A) => a), v) == v
    ensures Ap(combine, PureValidated<A -> B, E>(f), PureValidated(x)) == PureValidated(f(x))
    ensures Ap(combine, PureValidated(f), v) == v.Map(f)
  {
  }

  /**
   * Accumulation against fail-fast: `product` and the `and_then` chain agree
   * unless both operands are errors, where `product` keeps both errors and
   * `and_then` only the first.
   */
  lemma ProductAccumulatesAndThenFailsFast<A, B, E>(combine: (E, E) -> E, x: Validated<A, E>, y: Validated<B, E>)
    ensures !(x.Invalid? && y.Invalid?) ==> Product(combine, x, y) == x.AndThen(a => y.Map(b => (a, b)))
    ensures x.Invalid? && y.Invalid? ==> Product(combine, x, y) == Invalid(combine(x.error, y.error))
    ensures x.Invalid? ==> x.AndThen(a => y.Map(b => (a, b))) == Invalid(x.error)
  {
  }

  /** A nested `product` of three values fails with the errors of the failing ones combined left to right. */
  lemma NestedProductErrors<A, B, C, E>(combine: (E, E) -> E, x: Validated<A, E>, y: Validated<B, E>, z: Validated<C, E>)
    ensures var p := Product(combine, Product(combine, x, y), z);
      p.Invalid? ==> Some(p.error) == CombineAllOption(combine, Errors(x) + Errors(y) + Errors(z))
  {
    var es := Errors(x) + Errors(y) + Errors(z);
    if x.Invalid? && y.Invalid? && z.Invalid? {
      assert es == [x.error, y.error, z.error];
      CombineAllOptionOfThree(combine, x.error, y.error, z.error);
    } else if x.Invalid? && y.Invalid? {
      assert es == [x.error, y.error];
      CombineAllOptionOfTwo(combine, x.error, y.error);
    } else if x.Invalid? && z.Invalid? {
      assert es == [x.error, z.error];
      CombineAllOptionOfTwo(combine, x.error, z.error);
    } else if y.Invalid? && z.Invalid? {
      assert es == [y.error, z.error];
      CombineAllOptionOfTwo(combine, y.error, z.error);
    }
  }

  lemma CombineAllOptionOfTwo<E>(combine: (E, E) -> E, a: E, b: E)
    ensures CombineAllOption(combine, [a, b]) == Some(combine(a, b))
  {
    assert [a, b][1..] == [b] && [b][1..] == [];
    assert Fold(combine, a, [b]) == Fold(combine, combine(a, b), []);
  }

  lemma CombineAllOptionOfThree<E>(combine: (E, E) -> E, a: E, b: E, c: E)
    ensures CombineAllOption(combine, [a, b, c]) == Some(combine(combine(a, b), c))
  {
    assert [a, b, c][1..] == [b, c] && [b, c][1..] == [c] && [c][1..] == [];
    assert Fold(combine, a, [b, c]) == Fold(combine, combine(a, b), [c]);
    assert Fold(combine, combine(a, b), [c]) == Fold(combine, combine(combine(a, b), c), []);
  }

  /** `product` is associative up to reassociating the pairs, when the error semigroup is. */
  lemma ProductAssociative<A, B, C, E(!new)>(combine: (E, E) -> E, x: Validated<A, E>, y: Validated<B, E>, z: Validated<C, E>)
    requires Associative(combine)
    ensures Product(combine, Product(combine, x, y), z).Map(FlattenLeft)
         == Product(combine, x, Product(combine, y, z)).Map(FlattenRight)
  {
  }

  /** `combine` is associative when both semigroups are. */
  lemma CombineAssociative<T(!new), E(!new)>(combineT: (T, T) -> T, combineE: (E, E) -> E)
    requires Associative(combineT) && Associative(combineE)
    ensures Associative((x: Validated<T, E>, y: Validated<T, E>) => Combine(combineT, combineE, x, y))
  {
  }

  /** Errors accumulate in order with the sequence semigroup, the first error of the pair first. */
  lemma AccumulationExample()
    ensures Product(CombineSeq, Validated<int, seq<int>>.Invalid([1]), Validated<int, seq<int>>.Invalid([2])) == Invalid([1, 2])
    ensures Product(CombineSeq, Valid(1), Validated<int, seq<int>>.Invalid([2])) == Invalid([2])
    ensures Validated<int, seq<int>>.Valid(1).AndThen(_ => Validated<int, seq<int>>.Invalid([2])) == Invalid([2])
    ensures Validated<int, seq<int>>.Invalid([1]).AndThen(_ => Validated<int, seq<int>>.Invalid([2])) == Invalid([1])
  {
    assert CombineSeq([1], [2]) == [1, 2];
  }

  // ---------------------------------------------------------------------
  // `ValidatedNev`: the errors in a non-empty vector

  /** `From<Validated<T, E>>`: a success is kept, an error wrapped in a new one-element vector. */
  method ValidatedToNev<T, E>(v: Validated<T, E>) returns (r: Validated<T, NEVec<E>>)
    ensures r.Valid? <==> v.Valid?
    ensures r.Valid? ==> r.value == v.value
    ensures r.Invalid? ==> fresh(r.error) && r.error.Elements() == [v.error]
  {
    if v.Valid? {
      return Valid(v.value);
    }
    var errors := new NEVec(v.error);
    return Invalid(errors);
  }

  /** `From<Result<T, E>>`: `Ok` to `Valid`, `Err(e)` to an error vector holding `e`. */
  method ResultToNev<T, E>(x: Result<T, E>) returns (r: Validated<T, NEVec<E>>)
    ensures r.Valid? <==> x.Ok?
    ensures r.Valid? ==> r.value == x.value
    ensures r.Invalid? ==> fresh(r.error) && r.error.Elements() == [x.error]
  {
    if x.Ok? {
      return Valid(x.value);
    }
    var errors := new NEVec(x.error);
    return Invalid(errors);
  }

  /** Going through `Validated` first gives the same `ValidatedNev` as converting directly. */
  method NevConversionsAgree<T, E>(x: Result<T, E>) returns (viaValidated: Validated<T, NEVec<E>>, direct: Validated<T, NEVec<E>>)
    ensures viaValidated.Valid? == direct.Valid? == x.Ok?
    ensures viaValidated.Valid? ==> viaValidated.value == direct.value == x.value
    ensures viaValidated.Invalid? ==> viaValidated.error.Elements() == direct.error.Elements() == [x.error]
  {
    viaValidated := ValidatedToNev(FromResult(x));
    direct := ResultToNev(x);
  }
}
