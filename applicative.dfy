// Applicative: `ap` together with `pure`. The instances' `pure` is the one
// of the `Pure` module (the source writes the same singleton constructors a
// second time); only `PhantomData` is new here. The applicative laws tie the
// two operations together.

module Applicative {
  import opened Wrappers
  import opened Functor
  import opened Pure
  import opened Apply

  /** `PhantomData` ignores the value. */
  function PurePhantom<A>(x: A): Phantom<A>
  {
    Phantom
  }

  /** Laws of `Option`: identity, homomorphism, interchange and agreement with `map`. */
  lemma OptionLaws<A, B>(v: Option<A>, f: A -> B, x: A, u: Option<A -> B>)
    ensures ApOption(PureOption((a: A) => a), v) == v
    ensures ApOption(PureOption(f), PureOption(x)) == PureOption(f(x))
    ensures ApOption(u, PureOption(x)) == ApOption(PureOption((g: A -> B) => g(x)), u)
    ensures ApOption(PureOption(f), v) == MapOption(v, f)
  {
  }

  lemma ResultLaws<A, B, E>(v: Result<A, E>, f: A -> B, x: A, u: Result<A -> B, E>)
    ensures ApResult(PureResult((a: A) => a), v) == v
    ensures ApResult(PureResult<A -> B, E>(f), PureResult(x)) == PureResult(f(x))
    ensures ApResult(u, PureResult(x)) == ApResult(PureResult((g: A -> B) => g(x)), u)
    ensures ApResult(PureResult(f), v) == MapResult(v, f)
  {
  }

  lemma BoxLaws<A, B>(v: Box<A>, f: A -> B, x: A, u: Box<A -> B>)
    ensures ApBox(PureBox((a: A) => a), v) == v
    ensures ApBox(PureBox(f), PureBox(x)) == PureBox(f(x))
    ensures ApBox(u, PureBox(x)) == ApBox(PureBox((g: A -> B) => g(x)), u)
    ensures ApBox(PureBox(f), v) == MapBox(v, f)
  {
  }

  lemma PhantomLaws<A, B>(v: Phantom<A>, f: A -> B, x: A)
    ensures ApPhantom<A, A, A -> A>(PurePhantom((a: A) => a), v) == v
    ensures ApPhantom<A, B, A -> B>(PurePhantom(f), PurePhantom(x)) == PurePhantom(f(x))
  {
  }

  /** A single lifted function applied to a sequence is `map`; identity follows. */
  lemma VecPureFunction<A, B>(v: seq<A>, f: A -> B, x: A)
    ensures ApVec(PureVec(f), v) == MapVec(v, f)
    ensures ApVec(PureVec((a: A) => a), v) == v
    ensures ApVec(PureVec(f), PureVec(x)) == PureVec(f(x))
  {
    assert ApVec(PureVec(f), v) == MapVec(v, f) + ApVec([], v);
    assert ApVec(PureVec((a: A) => a), v) == MapVec(v, (a: A) => a) + ApVec([], v);
  }

  /** Interchange for sequences: each function applied to one value, in order. */
  lemma {:induction false} VecInterchange<A, B>(u: seq<A -> B>, x: A)
    ensures ApVec(u, PureVec(x)) == ApVec(PureVec((g: A -> B) => g(x)), u)
    decreases |u|
  {
    var at := (g: A -> B) => g(x);
    assert ApVec(PureVec(at), u) == MapVec(u, at) + ApVec([], u);
    if u != [] {
      VecInterchange(u[1..], x);
      assert ApVec(PureVec(at), u[1..]) == MapVec(u[1..], at) + ApVec([], u[1..]);
      assert MapVec(PureVec(x), u[0]) == [u[0](x)];
      assert MapVec(u, at) == [at(u[0])] + MapVec(u[1..], at);
    }
  }

  /** The documented `unit`s, and the `pure` of the applicative-only instance. */
  lemma UnitExamples()
    ensures Unit(PureOption) == Some(())
    ensures Unit(PurePhantom) == Phantom
  {
  }
}
