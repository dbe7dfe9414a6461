// Contravariant functors: `contramap` pre-composes a function `B -> A`
// onto a consumer of `A`. The library's only instance is `PhantomData`.

module Contravariant {
  import opened Wrappers

  /** `PhantomData<A>` turned into `PhantomData<B>`: `f` is never called. */
  function ContramapPhantom<A, B>(p: Phantom<A>, f: B -> A): (r: Phantom<B>)
  {
    Phantom
  }

  /** `lift_contravariant(f)`: the function `fa -> fa.contramap(f)`. */
  function LiftContravariantPhantom<A, B>(f: B -> A): (r: Phantom<A> -> Phantom<B>)
  {
    p => ContramapPhantom(p, f)
  }

  /** The contravariant laws: identity, and composition in reverse order (`compose!(f, g)`). */
  lemma PhantomLaws<A, B, C>(p: Phantom<A>, f: B -> A, g: C -> B)
    ensures ContramapPhantom(p, (x: A) => x) == p
    ensures ContramapPhantom(ContramapPhantom(p, f), g) == ContramapPhantom(p, (x: C) => f(g(x)))
    ensures LiftContravariantPhantom((x: A) => x)(p) == p
    ensures LiftContravariantPhantom(g)(LiftContravariantPhantom(f)(p)) == LiftContravariantPhantom((x: C) => f(g(x)))(p)
  {
  }
}
