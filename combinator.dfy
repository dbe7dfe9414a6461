// The combinators of the library: function composition and piping (the
// `compose!` and `pipe!` macros), argument flipping, constants, identity,
// application and the S, converge, psi and conditional combinators.
//
// The macros accept any number of functions whose types chain; the model
// takes a sequence of endofunctions `T -> T`, which is the case in which a
// list of them can be written down at all.

module Combinator {

  /** `s` in the opposite order. */
  function Reversed<T>(s: seq<T>): (r: seq<T>)
    ensures |r| == |s|
    ensures forall i :: 0 <= i < |s| ==> r[i] == s[|s| - 1 - i]
  {
    if s == [] then [] else Reversed(s[1..]) + [s[0]]
  }

  /**
   * `compose!(f1, ..., fn)(x)`: the functions are applied from the last to
   * the first, `f1(f2(...fn(x)))`. The macro needs at least one function.
   */
  function Compose<T>(fs: seq<T -> T>, x: T): (r: T)
    requires |fs| >= 1
    ensures |fs| == 1 ==> r == fs[0](x)
    // the innermost (last) function is the first to see the argument
    ensures |fs| >= 2 ==> r == Compose(fs[..|fs| - 1], fs[|fs| - 1](x))
    decreases |fs|
  {
    if |fs| == 1 then fs[0](x)
    else
      assert fs[1..][..|fs[1..]| - 1] == fs[..|fs| - 1][1..];
      fs[0](Compose(fs[1..], x))
  }

  /**
   * `pipe!(x, f1, ..., fn)`: the value flows through the functions from the
   * first to the last, `fn(...f2(f1(x)))`; with no function it is `x`.
   */
  function Pipe<T>(x: T, fs: seq<T -> T>): (r: T)
    ensures |fs| == 0 ==> r == x
    // the last function is the last to be applied
    ensures |fs| >= 1 ==> r == fs[|fs| - 1](Pipe(x, fs[..|fs| - 1]))
    decreases |fs|
  {
    if |fs| == 0 then x
    else
      assert |fs| >= 2 ==> fs[1..][..|fs[1..]| - 1] == fs[..|fs| - 1][1..];
      Pipe(fs[0](x), fs[1..])
  }

  /** Composing a list is piping through the same list read backwards. */
  lemma {:induction false} ComposeIsReversedPipe<T>(fs: seq<T -> T>, x: T)
    requires |fs| >= 1
    ensures Compose(fs, x) == Pipe(x, Reversed(fs))
    decreases |fs|
  {
    var rs := Reversed(fs);
    if |fs| >= 2 {
      ComposeIsReversedPipe(fs[..|fs| - 1], fs[|fs| - 1](x));
      assert rs[0] == fs[|fs| - 1];
      assert rs[1..] == Reversed(fs[..|fs| - 1]);
    }
  }

  /** `flip!(f)`: the same function taking its two arguments swapped. */
  function Flip<A, B, C>(f: (A, B) -> C): (r: (B, A) -> C)
  {
    (y, x) => f(x, y)
  }

  /** `constant!(x)`: the nullary function returning `x`. */
  function Constant<T>(x: T): (r: () -> T)
  {
    () => x
  }

  /** `constant1!(x)`: the K combinator, ignoring its one argument. */
  function Constant1<A, T>(x: T): (r: A -> T)
  {
    _ => x
  }

  /** `constant2!(x)`: ignoring both of its arguments. */
  function Constant2<A, B, T>(x: T): (r: (A, B) -> T)
  {
    (_, _) => x
  }

  /** `id`, the I combinator. */
  function Id<T>(x: T): T
  {
    x
  }

  /** `apply(f, x)`, the A combinator. */
  function Apply<T, R>(f: T -> R, x: T): R
  {
    f(x)
  }

  /** `apply_to(x, f)`, the T (thrush) combinator. */
  function ApplyTo<T, R>(x: T, f: T -> R): R
  {
    f(x)
  }

  /** `substitution(f, g, x)`, the S combinator. */
  function Substitution<A, B, C>(f: (A, B) -> C, g: A -> B, x: A): C
  {
    f(x, g(x))
  }

  /** `converge(f, g, h, x)`: branch through `g` and `h`, merge with `f`. */
  function Converge<A, B, C, D>(f: (B, C) -> D, g: A -> B, h: A -> C, x: A): D
  {
    f(g(x), h(x))
  }

  /** `on(f, g, x, y)`, the psi combinator. */
  function On<A, B, C>(f: (B, B) -> C, g: A -> B, x: A, y: A): C
  {
    f(g(x), g(y))
  }

  /** `if_else(p, t, f, x)`: run exactly one of the two branches. */
  function IfElse<A, B>(p: A -> bool, ifTrue: A -> B, ifFalse: A -> B, x: A): B
  {
    if p(x) then ifTrue(x) else ifFalse(x)
  }

  /** Flipping twice gives back the function; a flipped call swaps the arguments. */
  lemma FlipLaws<A, B, C>(f: (A, B) -> C, x: A, y: B)
    ensures Flip(f)(y, x) == f(x, y)
    ensures Flip(Flip(f))(x, y) == f(x, y)
  {
  }

  /** The constants ignore whatever they are given. */
  lemma ConstantLaws<A, B, T>(x: T, a: A, a': A, b: B)
    ensures Constant(x)() == x
    ensures Constant1(x)(a) == Constant1(x)(a') == x
    ensures Constant2(x)(a, b) == x
  {
  }

  /** `id` is a unit of composition on both sides. */
  lemma IdIsNeutral<T>(f: T -> T, x: T)
    ensures Compose([Id, f], x) == f(x)
    ensures Compose([f, Id], x) == f(x)
  {
  }

  /** `apply` and `apply_to` are the same application, also a one-step pipe or composition. */
  lemma ApplyIsApplyTo<T>(f: T -> T, x: T)
    ensures Apply(f, x) == ApplyTo(x, f) == Pipe(x, [f]) == Compose([f], x) == f(x)
  {
  }

  /** S is converge with the identity as first branch. */
  lemma SubstitutionIsConverge<A, B, C>(f: (A, B) -> C, g: A -> B, x: A)
    ensures Substitution(f, g, x) == Converge(f, Id, g, x) == f(x, g(x))
  {
  }

  /** converge with both branches equal is psi applied to the same value twice. */
  lemma ConvergeSameBranch<A, B, C>(f: (B, B) -> C, g: A -> B, x: A)
    ensures Converge(f, g, g, x) == On(f, g, x, x) == f(g(x), g(x))
  {
  }

  /** psi runs the same transformation on both arguments: swapping them is flipping `f`. */
  lemma OnSwap<A, B, C>(f: (B, B) -> C, g: A -> B, x: A, y: A)
    ensures On(f, g, y, x) == On(Flip(f), g, x, y)
  {
  }

  /** if_else takes the branch the predicate selects, and negating the predicate swaps the branches. */
  lemma IfElseBranches<A, B>(p: A -> bool, t: A -> B, f: A -> B, x: A)
    ensures p(x) ==> IfElse(p, t, f, x) == t(x)
    ensures !p(x) ==> IfElse(p, t, f, x) == f(x)
    ensures IfElse(y => !p(y), f, t, x) == IfElse(p, t, f, x)
  {
  }

  /** The documented compose and pipe examples: `x + 1`, `x / 2`, `x * 3` and negation from -3 give 6. */
  lemma ComposeExample()
    ensures Compose([(x: int) => x * 3, x => x / 2, x => x + 1, x => -x], -3) == 6
    ensures Pipe(-3, [(x: int) => -x, x => x + 1, x => x / 2, x => x * 3]) == 6
  {
  }

  function Sum(s: seq<int>): int
  {
    if s == [] then 0 else s[0] + Sum(s[1..])
  }

  /**
   * ASCII lower-casing, standing in for `str::to_lowercase` on the example's letters:
   * only 'A'..'Z' are folded, every other character (including non-ASCII letters) is left unchanged.
   */
  function LowerAscii(s: string): string
  {
    seq(|s|, i requires 0 <= i < |s| => if 'A' <= s[i] <= 'Z' then (s[i] as int + 32) as char else s[i])
  }

  /**
   * The documented converge, on and if_else examples: the sum of `[1, 2, 3]`
   * divided by its length is 2, "Str" and "STR" have the same lower-case
   * form, and 7 is odd, so `(7 + 1) / 2` is taken. All operands are
   * non-negative, where Dafny's division agrees with Rust's.
   */
  lemma DocExamples()
    ensures Converge<seq<int>, int, int, int>((x: int, y: int) => if y == 0 then 0 else x / y, Sum, (s: seq<int>) => |s|, [1, 2, 3]) == 2
    ensures On((x: string, y: string) => x == y, LowerAscii, "Str", "STR")
    ensures IfElse((x: int) => x % 2 == 0, x => x / 2, x => (x + 1) / 2, 7) == 4
  {
    var s: seq<int> := [1, 2, 3];
    assert Sum(s) == 6 by {
      assert s[1..][1..] == [3];
    }
    var divide := (x: int, y: int) => if y == 0 then 0 else x / y;
    var len := (t: seq<int>) => |t|;
    assert Converge<seq<int>, int, int, int>(divide, Sum, len, s) == divide(6, 3);
    assert LowerAscii("Str") == "str" == LowerAscii("STR");
  }
}
