# rust2fun core, modelled in Dafny

rust2fun is a Rust library of functional-programming abstractions. It provides
type classes (Semigroup, Monoid, Functor, Invariant, Contravariant,
Semigroupal, Apply, Pure, Applicative, FlatMap, Bifunctor) with instances for
`Option`, `Result`, `Box`, `PhantomData`, the standard sequences, sets and
`HashMap`. It also has the derived operations (`map2`/`map3`,
`product_l`/`product_r`, `ap2`/`ap3`, `flatten`, `m_product`, `if_m`,
`flat_tap`, `fproduct`, `tuple_*`, `unzip`, `if_f`), natural transformations
(`FnK`), plain combinators (`id`, `apply`, `converge`, `on`, `if_else`,
`compose!`, `pipe!`, `flip!`, `constant*!`), the error-accumulating `Validated`
type and the non-empty vector `NEVec`.

Dafny has no higher-kinded types, so the model writes each instance out
concretely:
- Functions are named `<Operation><Instance>`, for example `MapOption`,
  `ProductVec` and `ApHashMap`.
- A Semigroup or Monoid instance is passed as its `combine` function and its
  `empty` value.
- The algebraic laws of the library's `laws` crate are lemmas about these
  functions.

The data types map as follows:
- `Vec`, `LinkedList` and `VecDeque` are `seq`; `HashMap` is `map`.
- `HashSet`/`BTreeSet` are `set` and `BinaryHeap` is `multiset`.
- `Option`, `Result`, `Box` and `PhantomData` are the datatypes of `Wrappers`.

Where the source updates state in place, the model does too:
- `NEVec` is a class with fields `head` and `tail`. Its contents are the
  sequence `[head] + tail`. `insert`, `remove`, `swap_remove`, `extend` and the
  semigroup combine are methods proved against sequence functions
  (`Inserted`, `Removed`, `SwapRemoved`).
- `combine_n` is a loop.
- The `HashMap` combine, product and ap are loops over the keys, each proved
  equal to a function on maps.
- A panic documented in the source is a precondition. A documented error or
  absence is an `Option`/`Result` value.

One module per source file:

| module | file |
|---|---|
| Combinator | src/combinator.rs |
| Semigroup, Monoid | src/semigroup.rs, src/monoid.rs |
| Functor, Invariant, Contravariant | src/functor.rs, src/invariant.rs, src/contravariant.rs |
| Semigroupal, Apply, Pure, Applicative | src/semigroupal.rs, src/apply.rs, src/pure.rs, src/applicative.rs |
| MapN, ApN | src/map_n.rs, src/ap_n.rs |
| FlatMap, Bifunctor, FnK | src/flatmap.rs, src/bifunctor.rs, src/fn_k.rs |
| NeVec | src/data/ne_vec/{mod,from,iter,partial_eq}.rs |
| Validation | src/data/validated/{mod,from}.rs |

## Model

| member | source | states |
|---|---|---|
| Combinator.Reversed | src/combinator.rs:51-62 | reversal of a sequence, element by element (the order `pipe!` applies in, against `compose!`) |
| Combinator.Compose | src/combinator.rs:22-33 | `compose!(f1, …, fn)(x)`: the last function runs first, and each earlier one runs on its result |
| Combinator.Pipe | src/combinator.rs:51-62 | `pipe!(x, f1, …, fn)`: the first function runs first, and each later one runs on its result |
| Combinator.ComposeIsReversedPipe | src/combinator.rs:19-62 | composing a list of functions is piping through the reversed list |
| Combinator.FlipLaws | src/combinator.rs:75-80 | `flip!(f)(y, x) == f(x, y)`; flipping twice gives back `f` |
| Combinator.ConstantLaws | src/combinator.rs:92-131 | `constant!`, `constant1!` and `constant2!` return `x` whatever they are given |
| Combinator.IdIsNeutral | src/combinator.rs:143-146 | `id` composed before or after `f` is `f` |
| Combinator.ApplyIsApplyTo | src/combinator.rs:159-177 | `apply(f, x) == apply_to(x, f) == f(x)`, a one-step pipe and a one-step composition |
| Combinator.SubstitutionIsConverge | src/combinator.rs:192-199 | `substitution(f, g, x) == f(x, g(x))`, which is `converge` with `id` as first branch |
| Combinator.ConvergeSameBranch | src/combinator.rs:214-222 | `converge(f, g, h, x) == f(g(x), h(x))`; with `g == h` it is `on(f, g, x, x)` |
| Combinator.OnSwap | src/combinator.rs:239-246 | `on(f, g, x, y) == f(g(x), g(y))`; swapping the arguments is flipping `f` |
| Combinator.IfElseBranches | src/combinator.rs:261-272 | exactly the branch the predicate selects runs; negating the predicate swaps the branches |
| Combinator.Flip | src/combinator.rs:75-80 | `flip!(f)`; Combinator.FlipLaws: it takes the arguments in the other order, and flipping twice gives back `f` |
| Combinator.Constant | src/combinator.rs:92-131 | `constant!(x)` with no argument; Combinator.ConstantLaws: every call returns `x` |
| Combinator.Constant1 | src/combinator.rs:92-131 | `constant1!(x)`; Combinator.ConstantLaws: it returns `x` whatever argument it is given |
| Combinator.Constant2 | src/combinator.rs:92-131 | `constant2!(x)`; Combinator.ConstantLaws: it returns `x` whatever two arguments it is given |
| Combinator.Id | src/combinator.rs:143-146 | `id`; Combinator.IdIsNeutral: composing it before or after `f` gives `f` |
| Combinator.Apply | src/combinator.rs:160-162 | `apply(f, x)`; Combinator.ApplyIsApplyTo: it is `f(x)`, a one-step composition |
| Combinator.ApplyTo | src/combinator.rs:175-177 | `apply_to(x, f)`; Combinator.ApplyIsApplyTo: it is `f(x)`, a one-step pipe, and equals `apply(f, x)` |
| Combinator.Substitution | src/combinator.rs:192-199 | `substitution(f, g, x)`; Combinator.SubstitutionIsConverge: it is `f(x, g(x))`, `converge` with `id` as the first branch |
| Combinator.Converge | src/combinator.rs:214-222 | `converge(f, g, h, x)`; Combinator.ConvergeSameBranch: it is `f(g(x), h(x))`, and `on(f, g, x, x)` when `g == h` |
| Combinator.On | src/combinator.rs:239-246 | `on(f, g, x, y)`; Combinator.OnSwap: it is `f(g(x), g(y))`, and swapping `x` and `y` is flipping `f` |
| Combinator.IfElse | src/combinator.rs:261-272 | `if_else(p, t, f, x)`; Combinator.IfElseBranches: exactly the branch `p(x)` selects runs; negating `p` swaps the branches |
| Combinator.ComposeExample | src/combinator.rs:19-62 | both documented examples give 6 for -3 |
| Combinator.DocExamples | src/combinator.rs:210-259 | the documented `converge` (2), `on` (true) and `if_else` (4) examples |
| Semigroup.CombineN | src/semigroup.rs:33-47 | `combine_n(0)` is `self`; for `n >= 1` the loop yields `n + 1` copies combined |
| Semigroup.Repeat | src/semigroup.rs:33-47 | `k` copies of `a` combined from the left, the specification of `combine_n`; Semigroup.CombineN computes `Repeat(a, n + 1)`, Semigroup.RepeatLaws and Semigroup.RepeatAdd state its laws |
| Semigroup.CombineAllOption | src/semigroup.rs:67-75 | `None` exactly for empty input; a one-element input gives that element |
| Semigroup.Fold | src/semigroup.rs:67-75 | the left fold `combine_all_option` reduces with; Semigroup.FoldAppend: folding `xs + ys` folds `ys` from the fold of `xs` |
| Semigroup.CombinePair | src/semigroup.rs:95-120 | tuples combine componentwise |
| Semigroup.CombineInt | src/semigroup.rs:79-88 | integer `combine` is `+`; Semigroup.IntAssociative: associative and commutative, and Semigroup.RepeatInt: `combine_n(a, k)` is `k * a` |
| Semigroup.CombineUnit | src/semigroup.rs:90-93 | unit `combine`; Semigroup.UnitAssociative: associative |
| Semigroup.CombinePhantom | src/semigroup.rs:168-173 | `PhantomData` `combine`; Semigroup.PhantomAssociative: associative |
| Semigroup.CombineOption | src/semigroup.rs:175-183 | two `Some`s combine their contents; otherwise the `Some` operand, if any, is the result |
| Semigroup.CombineSeq | src/semigroup.rs:147-166 | `String`/`Vec` combine is concatenation: the left operand, then the right |
| Semigroup.CombineMultiset | src/semigroup.rs:206-211 | the heap combine adds multiplicities |
| Semigroup.CombineSet | src/semigroup.rs:206-211 | the set combine is union |
| Semigroup.CombineBox | src/semigroup.rs:199-204 | `Box` combines its contents |
| Semigroup.CombineHashMap | src/semigroup.rs:213-231 | corrected map combine: union of keys, with `self[k].combine(other[k])` on shared keys regardless of size |
| Semigroup.CombineHashMapBySize | src/semigroup.rs:213-231 | map combine as written: union of keys; on a shared key the combine order depends on which map is larger |
| Semigroup.CombineHashMapLoop | src/semigroup.rs:213-231 | the merge loop (larger map as accumulator, the other map's entries removed and merged in) computes `CombineHashMapBySize` |
| Semigroup.BySizeFromMerge | src/semigroup.rs:215-230 | a finished merge of the accumulator and the other map is the size-ordered combine |
| Semigroup.IntAssociative | src/semigroup.rs:79-88 | integer `+` is associative and commutative |
| Semigroup.UnitAssociative | src/semigroup.rs:90-93 | unit combine is associative |
| Semigroup.PhantomAssociative | src/semigroup.rs:168-173 | `PhantomData` combine is associative |
| Semigroup.PairAssociative | laws/src/semigroup_laws.rs:7-15 | componentwise combine of associative semigroups is associative |
| Semigroup.OptionAssociative | laws/src/semigroup_laws.rs:7-15 | `Option` combine over an associative semigroup is associative |
| Semigroup.SeqAssociative | laws/src/semigroup_laws.rs:7-15 | concatenation is associative |
| Semigroup.MultisetAssociative | laws/src/semigroup_laws.rs:7-15 | the heap combine is associative and commutative |
| Semigroup.SetAssociative | laws/src/semigroup_laws.rs:7-15 | union is associative and commutative |
| Semigroup.BoxAssociative | laws/src/semigroup_laws.rs:7-15 | `Box` combine over an associative semigroup is associative |
| Semigroup.HashMapAssociative | tests/hashmap_tests.rs:62-75 | the corrected map combine is associative whenever the value semigroup is |
| Semigroup.HashMapBySizeAgrees | src/semigroup.rs:213-231 | the map combine as written equals the corrected one when `self` is not larger, or when the value combine commutes |
| Semigroup.HashMapBySizeNotAssociative | src/semigroup.rs:213-231 | three string maps on which the map combine as written is not associative |
| Semigroup.RepeatLaws | laws/src/semigroup_laws.rs:24-29 | one copy is `a`; two copies are `a.combine(a)` |
| Semigroup.RepeatAdd | src/semigroup.rs:27-47 | for an associative combine, `m + n` copies are `m` copies combined with `n` copies |
| Semigroup.RepeatInt | src/semigroup.rs:27-30 | for integers, `k` copies of `a` add up to `k * a` |
| Semigroup.FoldAppend | src/semigroup.rs:67-75 | the left fold over `xs + ys` is the fold over `ys` started from the fold over `xs` |
| Semigroup.FoldShift | src/semigroup.rs:67-75 | with an associative combine, a fold's first operand can be taken out in front |
| Semigroup.CombineAllOptionAppend | src/semigroup.rs:67-75 | with an associative combine, `combine_all_option` of a concatenation is the combine of the two parts' results |
| Semigroup.CombineAllOptionRepeat | src/semigroup.rs:67-75 | `combine_all_option` of `k` copies of `a` is `Some` of `k` copies combined |
| Semigroup.CombineAllOptionExamples | src/semigroup.rs:57-58 | `[]` gives `None`, `[1, 2, 3]` gives 6, and three "hey" strings concatenate |
| Monoid.CombineAll | src/monoid.rs:51-57 | the fold from `empty()`; empty input gives `empty()` |
| Monoid.IntMonoid | src/monoid.rs:60-69 | 0 is a two-sided identity of `+`; `is_empty` holds exactly for 0 |
| Monoid.TrivialMonoids | src/monoid.rs:71-118 | unit and `PhantomData` have identities, and their `is_empty` is the default `x == empty()` |
| Monoid.PairMonoid | src/monoid.rs:81-93 | the tuple of identities is the identity of the componentwise combine |
| Monoid.OptionMonoid | src/monoid.rs:120-125 | `None` is the identity of the `Option` combine |
| Monoid.SeqMonoid | src/monoid.rs:133-175 | the empty string or sequence is the identity of concatenation; `is_empty` is emptiness |
| Monoid.MultisetMonoid | src/monoid.rs:145-179 | the empty heap is the identity; `is_empty` is emptiness |
| Monoid.SetMonoid | src/monoid.rs:145-179 | the empty set is the identity of union; `is_empty` is emptiness |
| Monoid.HashMapMonoid | src/monoid.rs:181-191 | the empty map is the identity of both map combines; `is_empty` is emptiness |
| Monoid.IsEmpty | src/monoid.rs:32-37 | the default `is_empty`, `x == empty()`; Monoid.IntMonoid: for integers it holds exactly for 0 |
| Monoid.EmptyInt | src/monoid.rs:60-69 | integer `empty()` is 0; Monoid.IntMonoid: a two-sided identity of `+` |
| Monoid.EmptyUnit | src/monoid.rs:71-79 | unit `empty()`; Monoid.TrivialMonoids: an identity of unit `combine` |
| Monoid.IsEmptyUnit | src/monoid.rs:71-79 | unit `is_empty`; Monoid.TrivialMonoids: it always holds, as `x == empty()` does |
| Monoid.EmptyPair | src/monoid.rs:81-93 | tuple `empty()`; Monoid.PairMonoid: the tuple of identities is an identity of the componentwise combine |
| Monoid.EmptyPhantom | src/monoid.rs:108-118 | `PhantomData` `empty()`; Monoid.TrivialMonoids: an identity of its `combine` |
| Monoid.IsEmptyPhantom | src/monoid.rs:108-118 | `PhantomData` `is_empty`; Monoid.TrivialMonoids: it always holds, as `x == empty()` does |
| Monoid.EmptyOption | src/monoid.rs:120-125 | `Option` `empty()` is `None`; Monoid.OptionMonoid: an identity of the `Option` combine |
| Monoid.EmptySeq | src/monoid.rs:133-175 | `empty()` of strings and sequences; Monoid.SeqMonoid: an identity of concatenation |
| Monoid.IsEmptySeq | src/monoid.rs:133-175 | `is_empty` of strings and sequences; Monoid.SeqMonoid: it holds exactly for the empty sequence |
| Monoid.EmptyMultiset | src/monoid.rs:145-179 | `BinaryHeap` `empty()`; Monoid.MultisetMonoid: an identity of the heap combine |
| Monoid.IsEmptyMultiset | src/monoid.rs:145-179 | `BinaryHeap` `is_empty`; Monoid.MultisetMonoid: it holds exactly for the empty heap |
| Monoid.EmptySet | src/monoid.rs:145-179 | set `empty()`; Monoid.SetMonoid: an identity of union |
| Monoid.IsEmptySet | src/monoid.rs:145-179 | set `is_empty`; Monoid.SetMonoid: it holds exactly for the empty set |
| Monoid.EmptyHashMap | src/monoid.rs:181-191 | `HashMap` `empty()`; Monoid.HashMapMonoid: an identity of both map combines |
| Monoid.IsEmptyHashMap | src/monoid.rs:181-191 | `HashMap` `is_empty`; Monoid.HashMapMonoid: it holds exactly for the empty map |
| Monoid.CombineAllIsCombineAllOption | src/monoid.rs:47-57 | `combine_all` is `combine_all_option`, with `empty()` for no elements |
| Monoid.CombineAllAppend | laws/src/monoid_laws.rs:5-17 | `combine_all` of a concatenation is the combine of the two parts' `combine_all` |
| Monoid.CombineAllExamples | src/monoid.rs:47-48 | `[]` gives 0 and `[1, 2, 3]` gives 6 |
| Functor.MapOption | src/functor.rs:273-278 | `None` stays `None`; `Some(x)` becomes `Some(f(x))` |
| Functor.MapResult | src/functor.rs:280-285 | `Ok(x)` becomes `Ok(f(x))`; `Err(e)` is unchanged |
| Functor.MapBox | src/functor.rs:293-298 | `Box` maps its contents |
| Functor.MapVec | src/functor.rs:246-263 | sequence `map` applies `f` elementwise, keeping length and order |
| Functor.MapSet | src/functor.rs:246-263 | set `map` is the image of `f` |
| Functor.MapHashMap | src/functor.rs:307-311 | map `map` keeps the keys and maps each value |
| Functor.OptionLaws | laws/src/functor_laws.rs:6-43 | identity and composition laws for `Option` |
| Functor.ResultLaws | laws/src/functor_laws.rs:6-43 | identity and composition laws for `Result` |
| Functor.BoxLaws | laws/src/functor_laws.rs:6-43 | identity and composition laws for `Box` |
| Functor.PhantomLaws | src/functor.rs:266-271 | identity and composition laws for `PhantomData`, whose `map` ignores `f` |
| Functor.MapPhantom | src/functor.rs:266-271 | `PhantomData` `map` ignores `f`; Functor.PhantomLaws: identity and composition laws |
| Functor.VecLaws | laws/src/functor_laws.rs:6-43 | identity and composition laws for sequences |
| Functor.SetLaws | laws/src/functor_laws.rs:6-43 | identity and composition laws for sets |
| Functor.HashMapLaws | laws/src/functor_laws.rs:6-43 | identity and composition laws for maps |
| Functor.MapVecAppend | src/functor.rs:246-263 | `map` distributes over concatenation |
| Functor.LiftLaws | src/functor.rs:58-64 | `lift(f)` is `map(f)`: lifted identity and lifted composition |
| Functor.LiftVec | src/functor.rs:58-64 | `lift(f)` on sequences; Functor.LiftLaws: the lifted identity is the identity and lifting respects composition |
| Functor.FProductVec | src/functor.rs:103-112 | `fproduct` pairs every element `a` with `f(a)`, on the right |
| Functor.FProductOption | src/functor.rs:103-112 | `fproduct` on `Option` |
| Functor.FProductLeftVec | src/functor.rs:126-132 | `fproduct_left` pairs every element with `f(a)` on the left |
| Functor.FProductLeftOption | src/functor.rs:126-132 | `fproduct_left` on `Option` |
| Functor.MapConstVec | src/functor.rs:145-151 | `map_const(b)` replaces every element by `b`, keeping the length |
| Functor.MapConstOption | src/functor.rs:145-151 | `map_const` on `Option` keeps `Some`/`None` |
| Functor.VoidVec | src/functor.rs:163-168 | `void` keeps the length |
| Functor.VoidOption | src/functor.rs:163-168 | `void` keeps `Some`/`None` |
| Functor.TupleLeftVec | src/functor.rs:180-186 | `tuple_left(b)` gives `(b, a)` for every element |
| Functor.TupleLeftOption | src/functor.rs:180-186 | `tuple_left` on `Option` |
| Functor.TupleRightVec | src/functor.rs:198-204 | `tuple_right(b)` gives `(a, b)` for every element |
| Functor.TupleRightOption | src/functor.rs:198-204 | `tuple_right` on `Option` |
| Functor.UnzipVec | src/functor.rs:217-222 | `unzip` splits the pairs into two sequences of the same length, position by position |
| Functor.UnzipOption | src/functor.rs:217-222 | `unzip` on `Option` gives two `Some`s or two `None`s |
| Functor.IfFVec | src/functor.rs:235-242 | `if_f` maps `true` to `if_true()` and `false` to `if_false()` |
| Functor.IfFOption | src/functor.rs:235-242 | `if_f` on `Option` |
| Functor.FProductUnzip | src/functor.rs:103-222 | unzipping `fproduct(f)` gives back the input and `map(f)` |
| Functor.TuplesAreConstantProducts | src/functor.rs:180-204 | `tuple_left`/`tuple_right` are `fproduct_left`/`fproduct` with a constant function |
| Functor.OptionExamples | src/functor.rs:96-242 | the documented `Option` examples of the derived operations |
| Invariant.IMapHashMap | src/invariant.rs:114-123 | map `imap` keeps the keys and maps each value by `f` |
| Invariant.OwnInstancesAgree | src/invariant.rs:59-123 | the map and `PhantomData` `imap`s agree with `map`; `PhantomData` `imap` equals the contravariant-derived one |
| Invariant.BackwardFunctionUnused | src/invariant.rs:30-55 | the functor-derived `imap` does not depend on `g` |
| Invariant.OptionLaws | laws/src/invariant_laws.rs:6-24 | identity and composition laws of `Option` `imap` |
| Invariant.ResultLaws | laws/src/invariant_laws.rs:6-24 | identity and composition laws of `Result` `imap` |
| Invariant.VecLaws | laws/src/invariant_laws.rs:6-24 | identity and composition laws of sequence `imap` |
| Invariant.BoxLaws | laws/src/invariant_laws.rs:6-24 | identity and composition laws of `Box` `imap` |
| Invariant.SetLaws | laws/src/invariant_laws.rs:6-24 | identity and composition laws of set `imap` |
| Invariant.HashMapLaws | laws/src/invariant_laws.rs:6-24 | identity and composition laws of map `imap` |
| Invariant.PhantomLaws | src/invariant.rs:86-95 | identity and composition laws of `PhantomData` `imap` |
| Invariant.IMapPhantom | src/invariant.rs:86-95 | `PhantomData` `imap` ignores both functions; Invariant.PhantomLaws: identity and composition laws |
| Invariant.IMapViaContramap | src/invariant.rs:57-83 | the `imap` derived from `contramap(g)`; Invariant.OwnInstancesAgree: for `PhantomData` it equals the own `imap` |
| Contravariant.PhantomLaws | laws/src/contravariant_laws.rs:6-29 | `contramap` identity and composition, and `lift_contravariant(f)` is `contramap(f)` |
| Contravariant.ContramapPhantom | src/contravariant.rs:42-46 | `PhantomData` `contramap` ignores `f`; Contravariant.PhantomLaws: identity and composition laws |
| Contravariant.LiftContravariantPhantom | src/contravariant.rs:18-23 | `lift_contravariant(f)`; Contravariant.PhantomLaws: it is `contramap(f)` |
| Semigroupal.ProductOption | src/semigroupal.rs:64-72 | `Some((a, b))` exactly when both are `Some` |
| Semigroupal.ProductResult | src/semigroupal.rs:74-83 | `Ok((a, b))` exactly when both are `Ok`; `self`'s error has priority |
| Semigroupal.ProductBox | src/semigroupal.rs:91-96 | `Box` pairs its contents |
| Semigroupal.ProductPhantom | src/semigroupal.rs:57-62 | `PhantomData` `product` ignores both sides and returns the one `PhantomData` of the pair type |
| Semigroupal.Row | src/semigroupal.rs:36-43 | the pairs of one element of `self` with every element of `fb` |
| Semigroupal.ProductVec | src/semigroupal.rs:36-43 | the cross product has `|a| * |b|` pairs |
| Semigroupal.ProductVecAt | src/semigroupal.rs:36-43 | the pair `(s[i], t[j])` sits at `i * |t| + j`: the outer loop runs over `self` |
| Semigroupal.ProductVecMembers | src/semigroupal.rs:36-43 | a pair is in the product exactly when its parts are in the operands |
| Semigroupal.ProductVecEmpty | src/semigroupal.rs:36-43 | a product with an empty operand is empty |
| Semigroupal.ProductVecExample | src/semigroupal.rs:24-27 | `[1, 2]` times `[3, 4]` is `[(1,3), (1,4), (2,3), (2,4)]` |
| Semigroupal.ProductHashMap | src/semigroupal.rs:105-111 | the map product keeps exactly the shared keys, paired |
| Semigroupal.ProductHashMapLoop | src/semigroupal.rs:105-111 | the loop that removes each key from `fb` computes `ProductHashMap` |
| Semigroupal.OptionAssociative | laws/src/semigroupal_laws.rs:5-32 | `Option` product is associative up to reassociating the pairs |
| Semigroupal.ResultAssociative | laws/src/semigroupal_laws.rs:5-32 | `Result` product is associative up to reassociation |
| Semigroupal.BoxAssociative | laws/src/semigroupal_laws.rs:5-32 | `Box` product is associative up to reassociation |
| Semigroupal.HashMapAssociative | laws/src/semigroupal_laws.rs:5-32 | map product is associative up to reassociation |
| Semigroupal.ProductVecAppend | src/semigroupal.rs:36-43 | the product distributes over concatenation on the left |
| Semigroupal.RowAssociative | src/semigroupal.rs:36-43 | the step of the sequence associativity proof for one row |
| Semigroupal.RowOfPairAssociative | src/semigroupal.rs:36-43 | the row of a fixed pair `(a, b)` against `u` is the same triples under both reassociations |
| Semigroupal.VecAssociative | laws/src/semigroupal_laws.rs:5-32 | the sequence product is associative up to reassociation |
| Apply.ApOption | src/apply.rs:71-82 | `Some(f(a))` exactly when both are `Some` |
| Apply.ApResult | src/apply.rs:84-96 | `Ok(f(a))` exactly when both are `Ok`; the function side's error has priority |
| Apply.ApBox | src/apply.rs:104-112 | `Box` applies the boxed function to the boxed value |
| Apply.ApPhantom | src/apply.rs:61-69 | `PhantomData` `ap` ignores both sides; Applicative.PhantomLaws: identity and homomorphism |
| Apply.ApVec | src/apply.rs:32-59 | sequence `ap` has `|ff| * |fa|` results |
| Apply.ApVecAt | src/apply.rs:40-42 | `ff[i](fa[j])` sits at `i * |fa| + j`: function-major order |
| Apply.ApHashMap | src/apply.rs:121-131 | map `ap` keeps exactly the shared keys, with value `f(a)` |
| Apply.ApHashMapLoop | src/apply.rs:121-131 | the loop that removes each key from the function map computes `ApHashMap` |
| Apply.OptionApIsProduct | laws/src/applicative_laws.rs:41-52 | `ap` is `product` followed by application, for `Option` |
| Apply.ResultApIsProduct | laws/src/applicative_laws.rs:41-52 | the same for `Result` |
| Apply.BoxApIsProduct | laws/src/applicative_laws.rs:41-52 | the same for `Box` |
| Apply.VecApIsProduct | laws/src/applicative_laws.rs:41-52 | the same for sequences |
| Apply.HashMapApIsProduct | laws/src/applicative_laws.rs:41-52 | the same for maps |
| Apply.Examples | src/apply.rs:16-23 | the documented examples `Some(11)` and `[4, 5, 5, 6]` |
| Pure.Singletons | src/pure.rs:39-117 | each `pure` is a one-element container holding `x` |
| Pure.Naturality | src/pure.rs:39-117 | `pure(x).map(f) == pure(f(x))` for every instance |
| Pure.UnitExamples | src/pure.rs:30-36 | `unit()` is `pure(())` for `Option`, `Result`, sequences and sets |
| Pure.PureOption | src/pure.rs:39-44 | `Some(x)`; Pure.Singletons and Pure.Naturality: a one-element container, and `pure(x).map(f) == pure(f(x))` |
| Pure.PureResult | src/pure.rs:46-51 | `Ok(x)`; Pure.Singletons and Pure.Naturality |
| Pure.PureBox | src/pure.rs:60-65 | `Box::new(x)`; Pure.Singletons and Pure.Naturality |
| Pure.PureVec | src/pure.rs:67-88 | `vec![x]`, and the one-element `LinkedList` and `VecDeque`; Pure.Singletons and Pure.Naturality |
| Pure.PureMultiset | src/pure.rs:92-97 | the one-element `BinaryHeap`; Pure.Singletons: it holds `x` once |
| Pure.PureSet | src/pure.rs:101-115 | the one-element `BTreeSet` or `HashSet`; Pure.Singletons and Pure.Naturality |
| Pure.Unit | src/pure.rs:31-36 | `unit()` is `pure(())`; Pure.UnitExamples: for `Option`, `Result`, sequences and sets |
| Applicative.OptionLaws | laws/src/applicative_laws.rs:5-39 | identity, homomorphism, interchange and `map` coherence for `Option` |
| Applicative.ResultLaws | laws/src/applicative_laws.rs:5-39 | the same for `Result` |
| Applicative.BoxLaws | laws/src/applicative_laws.rs:5-39 | the same for `Box` |
| Applicative.PhantomLaws | src/applicative.rs:107-112 | identity and homomorphism for `PhantomData` |
| Applicative.PurePhantom | src/applicative.rs:107-112 | `PhantomData` `pure` ignores `x`; Applicative.PhantomLaws: identity and homomorphism |
| Applicative.VecPureFunction | laws/src/applicative_laws.rs:5-39 | identity, homomorphism and `map` coherence for sequences |
| Applicative.VecInterchange | laws/src/applicative_laws.rs:5-39 | interchange for sequences |
| Applicative.UnitExamples | src/applicative.rs:96-112 | `Option::unit() == Some(())`; the `PhantomData` unit |
| FlatMap.FlatMapOption | src/flatmap.rs:156-164 | `None` short-circuits; `Some(x)` gives `f(x)` |
| FlatMap.FlatMapResult | src/flatmap.rs:166-174 | `Err(e)` passes through; `Ok(x)` gives `f(x)` |
| FlatMap.FlatMapPhantom | src/flatmap.rs:146-154 | `PhantomData` `flat_map` ignores `f` |
| FlatMap.FlatMapVec | src/flatmap.rs:120-144 | sequence `flat_map`, the images concatenated in order; FlatMap.FlatMapVecMembers: `b` is in it exactly when some image holds it; FlatMap.FlatMapVecAppend, FlatMap.VecIdentityLaws, FlatMap.VecAssociative: the monad laws |
| FlatMap.FlattenVec | src/flatmap.rs:42-47 | sequence `flatten`; FlatMap.FlatMapIsMapFlatten: `flat_map(f)` is `map(f)` then `flatten`; FlatMap.FlattenVecAppend: it distributes over concatenation |
| FlatMap.MProductVec | src/flatmap.rs:59-68 | sequence `m_product`; FlatMap.MProductMembers: `(a, b)` is in it exactly when `a` is in `s` and `b` in `f(a)`; FlatMap.MProductProjections: its projections are `flat_map` and `flat_tap` |
| FlatMap.IfMVec | src/flatmap.rs:81-88 | sequence `if_m`; FlatMap.IfMIsFlattenedIfF: it is `if_f` followed by `flatten` |
| FlatMap.FlatTapVec | src/flatmap.rs:100-115 | sequence `flat_tap`; FlatMap.MProductProjections: it is the first projection of `m_product`, whose second projection is `flat_map` |
| FlatMap.FlatMapBox | src/flatmap.rs:182-190 | `Box` gives `f` of its contents |
| FlatMap.FlatMapSet | src/flatmap.rs:120-131 | set `flat_map` is the union of the images |
| FlatMap.FlatMapVecAppend | src/flatmap.rs:120-131 | sequence `flat_map` distributes over concatenation |
| FlatMap.FlatMapVecMembers | src/flatmap.rs:120-131 | `b` is in the result exactly when some `f(s[i])` holds it |
| FlatMap.FlattenOption | src/flatmap.rs:42-47 | `Some(Some(x))` gives `Some(x)`, anything else `None` |
| FlatMap.MProductOption | src/flatmap.rs:59-68 | `Some((a, b))` when `f(a)` is `Some(b)` |
| FlatMap.IfMOption | src/flatmap.rs:81-88 | `Some(true)` gives `if_true()`, `Some(false)` gives `if_false()` |
| FlatMap.FlatTapOption | src/flatmap.rs:100-115 | `Some(a)` when `f(a)` is `Some`, else `None` |
| FlatMap.FlattenVecAppend | src/flatmap.rs:42-47 | flattening distributes over concatenation |
| FlatMap.FlatMapIsMapFlatten | src/flatmap.rs:23-47 | `flat_map(f)` is `map(f)` followed by `flatten` |
| FlatMap.MProductProjections | laws/src/flatmap_laws.rs:32-46 | `m_product` projected to the right is `flat_map`; projected to the left it is `flat_tap` |
| FlatMap.MProductMembers | src/flatmap.rs:59-68 | `(a, b)` is in `m_product(f)` exactly when `a` is an element and `b` is in `f(a)` |
| FlatMap.IfMIsFlattenedIfF | src/flatmap.rs:81-88 | `if_m` is `if_f` followed by `flatten` |
| FlatMap.OptionMonadLaws | laws/src/monad_laws.rs:5-37 | left and right identity, associativity and `map` coherence for `Option` |
| FlatMap.ResultMonadLaws | laws/src/monad_laws.rs:5-37 | the same for `Result` |
| FlatMap.BoxMonadLaws | laws/src/monad_laws.rs:5-37 | the same for `Box` |
| FlatMap.VecIdentityLaws | laws/src/monad_laws.rs:5-37 | left and right identity and `map` coherence for sequences |
| FlatMap.VecAssociative | laws/src/flatmap_laws.rs:5-17 | `flat_map` associativity for sequences |
| FlatMap.SetLeftIdentity | laws/src/monad_laws.rs:5-15 | left identity for sets |
| FlatMap.SetRightIdentity | laws/src/monad_laws.rs:17-25 | right identity for sets |
| FlatMap.SetMapCoherence | laws/src/monad_laws.rs:27-37 | `flat_map(pure ∘ f) == map(f)` for sets |
| FlatMap.SetAssociative | laws/src/flatmap_laws.rs:5-17 | `flat_map` associativity for sets |
| FlatMap.VecFlatMapIsAp | src/flatmap.rs:120-131 | `flat_map` of `map` over the values is `ap` for sequences |
| FlatMap.OptionFlatMapIsAp | src/flatmap.rs:156-164 | the same for `Option` |
| FlatMap.Examples | src/flatmap.rs:39-98 | the documented `Option` and sequence examples |
| MapN.Map2Option | src/map_n.rs:24-31 | `Some(f(a, b))` exactly when both are `Some` |
| MapN.Map2Result | src/map_n.rs:24-31 | `Ok(f(a, b))` exactly when both are `Ok`; the first error has priority |
| MapN.Map2Vec | src/map_n.rs:24-31 | `|s| * |t|` results |
| MapN.Map2Validated | src/map_n.rs:24-31 | through `product`: two errors are combined, one error is kept |
| MapN.Map2VecAt | src/map_n.rs:24-31 | `f(s[i], t[j])` sits at `i * |t| + j` |
| MapN.Map2VecUnfold | src/map_n.rs:24-31 | the first row is `f(s[0], _)` over `t`, followed by the rest |
| MapN.Map2VecIsAp | laws/src/apply_laws.rs:5-17 | `map2` is `ap` of the curried function mapped over `s` |
| MapN.OptionMap2IsAp | laws/src/apply_laws.rs:5-17 | the same for `Option` |
| MapN.Map3Option | src/map_n.rs:47-56 | `Some(f(a, b, c))` exactly when all three are `Some` |
| MapN.Map3Vec | src/map_n.rs:47-56 | `|s| * |t| * |u|` results |
| MapN.Map3Validated | src/map_n.rs:47-56 | valid exactly when all three are; otherwise the error is the left fold of `combine` over the errors of the failing arguments, in argument order |
| MapN.Map3VecAt | src/map_n.rs:47-56 | `f(s[i], t[j], u[k])` sits at `(i * |t| + j) * |u| + k` |
| MapN.ProductROption | src/map_n.rs:81-87 | the right value, when both are `Some` |
| MapN.ProductLOption | src/map_n.rs:102-108 | the left value, when both are `Some` |
| MapN.ProductRVec | src/map_n.rs:81-87 | `|s| * |t|` results |
| MapN.ProductLVec | src/map_n.rs:102-108 | `|s| * |t|` results |
| MapN.ProductRValidated | src/map_n.rs:81-87 | the right value; errors as for `product` |
| MapN.ProductLValidated | src/map_n.rs:102-108 | the left value; errors as for `product` |
| MapN.Repeat | src/map_n.rs:81-87 | `n` copies of `t` have length `n * |t|` |
| MapN.Stretch | src/map_n.rs:102-108 | each element repeated `n` times gives length `|s| * n` |
| MapN.ProductRVecUnfold | laws/src/apply_laws.rs:19-29 | the first row of `product_r` is `t` itself |
| MapN.ProductRVecIsRepeat | laws/src/apply_laws.rs:19-29 | sequence `product_r` is `t` repeated `|s|` times |
| MapN.ProductLVecIsStretch | laws/src/apply_laws.rs:31-44 | sequence `product_l` is each element of `s` repeated `|t|` times |
| MapN.OptionProductRIsFlatMap | laws/src/apply_laws.rs:19-44 | `product_r`/`product_l` on `Option` are `flat_map` chains |
| MapN.Examples | src/map_n.rs:18-99 | the documented examples, and the combined error of `map2` on two `Invalid`s |
| ApN.Ap2Option | src/ap_n.rs:25-35 | `Some(f(a, b))` exactly when the function and both arguments are `Some` |
| ApN.Ap2Validated | src/ap_n.rs:25-35 | an `Invalid` function keeps only its own error; a `Valid` one sees the arguments' combined errors |
| ApN.FlatMapVecUniform | src/flatmap.rs:120-131 | a `flat_map` whose every block has `n` elements has `|s| * n` |
| ApN.FlatMapVecUniformAt | src/flatmap.rs:120-131 | in such a `flat_map`, the block of `s[i]` starts at `i * n` |
| ApN.Ap2VecAt | src/ap_n.rs:25-35 | `ff[i](s[j], t[k])` sits at `i * (|s| * |t|) + j * |t| + k`: function-major order |
| ApN.Ap2Vec | src/ap_n.rs:25-35 | sequence `ap2`; ApN.Ap2VecAt: every `ff[i](s[j], t[k])`, at `i * (|s| * |t|) + j * |t| + k` |
| ApN.Ap3Option | src/ap_n.rs:50-67 | `Some(f(a, b, c))` exactly when all four are `Some` |
| ApN.Ap3Vec | src/ap_n.rs:50-67 | `|ff| * |s| * |t| * |u|` results, placed as ApN.Ap3VecAt states |
| ApN.Ap3VecAt | src/ap_n.rs:50-67 | `ff[i](s[j], t[k], u[l])` sits at `i * (|s| * |t| * |u|) + (j * |t| + k) * |u| + l`: function-major order |
| ApN.Ap3Validated | src/ap_n.rs:50-67 | an `Invalid` function keeps only its own error; with a `Valid` function, the error is the left fold of `combine` over the errors of the failing arguments, in argument order |
| ApN.Ap2AgainstNestedAp | src/ap_n.rs:25-35 | `ap2` is nested `ap` for `Option` and for a `Valid` function; with an `Invalid` function, nested `ap` also collects the arguments' errors but `ap2` does not |
| ApN.Examples | src/ap_n.rs:19-45 | the documented examples 3 and 6, and the fail-fast function side of `Validated` |
| Bifunctor.BimapResult | src/bifunctor.rs:19-26 | `Ok(x)` becomes `Ok(f(x))` and `Err(e)` becomes `Err(g(e))` |
| Bifunctor.BimapPair | src/bifunctor.rs:28-32 | `(f(a), g(b))`; Bifunctor.PairLaws: `bimap` identity and composition |
| Bifunctor.BimapHashMap | src/bifunctor.rs:38-46 | the keys are the images of the keys; each entry comes from some source entry; with no key collisions, every entry is mapped |
| Bifunctor.ResultLaws | laws/src/bifunctor_laws.rs:5-34 | `bimap` identity and composition for `Result` |
| Bifunctor.PairLaws | laws/src/bifunctor_laws.rs:5-34 | `bimap` identity and composition for pairs |
| Bifunctor.ResultBimapIsMap | src/bifunctor.rs:19-26 | with the identity on errors, `bimap` is `map` |
| Bifunctor.HashMapBimapIdentityKeys | src/bifunctor.rs:38-46 | with the identity on keys, map `bimap` is `map` over the values |
| FnK.CompositionOrder | src/fn_k.rs:44-106 | `Composition` runs `f` then `g`; `compose` runs its argument first; `and_then` runs `self` first |
| FnK.Composition | src/fn_k.rs:95-106 | `Composition(f, g).apply(a)`; FnK.CompositionOrder: it is `g(f(a))` |
| FnK.ComposeK | src/fn_k.rs:44-56 | `self.compose(f)`; FnK.CompositionOrder: it runs `f` first, then `self` |
| FnK.AndThenK | src/fn_k.rs:69-76 | `self.and_then(f)`; FnK.CompositionOrder: it runs `self` first, then `f` |
| FnK.FirstToOption | src/fn_k.rs:121-130 | the first element, `None` exactly when empty |
| FnK.LastFrom | src/fn_k.rs:144-153 | running to the end remembers the last element |
| FnK.LastToOption | src/fn_k.rs:144-153 | the last element, `None` exactly when empty |
| FnK.NthToOption | src/fn_k.rs:168-177 | element `n`, `None` exactly when `len <= n` |
| FnK.PositionsAgree | src/fn_k.rs:118-177 | `nth(0)` is `first`, `nth(len - 1)` is `last`, and `last` is `first` of the reversal |
| FnK.OkOr | src/fn_k.rs:193-253 | `Some(x)` becomes `Ok(x)`, `None` becomes `Err(e)` |
| FnK.FirstToResult | src/fn_k.rs:193-202 | `Err(e)` exactly when `FirstToOption` is `None` |
| FnK.LastToResult | src/fn_k.rs:218-227 | `Err` exactly when `LastToOption` is `None` |
| FnK.NthToResult | src/fn_k.rs:244-253 | `Err` exactly when `NthToOption` is `None` |
| FnK.ResultOk | src/fn_k.rs:255-265 | `Result::ok` as a transformation: `Ok(x)` becomes `Some(x)` |
| FnK.ResultFormsAgree | src/fn_k.rs:190-253 | each `*ToResult` gives the element exactly where its `Option` form does, else the stored error |
| FnK.OptionToVec | src/fn_k.rs:283-292 | `[x]` for `Some(x)`, `[]` for `None` |
| FnK.ResultToVec | src/fn_k.rs:306-315 | `[x]` for `Ok(x)`, `[]` for `Err` |
| FnK.OptionToF | src/fn_k.rs:334-346 | `pure(x)` for `Some(x)`, `empty()` for `None` |
| FnK.OptionToFInstances | src/fn_k.rs:325-346 | into sequences it is `OptionToVec`, into `Option` the identity, into sets a singleton |
| FnK.NthNatural | src/fn_k.rs:164-177 | `nth` commutes with `map` |
| FnK.Naturality | src/fn_k.rs:118-315 | `first`, `last`, `OptionToVec`, `ResultToVec` and `Result::ok` commute with `map` |
| FnK.Examples | src/fn_k.rs:19-23 | the documented examples, including `compose` and `and_then` chains |
| NeVec.Inserted | src/data/ne_vec/mod.rs:350-364 | insertion at `i`: earlier elements stay, `e` at `i`, later ones shift up |
| NeVec.Removed | src/data/ne_vec/mod.rs:408-426 | removal at `i`: earlier elements stay, later ones shift down |
| NeVec.SwapRemoved | src/data/ne_vec/mod.rs:293-321 | swap removal at `i`: the old last element fills slot `i`; nothing else moves |
| NeVec.InsertRemoveInverse | src/data/ne_vec/mod.rs:350-426 | removing what was inserted gives back the sequence, and so does re-inserting what was removed |
| NeVec.RemovalsArePermutations | src/data/ne_vec/mod.rs:293-426 | both removals take away exactly one occurrence of the removed element |
| NeVec.RemovedIsPermutation | src/data/ne_vec/mod.rs:408-426 | `remove(i)` leaves the multiset of elements less one `s[i]` |
| NeVec.SwapRemovedIsPermutation | src/data/ne_vec/mod.rs:293-321 | `swap_remove(i)` leaves the multiset of elements less one `s[i]` |
| NeVec.SwapRemoveLast | src/data/ne_vec/mod.rs:293-321 | swap-removing the last element is an ordinary removal |
| NeVec.SplitFirst | src/data/ne_vec/from.rs:33-45 | `None` exactly for the empty sequence, else the head and the rest |
| NeVec.NEVec.constructor | src/data/ne_vec/mod.rs:140-145 | `new(h)`: the head `h` and an empty tail |
| NeVec.NEVec.FromParts | src/data/ne_vec/from.rs:26-31 | `(head, tail)` to a vector with exactly those fields |
| NeVec.NEVec.FromElem | src/data/ne_vec/mod.rs:186-194 | exactly `n` copies of `elem` |
| NeVec.NEVec.Len | src/data/ne_vec/mod.rs:440-442 | the number of elements, at least 1 |
| NeVec.NEVec.First | src/data/ne_vec/mod.rs:455-457 | element 0, the head |
| NeVec.NEVec.Last | src/data/ne_vec/mod.rs:490-492 | the last element, which is the head when the tail is empty |
| NeVec.NEVec.Get | src/data/ne_vec/mod.rs:529-535 | element `i` exactly when `i < len`, else `None` |
| NeVec.NEVec.Index | src/data/ne_vec/mod.rs:620-631 | element `i`, agreeing with `get`; an index out of range panics |
| NeVec.NEVec.Insert | src/data/ne_vec/mod.rs:350-364 | the contents become `Inserted(s, i, e)`; `i > len` panics |
| NeVec.NEVec.Remove | src/data/ne_vec/mod.rs:408-426 | returns `s[i]` and leaves `Removed(s, i)`; `i >= len` or a last element panics |
| NeVec.NEVec.SwapRemove | src/data/ne_vec/mod.rs:293-321 | returns `s[i]` and leaves `SwapRemoved(s, i)`; the same panics as `remove` |
| NeVec.NEVec.Extend | src/data/ne_vec/mod.rs:613-617 | the head stays, the items are appended to the tail |
| NeVec.NEVec.Combine | src/data/ne_vec/mod.rs:708 | the other vector's elements are appended, head first |
| NeVec.NEVec.ToVec | src/data/ne_vec/mod.rs:574-582 | `to_vec`/`into_vec`: the contents `[head] + tail` |
| NeVec.NEVec.IntoParts | src/data/ne_vec/from.rs:19-24 | the head and the tail |
| NeVec.NEVec.Map | src/data/ne_vec/mod.rs:712-720 | a fresh vector whose contents are the contents mapped in order |
| NeVec.NEVec.Product | src/data/ne_vec/mod.rs:707 | a fresh vector holding the cross product of the contents |
| NeVec.NEVec.Pure | src/data/ne_vec/mod.rs:722-727 | a fresh one-element vector |
| NeVec.NEVec.FromVec | src/data/ne_vec/mod.rs:212-221 | `None` exactly for an empty vector, else a vector with the same contents |
| NeVec.NEVec.FromSlice | src/data/ne_vec/mod.rs:237-245 | `None` exactly for an empty slice, else a vector with the same contents |
| NeVec.NEVec.TryFrom | src/data/ne_vec/from.rs:33-45 | `Err(vec)` unchanged for an empty vector, else a vector with the same contents |
| NeVec.NEVec.FromIter | src/data/ne_vec/from.rs:47-56 | the items in order; an empty iterator panics |
| NeVec.Ap | src/data/ne_vec/mod.rs:705 | a fresh vector holding sequence `ap` of the contents |
| NeVec.FlatMapNEVec | src/data/ne_vec/mod.rs:706 | a fresh vector holding sequence `flat_map` of the contents, in order; each image is non-empty, so the collection cannot meet the empty-iterator panic |
| NeVec.FlatMapKeepsNonEmpty | src/flatmap.rs:120-144 | with every image non-empty, `flat_map` yields at least one element per input element |
| NeVec.RemovalKeepsAnElement | src/data/ne_vec/mod.rs:400-405 | a removal leaves an element exactly when there were at least two, which is what the panic guards |
| NeVec.IterationOrder | src/data/ne_vec/iter.rs:10-23 | iteration yields `len` items: the head, then the tail in order |
| NeVec.NEVec.Elements | src/data/ne_vec/mod.rs:116-123 | the contents: the head, then the tail in order; every operation on the vector is stated through it |
| NeVec.IterationFromBack | src/data/ne_vec/iter.rs:41-46 | iterating from the back starts with `last` and ends with the head |
| NeVec.EqIsContentEquality | src/data/ne_vec/partial_eq.rs:33-40 | two vectors are equal exactly when their contents are |
| NeVec.SliceEqIsContentEquality | src/data/ne_vec/partial_eq.rs:10-22 | a vector equals a slice exactly when the contents are the slice; the comparison is symmetric; never equal to `[]` |
| NeVec.Eq | src/data/ne_vec/partial_eq.rs:33-40 | `NEVec == NEVec`; NeVec.EqIsContentEquality: equal exactly when the contents are |
| NeVec.EqSlice | src/data/ne_vec/partial_eq.rs:3-13 | `NEVec == slice`; NeVec.SliceEqIsContentEquality: equal exactly when the contents are the slice, never for `[]` |
| NeVec.SliceEq | src/data/ne_vec/partial_eq.rs:15-22 | `slice == NEVec`; NeVec.SliceEqIsContentEquality: the same comparison from the other side |
| NeVec.PartsRoundTrip | src/data/ne_vec/from.rs:19-31 | `(head, tail)` to a vector and back, and a vector to its parts and back, are identities |
| NeVec.VecRoundTrip | src/data/ne_vec/from.rs:5-45 | a non-empty vector converted to `NEVec` and back is unchanged |
| Validation.Validated.IsInvalid | src/data/validated/mod.rs:140-142 | `is_invalid` holds exactly for `Invalid` |
| Validation.Validated.IsValid | src/data/validated/mod.rs:122-124 | `is_valid`; Validation.ValidityTests: it is `!is_invalid`, and holds for every `Valid` |
| Validation.Validated.ValidOption | src/data/validated/mod.rs:160-165 | `valid()`: `Some(x)` exactly for `Valid(x)` |
| Validation.Validated.InvalidOption | src/data/validated/mod.rs:183-188 | `invalid()`: `Some(e)` exactly for `Invalid(e)` |
| Validation.Validated.IntoResult | src/data/validated/mod.rs:204-209 | `Valid(x)` becomes `Ok(x)`, `Invalid(e)` becomes `Err(e)` |
| Validation.Validated.Map | src/data/validated/mod.rs:284-289 | only a success value changes |
| Validation.Validated.MapErr | src/data/validated/mod.rs:362-367 | only an error changes |
| Validation.Validated.Unwrap | src/data/validated/mod.rs:496-504 | `unwrap`/`expect`: the success value; an error panics |
| Validation.Validated.UnwrapErr | src/data/validated/mod.rs:584-592 | `unwrap_err`/`expect_err`: the error; a success panics |
| Validation.Validated.UnwrapOr | src/data/validated/mod.rs:747-752 | the success value, or `default` exactly when `Invalid` |
| Validation.Validated.UnwrapOrElse | src/data/validated/mod.rs:766-771 | the success value, or `f` of the error |
| Validation.Validated.And | src/data/validated/mod.rs:625-630 | `other` after a success; an error is returned unchanged |
| Validation.Validated.AndThen | src/data/validated/mod.rs:656-661 | fail fast: `f(x)` for `Valid(x)`; `Invalid(e)` unchanged |
| Validation.Validated.Or | src/data/validated/mod.rs:694-699 | a success is kept; an error is replaced by `other` |
| Validation.Validated.OrElse | src/data/validated/mod.rs:720-725 | a success is kept; an error is replaced by `f(e)` |
| Validation.FromResult | src/data/validated/from.rs:3-11 | `Ok(x)` becomes `Valid(x)`, `Err(e)` becomes `Invalid(e)` |
| Validation.ResultRoundTrips | src/data/validated/from.rs:3-18 | both round trips through `Result` are identities |
| Validation.Product | src/data/validated/mod.rs:825-831 | two successes pair; two errors combine, left first; exactly one error is kept unchanged |
| Validation.Ap | src/data/validated/mod.rs:836-845 | the same case split, with `f(a)` on success |
| Validation.Combine | src/data/validated/mod.rs:857-863 | two values or two errors combine; in a mixed pair the `Invalid` operand is the result |
| Validation.Bimap | src/data/validated/mod.rs:868-873 | `f` on a success, `g` on an error |
| Validation.IMap | src/data/validated/mod.rs:814-821 | the functor-derived `imap`: a success is mapped by `f`, an error kept |
| Validation.ValidityTests | src/data/validated/mod.rs:122-142 | `is_invalid == !is_valid`; a `Valid` is valid |
| Validation.MapsAgree | src/data/validated/mod.rs:284-367 | `map` agrees with `Result`'s `map`; `bimap` is `map` then `map_err`, in either order |
| Validation.MapOrIsMapThenUnwrap | src/data/validated/mod.rs:312-341 | `map_or`/`map_or_else` are `map` followed by `unwrap_or`/`unwrap_or_else` |
| Validation.Validated.MapOr | src/data/validated/mod.rs:312-314 | `map_or(d, f)`; Validation.MapOrIsMapThenUnwrap: `f` of a success, `d` for an error |
| Validation.Validated.MapOrElse | src/data/validated/mod.rs:336-341 | `map_or_else(d, f)`; Validation.MapOrIsMapThenUnwrap: `f` of a success, `d` of the error |
| Validation.AndOrAreConstant | src/data/validated/mod.rs:625-725 | `and` is `and_then` with a constant function, and `or` is `or_else` with one |
| Validation.AndThenIsResultAndThen | src/data/validated/mod.rs:651-661 | `and_then` agrees with `Result`'s through the conversion |
| Validation.FunctorLaws | laws/src/functor_laws.rs:6-43 | functor laws of `map` and bifunctor laws of `bimap` |
| Validation.IMapIgnoresBackward | src/data/validated/mod.rs:814-821 | the invariant instance does not depend on `g` |
| Validation.ApIsProduct | src/data/validated/mod.rs:825-845 | `ap` is `product` followed by application |
| Validation.ApplicativeLaws | src/data/validated/mod.rs:848-852 | with `pure(x) == Valid(x)`: identity, homomorphism and `map` coherence of `ap` |
| Validation.PureValidated | src/data/validated/mod.rs:848-852 | `pure(x) == Valid(x)`; Validation.ApplicativeLaws: identity, homomorphism and `map` coherence of `ap` |
| Validation.ProductAccumulatesAndThenFailsFast | src/data/validated/mod.rs:651-831 | `product` and the `and_then` chain agree unless both operands are errors, where `product` keeps both and `and_then` the first |
| Validation.ProductAssociative | laws/src/semigroupal_laws.rs:5-32 | `product` is associative up to reassociation when the error semigroup is |
| Validation.NestedProductErrors | src/data/validated/mod.rs:825-831 | a nested `product` of three values that fails carries the left fold of `combine` over the errors of the failing values, in argument order |
| Validation.Errors | src/data/validated/mod.rs:825-831 | the errors a value brings to `product`: none for a `Valid`, its one error for an `Invalid` |
| Validation.CombineAssociative | src/data/validated/mod.rs:857-863 | `combine` is associative when both semigroups are |
| Validation.AccumulationExample | src/data/validated/mod.rs:825-831 | errors `[1]` and `[2]` accumulate to `[1, 2]`; `and_then` keeps only `[1]` |
| Validation.ValidatedToNev | src/data/validated/from.rs:23-28 | a success is kept; an error becomes a fresh one-element vector holding it |
| Validation.ResultToNev | src/data/validated/from.rs:30-38 | `Ok` becomes `Valid`; `Err(e)` becomes a fresh one-element error vector holding `e` |
| Validation.NevConversionsAgree | src/data/validated/from.rs:3-38 | going through `Validated` first gives the same `ValidatedNev` as converting directly |

## Left out

- src/higher.rs and src/monad.rs: type-level machinery (the emulation of higher-kinded types and a marker trait). Each instance is modelled as its own function instead.
- macros/src/lib.rs: the generated `map4`…`map12`, `ap4`…`ap12`, `curryN`, `tupleN` and `noopN` families. `map2`/`map3`/`ap2`/`ap3` stand for them.
- The `laws` crate and the tests are not modelled as code. Their assertions are the lemmas above.
- `unsafe_cast` in the laws crate: an unchecked reinterpretation. The lemmas state the equality it stands for.
- The laws crate writes `fa.ap(ff)`. The model follows src/apply.rs, where the function side is the receiver.
- Float instances of Semigroup and Monoid: floating point.
- Integer width and overflow: integers are unbounded. The `+` of the integer semigroup does not wrap or panic, and `combine_n` takes a natural number instead of a `u32`.
- `fix` (src/combinator.rs:289-307): a self-referential recursion combinator with no termination argument.
- `flat_map` for `HashMap` and `BinaryHeap`, and `map`, `product` and `ap` for `BinaryHeap`: their results depend on hash or heap order. Set `map`/`flat_map` are modelled as images, which is order-independent.
- Bifunctor.BimapHashMap: when `f` sends two keys to one, the entry that wins depends on hash order. The contract states only what holds for every order.
- `as_ref`, `as_mut`, `as_deref(_mut)`, `clone_from`, `first_mut`, `last_mut`, `get_mut`, `IndexMut`: references and ownership.
- The raw-pointer steps of `swap_remove`: modelled at the level of the sequence.
- `with_tail_capacity` and capacity: allocation detail.
- `NEVec`'s `Default`: it is `new(T::default())`. Dafny has no default value for an arbitrary type, and `new` is modelled.
- Panic messages: `expect` is `unwrap` and `expect_err` is `unwrap_err`. The panics are preconditions.
- Validation.Validated.UnwrapOr: `unwrap_or_default` is this member with `T::default()` passed in, for the same reason.
- src/lib.rs (module wiring) and src/and_then.rs (delegation to `flat_map`, already modelled).
- Tuples are modelled as pairs. `compose!` and `pipe!` are modelled for chains of functions of one type `T -> T`, since a Dafny sequence holds one type.
- `FnMut` closures with state: every function is pure.
- Iterators are sequences. The `FnK` impl for closures is a plain Dafny function, and `apply` is a call.
- `PartialEq` between `NEVec<T>` and a slice of another element type `U`: modelled with a single element type.
- Invariant.IMapOption, Invariant.IMapResult, Invariant.IMapVec, Invariant.IMapBox, Invariant.IMapSet: these derived instances are by definition `map`. Their contracts say so, and the laws lemmas carry the properties.
- Semigroup combine for `String` is sequence concatenation (Semigroup.CombineSeq), on `seq<char>`.

## Findings

| source | as written | input that shows it | evidently intended | confidence | as-written member | corrected member |
|---|---|---|---|---|---|---|
| src/semigroup.rs:213-231 | The `HashMap` combine folds the smaller map into the larger one. On a shared key it computes `self[k].combine(other[k])` when `self` is not larger, and `other[k].combine(self[k])` otherwise. So the operand order depends on the sizes, and the combine is not associative for a non-commutative value semigroup such as `String`. | `a = {0: "a", 1: "x"}`, `b = {0: "b"}`, `c = {0: "c"}`. Key 0 of `(a·b)·c` is "cba", while `a·(b·c)` gives "bca". | A left-biased merge, `self[k].combine(other[k])` on every shared key. It is associative whenever the value semigroup is, which is the law the crate asserts. | not executed | Semigroup.HashMapBySizeNotAssociative | Semigroup.HashMapAssociative |
