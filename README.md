# A verified model of a naive Robinson-style term unifier

The repository is a single Rust file, `src/main.rs`. It is a small
first-order term unifier with three parts:

- a rank-based union-find (`UnionFind`) over the identifiers `0..n`;
- terms (`Symbol`: a variable, or a named function with ordered children)
  and a substitution store (`Substitution`, a hash map from variable names
  to terms) with `substitute` and `add`;
- `occur`, `is_var` and the recursive `unify_naive`, which threads one
  mutable store through the unification.

This project models those parts as the code has them and proves what they do.
It also states, as proved facts, the places where the code differs from its
comments and from the classical algorithm.

- `union_find.dfy`, module `DisjointSet`. A pure specification comes first:
  `Forest`, the invariant `ValidForest` (parents in range, rank strictly
  rising from child to parent), `Root`, `Connected`, `Singletons` and `Merge`.
  The class `UnionFind` follows. Its `parent` and `rank` arrays are updated in
  place, and its `Find` and `Unite` methods are proved against that
  specification. The invariant also gives `find` its termination measure: the
  set of identifiers whose rank is above the current one shrinks at every
  step.
- `terms.dfy`, module `Terms`. It holds `Symbol` and `Substitute` (one-step
  lookup of a bound variable; a function keeps its name, arity and child
  order). It also holds `Bind`, which specifies `add`, and the class
  `Substitution`, whose `Add` updates the store in place. Finally it has
  `IsVar`, and `occur` twice: as written (`Occur`, always false) and as the
  intended occurs check (`OccursIn`), which recurses through the children.
- `unify.dfy`, module `Unification`. `Unify` and `UnifyChildren` specify one
  call of `unify_naive` and its loop over the zipped children.
  `UnifyNaive` is the method that updates a `Substitution` object and is
  proved to do exactly that. The remaining members are lemmas about the
  specification, plus the scenario that `main` builds.

The code differs from the system's own descriptions in several places, and
the model follows the code each time:

- `find` takes `&self` and never rewrites `parent`, although the comments
  claim path compression.
- `substitute` dereferences a bound variable one step only, not through the
  whole chain of bindings.
- `occur` discards the value of its `match` and returns `false`, so the
  occurs check never fires. A cyclic binding such as `x -> f(x)` can be
  stored. After that, `unify_naive` can recurse forever:
  `UnifyNaiveDiverges` proves this for `f(x, x)` against `f(f(x), f(x))`.
- Arity is never compared.
- A name mismatch, or a function on the left against a variable on the
  right, is only printed. No failure is reported and the store is unchanged.
- An already-bound variable can be rebound.
- There is no rollback and there is no error result.

## Model

| member | source | states |
|---|---|---|
| DisjointSet.Root | src/main.rs:25-31 | on a valid forest the walk up the parent links ends at an identifier r with parent[r] == r, whose rank is at least that of the start |
| DisjointSet.Singletons | src/main.rs:18-23 | the forest built by new(n) is valid, has n entries, each its own parent with rank 0 |
| DisjointSet.SingletonsAreRoots | src/main.rs:18-23 | after new(n) every identifier below n is its own representative |
| DisjointSet.UniteValid | src/main.rs:33-47 | union by rank keeps every parent in range and rank strictly rising from child to parent; the size is unchanged |
| DisjointSet.UniteFrame | src/main.rs:33-47 | when the roots coincide nothing changes; otherwise exactly one root is relinked under the other (the lower-rank one, or the second on a tie), the survivor's rank grows by one exactly on a tie and no other rank changes, and every other entry is untouched |
| DisjointSet.RootAfterLink | src/main.rs:37-45 | relinking root a under root b gives every member of a's class the representative b and leaves every other representative unchanged |
| DisjointSet.RootAfterUnite | src/main.rs:33-47 | after unite the new representative of p is one of the two old roots, members of the two merged classes get it, all others keep theirs |
| DisjointSet.UniteConnected | src/main.rs:33-47 | after unite(p, q), p and q are connected, and x, y are connected iff they were before or each was in the class of p or of q |
| DisjointSet.UniteKeepsConnected | src/main.rs:33-47 | unite never separates two connected identifiers |
| DisjointSet.UniteScenario | src/main.rs:33-47 | after uniting (3,4),(4,9),(8,0),(2,3),(5,6),(5,9),(7,3),(4,8),(6,1) on ten identifiers, find(1) == find(3) |
| DisjointSet.UnionFind.constructor | src/main.rs:18-23 | new(n) allocates fresh arrays holding the singleton forest of size n |
| DisjointSet.UnionFind.Find | src/main.rs:25-31 | find returns the representative of i, a root of the forest; it changes neither array |
| DisjointSet.UnionFind.Unite | src/main.rs:33-47 | unite updates the arrays in place to Merge of the old forest and keeps the forest valid |
| Terms.IsVar | src/main.rs:104-109 | true exactly for the terms of the form Var(x) |
| Terms.Substitute | src/main.rs:77-90 | a bound variable becomes its stored binding as is, an unbound one stays, a function keeps its name, arity and child order with each child substituted |
| Terms.Bind | src/main.rs:96-101 | add on a variable binds it to the term, overwriting any old binding, and keeps every other key; add on a function leaves the store as it was |
| Terms.Substitution.constructor | src/main.rs:73-75 | a new store is empty |
| Terms.Substitution.Add | src/main.rs:96-101 | add updates the store object in place to Bind of its old contents |
| Terms.SubstituteUnbound | src/main.rs:77-90 | a term in which no bound variable occurs is left unchanged by substitute |
| Terms.SubstituteEmpty | src/main.rs:77-90 | with the empty store substitute is the identity |
| Terms.SubstituteIdempotent | src/main.rs:77-90 | when no bound variable occurs in any binding, substituting twice gives the same term as substituting once |
| Terms.SubstituteIsOneStep | src/main.rs:79-83 | with x -> y and y -> z stored, substitute maps x to y and only a second application reaches z |
| Terms.OccurNeverFires | src/main.rs:112-121 | x occurs in f(x), yet occur(x, f(x)) is false |
| Unification.UnifyNaive | src/main.rs:126-159 | unify_naive updates the store object in place to the outcome Unify gives for the old store, and reports whether it returned within the depth bound |
| Unification.UnifyCases | src/main.rs:126-156 | after one-step dereferencing: an identical variable leaves the store; a different left variable is bound to the right term; a left function against a variable or a differently named function leaves the store; equally named functions unify their children |
| Unification.UnifyKeysGrow | src/main.rs:126-159 | no call removes a key from the store |
| Unification.UnifyChildrenKeysGrow | src/main.rs:139-142 | the loop over the zipped children removes no key from the store |
| Unification.UnifyReflexive | src/main.rs:126-159 | unifying a term with itself adds or changes no binding, for every store and depth |
| Unification.UnifyChildrenReflexive | src/main.rs:139-142 | unifying a child list with itself pairwise leaves the store as it was |
| Unification.UnifyFuelMonotone | src/main.rs:126-159 | a run that finishes within some depth gives the same outcome at every larger depth |
| Unification.UnifyChildrenFuelMonotone | src/main.rs:139-142 | the zipped loop, once finished within some depth, gives the same outcome at every larger depth |
| Unification.UnifyChildrenZip | src/main.rs:139-142 | the zipped loop only sees the first min(len1, len2) pairs |
| Unification.UnifyIgnoresArity | src/main.rs:136-142 | equally named functions of different arity unify exactly as if both were cut to the shorter child list |
| Unification.UnifyOverwritesBinding | src/main.rs:126-156 | with x -> y and y -> w stored, unifying x with z dereferences x to y only and overwrites the binding of y with z |
| Unification.UnifyBindsCyclic | src/main.rs:151-156 | an unbound x unified with f(x) is bound to f(x), although x occurs in it |
| Unification.UnifyAsymmetric | src/main.rs:136-156 | f() against x leaves the empty store empty, while x against f() binds x |
| Unification.UnifyLoopsOnCycle | src/main.rs:126-159 | with x -> f(x) stored, unifying x with x does not return within any depth and binds nothing |
| Unification.UnifyNaiveDiverges | src/main.rs:126-159 | unifying f(x, x) with f(f(x), f(x)) from the empty store does not return within any depth |
| Unification.MainScenario | src/main.rs:161-169 | from the empty store, unifying g(a) with g(f(b, c)) returns with exactly a -> f(b, c), and substituting into g(a) then gives g(f(b, c)) |
| Unification.NameMismatchScenario | src/main.rs:143-145 | unifying g(a) with h(a) returns and leaves any store unchanged |
| Unification.UnifyDemo | src/main.rs:161-169 | running main's unification on a new store object returns, leaving the single binding a -> f(b, c) |

## Left out

- Unification.UnifyNaive: the recursion depth is bounded by `fuel`, because the source can recurse forever once a cyclic binding is stored. An outcome with `finished == false` stands for a run that had not returned within that depth. It does not claim that the source stops there.
- DisjointSet.UnionFind.Find: the recursive call inside the `while` loop is kept. No path compression is modelled, because the source does none.
- DisjointSet.UnionFind.Unite: `usize` overflow of `rank[i] += 1` is not modelled. Ranks are unbounded `nat`s here, and a rank never exceeds log2 of the number of identifiers.
- Indices out of range make the source panic. The model states `i < n` as a precondition of `find` and `unite` instead.
- The `println!` tracing and the `Debug` output are I/O with no effect on the store.
- `Substitution::compose` has no behaviour in the source: its body is `unimplemented!()`.
- `SymbolTable` is a bare wrapper around a hash map. It has no operations and nothing uses it.
- The commented-out `var` helper is dead code.
- Hash-map hashing and the cost of `clone` and `to_owned` are not modelled. The store is a mathematical map and terms are immutable values.
- Terms.Occur: it is modelled as the constant `false`, as the source returns. The discarded `match` calls `occur` itself, so even its value would only be true when the second term is the very variable. The intended occurs check, which recurses through the children, is `OccursIn`, and it is used only in lemmas.
