/**
 * Terms and the substitution store of src/main.rs: `Symbol`, the pure
 * `substitute`, `is_var`, `occur`, and the store itself, whose `add` updates
 * it in place.
 */
module Terms {

  /** A first-order term: a variable, or a named function applied to ordered children. */
  datatype Symbol = Var(name: string) | Function(name: string, children: seq<Symbol>)

  /** The contents of a `Substitution`: variable name to bound term. */
  type Bindings = map<string, Symbol>

  /** `is_var`: whether the term is a variable. */
  predicate IsVar(t: Symbol)
    ensures IsVar(t) <==> exists x :: t == Var(x)
  {
    match t
    case Var(_) => true
    case Function(_, _) => false
  }

  /**
   * `substitute`: a bound variable becomes its binding, taken as stored
   * (one step: the binding itself is not substituted again); an unbound
   * variable stays; a function keeps its name and substitutes each child in
   * place.
   */
  function Substitute(s: Bindings, t: Symbol): (r: Symbol)
    ensures t.Var? && t.name in s ==> r == s[t.name]
    ensures t.Var? && t.name !in s ==> r == t
    ensures t.Function? ==> r.Function? && r.name == t.name && |r.children| == |t.children|
    ensures t.Function? ==> forall i :: 0 <= i < |t.children| ==> r.children[i] == Substitute(s, t.children[i])
    decreases t
  {
    match t
    case Var(x) => if x in s then s[x] else t
    case Function(f, cs) => Function(f, seq(|cs|, i requires 0 <= i < |cs| => Substitute(s, cs[i])))
  }

  /**
   * The intended occurs check: `t1` is a variable that is `t2` or occurs in
   * one of `t2`'s children. This is what `occur` would return if it returned
   * its `match` and that `match` recursed through the intended check; the
   * `match` as written calls `occur` itself, which is always false.
   */
  predicate OccursIn(t1: Symbol, t2: Symbol)
    decreases t2
  {
    t1.Var? &&
    match t2
    case Var(s1) => s1 == t1.name
    case Function(_, cs) => exists i :: 0 <= i < |cs| && OccursIn(t1, cs[i])
  }

  /**
   * `occur` as the source has it: the value of its `match` is discarded and
   * the function returns `false` for every pair of terms.
   */
  predicate Occur(t1: Symbol, t2: Symbol)
  {
    false
  }

  /**
   * The store after `add(s, t)`: a variable `s` is bound to `t`, replacing any
   * earlier binding; every other key keeps its value; a function `s` leaves
   * the store as it was.
   */
  function Bind(m: Bindings, s: Symbol, t: Symbol): (r: Bindings)
    ensures s.Var? ==> r.Keys == m.Keys + {s.name} && r[s.name] == t
    ensures forall k :: k in m && !(s.Var? && k == s.name) ==> k in r && r[k] == m[k]
    ensures s.Function? ==> r == m
  {
    match s
    case Var(x) => m[x := t]
    case Function(_, _) => m
  }

  /** The source's `Substitution`: a hash map the unifier extends through `&mut self`. */
  class Substitution {
    var bindings: Bindings

    /** `Substitution::new`: the empty store. */
    constructor ()
      ensures bindings == map[]
    {
      bindings := map[];
    }

    /** `add`: inserts or overwrites the binding of a variable; ignores a function. */
    method Add(s: Symbol, t: Symbol)
      modifies this
      ensures bindings == Bind(old(bindings), s, t)
    {
      match s
      case Var(x) => bindings := bindings[x := t];
      case Function(_, _) =>
    }
  }

  /** With no bound variable occurring in `t`, substituting leaves `t` as it is. */
  lemma {:induction false} SubstituteUnbound(s: Bindings, t: Symbol)
    requires forall x :: x in s ==> !OccursIn(Var(x), t)
    ensures Substitute(s, t) == t
    decreases t
  {
    match t
    case Var(x) =>
      assert OccursIn(Var(x), t);
    case Function(f, cs) =>
      forall i | 0 <= i < |cs|
        ensures Substitute(s, cs[i]) == cs[i]
      {
        forall x | x in s
          ensures !OccursIn(Var(x), cs[i])
        {
          assert !OccursIn(Var(x), t);
        }
        SubstituteUnbound(s, cs[i]);
      }
      assert Substitute(s, t).children == cs;
  }

  /** The empty store is the identity substitution. */
  lemma SubstituteEmpty(t: Symbol)
    ensures Substitute(map[], t) == t
  {
    SubstituteUnbound(map[], t);
  }

  /**
   * Substituting twice changes nothing more when no bound variable occurs
   * in any stored binding (the store is idempotent).
   */
  lemma {:induction false} SubstituteIdempotent(s: Bindings, t: Symbol)
    requires forall x, y :: x in s && y in s ==> !OccursIn(Var(y), s[x])
    ensures Substitute(s, Substitute(s, t)) == Substitute(s, t)
    decreases t
  {
    match t
    case Var(x) =>
      if x in s {
        SubstituteUnbound(s, s[x]);
      }
    case Function(f, cs) =>
      var r := Substitute(s, t);
      forall i | 0 <= i < |cs|
        ensures Substitute(s, r.children[i]) == r.children[i]
      {
        SubstituteIdempotent(s, cs[i]);
      }
      assert Substitute(s, r).children == r.children;
  }

  /**
   * Dereferencing is one step only: with `x -> y` and `y -> z` stored,
   * substituting `x` yields `y`, and substituting again yields `z`.
   */
  lemma SubstituteIsOneStep()
    ensures var s := map["x" := Var("y"), "y" := Var("z")];
      && Substitute(s, Var("x")) == Var("y")
      && Substitute(s, Substitute(s, Var("x"))) == Var("z")
  {
  }

  /** The occurs check never fires, even for a variable that plainly occurs in the other term. */
  lemma OccurNeverFires(x: string, f: string)
    ensures OccursIn(Var(x), Function(f, [Var(x)]))
    ensures !Occur(Var(x), Function(f, [Var(x)]))
  {
    assert OccursIn(Var(x), [Var(x)][0]);
  }
}
