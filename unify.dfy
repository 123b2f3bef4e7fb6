/**
 * `unify_naive` of src/main.rs: dereference each side one step, then do
 * nothing for identical variables, unify the children of equally named
 * functions pairwise, or bind a variable to the other side. Mismatches are
 * only traced by the source, so they leave the store as it is.
 *
 * Since `occur` never fires, the source can store a cyclic binding and then
 * recurse without end. The model therefore bounds the recursion depth with
 * `fuel`: an outcome that is not `finished` stands for a run of the source
 * that had not returned within that depth.
 */
module Unification {
  import opened Terms

  /** The store a run leaves behind, and whether the run returned within its depth bound. */
  datatype Outcome = Outcome(store: Bindings, finished: bool)

  /** The dereferencing step at the top of `unify_naive`: a variable is substituted once. */
  function Deref(m: Bindings, t: Symbol): Symbol
  {
    if t.Var? then Substitute(m, t) else t
  }

  /** What one call of `unify_naive(t1, t2, subs)` does to a store `m`, at most `fuel` calls deep. */
  function Unify(m: Bindings, t1: Symbol, t2: Symbol, fuel: nat): Outcome
    decreases fuel, 0, 0
  {
    if fuel == 0 then Outcome(m, false)
    else
      var u1 := Deref(m, t1);
      var u2 := Deref(m, t2);
      if IsVar(u1) && u1 == u2 then Outcome(m, true)
      else if u1.Function? then
        if u2.Function? && u1.name == u2.name then UnifyChildren(m, u1.children, u2.children, fuel - 1)
        else Outcome(m, true)
      else if Occur(u1, u2) then Outcome(m, true)
      else Outcome(Bind(m, u1, u2), true)
  }

  /**
   * The `for` loop over the zipped children: pairs are unified left to
   * right, each on the store the previous one left, and the loop stops at
   * the shorter list (or when a pair does not return).
   */
  function UnifyChildren(m: Bindings, cs1: seq<Symbol>, cs2: seq<Symbol>, fuel: nat): Outcome
    decreases fuel, 1, |cs1|
  {
    if cs1 == [] || cs2 == [] then Outcome(m, true)
    else
      var o := Unify(m, cs1[0], cs2[0], fuel);
      if !o.finished then o
      else UnifyChildren(o.store, cs1[1..], cs2[1..], fuel)
  }

  /**
   * `unify_naive` itself, updating the store in place. The branch the source
   * takes when the dereferenced left side is not a variable is unreachable:
   * a symbol that is not a function is a variable.
   */
  method UnifyNaive(t1: Symbol, t2: Symbol, subs: Substitution, fuel: nat) returns (finished: bool)
    modifies subs
    ensures Outcome(subs.bindings, finished) == Unify(old(subs.bindings), t1, t2, fuel)
    decreases fuel
  {
    if fuel == 0 {
      return false;
    }
    var u1 := t1;
    if t1.Var? {
      u1 := Substitute(subs.bindings, t1);
    }
    var u2 := t2;
    if t2.Var? {
      u2 := Substitute(subs.bindings, t2);
    }
    if IsVar(u1) && u1 == u2 {
      finished := true;
    } else if u1.Function? {
      finished := true;
      if u2.Function? && u1.name == u2.name {
        ghost var goal := UnifyChildren(subs.bindings, u1.children, u2.children, fuel - 1);
        var n := if |u1.children| < |u2.children| then |u1.children| else |u2.children|;
        var k := 0;
        while k < n && finished
          invariant 0 <= k <= n
          invariant finished ==> goal == UnifyChildren(subs.bindings, u1.children[k..], u2.children[k..], fuel - 1)
          invariant !finished ==> goal == Outcome(subs.bindings, false)
        {
          assert u1.children[k..][1..] == u1.children[k + 1..];
          assert u2.children[k..][1..] == u2.children[k + 1..];
          finished := UnifyNaive(u1.children[k], u2.children[k], subs, fuel - 1);
          k := k + 1;
        }
      }
    } else if !IsVar(u1) {
      assert false;
    } else if Occur(u1, u2) {
      finished := true;
    } else {
      subs.Add(u1, u2);
      finished := true;
    }
  }

  /** The cases of one call, on the terms as dereferenced one step. */
  lemma UnifyCases(m: Bindings, t1: Symbol, t2: Symbol, fuel: nat)
    requires fuel > 0
    ensures var u1, u2, o := Deref(m, t1), Deref(m, t2), Unify(m, t1, t2, fuel);
      && (u1.Var? && u1 == u2 ==> o == Outcome(m, true))
      && (u1.Var? && u1 != u2 ==> o == Outcome(m[u1.name := u2], true))
      && (u1.Function? && (u2.Var? || u2.name != u1.name) ==> o == Outcome(m, true))
      && (u1.Function? && u2.Function? && u1.name == u2.name ==>
            o == UnifyChildren(m, u1.children, u2.children, fuel - 1))
  {
  }

  /** No call removes a binding: the keys of the store never shrink. */
  lemma {:induction false} UnifyKeysGrow(m: Bindings, t1: Symbol, t2: Symbol, fuel: nat)
    ensures m.Keys <= Unify(m, t1, t2, fuel).store.Keys
    decreases fuel, 0, 0
  {
    if fuel > 0 {
      var u1, u2 := Deref(m, t1), Deref(m, t2);
      if !(IsVar(u1) && u1 == u2) && u1.Function? && u2.Function? && u1.name == u2.name {
        UnifyChildrenKeysGrow(m, u1.children, u2.children, fuel - 1);
      }
    }
  }

  lemma {:induction false} UnifyChildrenKeysGrow(m: Bindings, cs1: seq<Symbol>, cs2: seq<Symbol>, fuel: nat)
    ensures m.Keys <= UnifyChildren(m, cs1, cs2, fuel).store.Keys
    decreases fuel, 1, |cs1|
  {
    if cs1 != [] && cs2 != [] {
      var o := Unify(m, cs1[0], cs2[0], fuel);
      UnifyKeysGrow(m, cs1[0], cs2[0], fuel);
      if o.finished {
        UnifyChildrenKeysGrow(o.store, cs1[1..], cs2[1..], fuel);
      }
    }
  }

  /** Unifying a term with itself never binds anything, whatever the store and the depth. */
  lemma {:induction false} UnifyReflexive(m: Bindings, t: Symbol, fuel: nat)
    ensures Unify(m, t, t, fuel).store == m
    decreases fuel, 0, 0
  {
    if fuel > 0 {
      var u := Deref(m, t);
      if u.Function? {
        UnifyChildrenReflexive(m, u.children, fuel - 1);
      }
    }
  }

  lemma {:induction false} UnifyChildrenReflexive(m: Bindings, cs: seq<Symbol>, fuel: nat)
    ensures UnifyChildren(m, cs, cs, fuel).store == m
    decreases fuel, 1, |cs|
  {
    if cs != [] {
      UnifyReflexive(m, cs[0], fuel);
      UnifyChildrenReflexive(m, cs[1..], fuel);
    }
  }

  /**
   * A finished outcome does not depend on the depth bound: any larger bound
   * gives the same store, so `finished` marks the runs the source completes.
   */
  lemma {:induction false} UnifyFuelMonotone(m: Bindings, t1: Symbol, t2: Symbol, fuel: nat, more: nat)
    requires fuel <= more && Unify(m, t1, t2, fuel).finished
    ensures Unify(m, t1, t2, more) == Unify(m, t1, t2, fuel)
    decreases fuel, 0, 0
  {
    var u1, u2 := Deref(m, t1), Deref(m, t2);
    if !(IsVar(u1) && u1 == u2) && u1.Function? && u2.Function? && u1.name == u2.name {
      UnifyChildrenFuelMonotone(m, u1.children, u2.children, fuel - 1, more - 1);
    }
  }

  lemma {:induction false} UnifyChildrenFuelMonotone(m: Bindings, cs1: seq<Symbol>, cs2: seq<Symbol>, fuel: nat, more: nat)
    requires fuel <= more && UnifyChildren(m, cs1, cs2, fuel).finished
    ensures UnifyChildren(m, cs1, cs2, more) == UnifyChildren(m, cs1, cs2, fuel)
    decreases fuel, 1, |cs1|
  {
    if cs1 != [] && cs2 != [] {
      var o := Unify(m, cs1[0], cs2[0], fuel);
      UnifyFuelMonotone(m, cs1[0], cs2[0], fuel, more);
      UnifyChildrenFuelMonotone(o.store, cs1[1..], cs2[1..], fuel, more);
    }
  }

  /** The zip over the children stops at the shorter list: extra children are ignored. */
  lemma {:induction false} UnifyChildrenZip(m: Bindings, cs1: seq<Symbol>, cs2: seq<Symbol>, fuel: nat)
    ensures var n := if |cs1| < |cs2| then |cs1| else |cs2|;
      UnifyChildren(m, cs1, cs2, fuel) == UnifyChildren(m, cs1[..n], cs2[..n], fuel)
    decreases |cs1|
  {
    var n := if |cs1| < |cs2| then |cs1| else |cs2|;
    if cs1 != [] && cs2 != [] {
      var o := Unify(m, cs1[0], cs2[0], fuel);
      assert cs1[..n][0] == cs1[0] && cs2[..n][0] == cs2[0];
      assert cs1[..n][1..] == cs1[1..][..n - 1] && cs2[..n][1..] == cs2[1..][..n - 1];
      UnifyChildrenZip(o.store, cs1[1..], cs2[1..], fuel);
    }
  }

  /** Arity is never compared: equally named functions unify as if cut to the shorter child list. */
  lemma UnifyIgnoresArity(m: Bindings, f: string, cs1: seq<Symbol>, cs2: seq<Symbol>, fuel: nat)
    ensures var n := if |cs1| < |cs2| then |cs1| else |cs2|;
      Unify(m, Function(f, cs1), Function(f, cs2), fuel) == Unify(m, Function(f, cs1[..n]), Function(f, cs2[..n]), fuel)
  {
    if fuel > 0 {
      UnifyChildrenZip(m, cs1, cs2, fuel - 1);
      var n := if |cs1| < |cs2| then |cs1| else |cs2|;
      assert cs1[..n][..n] == cs1[..n] && cs2[..n][..n] == cs2[..n];
      UnifyChildrenZip(m, cs1[..n], cs2[..n], fuel - 1);
    }
  }

  /**
   * A variable that is already bound can be overwritten: with `x -> y` and
   * `y -> w` stored, unifying `x` with `z` dereferences `x` to `y` only and
   * rebinds `y` to `z`.
   */
  lemma UnifyOverwritesBinding()
    ensures var m := map["x" := Var("y"), "y" := Var("w")];
      Unify(m, Var("x"), Var("z"), 1) == Outcome(map["x" := Var("y"), "y" := Var("z")], true)
  {
    var m := map["x" := Var("y"), "y" := Var("w")];
    assert Deref(m, Var("x")) == Var("y");
    assert m["y" := Var("z")] == map["x" := Var("y"), "y" := Var("z")];
  }

  /** Without a working occurs check, an unbound variable is bound to a term that contains it. */
  lemma UnifyBindsCyclic(m: Bindings, x: string, f: string, fuel: nat)
    requires x !in m && fuel > 0
    ensures OccursIn(Var(x), Function(f, [Var(x)]))
    ensures Unify(m, Var(x), Function(f, [Var(x)]), fuel) == Outcome(m[x := Function(f, [Var(x)])], true)
  {
    OccurNeverFires(x, f);
  }

  /** Sides are not symmetric: a function on the left against a variable on the right binds nothing. */
  lemma UnifyAsymmetric(x: string, f: string, fuel: nat)
    requires fuel > 0
    ensures Unify(map[], Function(f, []), Var(x), fuel) == Outcome(map[], true)
    ensures Unify(map[], Var(x), Function(f, []), fuel) == Outcome(map[x := Function(f, [])], true)
  {
  }

  /** With `x -> f(x)` stored, unifying `x` with `x` never returns, however deep the bound. */
  lemma {:induction false} UnifyLoopsOnCycle(fuel: nat)
    ensures var c := map["x" := Function("f", [Var("x")])];
      Unify(c, Var("x"), Var("x"), fuel) == Outcome(c, false)
  {
    var c := map["x" := Function("f", [Var("x")])];
    if fuel > 0 {
      UnifyLoopsOnCycle(fuel - 1);
      assert [Var("x")][1..] == [];
      assert UnifyChildren(c, [Var("x")], [Var("x")], fuel - 1) == Outcome(c, false);
    }
  }

  /**
   * Unifying `f(x, x)` with `f(f(x), f(x))` from the empty store never
   * returns: the first pair stores `x -> f(x)`, and the second then recurses
   * on `x` against `x` without end.
   */
  lemma UnifyNaiveDiverges(fuel: nat)
    ensures var x := Var("x");
      !Unify(map[], Function("f", [x, x]), Function("f", [Function("f", [x]), Function("f", [x])]), fuel).finished
  {
    var x := Var("x");
    var fx := Function("f", [x]);
    var c := map["x" := fx];
    if fuel > 1 {
      assert Unify(map[], x, fx, fuel - 1) == Outcome(c, true);
      UnifyLoopsOnCycle(fuel - 2);
      assert [x][1..] == [];
      assert UnifyChildren(c, [x], [x], fuel - 2) == Outcome(c, false);
      assert Unify(c, x, fx, fuel - 1) == Outcome(c, false);
      assert [x, x][1..] == [x] && [fx, fx][1..] == [fx];
      assert UnifyChildren(c, [x], [fx], fuel - 1) == Outcome(c, false);
    }
  }

  /**
   * The scenario of `main`: from the empty store, unifying `g(a)` with
   * `g(f(b, c))` stores exactly `a -> f(b, c)`, after which substituting into
   * `g(a)` yields `g(f(b, c))`.
   */
  lemma MainScenario(fuel: nat)
    requires fuel >= 2
    ensures var fbc := Function("f", [Var("b"), Var("c")]);
      var o := Unify(map[], Function("g", [Var("a")]), Function("g", [fbc]), fuel);
      && o == Outcome(map["a" := fbc], true)
      && Substitute(o.store, Function("g", [Var("a")])) == Function("g", [fbc])
  {
    var fbc := Function("f", [Var("b"), Var("c")]);
    var m := map["a" := fbc];
    assert Unify(map[], Var("a"), fbc, fuel - 1) == Outcome(m, true);
    assert [Var("a")][1..] == [] && [fbc][1..] == [];
    assert UnifyChildren(map[], [Var("a")], [fbc], fuel - 1) == Outcome(m, true);
    assert Substitute(m, Function("g", [Var("a")])).children == [fbc];
  }

  /** Different function names: the source only traces the mismatch, and the store is unchanged. */
  lemma NameMismatchScenario(m: Bindings, fuel: nat)
    requires fuel > 0
    ensures Unify(m, Function("g", [Var("a")]), Function("h", [Var("a")]), fuel) == Outcome(m, true)
  {
  }

  /** `main` run on a store object: the one binding `a -> f(b, c)`. */
  method UnifyDemo() returns (bindings: Bindings, finished: bool)
    ensures finished
    ensures bindings == map["a" := Function("f", [Var("b"), Var("c")])]
  {
    var subs := new Substitution();
    var s1 := Var("a");
    var s2 := Var("b");
    var s3 := Var("c");
    var f1 := Function("g", [s1]);
    var f2 := Function("f", [s2, s3]);
    var f3 := Function("g", [f2]);
    MainScenario(2);
    finished := UnifyNaive(f1, f3, subs, 2);
    bindings := subs.bindings;
  }
}
