/** Unification of two terms under a frame of existing bindings.

    `Unify` and its helpers specify one call of `Match.match` as a value:
    the frame that call returns, or failure (null). The source's recursion
    follows variable bindings and has no occurs check, so it need not
    terminate (X bound to f(X) matched against f(X) follows the binding
    forever); the specification therefore carries a fuel bound, one unit
    per dispatch, and reports `OutOfFuel` where the source would still be
    recursing. The methods `Match`, `MatchAtoms`, `MatchVariable` and
    `MatchStructures` are the source's procedures over `Frame` objects,
    each proved to compute what the specification says. */
module Matching {
  import opened Wrappers
  import opened Terms
  import opened Frames

  datatype Unified = Unifies(frame: Bindings) | Fails | OutOfFuel

  /** `match(frame, a, b)`: the tests in the source's order. */
  function Unify(fuel: nat, frame: Bindings, a: Term, b: Term): (r: Unified)
    ensures r.Unifies? ==> Extends(frame, r.frame)
    decreases fuel, 0
  {
    if fuel == 0 then OutOfFuel
    else if Equals(a, Some(b)) then Unifies(frame)
    else if a.Atom? && b.Atom? then UnifyAtoms(frame, a, b)
    else if a.Structure? && b.Structure? then UnifyStructures(fuel - 1, frame, a, b)
    else if a.Variable? then UnifyVariable(fuel - 1, frame, a, b)
    else if b.Variable? then UnifyVariable(fuel - 1, frame, b, a)
    else if a.Anonymous? then Unifies(frame)
    else if b.Anonymous? then Unifies(frame)
    else Fails
  }

  /** `matchAtoms`: equal names keep the frame, different names fail. */
  function UnifyAtoms(frame: Bindings, a: Term, b: Term): (r: Unified)
    requires a.Atom? && b.Atom?
    ensures r.Unifies? <==> a.name == b.name
    ensures r.Unifies? ==> r.frame == frame
  {
    if Equals(a, Some(b)) then Unifies(frame) else Fails
  }

  /** `matchVariable`: a bound variable is replaced by its binding and the
      match retried; an unbound one is bound to the other term in a copy. */
  function UnifyVariable(fuel: nat, frame: Bindings, variable: Var, term: Term): (r: Unified)
    ensures r.Unifies? ==> Extends(frame, r.frame)
    ensures variable !in frame ==> r == Unifies(frame[variable := term])
    decreases fuel, 1
  {
    if variable in frame then Unify(fuel, frame, frame[variable], term)
    else Unifies(frame[variable := term])
  }

  /** `matchStructures`: same arity, same functor, then the arguments left
      to right, each under the frame the previous one produced. */
  function UnifyStructures(fuel: nat, frame: Bindings, a: Struct, b: Struct): (r: Unified)
    ensures Arity(a) != Arity(b) || a.functor != b.functor ==> r == Fails
    ensures r.Unifies? ==> Extends(frame, r.frame)
    decreases fuel, 3
  {
    if Arity(a) != Arity(b) then Fails
    else if !Equals(Functor(a), Some(Functor(b))) then Fails
    else UnifyArguments(fuel, frame, a.arguments, b.arguments)
  }

  function UnifyArguments(fuel: nat, frame: Bindings, xs: seq<Term>, ys: seq<Term>): (r: Unified)
    requires |xs| == |ys|
    ensures r.Unifies? ==> Extends(frame, r.frame)
    decreases fuel, 2, |xs|
  {
    if |xs| == 0 then Unifies(frame)
    else match Unify(fuel, frame, xs[0], ys[0])
      case Unifies(next) => UnifyArguments(fuel, next, xs[1..], ys[1..])
      case other => other
  }

  // ---------------------------------------------------------------------
  // The imperative procedures
  // ---------------------------------------------------------------------

  /** `Match.match`. The input frame is never modified (there is no
      `modifies` clause); the result is either that frame or a new one.
      `r == null` is the source's null result, unless `outOfFuel` says the
      source would still be recursing. */
  method Match(fuel: nat, frame: Frame, a: Term, b: Term) returns (r: Frame?, outOfFuel: bool)
    ensures var u := Unify(fuel, frame.instantiations, a, b);
      && (r != null <==> u.Unifies?)
      && (outOfFuel <==> u.OutOfFuel?)
      && (r != null ==> r.instantiations == u.frame && (r == frame || fresh(r)))
    decreases fuel, 0
  {
    if fuel == 0 {
      return null, true;
    }
    if Equals(a, Some(b)) {
      return frame, false;
    }
    if a.Atom? && b.Atom? {
      r := MatchAtoms(frame, a, b);
      return r, false;
    }
    if a.Structure? && b.Structure? {
      r, outOfFuel := MatchStructures(fuel - 1, frame, a, b);
      return;
    }
    if a.Variable? {
      r, outOfFuel := MatchVariable(fuel - 1, frame, a, b);
      return;
    }
    if b.Variable? {
      r, outOfFuel := MatchVariable(fuel - 1, frame, b, a);
      return;
    }
    if a.Anonymous? || b.Anonymous? {
      return frame, false;
    }
    return null, false;
  }

  method MatchAtoms(frame: Frame, a: Term, b: Term) returns (r: Frame?)
    requires a.Atom? && b.Atom?
    ensures r != null <==> a.name == b.name
    ensures r != null ==> r == frame
  {
    r := if Equals(a, Some(b)) then frame else null;
  }

  method MatchVariable(fuel: nat, frame: Frame, variable: Var, term: Term) returns (r: Frame?, outOfFuel: bool)
    ensures var u := UnifyVariable(fuel, frame.instantiations, variable, term);
      && (r != null <==> u.Unifies?)
      && (outOfFuel <==> u.OutOfFuel?)
      && (r != null ==> r.instantiations == u.frame && (r == frame || fresh(r)))
    decreases fuel, 1
  {
    var instantiation := frame.GetInstantiation(variable);
    if instantiation.Some? {
      r, outOfFuel := Match(fuel, frame, instantiation.value, term);
      return;
    }
    var newFrame := new Frame.Copy(frame);
    newFrame.Instantiate(variable, term);
    return newFrame, false;
  }

  method MatchStructures(fuel: nat, frame: Frame, a: Struct, b: Struct) returns (r: Frame?, outOfFuel: bool)
    ensures var u := UnifyStructures(fuel, frame.instantiations, a, b);
      && (r != null <==> u.Unifies?)
      && (outOfFuel <==> u.OutOfFuel?)
      && (r != null ==> r.instantiations == u.frame && fresh(r))
    decreases fuel, 3
  {
    if Arity(a) != Arity(b) {
      return null, false;
    }
    if !Equals(Functor(a), Some(Functor(b))) {
      return null, false;
    }
    var xs, ys := a.arguments, b.arguments;
    var newFrame := new Frame.Copy(frame);
    var i := 0;
    while i < |xs|
      invariant 0 <= i <= |xs|
      invariant fresh(newFrame)
      invariant UnifyArguments(fuel, newFrame.instantiations, xs[i..], ys[i..])
             == UnifyArguments(fuel, frame.instantiations, xs, ys)
    {
      assert xs[i..][1..] == xs[i + 1..] && ys[i..][1..] == ys[i + 1..];
      var next, exhausted := Match(fuel, newFrame, xs[i], ys[i]);
      if next == null {
        return null, exhausted;
      }
      newFrame := next;
      i := i + 1;
    }
    return newFrame, false;
  }

  // ---------------------------------------------------------------------
  // Properties
  // ---------------------------------------------------------------------

  /** Nesting depth of a term: the fuel that matching it against itself
      needs is one more than this. */
  function Depth(t: Term): nat
  {
    match t
    case Structure(_, arguments) => 1 + MaxDepth(arguments)
    case _ => 0
  }

  function MaxDepth(ts: seq<Term>): (d: nat)
    ensures forall i :: 0 <= i < |ts| ==> Depth(ts[i]) <= d
  {
    if |ts| == 0 then 0
    else var rest := MaxDepth(ts[1..]);
      assert forall i :: 1 <= i < |ts| ==> ts[i] == ts[1..][i - 1];
      if Depth(ts[0]) < rest then rest else Depth(ts[0])
  }

  /** A term matches itself without adding a binding, given enough fuel.
      For structures this is not the `equals` shortcut (distinct structure
      objects are never equal) but a walk over the arguments. */
  lemma {:induction false} UnifySelf(fuel: nat, frame: Bindings, t: Term)
    requires fuel > Depth(t)
    ensures Unify(fuel, frame, t, t) == Unifies(frame)
    decreases t, 1
  {
    if t.Structure? {
      UnifyArgumentsSelf(fuel - 1, frame, t.arguments);
    }
  }

  lemma {:induction false} UnifyArgumentsSelf(fuel: nat, frame: Bindings, ts: seq<Term>)
    requires forall i :: 0 <= i < |ts| ==> fuel > Depth(ts[i])
    ensures UnifyArguments(fuel, frame, ts, ts) == Unifies(frame)
    decreases ts, 0
  {
    if |ts| > 0 {
      UnifySelf(fuel, frame, ts[0]);
      UnifyArgumentsSelf(fuel, frame, ts[1..]);
    }
  }

  /** More fuel never changes an outcome reached with less: `OutOfFuel` is
      the only approximation the bound introduces. */
  lemma {:induction false} UnifyFuelMonotone(fuel: nat, more: nat, frame: Bindings, a: Term, b: Term)
    requires fuel <= more && !Unify(fuel, frame, a, b).OutOfFuel?
    ensures Unify(more, frame, a, b) == Unify(fuel, frame, a, b)
    decreases fuel, 0
  {
    if Equals(a, Some(b)) || (a.Atom? && b.Atom?) {
    } else if a.Structure? && b.Structure? {
      UnifyStructuresFuelMonotone(fuel - 1, more - 1, frame, a, b);
    } else if a.Variable? {
      UnifyVariableFuelMonotone(fuel - 1, more - 1, frame, a, b);
    } else if b.Variable? {
      UnifyVariableFuelMonotone(fuel - 1, more - 1, frame, b, a);
    }
  }

  lemma {:induction false} UnifyVariableFuelMonotone(fuel: nat, more: nat, frame: Bindings, variable: Var, term: Term)
    requires fuel <= more && !UnifyVariable(fuel, frame, variable, term).OutOfFuel?
    ensures UnifyVariable(more, frame, variable, term) == UnifyVariable(fuel, frame, variable, term)
    decreases fuel, 1
  {
    if variable in frame {
      UnifyFuelMonotone(fuel, more, frame, frame[variable], term);
    }
  }

  lemma {:induction false} UnifyStructuresFuelMonotone(fuel: nat, more: nat, frame: Bindings, a: Struct, b: Struct)
    requires fuel <= more && !UnifyStructures(fuel, frame, a, b).OutOfFuel?
    ensures UnifyStructures(more, frame, a, b) == UnifyStructures(fuel, frame, a, b)
    decreases fuel, 3
  {
    if Arity(a) == Arity(b) && a.functor == b.functor {
      UnifyArgumentsFuelMonotone(fuel, more, frame, a.arguments, b.arguments);
    }
  }

  lemma {:induction false} UnifyArgumentsFuelMonotone(fuel: nat, more: nat, frame: Bindings, xs: seq<Term>, ys: seq<Term>)
    requires |xs| == |ys|
    requires fuel <= more && !UnifyArguments(fuel, frame, xs, ys).OutOfFuel?
    ensures UnifyArguments(more, frame, xs, ys) == UnifyArguments(fuel, frame, xs, ys)
    decreases fuel, 2, |xs|
  {
    if |xs| > 0 {
      UnifyFuelMonotone(fuel, more, frame, xs[0], ys[0]);
      var first := Unify(fuel, frame, xs[0], ys[0]);
      if first.Unifies? {
        UnifyArgumentsFuelMonotone(fuel, more, first.frame, xs[1..], ys[1..]);
      }
    }
  }

  /** The anonymous variable matches anything, on either side: matching
      against `_` never fails (it may bind a named variable to `_`). */
  lemma {:induction false} AnonymousNeverFails(fuel: nat, frame: Bindings, t: Term)
    ensures !Unify(fuel, frame, Anonymous, t).Fails?
    ensures !Unify(fuel, frame, t, Anonymous).Fails?
  {
    if fuel > 0 && t.Variable? && t in frame {
      AnonymousNeverFails(fuel - 1, frame, frame[t]);
    }
  }

  /** The individual cases of `match`, for a call with fuel left. */
  lemma UnifyCases(fuel: nat, frame: Bindings, a: Term, b: Term)
    requires fuel > 0
    ensures a.Atom? && b.Atom? ==> Unify(fuel, frame, a, b) == (if a.name == b.name then Unifies(frame) else Fails)
    ensures (a.Atom? && b.Structure?) || (a.Structure? && b.Atom?) ==> Unify(fuel, frame, a, b) == Fails
    ensures a.Structure? && b.Structure? && (Arity(a) != Arity(b) || a.functor != b.functor)
         ==> Unify(fuel, frame, a, b) == Fails
    ensures a.Variable? && a != b && a !in frame ==> Unify(fuel, frame, a, b) == Unifies(frame[a := b])
    ensures a.Variable? && a != b && a in frame ==> Unify(fuel, frame, a, b) == Unify(fuel - 1, frame, frame[a], b)
    ensures !a.Variable? && b.Variable? && b !in frame ==> Unify(fuel, frame, a, b) == Unifies(frame[b := a])
    ensures a.Anonymous? && !b.Variable? ==> Unify(fuel, frame, a, b) == Unifies(frame)
    ensures !a.Variable? && b.Anonymous? ==> Unify(fuel, frame, a, b) == Unifies(frame)
  {
  }

  // ---------------------------------------------------------------------
  // Matching invents no variables
  // ---------------------------------------------------------------------

  lemma {:induction false} UnifyVars(fuel: nat, frame: Bindings, a: Term, b: Term)
    requires Unify(fuel, frame, a, b).Unifies?
    ensures FrameVars(Unify(fuel, frame, a, b).frame) <= FrameVars(frame) + Vars(a) + Vars(b)
    decreases fuel, 0
  {
    if Equals(a, Some(b)) || (a.Atom? && b.Atom?) {
    } else if a.Structure? && b.Structure? {
      UnifyStructuresVars(fuel - 1, frame, a, b);
    } else if a.Variable? {
      UnifyVariableVars(fuel - 1, frame, a, b);
    } else if b.Variable? {
      UnifyVariableVars(fuel - 1, frame, b, a);
    }
  }

  lemma {:induction false} UnifyVariableVars(fuel: nat, frame: Bindings, variable: Var, term: Term)
    requires UnifyVariable(fuel, frame, variable, term).Unifies?
    ensures FrameVars(UnifyVariable(fuel, frame, variable, term).frame) <= FrameVars(frame) + {variable} + Vars(term)
    decreases fuel, 1
  {
    if variable in frame {
      UnifyVars(fuel, frame, frame[variable], term);
      assert Vars(frame[variable]) <= FrameVars(frame);
    } else {
      var r := frame[variable := term];
      forall v | v in FrameVars(r)
        ensures v in FrameVars(frame) + {variable} + Vars(term)
      {
        if v !in r.Keys {
          var k :| k in r && v in Vars(r[k]);
          if k != variable {
            assert v in Vars(frame[k]);
          }
        }
      }
    }
  }

  lemma {:induction false} UnifyStructuresVars(fuel: nat, frame: Bindings, a: Struct, b: Struct)
    requires UnifyStructures(fuel, frame, a, b).Unifies?
    ensures FrameVars(UnifyStructures(fuel, frame, a, b).frame) <= FrameVars(frame) + Vars(a) + Vars(b)
    decreases fuel, 3
  {
    UnifyArgumentsVars(fuel, frame, a.arguments, b.arguments);
  }

  lemma {:induction false} UnifyArgumentsVars(fuel: nat, frame: Bindings, xs: seq<Term>, ys: seq<Term>)
    requires |xs| == |ys| && UnifyArguments(fuel, frame, xs, ys).Unifies?
    ensures FrameVars(UnifyArguments(fuel, frame, xs, ys).frame) <= FrameVars(frame) + VarsOfList(xs) + VarsOfList(ys)
    decreases fuel, 2, |xs|
  {
    if |xs| > 0 {
      var first := Unify(fuel, frame, xs[0], ys[0]);
      UnifyVars(fuel, frame, xs[0], ys[0]);
      UnifyArgumentsVars(fuel, first.frame, xs[1..], ys[1..]);
      VarsOfListCons(xs);
      VarsOfListCons(ys);
    }
  }

  // ---------------------------------------------------------------------
  // Matching is not symmetric
  // ---------------------------------------------------------------------

  /** g(f(X, Y), f(Z, b)) */
  function SwapLeft(): Term
  {
    Swap(Variable("X"), Variable("Y"), Variable("Z"), Atom("b"))
  }

  /** g(f(Y, X), f(X, a)) */
  function SwapRight(): Term
  {
    Swap(Variable("Y"), Variable("X"), Variable("X"), Atom("a"))
  }

  /** g(f(p, q), f(r, c)) */
  function Swap(p: Term, q: Term, r: Term, c: Term): Term
  {
    Structure("g", [Structure("f", [p, q]), Structure("f", [r, c])])
  }

  /** Under bindings of x to y and y to x, matching x or y against an
      unbound variable z follows the two bindings round and round and never
      returns. */
  lemma {:induction false} CycleSpins(fuel: nat, x: Var, y: Var, z: Var)
    requires x != z && y != z
    ensures var cycle := map[y := x][x := y];
      Unify(fuel, cycle, x, z) == OutOfFuel && Unify(fuel, cycle, y, z) == OutOfFuel
  {
    if fuel > 0 {
      CycleSpins(fuel - 1, x, y, z);
    }
  }

  /** One dispatch on an unbound variable: it is bound to the other term. */
  lemma BindStep(fuel: nat, frame: Bindings, v: Var, t: Term)
    requires fuel > 0 && v !in frame && t.Variable? && t != v
    ensures Unify(fuel, frame, v, t) == Unifies(frame[v := t])
  {
  }

  /** One dispatch on two structures with the same functor and arity. */
  lemma StructureStep(fuel: nat, frame: Bindings, a: Struct, b: Struct)
    requires fuel > 0 && a.functor == b.functor && Arity(a) == Arity(b)
    ensures Unify(fuel, frame, a, b) == UnifyArguments(fuel - 1, frame, a.arguments, b.arguments)
  {
  }

  /** Two pairs of arguments: the second pair is matched under the frame
      the first pair produced. */
  lemma ArgumentPairs(fuel: nat, frame: Bindings, a1: Term, a2: Term, b1: Term, b2: Term)
    ensures var first := Unify(fuel, frame, a1, b1);
      UnifyArguments(fuel, frame, [a1, a2], [b1, b2])
      == if first.Unifies? then Unify(fuel, first.frame, a2, b2) else first
  {
    assert [a1, a2][1..] == [a2] && [b1, b2][1..] == [b2];
    var first := Unify(fuel, frame, a1, b1);
    if first.Unifies? {
      var second := Unify(fuel, first.frame, a2, b2);
      assert UnifyArguments(fuel, first.frame, [a2], [b2]) == second;
    }
  }

  /** g(f(y, x), f(x, a)) against g(f(x, y), f(z, b)) binds y to x and x to
      y, then matches x against z under those bindings. */
  lemma {:induction false} SwappedSpins(fuel: nat, x: Var, y: Var, z: Var, a: Term, b: Term)
    requires x != y && x != z && y != z
    ensures Unify(fuel, map[], Swap(y, x, x, a), Swap(x, y, z, b)) == OutOfFuel
  {
    var cycle := map[y := x][x := y];
    var fXY, fZb: Struct := Structure("f", [x, y]), Structure("f", [z, b]);
    var fYX, fXa: Struct := Structure("f", [y, x]), Structure("f", [x, a]);
    if fuel > 0 {
      StructureStep(fuel, map[], Swap(y, x, x, a), Swap(x, y, z, b));
      ArgumentPairs(fuel - 1, map[], fYX, fXa, fXY, fZb);
    }
    if fuel > 1 {
      StructureStep(fuel - 1, map[], fYX, fXY);
      ArgumentPairs(fuel - 2, map[], y, x, x, y);
    }
    if fuel > 2 {
      // The first arguments bind y to x, then x to y.
      BindStep(fuel - 2, map[], y, x);
      BindStep(fuel - 2, map[y := x], x, y);
      // The second arguments match x against z under the cycle.
      StructureStep(fuel - 1, cycle, fXa, fZb);
      ArgumentPairs(fuel - 2, cycle, x, a, z, b);
      CycleSpins(fuel - 2, x, y, z);
    }
  }

  /** g(f(x, y), f(z, b)) against g(f(y, x), f(x, a)) binds x to y, y to x
      and z to x, then fails on the distinct atoms b and a. */
  lemma StraightFails(x: Var, y: Var, z: Var, a: Term, b: Term)
    requires x != y && x != z && y != z && a.Atom? && b.Atom? && a != b
    ensures Unify(3, map[], Swap(x, y, z, b), Swap(y, x, x, a)) == Fails
  {
    var fXY, fZb: Struct := Structure("f", [x, y]), Structure("f", [z, b]);
    var fYX, fXa: Struct := Structure("f", [y, x]), Structure("f", [x, a]);
    var both := map[x := y][y := x];
    BindStep(1, map[], x, y);
    BindStep(1, map[x := y], y, x);
    ArgumentPairs(1, map[], x, y, y, x);
    StructureStep(2, map[], fXY, fYX);
    BindStep(1, both, z, x);
    ArgumentPairs(1, both, z, b, x, a);
    StructureStep(2, both, fZb, fXa);
    ArgumentPairs(2, map[], fXY, fZb, fYX, fXa);
    StructureStep(3, map[], Swap(x, y, z, b), Swap(y, x, x, a));
  }

  /** The order of the two terms matters: one order fails after a few
      steps, the other never returns, so "fails in one order exactly when
      it fails in the other" does not hold. */
  lemma UnifyAsymmetric()
    ensures forall fuel: nat :: fuel >= 3 ==> Unify(fuel, map[], SwapLeft(), SwapRight()) == Fails
    ensures forall fuel: nat :: Unify(fuel, map[], SwapRight(), SwapLeft()) == OutOfFuel
  {
    var x: Var, y: Var, z: Var := Variable("X"), Variable("Y"), Variable("Z");
    StraightFails(x, y, z, Atom("a"), Atom("b"));
    forall fuel: nat | fuel >= 3
      ensures Unify(fuel, map[], SwapLeft(), SwapRight()) == Fails
    {
      UnifyFuelMonotone(3, fuel, map[], SwapLeft(), SwapRight());
    }
    forall fuel: nat
      ensures Unify(fuel, map[], SwapRight(), SwapLeft()) == OutOfFuel
    {
      SwappedSpins(fuel, x, y, z, Atom("a"), Atom("b"));
    }
  }
}
