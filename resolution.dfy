/** One resolution step, as a value. Both search engines (`SearchTree` with
    its inner `Node`, and `SearchNode`) run the same do-while loop over the
    clauses of the goal's predicate; `TryClause` and `TryClauses` specify
    that loop once, and both classes are proved to follow it. */
module Resolution {
  import opened Wrappers
  import opened Terms
  import opened Frames
  import opened Matching
  import opened Instantiation
  import opened InternalVariables
  import opened Internalizing
  import opened Rules
  import opened Predicates
  import opened KnowledgeBase

  /** The exceptions a search can raise. */
  datatype Exception =
    | AssertionError(message: string)  // a leading goal that is not a structure
    | NullPointerException             // an unbound query variable in a result

  /** Why a step ended without its regular outcome: the source threw, or the
      unifier ran out of fuel where the source would still be recursing. */
  datatype Halt = Thrown(exception: Exception) | OutOfFuel

  /** The goals a clause contributes: none for a fact, the body otherwise. */
  function BodyGoals(rule: Rule): seq<Term>
  {
    if IsFact(rule) then [] else rule.body.value
  }

  /** `getTerms`: copies the body into a list, one term at a time. */
  method GetTerms(rule: Rule) returns (goals: seq<Term>)
    ensures IsFact(rule) ==> goals == []
    ensures !IsFact(rule) ==> goals == rule.body.value
  {
    goals := [];
    if !IsFact(rule) {
      var body := rule.body.value;
      var i := 0;
      while i < |body|
        invariant 0 <= i <= |body|
        invariant goals == body[..i]
      {
        goals := goals + [body[i]];
        i := i + 1;
      }
      assert body[..i] == body;
    }
  }

  /** `getPredicate`: the predicate of a structure goal, by its full name;
      any other goal raises an AssertionError carrying its text. */
  function GoalPredicate(knowledge: Knowledge, goal: Term): (r: Result<Option<Predicate>, Exception>)
    requires knowledge.Valid()
    ensures r.Err? <==> !goal.Structure?
    ensures r.Err? ==> r.error == AssertionError(ToString(goal))
    ensures r.Ok? && r.value.Some? ==> WellFormed(r.value.value) && r.value.value.fullName == FullName(goal)
    ensures r.Ok? ==> (r.value.None? <==> forall i :: 0 <= i < |knowledge.rules| ==> FullName(knowledge.rules[i].head) != FullName(goal))
  {
    if goal.Structure? then Ok(knowledge.GetPredicate(FullName(goal)))
    else Err(AssertionError(ToString(goal)))
  }

  /** The predicate a node built for `goals` resolves against: none when
      there are no goals, otherwise that of the leading goal. */
  function NodePredicate(knowledge: Knowledge, goals: seq<Term>): (r: Result<Option<Predicate>, Exception>)
    requires knowledge.Valid()
    ensures r.Err? <==> goals != [] && !goals[0].Structure?
    ensures goals == [] ==> r == Ok(None)
  {
    if goals == [] then Ok(None) else GoalPredicate(knowledge, goals[0])
  }

  function NumClauses(p: Option<Predicate>): nat
  {
    if p.Some? then |p.value.clauses| else 0
  }

  /** The outcome of trying one clause. */
  datatype Attempt =
    | Resolved(frame: Bindings, goals: seq<Term>, counter: nat)
    | Rejected(counter: nat)
    | Stalled(counter: nat)

  /** One iteration of the do-while loop: rename the clause head against a
      copy of the node's frame, instantiate the body with that copy, match
      the goal with the renamed head under the node's frame, and on success
      rename the body's remaining variables against a copy of the match
      frame and instantiate body followed by the remaining goals with the
      match frame. The counter advances even when the match fails. */
  function TryClause(clause: Rule, frame: Bindings, goal: Term, tail: seq<Term>, counter: nat, fuel: nat): (r: Attempt)
    ensures counter <= r.counter
    ensures r.Resolved? ==> Extends(frame, r.frame)
  {
    var head := Internalize(clause.head, frame, counter);
    var body := InstantiateList(head.frame, BodyGoals(clause));
    match Unify(fuel, frame, goal, head.term)
    case Fails => Rejected(head.counter)
    case OutOfFuel => Stalled(head.counter)
    case Unifies(matched) =>
      var renamed := InternalizeList(body, matched, head.counter);
      Resolved(matched, InstantiateList(matched, renamed.terms + tail), renamed.counter)
  }

  /** The outcome of the whole loop from clause `from` on. */
  datatype Choice =
    | Chosen(index: nat, frame: Bindings, goals: seq<Term>, counter: nat)
    | Exhausted(counter: nat)
    | Stuck(index: nat, counter: nat)

  /** Clauses are tried in declaration order; the first that resolves is
      chosen, and running past the last one exhausts the node. */
  function TryClauses(clauses: seq<Rule>, from: nat, frame: Bindings, goal: Term, tail: seq<Term>, counter: nat, fuel: nat): (r: Choice)
    requires from < |clauses|
    ensures counter <= r.counter
    ensures r.Chosen? ==> from <= r.index < |clauses| && Extends(frame, r.frame)
    ensures r.Stuck? ==> from <= r.index < |clauses|
    decreases |clauses| - from
  {
    match TryClause(clauses[from], frame, goal, tail, counter, fuel)
    case Resolved(matched, goals, next) => Chosen(from, matched, goals, next)
    case Stalled(next) => Stuck(from, next)
    case Rejected(next) =>
      if from + 1 == |clauses| then Exhausted(next)
      else TryClauses(clauses, from + 1, frame, goal, tail, next, fuel)
  }

  /** The counter when the loop started at `from` reaches clause `k`: every
      attempt before it, rejected or not, has advanced the counter. */
  function CounterBefore(clauses: seq<Rule>, from: nat, k: nat, frame: Bindings, goal: Term, tail: seq<Term>, counter: nat, fuel: nat): (c: nat)
    requires from <= k <= |clauses|
    ensures counter <= c
    ensures k == from ==> c == counter
    decreases k - from
  {
    if from == k then counter
    else CounterBefore(clauses, from + 1, k, frame, goal, tail, TryClause(clauses[from], frame, goal, tail, counter, fuel).counter, fuel)
  }

  /** The loop chooses the first clause, in declaration order, whose attempt
      resolves: every clause before it was rejected, and the choice is that
      clause's attempt. Stopping on a stalled match likewise follows only
      rejections, and exhausting the node means every clause from `from` on
      was rejected. */
  lemma {:induction false} TryClausesFirst(clauses: seq<Rule>, from: nat, frame: Bindings, goal: Term, tail: seq<Term>, counter: nat, fuel: nat)
    requires from < |clauses|
    ensures var r := TryClauses(clauses, from, frame, goal, tail, counter, fuel);
      && (r.Chosen? ==> TryClause(clauses[r.index], frame, goal, tail, CounterBefore(clauses, from, r.index, frame, goal, tail, counter, fuel), fuel)
                        == Resolved(r.frame, r.goals, r.counter))
      && (r.Stuck? ==> TryClause(clauses[r.index], frame, goal, tail, CounterBefore(clauses, from, r.index, frame, goal, tail, counter, fuel), fuel)
                        == Stalled(r.counter))
      && (r.Chosen? || r.Stuck? ==> forall k :: from <= k < r.index ==>
            TryClause(clauses[k], frame, goal, tail, CounterBefore(clauses, from, k, frame, goal, tail, counter, fuel), fuel).Rejected?)
      && (r.Exhausted? ==> r.counter == CounterBefore(clauses, from, |clauses|, frame, goal, tail, counter, fuel))
      && (r.Exhausted? ==> forall k :: from <= k < |clauses| ==>
            TryClause(clauses[k], frame, goal, tail, CounterBefore(clauses, from, k, frame, goal, tail, counter, fuel), fuel).Rejected?)
    decreases |clauses| - from
  {
    var first := TryClause(clauses[from], frame, goal, tail, counter, fuel);
    if first.Rejected? && from + 1 < |clauses| {
      var next := first.counter;
      TryClausesFirst(clauses, from + 1, frame, goal, tail, next, fuel);
      forall k | from + 1 <= k <= |clauses|
        ensures CounterBefore(clauses, from, k, frame, goal, tail, counter, fuel)
             == CounterBefore(clauses, from + 1, k, frame, goal, tail, next, fuel)
      {
      }
    }
  }

  // ---------------------------------------------------------------------
  // Renaming apart
  // ---------------------------------------------------------------------

  /** The clause is written with program variables only, as every parsed
      rule is. */
  predicate ExternalOnly(clause: Rule)
  {
    forall v :: v in Vars(clause.head) + VarsOfList(BodyGoals(clause)) ==> !IsInternalName(v.name)
  }

  /** A node's invariant: its frame and goals mention internal variables
      only, all handed out before the factory reached `counter`. */
  predicate RenamedApart(frame: Bindings, goals: seq<Term>, counter: nat)
  {
    InternalBelow(FrameVars(frame) + VarsOfList(goals), counter)
  }

  lemma GeneratedBelow(v: Var, lo: nat, hi: nat, n: nat)
    requires Generated(v, lo, hi) && hi <= n
    ensures Generated(v, 0, n) && IsInternalName(v.name)
  {
    var k :| lo <= k < hi && v == Variable(InternalName(k));
    assert 0 <= k < n;
  }

  /** Renaming a clause head against a frame of internal variables: the head
      comes out with fresh internal variables only, and the body, instantiated
      with the renaming, mentions fresh internal variables and program
      variables only. */
  lemma RenameHead(clause: Rule, frame: Bindings, counter: nat)
    requires ExternalOnly(clause)
    requires InternalBelow(FrameVars(frame), counter)
    ensures var head := Internalize(clause.head, frame, counter);
      && InternalBelow(Vars(head.term), head.counter)
      && forall w :: w in VarsOfList(InstantiateList(head.frame, BodyGoals(clause))) ==>
           !IsInternalName(w.name) || Generated(w, 0, head.counter)
  {
    var head := Internalize(clause.head, frame, counter);
    InternalizeSpec(clause.head, frame, counter);
    RenamedHeadBelow(clause, frame, head.frame, counter, head.counter);
    var below := (w: Var) => Generated(w, 0, head.counter);
    InstantiateKeeps(External(head.frame), clause.head, below);
    var tame := (w: Var) => !IsInternalName(w.name) || Generated(w, 0, head.counter);
    InstantiateListKeeps(head.frame, BodyGoals(clause), tame);
  }

  /** The step of `RenameHead` about the bindings alone: every variable of
      the clause that the renaming binds is bound to a fresh variable. */
  lemma RenamedHeadBelow(clause: Rule, frame: Bindings, final: Bindings, lo: nat, hi: nat)
    requires ExternalOnly(clause)
    requires InternalBelow(FrameVars(frame), lo)
    requires final.Keys == frame.Keys + ExternalVars(Vars(clause.head))
    requires lo <= hi && FreshBindings(frame, final, lo, hi)
    ensures forall v :: v in Vars(clause.head) ==>
      v in External(final) && forall w :: w in Vars(External(final)[v]) ==> Generated(w, 0, hi)
    ensures forall v :: v in VarsOfList(BodyGoals(clause)) ==>
      if v in final then (forall w :: w in Vars(final[v]) ==> !IsInternalName(w.name) || Generated(w, 0, hi))
      else !IsInternalName(v.name) || Generated(v, 0, hi)
  {
    forall v | v in frame
      ensures IsInternalName(v.name)
    {
      GeneratedBelow(v, 0, lo, lo);
    }
    forall v | v in Vars(clause.head)
      ensures v in External(final) && forall w :: w in Vars(External(final)[v]) ==> Generated(w, 0, hi)
    {
      assert v in ExternalVars(Vars(clause.head));
      GeneratedBelow(final[v], lo, hi, hi);
    }
    forall v | v in VarsOfList(BodyGoals(clause)) && v in final
      ensures forall w :: w in Vars(final[v]) ==> !IsInternalName(w.name) || Generated(w, 0, hi)
    {
      assert v !in frame;
      GeneratedBelow(final[v], lo, hi, hi);
    }
  }

  /** Renaming the body's program variables against the match frame leaves
      internal variables only, all below the new counter. */
  lemma RenameBody(body: seq<Term>, matched: Bindings, n: nat)
    requires InternalBelow(FrameVars(matched), n)
    requires forall w :: w in VarsOfList(body) ==> !IsInternalName(w.name) || Generated(w, 0, n)
    ensures var renamed := InternalizeList(body, matched, n);
      InternalBelow(VarsOfList(renamed.terms), renamed.counter)
  {
    var renamed := InternalizeList(body, matched, n);
    InternalizeListSpec(body, matched, n);
    RenamedBodyBelow(body, matched, renamed.frame, n, renamed.counter);
    var below := (w: Var) => Generated(w, 0, renamed.counter);
    InstantiateListKeeps(External(renamed.frame), body, below);
  }

  /** The step of `RenameBody` about the bindings alone: each variable of
      the body is either renamed to a fresh variable or already internal. */
  lemma RenamedBodyBelow(body: seq<Term>, matched: Bindings, final: Bindings, n: nat, hi: nat)
    requires InternalBelow(FrameVars(matched), n)
    requires forall w :: w in VarsOfList(body) ==> !IsInternalName(w.name) || Generated(w, 0, n)
    requires final.Keys == matched.Keys + ExternalVars(VarsOfList(body))
    requires n <= hi && FreshBindings(matched, final, n, hi)
    ensures forall v :: v in VarsOfList(body) ==>
      if v in External(final) then (forall w :: w in Vars(External(final)[v]) ==> Generated(w, 0, hi))
      else Generated(v, 0, hi)
  {
    forall v | v in matched
      ensures IsInternalName(v.name)
    {
      GeneratedBelow(v, 0, n, n);
    }
    forall v | v in VarsOfList(body)
      ensures if v in External(final) then (forall w :: w in Vars(External(final)[v]) ==> Generated(w, 0, hi))
              else Generated(v, 0, hi)
    {
      if v in External(final) {
        assert v !in matched;
        GeneratedBelow(final[v], n, hi, hi);
      } else {
        GeneratedBelow(v, 0, n, hi);
      }
    }
  }

  /** Resolving a goal against a clause keeps every node renamed apart: the
      clause's variables are renamed to variables the factory had not yet
      handed out, so they never clash with the node's own, and the child
      frame and goals again mention only internal variables below the new
      counter. */
  lemma {:induction false} TryClauseRenamesApart(clause: Rule, frame: Bindings, goal: Term, tail: seq<Term>, counter: nat, fuel: nat)
    requires ExternalOnly(clause)
    requires RenamedApart(frame, [goal] + tail, counter)
    ensures var r := TryClause(clause, frame, goal, tail, counter, fuel);
      r.Resolved? ==> RenamedApart(r.frame, r.goals, r.counter)
  {
    VarsOfListCons([goal] + tail);
    assert ([goal] + tail)[1..] == tail;
    var head := Internalize(clause.head, frame, counter);
    RenameHead(clause, frame, counter);
    var body := InstantiateList(head.frame, BodyGoals(clause));
    match Unify(fuel, frame, goal, head.term)
    case Unifies(matched) =>
      UnifyVars(fuel, frame, goal, head.term);
      forall v | v in FrameVars(matched)
        ensures Generated(v, 0, head.counter)
      {
        if v in FrameVars(frame) || v in Vars(goal) {
          GeneratedBelow(v, 0, counter, head.counter);
        }
      }
      var renamed := InternalizeList(body, matched, head.counter);
      RenameBody(body, matched, head.counter);
      var r := TryClause(clause, frame, goal, tail, counter, fuel);
      assert r.frame == matched && r.counter == renamed.counter;
      assert r.goals == InstantiateList(matched, renamed.terms + tail);
      InstantiateListVars(matched, renamed.terms + tail);
      VarsOfListAppend(renamed.terms, tail);
      forall v | v in FrameVars(r.frame) + VarsOfList(r.goals)
        ensures Generated(v, 0, r.counter)
      {
        if v in FrameVars(matched) {
          GeneratedBelow(v, 0, head.counter, r.counter);
        } else if v in VarsOfList(tail) {
          GeneratedBelow(v, 0, counter, r.counter);
        }
      }
    case _ =>
  }

  /** When every rule of the knowledge base is written with program
      variables only, so is every clause a goal resolves against. */
  lemma GoalClausesExternalOnly(knowledge: Knowledge, goal: Term)
    requires knowledge.Valid()
    requires forall i :: 0 <= i < |knowledge.rules| ==> ExternalOnly(knowledge.rules[i])
    ensures var r := GoalPredicate(knowledge, goal);
      r.Ok? && r.value.Some? ==>
        forall i :: 0 <= i < |r.value.value.clauses| ==> ExternalOnly(r.value.value.clauses[i])
  {
    var r := GoalPredicate(knowledge, goal);
    if r.Ok? && r.value.Some? {
      var clauses := r.value.value.clauses;
      RulesNamedMembers(knowledge.rules, FullName(goal));
      forall i | 0 <= i < |clauses|
        ensures ExternalOnly(clauses[i])
      {
        assert clauses[i] in RulesNamed(knowledge.rules, FullName(goal));
        var j :| 0 <= j < |knowledge.rules| && knowledge.rules[j] == clauses[i];
      }
    }
  }

  /** The same across the whole loop over a predicate's clauses. */
  lemma {:induction false} TryClausesRenamesApart(clauses: seq<Rule>, from: nat, frame: Bindings, goal: Term, tail: seq<Term>, counter: nat, fuel: nat)
    requires from < |clauses|
    requires forall i :: 0 <= i < |clauses| ==> ExternalOnly(clauses[i])
    requires RenamedApart(frame, [goal] + tail, counter)
    ensures var r := TryClauses(clauses, from, frame, goal, tail, counter, fuel);
      r.Chosen? ==> RenamedApart(r.frame, r.goals, r.counter)
    decreases |clauses| - from
  {
    TryClauseRenamesApart(clauses[from], frame, goal, tail, counter, fuel);
    match TryClause(clauses[from], frame, goal, tail, counter, fuel)
    case Rejected(next) =>
      if from + 1 < |clauses| {
        forall v | v in FrameVars(frame) + VarsOfList([goal] + tail)
          ensures Generated(v, 0, next)
        {
          GeneratedBelow(v, 0, counter, next);
        }
        TryClausesRenamesApart(clauses, from + 1, frame, goal, tail, next, fuel);
      }
    case _ =>
  }

  /** The body of the do-while loop over `Frame` objects, shared by both
      search engines: it computes exactly `TryClause`. The node's own frame
      is only read; the match frame handed back is a fresh copy. */
  method AttemptClause(factory: InternalVariableFactory, clause: Rule, frame: Frame, goal: Term, tail: seq<Term>, fuel: nat)
    returns (matchFrame: Frame?, childGoals: seq<Term>, outOfFuel: bool)
    modifies factory
    ensures var a := TryClause(clause, frame.instantiations, goal, tail, old(factory.counter), fuel);
      && factory.counter == a.counter
      && (matchFrame != null <==> a.Resolved?)
      && (outOfFuel <==> a.Stalled?)
      && (matchFrame != null ==> fresh(matchFrame) && matchFrame.instantiations == a.frame && childGoals == a.goals)
  {
    var augmented := new Frame.Copy(frame);
    var internalizer := new FreeVariablesInternalizer(factory, augmented);
    var head := internalizer.Visit(clause.head);
    var body := GetTerms(clause);
    body := InstantiateList(augmented.instantiations, body);
    var matched, exhausted := Match(fuel, frame, goal, head);
    if exhausted {
      return null, [], true;
    }
    if matched == null {
      return null, [], false;
    }
    matchFrame := new Frame.Copy(matched);
    var tracking := new Frame.Copy(matchFrame);
    internalizer := new FreeVariablesInternalizer(factory, tracking);
    body := internalizer.VisitList(body);
    childGoals := InstantiateList(matchFrame.instantiations, body + tail);
    outOfFuel := false;
  }

  /** The do-while loop of `searchOne` over the clauses from index `from`
      on: attempts clause after clause until one resolves, the unifier runs
      out of fuel, or the clauses run out. `next` is the clause index the
      node keeps afterwards (the source increments it once per attempt;
      nothing reads it before the loop ends). */
  method FindClause(factory: InternalVariableFactory, clauses: seq<Rule>, from: nat, frame: Frame, goal: Term, tail: seq<Term>, fuel: nat)
    returns (next: nat, matchFrame: Frame?, childGoals: seq<Term>, outOfFuel: bool)
    requires from < |clauses|
    modifies factory
    ensures var choice := TryClauses(clauses, from, frame.instantiations, goal, tail, old(factory.counter), fuel);
      && factory.counter == choice.counter
      && match choice
         case Chosen(j, matched, goals, _) =>
           next == j + 1 && matchFrame != null && fresh(matchFrame)
           && matchFrame.instantiations == matched && childGoals == goals && !outOfFuel
         case Stuck(j, _) => next == j + 1 && matchFrame == null && outOfFuel
         case Exhausted(_) => next == |clauses| && matchFrame == null && !outOfFuel
  {
    ghost var choice := TryClauses(clauses, from, frame.instantiations, goal, tail, factory.counter, fuel);
    next := from;
    while true
      invariant from <= next < |clauses|
      invariant TryClauses(clauses, next, frame.instantiations, goal, tail, factory.counter, fuel) == choice
      decreases |clauses| - next
    {
      var clause := clauses[next];
      next := next + 1;
      matchFrame, childGoals, outOfFuel := AttemptClause(factory, clause, frame, goal, tail, fuel);
      if outOfFuel || matchFrame != null || next == |clauses| {
        return;
      }
    }
  }
}
