/** The resumable depth-first search over a tree of nodes. Nodes live in a
    list owned by the tree; `parent` and `children` are indices into it and
    the root is the first node. `current` is the node holding control (none
    once the search is over) and `result` the frame of the last solution
    found. */
module SearchTrees {
  import opened Wrappers
  import opened Terms
  import opened Frames
  import opened InternalVariables
  import opened Instantiation
  import opened Internalizing
  import opened Rules
  import opened Predicates
  import opened KnowledgeBase
  import opened Resolution

  /** A search node. Its frame object is never modified after the node is
      built. `numClauses` is `NumClauses(goalPredicate)`. */
  datatype Node = Node(
    parent: Option<nat>,
    frame: Frame,
    goals: seq<Term>,
    goalPredicate: Option<Predicate>,
    currentClause: nat,
    children: seq<nat>)

  /** The `Node` constructor: the leading goal picks the predicate, and a
      leading goal that is not a structure raises an AssertionError. */
  function NewNode(knowledge: Knowledge, parent: Option<nat>, frame: Frame, goals: seq<Term>): (r: Result<Node, Exception>)
    requires knowledge.Valid()
    ensures r.Err? <==> goals != [] && !goals[0].Structure?
    ensures r.Err? ==> r.error == AssertionError(ToString(goals[0]))
    ensures r.Ok? ==> && r.value.parent == parent && r.value.frame == frame && r.value.goals == goals
                      && r.value.currentClause == 0 && r.value.children == []
                      && (goals == [] ==> r.value.goalPredicate.None?)
                      && (goals != [] ==> r.value.goalPredicate == knowledge.GetPredicate(FullName(goals[0])))
  {
    match NodePredicate(knowledge, goals)
    case Err(e) => Err(e)
    case Ok(p) => Ok(Node(parent, frame, goals, p, 0, []))
  }

  /** Node `i` of a tree of `count` nodes is linked and built consistently. */
  ghost predicate NodeValid(knowledge: Knowledge, nodes: seq<Node>, i: nat)
    requires knowledge.Valid() && i < |nodes|
  {
    var n := nodes[i];
    && (n.parent.Some? ==> n.parent.value < i)
    && (forall c :: c in n.children ==> i < c < |nodes| && nodes[c].parent == Some(i))
    && NodePredicate(knowledge, n.goals) == Ok(n.goalPredicate)
    && n.currentClause <= NumClauses(n.goalPredicate)
  }

  /** Every node is linked and built consistently. */
  ghost predicate TreeValid(knowledge: Knowledge, nodes: seq<Node>)
    requires knowledge.Valid()
  {
    forall i :: 0 <= i < |nodes| ==> NodeValid(knowledge, nodes, i)
  }

  /** Advancing a node's clause index keeps the tree well formed. */
  lemma ReplaceNode(knowledge: Knowledge, nodes: seq<Node>, i: nat, m: Node)
    requires knowledge.Valid() && i < |nodes| && TreeValid(knowledge, nodes)
    requires m.parent == nodes[i].parent && m.goals == nodes[i].goals && m.children == nodes[i].children
    requires m.goalPredicate == nodes[i].goalPredicate && m.currentClause <= NumClauses(m.goalPredicate)
    ensures TreeValid(knowledge, nodes[i := m])
  {
    var updated := nodes[i := m];
    forall j | 0 <= j < |updated|
      ensures NodeValid(knowledge, updated, j)
    {
      assert NodeValid(knowledge, nodes, j);
    }
  }

  /** Appending a fresh child of node `i`, recorded first among its children,
      keeps the tree well formed. */
  lemma AddChild(knowledge: Knowledge, nodes: seq<Node>, i: nat, m: Node, child: Node)
    requires knowledge.Valid() && i < |nodes| && TreeValid(knowledge, nodes)
    requires m.parent == nodes[i].parent && m.goals == nodes[i].goals && m.children == [|nodes|] + nodes[i].children
    requires m.goalPredicate == nodes[i].goalPredicate && m.currentClause <= NumClauses(m.goalPredicate)
    requires child.parent == Some(i) && child.children == [] && child.currentClause == 0
    requires NodePredicate(knowledge, child.goals) == Ok(child.goalPredicate)
    ensures TreeValid(knowledge, nodes[i := m] + [child])
  {
    var grown := nodes[i := m] + [child];
    forall j | 0 <= j < |grown|
      ensures NodeValid(knowledge, grown, j)
    {
      if j < |nodes| {
        assert NodeValid(knowledge, nodes, j);
        forall c | c in grown[j].children
          ensures j < c < |grown| && grown[c].parent == Some(j)
        {
          if c != |nodes| {
            assert c in nodes[j].children;
          }
        }
      }
    }
  }

  /** The binding of a variable held as a term, as `createResultFrame`
      reads the internal variable of a query variable. */
  function BoundTerm(frame: Bindings, t: Term): Term
    requires t.Variable? && t in frame
  {
    var v: Var := t; frame[v]
  }

  /** The root node starts renamed apart: renaming a query written with
      program variables leaves only internal variables, all below the
      factory's counter, and an empty frame. */
  lemma RootRenamedApart(query: Struct)
    requires forall v :: v in Vars(query) ==> !IsInternalName(v.name)
    ensures var q := Internalize(query, map[], 0);
      RenamedApart(map[], [q.term], q.counter)
  {
    var q := Internalize(query, map[], 0);
    InternalizeSpec(query, map[], 0);
    var below := (w: Var) => Generated(w, 0, q.counter);
    forall v | v in Vars(query)
      ensures v in External(q.frame) && forall w :: w in Vars(External(q.frame)[v]) ==> below(w)
    {
      assert v in ExternalVars(Vars(query));
      GeneratedBelow(q.frame[v], 0, q.counter, q.counter);
    }
    InstantiateKeeps(External(q.frame), query, below);
    VarsOfListCons([q.term]);
    assert [q.term][1..] == [];
    assert FrameVars(map[]) == {};
  }

  /** The nodes and control a node expansion leaves behind, given the
      outcome of the clause loop: the node's clause index moved past the
      last clause tried, and on a resolving clause a new child, recorded
      first among the node's children, that receives control. Earlier
      nodes keep their goals, frames and parents. */
  ghost predicate Expanded(knowledge: Knowledge, before: seq<Node>, i: nat, choice: Choice,
                           after: seq<Node>, current: Option<nat>, halt: Option<Halt>)
    requires knowledge.Valid() && i < |before|
  {
    var n := before[i];
    match choice
    case Exhausted(_) =>
      && after == before[i := n.(currentClause := NumClauses(n.goalPredicate))]
      && current == n.parent && halt.None?
    case Stuck(j, _) =>
      && after == before[i := n.(currentClause := j + 1)]
      && current == Some(i) && halt == Some(OutOfFuel)
    case Chosen(j, _, goals, _) =>
      if goals != [] && !goals[0].Structure? then
        && after == before[i := n.(currentClause := j + 1)]
        && current == Some(i) && halt == Some(Thrown(AssertionError(ToString(goals[0]))))
      else
        var index := |before|;
        && |after| == index + 1
        && after == before[i := n.(currentClause := j + 1, children := [index] + n.children)] + [after[index]]
        && Ok(after[index]) == NewNode(knowledge, Some(i), after[index].frame, goals)
        && current == Some(index) && halt.None?
  }

  /** An expansion changes no earlier node's goals, frame or parent. */
  lemma ExpandedKeeps(knowledge: Knowledge, before: seq<Node>, i: nat, choice: Choice,
                      after: seq<Node>, current: Option<nat>, halt: Option<Halt>)
    requires knowledge.Valid() && i < |before|
    requires Expanded(knowledge, before, i, choice, after, current, halt)
    ensures |before| <= |after|
    ensures forall j :: 0 <= j < |before| ==>
      after[j].goals == before[j].goals && after[j].frame == before[j].frame && after[j].parent == before[j].parent
  {
  }

  /** Outcome of `searchOne` on the tree. */
  datatype Outcome =
    | Found(frame: Frame)   // a solution, as a fresh result frame
    | NoMore                // the search is over (the source's null)
    | StepsExhausted        // the step budget ran out first
    | Stopped(halt: Halt)   // an exception, or the unifier's fuel ran out

  class SearchTree {
    const knowledge: Knowledge
    const factory: InternalVariableFactory
    const queryFrame: Frame
    var nodes: seq<Node>
    var current: Option<nat>
    var result: Option<Frame>

    ghost predicate Valid()
      reads this, queryFrame
    {
      && knowledge.Valid()
      && |nodes| > 0 && nodes[0].parent.None?
      && TreeValid(knowledge, nodes)
      && (current.Some? ==> current.value < |nodes|)
      && (forall k :: k in queryFrame.instantiations ==> queryFrame.instantiations[k].Variable?)
    }

    /** The constructor renames the query's variables to internal ones,
        recording each original variable's internal name in `queryFrame`,
        and gives control to a root node with an empty frame and the
        renamed query as its only goal. */
    constructor (knowledge: Knowledge, query: Struct)
      requires knowledge.Valid()
      ensures Valid()
      ensures this.knowledge == knowledge && fresh(factory) && fresh(queryFrame)
      ensures var q := Internalize(query, map[], 0);
        && queryFrame.instantiations == q.frame
        && queryFrame.instantiations.Keys == ExternalVars(Vars(query))
        && factory.counter == q.counter
        && |nodes| == 1 && fresh(nodes[0].frame) && nodes[0].frame.instantiations == map[]
        && nodes[0].parent.None? && nodes[0].goals == [q.term]
        && nodes[0].currentClause == 0 && nodes[0].children == []
        && current == Some(0) && result.None?
    {
      var f := new InternalVariableFactory();
      var qf := new Frame();
      var internalizer := new FreeVariablesInternalizer(f, qf);
      var q := internalizer.Visit(query);
      InternalizeSpec(query, map[], 0);
      forall k | k in qf.instantiations
        ensures qf.instantiations[k].Variable?
      {
        var n :| 0 <= n < f.counter && qf.instantiations[k] == Variable(InternalName(n));
      }
      var rootFrame := new Frame();
      var root := NewNode(knowledge, None, rootFrame, [q]);
      this.knowledge := knowledge;
      factory := f;
      queryFrame := qf;
      nodes := [root.value];
      current := Some(0);
      result := None;
    }

    /** `Node.searchOne` on the current node: a node without goals is a
        solution and hands control to its parent; a node with no predicate
        or no clause left backtracks to its parent; otherwise the clause
        loop runs (see `Expand`). */
    method StepCurrent(fuel: nat) returns (halt: Option<Halt>)
      requires Valid() && current.Some?
      modifies this, factory
      ensures Valid()
      ensures |old(nodes)| <= |nodes|
      ensures halt != Some(Thrown(NullPointerException))
      ensures result != old(result) ==> result == Some(old(nodes[current.value].frame)) && old(nodes[current.value].goals) == []
      ensures forall j :: 0 <= j < |old(nodes)| ==>
        nodes[j].goals == old(nodes[j].goals) && nodes[j].frame == old(nodes[j].frame) && nodes[j].parent == old(nodes[j].parent)
      ensures var i := old(current.value); var n := old(nodes[i]);
        n.goals == [] ==>
          && nodes == old(nodes) && current == n.parent && result == Some(n.frame)
          && factory.counter == old(factory.counter) && halt.None?
      ensures var i := old(current.value); var n := old(nodes[i]);
        n.goals != [] && (n.currentClause == NumClauses(n.goalPredicate) || n.goalPredicate.None?) ==>
          && nodes == old(nodes) && current == n.parent && result == old(result)
          && factory.counter == old(factory.counter) && halt.None?
      ensures var i := old(current.value); var n := old(nodes[i]);
        n.goals != [] && n.goalPredicate.Some? && n.currentClause < NumClauses(n.goalPredicate) ==>
          var choice := TryClauses(n.goalPredicate.value.clauses, n.currentClause, n.frame.instantiations,
                                   n.goals[0], n.goals[1..], old(factory.counter), fuel);
          && factory.counter == choice.counter && result == old(result)
          && Expanded(knowledge, old(nodes), i, choice, nodes, current, halt)
          && (|nodes| == |old(nodes)| + 1 ==>
                choice.Chosen? && fresh(nodes[|old(nodes)|].frame) && nodes[|old(nodes)|].frame.instantiations == choice.frame)
    {
      var i := current.value;
      var n := nodes[i];
      assert NodeValid(knowledge, nodes, i);
      if n.goals == [] {
        current := n.parent;
        result := Some(n.frame);
        return None;
      }
      if n.currentClause == NumClauses(n.goalPredicate) || n.goalPredicate.None? {
        current := n.parent;
        return None;
      }
      ghost var before := nodes;
      halt := Expand(fuel);
      ghost var choice := TryClauses(n.goalPredicate.value.clauses, n.currentClause, n.frame.instantiations,
                                     n.goals[0], n.goals[1..], old(factory.counter), fuel);
      ExpandedKeeps(knowledge, before, i, choice, nodes, current, halt);
    }

    /** The clause loop of `Node.searchOne` on the current node, which has
        a goal, a predicate and a clause left to try. */
    method Expand(fuel: nat) returns (halt: Option<Halt>)
      requires Valid() && current.Some?
      requires var n := nodes[current.value];
        n.goals != [] && n.goalPredicate.Some? && n.currentClause < NumClauses(n.goalPredicate)
      modifies this, factory
      ensures Valid()
      ensures var i := old(current.value); var n := old(nodes[i]);
        var choice := TryClauses(n.goalPredicate.value.clauses, n.currentClause, n.frame.instantiations,
                                 n.goals[0], n.goals[1..], old(factory.counter), fuel);
        && factory.counter == choice.counter && result == old(result)
        && Expanded(knowledge, old(nodes), i, choice, nodes, current, halt)
        && (|nodes| == |old(nodes)| + 1 ==>
              choice.Chosen? && fresh(nodes[|old(nodes)|].frame) && nodes[|old(nodes)|].frame.instantiations == choice.frame)
    {
      var i := current.value;
      var n := nodes[i];
      assert NodeValid(knowledge, nodes, i);
      ghost var choice := TryClauses(n.goalPredicate.value.clauses, n.currentClause, n.frame.instantiations,
                                     n.goals[0], n.goals[1..], factory.counter, fuel);
      var next, matchFrame, childGoals, outOfFuel :=
        FindClause(factory, n.goalPredicate.value.clauses, n.currentClause, n.frame, n.goals[0], n.goals[1..], fuel);
      if outOfFuel {
        assert choice.Stuck?;
        SetClause(i, next);
        return Some(OutOfFuel);
      }
      if matchFrame == null {
        assert choice.Exhausted?;
        SetClause(i, next);
        current := n.parent;
        return None;
      }
      assert choice.Chosen?;
      var child := NewNode(knowledge, Some(i), matchFrame, childGoals);
      if child.Err? {
        SetClause(i, next);
        return Some(Thrown(child.error));
      }
      AppendChild(i, next, child.value);
      return None;
    }

    /** Moves node `i`'s clause index to `next`. */
    method SetClause(i: nat, next: nat)
      requires Valid() && i < |nodes| && next <= NumClauses(nodes[i].goalPredicate)
      modifies this
      ensures nodes == old(nodes)[i := old(nodes[i]).(currentClause := next)]
      ensures current == old(current) && result == old(result)
      ensures Valid()
    {
      ReplaceNode(knowledge, nodes, i, nodes[i].(currentClause := next));
      nodes := nodes[i := nodes[i].(currentClause := next)];
    }

    /** Moves node `i`'s clause index to `next` and records `child` as its
        newest child, listed first among its children, giving it control. */
    method AppendChild(i: nat, next: nat, child: Node)
      requires Valid() && i < |nodes| && next <= NumClauses(nodes[i].goalPredicate)
      requires child.parent == Some(i) && child.children == [] && child.currentClause == 0
      requires NodePredicate(knowledge, child.goals) == Ok(child.goalPredicate)
      modifies this
      ensures nodes == old(nodes)[i := old(nodes[i]).(currentClause := next, children := [|old(nodes)|] + old(nodes[i].children))] + [child]
      ensures current == Some(|old(nodes)|) && result == old(result)
      ensures Valid()
    {
      var index := |nodes|;
      assert NodeValid(knowledge, nodes, i);
      var updated := nodes[i].(currentClause := next, children := [index] + nodes[i].children);
      AddChild(knowledge, nodes, i, updated, child);
      nodes := nodes[i := updated] + [child];
      current := Some(index);
    }

    /** `createResultFrame`: each original query variable mapped to the
        one-level instantiation of its internal variable's binding; an
        unbound internal variable is dereferenced as null. */
    method CreateResultFrame(frame: Frame) returns (r: Result<Frame, Exception>)
      requires forall k :: k in queryFrame.instantiations ==> queryFrame.instantiations[k].Variable?
      ensures r.Ok? <==> forall k :: k in queryFrame.instantiations ==> queryFrame.instantiations[k] in frame.instantiations
      ensures r.Err? ==> r.error == NullPointerException
      ensures r.Ok? ==> && fresh(r.value)
                        && r.value.instantiations.Keys == queryFrame.instantiations.Keys
                        && forall k :: k in queryFrame.instantiations ==>
                             r.value.instantiations[k]
                             == Instantiate(frame.instantiations, BoundTerm(frame.instantiations, queryFrame.instantiations[k]))
    {
      var query := queryFrame.instantiations;
      var out := new Frame();
      var pending := query.Keys;
      while pending != {}
        invariant pending <= query.Keys
        invariant fresh(out)
        invariant out.instantiations.Keys == query.Keys - pending
        invariant forall k :: k in out.instantiations ==>
          query[k] in frame.instantiations
          && out.instantiations[k] == Instantiate(frame.instantiations, BoundTerm(frame.instantiations, query[k]))
        decreases |pending|
      {
        var k :| k in pending;
        var term := frame.GetInstantiation(query[k]);
        if term.None? {
          return Err(NullPointerException);
        }
        out.Instantiate(k, Instantiate(frame.instantiations, term.value));
        pending := pending - {k};
      }
      return Ok(out);
    }

    /** `searchOne`: steps the current node until a solution appears or no
        node holds control, then turns the solution into a result frame.
        Once the search is over, it reports so without stepping. */
    method SearchOne(steps: nat, fuel: nat) returns (outcome: Outcome)
      requires Valid()
      modifies this, factory
      ensures Valid()
      ensures |old(nodes)| <= |nodes|
      ensures old(current).None? ==> outcome == NoMore && nodes == old(nodes) && factory.counter == old(factory.counter)
      ensures outcome.NoMore? ==> current.None? && result.None?
      ensures outcome.StepsExhausted? ==> current.Some? && result.None?
      ensures outcome.Found? ==>
        && result.Some? && fresh(outcome.frame)
        && outcome.frame.instantiations.Keys == queryFrame.instantiations.Keys
        && (forall k :: k in queryFrame.instantiations ==>
              && queryFrame.instantiations[k] in result.value.instantiations
              && outcome.frame.instantiations[k]
                 == Instantiate(result.value.instantiations, BoundTerm(result.value.instantiations, queryFrame.instantiations[k])))
        && exists j :: 0 <= j < |nodes| && nodes[j].goals == [] && nodes[j].frame == result.value
      ensures outcome == Stopped(Thrown(NullPointerException)) ==>
        && result.Some?
        && exists k :: k in queryFrame.instantiations && queryFrame.instantiations[k] !in result.value.instantiations
    {
      result := None;
      var taken := 0;
      while current.Some? && result.None? && taken < steps
        invariant Valid()
        invariant |old(nodes)| <= |nodes|
        invariant old(current).None? ==> nodes == old(nodes) && current.None? && result.None? && factory.counter == old(factory.counter)
        invariant result.Some? ==> exists j :: 0 <= j < |nodes| && nodes[j].goals == [] && nodes[j].frame == result.value
        decreases steps - taken
      {
        ghost var i := current.value;
        var halt := StepCurrent(fuel);
        if halt.Some? {
          return Stopped(halt.value);
        }
        if result.Some? {
          assert nodes[i].goals == [] && nodes[i].frame == result.value;
        }
        taken := taken + 1;
      }
      if result.Some? {
        var r := CreateResultFrame(result.value);
        if r.Err? {
          return Stopped(Thrown(r.error));
        }
        return Found(r.value);
      }
      if current.None? {
        return NoMore;
      }
      return StepsExhausted;
    }
  }
}
