/** The second search engine: the same depth-first resolution with each
    node an object that returns where control goes next instead of
    assigning the tree's fields. */
module SearchNodes {
  import opened Wrappers
  import opened Terms
  import opened Frames
  import opened InternalVariables
  import opened Rules
  import opened Predicates
  import opened KnowledgeBase
  import opened Resolution

  /** `SearchResult`: the frame of a solution (none when control is only
      handed on) and the node that receives control (null for none). */
  datatype SearchResult = SearchResult(frame: Option<Frame>, node: SearchNode?)

  class SearchNode {
    const knowledge: Knowledge
    const factory: InternalVariableFactory
    const parent: SearchNode?
    const frame: Frame
    const goals: seq<Term>
    const goalPredicate: Option<Predicate>
    var currentClause: nat
    var children: seq<SearchNode>

    ghost predicate Valid()
      reads this
    {
      && knowledge.Valid()
      && NodePredicate(knowledge, goals) == Ok(goalPredicate)
      && currentClause <= NumClauses(goalPredicate)
    }

    /** The constructor, for goals whose leading goal (if any) is a
        structure; `Build` models the call that raises instead. */
    constructor (knowledge: Knowledge, factory: InternalVariableFactory, parent: SearchNode?, frame: Frame, goals: seq<Term>)
      requires knowledge.Valid()
      requires goals == [] || goals[0].Structure?
      ensures Valid()
      ensures this.knowledge == knowledge && this.factory == factory && this.parent == parent
      ensures this.frame == frame && this.goals == goals
      ensures goalPredicate == NodePredicate(knowledge, goals).value
      ensures currentClause == 0 && children == []
    {
      this.knowledge := knowledge;
      this.factory := factory;
      this.parent := parent;
      this.frame := frame;
      this.goals := goals;
      goalPredicate := NodePredicate(knowledge, goals).value;
      currentClause := 0;
      children := [];
    }

    /** `new SearchNode(...)`: raises an AssertionError carrying the goal's
        text when the leading goal is not a structure. */
    static method Build(knowledge: Knowledge, factory: InternalVariableFactory, parent: SearchNode?, frame: Frame, goals: seq<Term>)
      returns (r: Result<SearchNode, Exception>)
      requires knowledge.Valid()
      ensures r.Err? <==> goals != [] && !goals[0].Structure?
      ensures r.Err? ==> r.error == AssertionError(ToString(goals[0]))
      ensures r.Ok? ==> && fresh(r.value) && r.value.Valid()
                        && r.value.knowledge == knowledge && r.value.factory == factory && r.value.parent == parent
                        && r.value.frame == frame && r.value.goals == goals
                        && r.value.currentClause == 0 && r.value.children == []
    {
      if goals != [] && !goals[0].Structure? {
        return Err(AssertionError(ToString(goals[0])));
      }
      var node := new SearchNode(knowledge, factory, parent, frame, goals);
      return Ok(node);
    }

    /** `getFrame`: a copy, so that callers cannot change the node's frame. */
    method GetFrame() returns (f: Frame)
      ensures fresh(f) && f.instantiations == frame.instantiations
    {
      f := new Frame.Copy(frame);
    }

    /** `searchOne`: a node without goals returns its frame as a solution
        and yields to its parent; a node with no predicate or no clause left
        yields to its parent; otherwise the clause loop runs (see
        `Expand`). */
    method SearchOne(fuel: nat) returns (r: Result<SearchResult, Halt>)
      requires Valid()
      modifies this, factory
      ensures Valid()
      ensures goals == [] ==>
        && r == Ok(SearchResult(Some(frame), parent))
        && currentClause == old(currentClause) && children == old(children) && factory.counter == old(factory.counter)
      ensures goals != [] && (old(currentClause) == NumClauses(goalPredicate) || goalPredicate.None?) ==>
        && r == Ok(SearchResult(None, parent))
        && currentClause == old(currentClause) && children == old(children) && factory.counter == old(factory.counter)
      ensures goals != [] && goalPredicate.Some? && old(currentClause) < NumClauses(goalPredicate) ==>
        var choice := TryClauses(goalPredicate.value.clauses, old(currentClause), frame.instantiations,
                                 goals[0], goals[1..], old(factory.counter), fuel);
        && factory.counter == choice.counter
        && Expanded(old(children), choice, r)
        && (r.Ok? && r.value.node != parent ==> fresh(r.value.node) && fresh(r.value.node.frame))
    {
      if goals == [] {
        return Ok(SearchResult(Some(frame), parent));
      }
      if currentClause == NumClauses(goalPredicate) || goalPredicate.None? {
        return Ok(SearchResult(None, parent));
      }
      r := Expand(fuel);
    }

    /** The state the clause loop leaves behind, given its outcome: the
        clause index moved past the last clause tried, and on a resolving
        clause a new child, appended to `children`, that receives control. */
    ghost predicate Expanded(before: seq<SearchNode>, choice: Choice, r: Result<SearchResult, Halt>)
      reads this, if r.Ok? && r.value.node != null then {r.value.node, r.value.node.frame} else {}
    {
      match choice
      case Exhausted(_) =>
        currentClause == NumClauses(goalPredicate) && children == before && r == Ok(SearchResult(None, parent))
      case Stuck(j, _) =>
        currentClause == j + 1 && children == before && r == Err(OutOfFuel)
      case Chosen(j, matched, goals', _) =>
        && currentClause == j + 1
        && if goals' != [] && !goals'[0].Structure? then
             children == before && r == Err(Thrown(AssertionError(ToString(goals'[0]))))
           else
             && r.Ok? && r.value.frame.None? && r.value.node != null
             && var child := r.value.node;
             && children == before + [child]
             && child.knowledge == knowledge && child.factory == factory && child.parent == this
             && child.frame.instantiations == matched && child.goals == goals'
             && child.currentClause == 0 && child.children == [] && child.Valid()
    }

    /** The do-while loop of `searchOne`, for a node with a goal, a
        predicate and a clause left to try. */
    method Expand(fuel: nat) returns (r: Result<SearchResult, Halt>)
      requires Valid()
      requires goals != [] && goalPredicate.Some? && currentClause < NumClauses(goalPredicate)
      modifies this, factory
      ensures Valid()
      ensures var choice := TryClauses(goalPredicate.value.clauses, old(currentClause), frame.instantiations,
                                       goals[0], goals[1..], old(factory.counter), fuel);
        && factory.counter == choice.counter
        && Expanded(old(children), choice, r)
        && (r.Ok? && r.value.node != parent ==> fresh(r.value.node) && fresh(r.value.node.frame))
    {
      var next, matchFrame, childGoals, outOfFuel :=
        FindClause(factory, goalPredicate.value.clauses, currentClause, frame, goals[0], goals[1..], fuel);
      currentClause := next;
      if outOfFuel {
        return Err(OutOfFuel);
      }
      if matchFrame == null {
        return Ok(SearchResult(None, parent));
      }
      var child := Build(knowledge, factory, this, matchFrame, childGoals);
      if child.Err? {
        return Err(Thrown(child.error));
      }
      children := children + [child.value];
      return Ok(SearchResult(None, child.value));
    }
  }
}
