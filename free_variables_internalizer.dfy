/** Renaming of a term's free variables to fresh internal variables.

    `Internalize` specifies one walk of `FreeVariablesInternalizer` as a
    value: the renamed term, the tracking frame after the walk and the
    factory counter after it. The class `FreeVariablesInternalizer` is the
    source's visitor over a shared `Frame` and `InternalVariableFactory`,
    proved to compute exactly that. */
module Internalizing {
  import opened Wrappers
  import opened Terms
  import opened Frames
  import opened InternalVariables
  import opened Instantiation

  datatype Renamed = Renamed(term: Term, frame: Bindings, counter: nat)
  datatype RenamedList = RenamedList(terms: seq<Term>, frame: Bindings, counter: nat)

  function Internalize(t: Term, frame: Bindings, counter: nat): (r: Renamed)
    ensures counter <= r.counter
    ensures Extends(frame, r.frame)
    ensures t.Structure? ==> r.term.Structure? && r.term.functor == t.functor && |r.term.arguments| == |t.arguments|
    ensures !t.Variable? && !t.Structure? ==> r == Renamed(t, frame, counter)
  {
    match t
    case Variable(name) =>
      if !IsInternalName(name) then
        if t in frame then Renamed(frame[t], frame, counter)
        else
          var internal := Variable(InternalName(counter));
          Renamed(internal, frame[t := internal], counter + 1)
      else Renamed(t, frame, counter)
    case Structure(functor, arguments) =>
      var rs := InternalizeList(arguments, frame, counter);
      Renamed(Structure(functor, rs.terms), rs.frame, rs.counter)
    case _ => Renamed(t, frame, counter)
  }

  /** The list form and the argument loop: left to right, each element under
      the frame and counter the previous ones left. */
  function InternalizeList(ts: seq<Term>, frame: Bindings, counter: nat): (r: RenamedList)
    ensures counter <= r.counter
    ensures Extends(frame, r.frame)
    ensures |r.terms| == |ts|
  {
    if |ts| == 0 then RenamedList([], frame, counter)
    else
      var init := InternalizeList(ts[..|ts| - 1], frame, counter);
      var last := Internalize(ts[|ts| - 1], init.frame, init.counter);
      RenamedList(init.terms + [last.term], last.frame, last.counter)
  }

  /** The variables the walk renames: those without the internal prefix. */
  function ExternalVars(vs: set<Var>): set<Var>
  {
    set v | v in vs && !IsInternalName(v.name)
  }

  /** The bindings of a frame for variables without the internal prefix. */
  function External(frame: Bindings): Bindings
  {
    map v | v in frame && !IsInternalName(v.name) :: frame[v]
  }

  /** The term is numbered `_Gk` for some k in [lo, hi). */
  predicate Generated(t: Term, lo: nat, hi: nat)
  {
    exists k :: lo <= k < hi && t == Variable(InternalName(k))
  }

  /** What one walk does to the tracking frame and the term:
      - every external variable of the term becomes a key, and nothing else
        does;
      - the new bindings are pairwise distinct fresh internal variables,
        numbered from the counter's old value up to its new one;
      - the result is the term with each external variable replaced by its
        final binding, so repeated occurrences get the same term. */
  lemma {:induction false} InternalizeSpec(t: Term, frame: Bindings, counter: nat)
    ensures var r := Internalize(t, frame, counter);
      && r.frame.Keys == frame.Keys + ExternalVars(Vars(t))
      && FreshBindings(frame, r.frame, counter, r.counter)
      && r.term == Instantiate(External(r.frame), t)
  {
    var r := Internalize(t, frame, counter);
    match t
    case Variable(name) =>
    case Structure(functor, arguments) =>
      InternalizeListSpec(arguments, frame, counter);
    case _ =>
  }

  lemma {:induction false} InternalizeListSpec(ts: seq<Term>, frame: Bindings, counter: nat)
    ensures var r := InternalizeList(ts, frame, counter);
      && r.frame.Keys == frame.Keys + ExternalVars(VarsOfList(ts))
      && FreshBindings(frame, r.frame, counter, r.counter)
      && r.terms == InstantiateList(External(r.frame), ts)
  {
    var r := InternalizeList(ts, frame, counter);
    if |ts| > 0 {
      var front, t := ts[..|ts| - 1], ts[|ts| - 1];
      var init := InternalizeList(front, frame, counter);
      var last := Internalize(t, init.frame, init.counter);
      assert ts == front + [t];
      InternalizeListSpec(front, frame, counter);
      InternalizeSpec(t, init.frame, init.counter);
      FreshCompose(frame, init.frame, r.frame, counter, init.counter, r.counter);
      RenamedListStep(frame, front, t, init.frame, r.frame, init.terms, last.term);
    }
  }

  /** The step of `InternalizeListSpec`: the walk of the list's front and
      the walk of its last element combine into the walk of the list. */
  lemma RenamedListStep(frame: Bindings, front: seq<Term>, t: Term, mid: Bindings, final: Bindings,
                        terms: seq<Term>, term: Term)
    requires Extends(mid, final)
    requires mid.Keys == frame.Keys + ExternalVars(VarsOfList(front))
    requires final.Keys == mid.Keys + ExternalVars(Vars(t))
    requires terms == InstantiateList(External(mid), front)
    requires term == Instantiate(External(final), t)
    ensures final.Keys == frame.Keys + ExternalVars(VarsOfList(front + [t]))
    ensures terms + [term] == InstantiateList(External(final), front + [t])
  {
    assert VarsOfList(front + [t]) == VarsOfList(front) + Vars(t) by {
      assert (front + [t])[..|front|] == front;
    }
    // The earlier elements read the same bindings in the final frame.
    ExternalExtends(mid, final);
    InstantiateListAgrees(External(mid), External(final), front);
    InstantiateListSnoc(External(final), front, t);
  }

  lemma InstantiateListSnoc(frame: Bindings, front: seq<Term>, t: Term)
    ensures InstantiateList(frame, front + [t]) == InstantiateList(frame, front) + [Instantiate(frame, t)]
  {
    assert (front + [t])[..|front|] == front;
  }

  /** Every variable in `vs` is an internal variable numbered below `n`: the
      factory has not handed it out yet when its counter is `n` or more. */
  predicate InternalBelow(vs: set<Var>, n: nat)
  {
    forall v :: v in vs ==> Generated(v, 0, n)
  }

  /** The bindings `bigger` adds to `frame` are pairwise distinct internal
      variables numbered in [lo, hi). */
  predicate FreshBindings(frame: Bindings, bigger: Bindings, lo: nat, hi: nat)
  {
    && (forall v :: v in bigger && v !in frame ==> Generated(bigger[v], lo, hi))
    && (forall v, w :: v in bigger && v !in frame && w in bigger && w !in frame && v != w
          ==> bigger[v] != bigger[w])
  }

  lemma FreshCompose(first: Bindings, second: Bindings, third: Bindings, lo: nat, mid: nat, hi: nat)
    requires lo <= mid <= hi && Extends(first, second) && Extends(second, third)
    requires FreshBindings(first, second, lo, mid) && FreshBindings(second, third, mid, hi)
    ensures FreshBindings(first, third, lo, hi)
  {
    forall v | v in third && v !in first
      ensures Generated(third[v], lo, hi)
    {
      if v in second {
        var k :| lo <= k < mid && second[v] == Variable(InternalName(k));
        assert lo <= k < hi && third[v] == Variable(InternalName(k));
      } else {
        var k :| mid <= k < hi && third[v] == Variable(InternalName(k));
        assert lo <= k < hi;
      }
    }
    forall v, w | v in third && v !in first && w in third && w !in first && v != w
      ensures third[v] != third[w]
    {
      if v in second && w !in second {
        FreshAcrossRanges(third[v], lo, mid, third[w], hi);
      } else if w in second && v !in second {
        FreshAcrossRanges(third[w], lo, mid, third[v], hi);
      }
    }
  }

  /** Variables numbered from disjoint ranges are distinct. */
  lemma FreshAcrossRanges(a: Term, lo: nat, mid: nat, b: Term, hi: nat)
    requires Generated(a, lo, mid) && Generated(b, mid, hi)
    ensures a != b
  {
    var i :| lo <= i < mid && a == Variable(InternalName(i));
    var j :| mid <= j < hi && b == Variable(InternalName(j));
    InternalNameInjective(i, j);
  }

  lemma ExternalExtends(small: Bindings, big: Bindings)
    requires Extends(small, big)
    requires big.Keys == small.Keys + ExternalVars(big.Keys - small.Keys)
    ensures Extends(External(small), External(big))
  {
  }

  /** Instantiation reads only the bindings of the term's own variables. */
  lemma {:induction false} InstantiateAgrees(small: Bindings, big: Bindings, t: Term)
    requires Extends(small, big)
    requires forall v :: v in Vars(t) && v in big ==> v in small
    ensures Instantiate(small, t) == Instantiate(big, t)
  {
    if t.Structure? {
      VarsOfListElements(t.arguments);
      forall i | 0 <= i < |t.arguments|
        ensures Instantiate(small, t.arguments[i]) == Instantiate(big, t.arguments[i])
      {
        forall v | v in Vars(t.arguments[i])
          ensures v in Vars(t)
        {
          assert exists j :: 0 <= j < |t.arguments| && v in Vars(t.arguments[j]);
        }
        InstantiateAgrees(small, big, t.arguments[i]);
      }
    }
  }

  lemma InstantiateListAgrees(small: Bindings, big: Bindings, ts: seq<Term>)
    requires Extends(small, big)
    requires forall v :: v in VarsOfList(ts) && v in big ==> v in small
    ensures InstantiateList(small, ts) == InstantiateList(big, ts)
  {
    VarsOfListElements(ts);
    forall i | 0 <= i < |ts|
      ensures Instantiate(small, ts[i]) == Instantiate(big, ts[i])
    {
      forall v | v in Vars(ts[i])
        ensures v in VarsOfList(ts)
      {
        assert exists j :: 0 <= j < |ts| && v in Vars(ts[j]);
      }
      InstantiateAgrees(small, big, ts[i]);
    }
  }

  class FreeVariablesInternalizer {
    const factory: InternalVariableFactory
    const frame: Frame

    constructor (factory: InternalVariableFactory, frame: Frame)
      ensures this.factory == factory && this.frame == frame
    {
      this.factory := factory;
      this.frame := frame;
    }

    /** `visit` on one term: renames in place of the shared frame and
        factory exactly as `Internalize` says. */
    method Visit(t: Term) returns (r: Term)
      modifies frame, factory
      ensures Renamed(r, frame.instantiations, factory.counter)
           == Internalize(t, old(frame.instantiations), old(factory.counter))
      decreases t
    {
      match t
      case Variable(name) =>
        if !IsInternalName(name) {
          var instantiation := frame.GetInstantiation(t);
          if instantiation.None? {
            var internal := factory.Create();
            frame.Instantiate(t, internal);
            return internal;
          }
          return instantiation.value;
        }
        return t;
      case Structure(functor, arguments) =>
        var newArguments: seq<Term> := [];
        var i := 0;
        while i < |arguments|
          invariant 0 <= i <= |arguments|
          invariant RenamedList(newArguments, frame.instantiations, factory.counter)
                 == InternalizeList(arguments[..i], old(frame.instantiations), old(factory.counter))
        {
          assert arguments[..i + 1][..i] == arguments[..i];
          var argument := Visit(arguments[i]);
          newArguments := newArguments + [argument];
          i := i + 1;
        }
        assert arguments[..i] == arguments;
        return Structure(functor, newArguments);
      case _ =>
        return t;
    }

    /** `visit` on a list of terms. */
    method VisitList(ts: seq<Term>) returns (rs: seq<Term>)
      modifies frame, factory
      ensures RenamedList(rs, frame.instantiations, factory.counter)
           == InternalizeList(ts, old(frame.instantiations), old(factory.counter))
    {
      rs := [];
      var i := 0;
      while i < |ts|
        invariant 0 <= i <= |ts|
        invariant RenamedList(rs, frame.instantiations, factory.counter)
               == InternalizeList(ts[..i], old(frame.instantiations), old(factory.counter))
      {
        assert ts[..i + 1][..i] == ts[..i];
        var r := Visit(ts[i]);
        rs := rs + [r];
        i := i + 1;
      }
      assert ts[..i] == ts;
    }
  }
}
