/** Applying a frame to a term. Each variable is replaced by its binding
    exactly once: the binding itself is not instantiated further, so a
    chain X -> Y -> a turns X into Y, not into a. */
module Instantiation {
  import opened Terms
  import opened Frames

  /** `Instantiator.visit` on one term. */
  function Instantiate(frame: Bindings, t: Term): (r: Term)
    ensures t.Variable? && t in frame ==> r == frame[t]
    ensures t.Variable? && t !in frame ==> r == t
    ensures t.Structure? ==> r.Structure? && r.functor == t.functor && |r.arguments| == |t.arguments|
    ensures t.Structure? ==> forall i :: 0 <= i < |t.arguments| ==> r.arguments[i] == Instantiate(frame, t.arguments[i])
    ensures t.Atom? || t.Anonymous? ==> r == t
  {
    match t
    case Variable(_) => if t in frame then frame[t] else t
    case Structure(functor, arguments) => Structure(functor, InstantiateList(frame, arguments))
    case _ => t
  }

  /** `Instantiator.visit` on a list, and the argument loop of the structure
      case: the same length, each element instantiated on its own. */
  function InstantiateList(frame: Bindings, ts: seq<Term>): (rs: seq<Term>)
    ensures |rs| == |ts|
    ensures forall i :: 0 <= i < |ts| ==> rs[i] == Instantiate(frame, ts[i])
  {
    if |ts| == 0 then [] else InstantiateList(frame, ts[..|ts| - 1]) + [Instantiate(frame, ts[|ts| - 1])]
  }

  /** A term none of whose variables is bound comes back unchanged. */
  lemma {:induction false} InstantiateUnbound(frame: Bindings, t: Term)
    requires forall v :: v in Vars(t) ==> v !in frame
    ensures Instantiate(frame, t) == t
  {
    if t.Structure? {
      InstantiateListUnbound(frame, t.arguments);
    }
  }

  lemma {:induction false} InstantiateListUnbound(frame: Bindings, ts: seq<Term>)
    requires forall v :: v in VarsOfList(ts) ==> v !in frame
    ensures InstantiateList(frame, ts) == ts
  {
    VarsOfListElements(ts);
    forall i | 0 <= i < |ts|
      ensures Instantiate(frame, ts[i]) == ts[i]
    {
      InstantiateUnbound(frame, ts[i]);
    }
  }

  /** The variables of the result: the unbound variables of the term and the
      variables of the bindings it used. */
  lemma {:induction false} InstantiateVars(frame: Bindings, t: Term)
    ensures Vars(Instantiate(frame, t)) <= Vars(t) + FrameVars(frame)
  {
    if t.Variable? && t in frame {
      assert Vars(frame[t]) <= FrameVars(frame);
    } else if t.Structure? {
      InstantiateListVars(frame, t.arguments);
    }
  }

  lemma {:induction false} InstantiateListVars(frame: Bindings, ts: seq<Term>)
    ensures VarsOfList(InstantiateList(frame, ts)) <= VarsOfList(ts) + FrameVars(frame)
  {
    var rs := InstantiateList(frame, ts);
    VarsOfListElements(ts);
    VarsOfListElements(rs);
    forall v | v in VarsOfList(rs)
      ensures v in VarsOfList(ts) + FrameVars(frame)
    {
      var i :| 0 <= i < |rs| && v in Vars(rs[i]);
      InstantiateVars(frame, ts[i]);
    }
  }

  /** A property of variables survives instantiation when every unbound
      variable of the term has it and so does every variable of each
      binding the term uses. */
  lemma {:induction false} InstantiateKeeps(frame: Bindings, t: Term, P: Var -> bool)
    requires forall v :: v in Vars(t) ==>
      if v in frame then (forall w :: w in Vars(frame[v]) ==> P(w)) else P(v)
    ensures forall w :: w in Vars(Instantiate(frame, t)) ==> P(w)
  {
    if t.Structure? {
      InstantiateListKeeps(frame, t.arguments, P);
    }
  }

  lemma {:induction false} InstantiateListKeeps(frame: Bindings, ts: seq<Term>, P: Var -> bool)
    requires forall v :: v in VarsOfList(ts) ==>
      if v in frame then (forall w :: w in Vars(frame[v]) ==> P(w)) else P(v)
    ensures forall w :: w in VarsOfList(InstantiateList(frame, ts)) ==> P(w)
  {
    var rs := InstantiateList(frame, ts);
    VarsOfListElements(ts);
    VarsOfListElements(rs);
    forall w | w in VarsOfList(rs)
      ensures P(w)
    {
      var i :| 0 <= i < |rs| && w in Vars(rs[i]);
      forall v | v in Vars(ts[i])
        ensures v in VarsOfList(ts)
      {
        assert exists j :: 0 <= j < |ts| && v in Vars(ts[j]);
      }
      InstantiateKeeps(frame, ts[i], P);
    }
  }

  /** Instantiation goes one level deep only. */
  lemma OneLevel()
    ensures var frame := map[Variable("X") := Variable("Y"), Variable("Y") := Atom("a")];
      Instantiate(frame, Variable("X")) == Variable("Y")
  {
  }
}
