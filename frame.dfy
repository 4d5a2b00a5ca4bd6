/** Substitution frames: a mutable map from variables to the terms they are
    bound to. The interpreter never changes a frame after handing it on;
    every extension goes through the copy constructor first. */
module Frames {
  import opened Wrappers
  import opened Terms

  /** A frame's contents. Keys are whole variables; since variables compare
      and hash by name only, this is the source's `HashMap<Variable, Term>`. */
  type Bindings = map<Var, Term>

  /** `bigger` keeps every binding of `frame` unchanged. */
  predicate Extends(frame: Bindings, bigger: Bindings)
  {
    forall v :: v in frame ==> v in bigger && bigger[v] == frame[v]
  }

  /** Every named variable a frame mentions, as a key or inside a value. */
  function FrameVars(frame: Bindings): set<Var>
  {
    frame.Keys + (set k, v | k in frame && v in Vars(frame[k]) :: v)
  }

  class Frame {
    var instantiations: Bindings

    /** A new frame has no bindings. */
    constructor ()
      ensures instantiations == map[]
    {
      instantiations := map[];
    }

    /** The copy constructor clones the other frame's map; being a fresh
        object, the copy shares no state with the original, so a later
        `Instantiate` on either leaves the other as it was. */
    constructor Copy(other: Frame)
      ensures instantiations == other.instantiations
    {
      instantiations := other.instantiations;
    }

    /** Binds `variable` to `term`, replacing an earlier binding; no other
        variable and no other frame changes. */
    method Instantiate(variable: Var, term: Term)
      modifies this
      ensures instantiations == old(instantiations)[variable := term]
      ensures GetInstantiation(variable) == Some(term) && HasInstantiation(variable)
      ensures forall w :: w != variable ==> HasInstantiation(w) == old(HasInstantiation(w))
      ensures forall w :: w != variable ==> GetInstantiation(w) == old(GetInstantiation(w))
    {
      instantiations := instantiations[variable := term];
    }

    /** Whether `variable` has been bound in this frame. */
    function HasInstantiation(variable: Var): (r: bool)
      reads this
      ensures r <==> variable in instantiations.Keys
    {
      variable in instantiations
    }

    /** The binding of `variable`; `None` (null) exactly when it has none,
        since no null term is ever stored. */
    function GetInstantiation(variable: Var): (r: Option<Term>)
      reads this
      ensures r.None? <==> !HasInstantiation(variable)
      ensures r.Some? ==> r.value == instantiations[variable]
    {
      if variable in instantiations then Some(instantiations[variable]) else None
    }

    /** All bindings of the frame: exactly the bound variables, each with
        the term `GetInstantiation` returns for it. */
    function GetInstantiations(): (r: Bindings)
      reads this
      ensures forall v :: v in r <==> HasInstantiation(v)
      ensures forall v :: v in r ==> GetInstantiation(v) == Some(r[v])
    {
      instantiations
    }
  }
}
