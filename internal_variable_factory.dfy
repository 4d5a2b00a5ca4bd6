/** The source of fresh internal variables `_G0`, `_G1`, ... shared by a
    whole search. The Java `int` counter is modelled as a natural: its
    wrap-around after 2^31 calls is not modelled. */
module InternalVariables {
  import opened Text
  import opened Terms

  /** The name of the n-th internal variable. */
  function InternalName(n: nat): (name: string)
    ensures IsInternalName(name) && IsValidVariableName(name)
  {
    "_G" + NatToString(n)
  }

  /** The renamer's test for an internal variable: the name starts with
      "_G". */
  predicate IsInternalName(name: string)
  {
    |name| >= 2 && name[0] == '_' && name[1] == 'G'
  }

  lemma InternalNameInjective(m: nat, n: nat)
    ensures InternalName(m) == InternalName(n) <==> m == n
  {
    if InternalName(m) == InternalName(n) {
      assert NatToString(m) == InternalName(m)[2..] == InternalName(n)[2..] == NatToString(n);
      NatToStringInjective(m, n);
    }
  }

  lemma FirstInternalName()
    ensures InternalName(0) == "_G0"
  {
  }

  class InternalVariableFactory {
    var counter: nat

    constructor ()
      ensures counter == 0
    {
      counter := 0;
    }

    /** Returns the variable numbered by the counter, then increments the
        counter: successive calls yield `_G0`, `_G1`, ..., pairwise distinct
        (InternalNameInjective). */
    method Create() returns (v: Var)
      modifies this
      ensures counter == old(counter) + 1
      ensures v == Variable(InternalName(old(counter)))
      ensures IsInternalName(v.name) && IsValidVariableName(v.name)
    {
      v := Variable(InternalName(counter));
      counter := counter + 1;
    }
  }
}
