/** A predicate: the non-empty, ordered list of clauses sharing one head
    name and arity. */
module Predicates {
  import opened Wrappers
  import opened Terms
  import opened Rules

  datatype Predicate = Predicate(clauses: seq<Rule>, name: string, fullName: string, arity: nat)

  /** Every head has the full name of the first one. */
  predicate UniformFullName(clauses: seq<Rule>)
    requires |clauses| > 0
  {
    forall i :: 0 <= i < |clauses| ==> FullName(clauses[i].head) == FullName(clauses[0].head)
  }

  /** What a successfully built predicate looks like. */
  predicate WellFormed(p: Predicate)
  {
    && |p.clauses| > 0
    && UniformFullName(p.clauses)
    && p.name == p.clauses[0].head.functor
    && p.fullName == FullName(p.clauses[0].head)
    && p.arity == Arity(p.clauses[0].head)
  }

  /** `isUniformFullName`: compares each later head with the first. */
  method IsUniformFullName(clauses: seq<Rule>) returns (uniform: bool)
    requires |clauses| > 0
    ensures uniform <==> UniformFullName(clauses)
  {
    var fullName := FullName(clauses[0].head);
    var i := 1;
    while i < |clauses|
      invariant 1 <= i <= |clauses|
      invariant forall j :: 0 <= j < i ==> FullName(clauses[j].head) == fullName
    {
      if FullName(clauses[i].head) != fullName {
        return false;
      }
      i := i + 1;
    }
    return true;
  }

  /** `new Predicate(clauses)`: rejects a null or empty array and a mix of
      full names; otherwise keeps the clauses in the order given and takes
      name, full name and arity from the first head. */
  method NewPredicate(clauses: Option<seq<Rule>>) returns (r: Result<Predicate, string>)
    ensures r.Ok? <==> clauses.Some? && |clauses.value| > 0 && UniformFullName(clauses.value)
    ensures r.Ok? ==> WellFormed(r.value) && r.value.clauses == clauses.value
    ensures (clauses.None? || |clauses.value| == 0) ==> r == Err("must supply at least one clause per predicate")
    ensures clauses.Some? && |clauses.value| > 0 && !UniformFullName(clauses.value)
         ==> r == Err("every clause in a predicate must have the same arity")
  {
    if clauses.None? || |clauses.value| == 0 {
      return Err("must supply at least one clause per predicate");
    }
    var uniform := IsUniformFullName(clauses.value);
    if !uniform {
      return Err("every clause in a predicate must have the same arity");
    }
    var first := clauses.value[0].head;
    return Ok(Predicate(clauses.value, first.functor, FullName(first), Arity(first)));
  }

  /** Every clause of a predicate has the predicate's own name and arity:
      equal full names mean equal names and arities. */
  lemma {:induction false} ClausesAgree(p: Predicate)
    requires WellFormed(p)
    ensures forall i :: 0 <= i < |p.clauses| ==>
      p.clauses[i].head.functor == p.name && Arity(p.clauses[i].head) == p.arity
  {
    forall i | 0 <= i < |p.clauses|
      ensures p.clauses[i].head.functor == p.name && Arity(p.clauses[i].head) == p.arity
    {
      var h := p.clauses[i].head;
      FullNameInjective(h.functor, Arity(h), p.name, p.arity);
    }
  }
}
