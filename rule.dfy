/** Clauses: a head structure with an optional body. A missing body (null)
    marks a fact; a present but empty body is a rule with no goals. */
module Rules {
  import opened Wrappers
  import opened Terms

  datatype Rule = Rule(head: Struct, body: Option<seq<Term>>)

  /** `new Rule(head, body)`: a null head is rejected, anything else is kept
      as given. */
  function NewRule(head: Option<Struct>, body: Option<seq<Term>>): (r: Result<Rule, string>)
    ensures r.Ok? <==> head.Some?
    ensures r.Ok? ==> r.value.head == head.value && r.value.body == body
    ensures r.Ok? ==> (IsFact(r.value) <==> body.None?)
    ensures r.Err? ==> r.error == "head must not be null"
  {
    if head.None? then Err("head must not be null") else Ok(Rule(head.value, body))
  }

  /** `new Rule(head)`: a fact. */
  function NewFact(head: Option<Struct>): (r: Result<Rule, string>)
    ensures r.Ok? <==> head.Some?
    ensures r.Ok? ==> r.value.head == head.value && IsFact(r.value)
  {
    NewRule(head, None)
  }

  /** A fact is a rule without a body; a rule whose body is an empty list
      is not a fact. */
  function IsFact(rule: Rule): (r: bool)
    ensures !r <==> rule.body.Some?
    ensures rule.body == Some([]) ==> !r
  {
    rule.body.None?
  }
}
