/** The clause database: rules grouped into predicates by the full name
    (`name/arity`) of their heads, each group in the order the rules were
    given. */
module KnowledgeBase {
  import opened Wrappers
  import opened Text
  import opened Terms
  import opened Rules
  import opened Predicates

  /** The rules whose head has the given full name, in their input order. */
  function RulesNamed(rules: seq<Rule>, fullName: string): (group: seq<Rule>)
    ensures forall i :: 0 <= i < |group| ==> FullName(group[i].head) == fullName
  {
    if |rules| == 0 then []
    else
      var init := RulesNamed(rules[..|rules| - 1], fullName);
      if FullName(rules[|rules| - 1].head) == fullName then init + [rules[|rules| - 1]] else init
  }

  /** The full names of the heads of the rules. */
  function FullNames(rules: seq<Rule>): set<string>
  {
    set i | 0 <= i < |rules| :: FullName(rules[i].head)
  }

  /** A group holds exactly the rules with that full name, and it is empty
      exactly when no rule has that full name. */
  lemma {:induction false} RulesNamedMembers(rules: seq<Rule>, fullName: string)
    ensures forall r :: r in RulesNamed(rules, fullName) <==> r in rules && FullName(r.head) == fullName
    ensures |RulesNamed(rules, fullName)| > 0 <==> fullName in FullNames(rules)
  {
    if |rules| > 0 {
      var init := rules[..|rules| - 1];
      RulesNamedMembers(init, fullName);
      assert rules == init + [rules[|rules| - 1]];
      assert FullNames(rules) == FullNames(init) + {FullName(rules[|rules| - 1].head)} by {
        forall k | k in FullNames(rules) ensures k in FullNames(init) + {FullName(rules[|rules| - 1].head)} {
          var i :| 0 <= i < |rules| && FullName(rules[i].head) == k;
          if i < |rules| - 1 {
            assert init[i] == rules[i];
          }
        }
        forall k | k in FullNames(init) ensures k in FullNames(rules) {
          var i :| 0 <= i < |init| && FullName(init[i].head) == k;
          assert rules[i] == init[i];
        }
      }
    }
  }

  /** A non-empty group satisfies the predicate's validation, so building a
      knowledge base never hits the "same arity" error. */
  lemma GroupIsUniform(rules: seq<Rule>, fullName: string)
    requires fullName in FullNames(rules)
    ensures |RulesNamed(rules, fullName)| > 0 && UniformFullName(RulesNamed(rules, fullName))
  {
    RulesNamedMembers(rules, fullName);
  }

  /** `groupRules`: one list per full name, each rule appended to its list
      in input order. */
  method GroupRules(rules: seq<Rule>) returns (groups: map<string, seq<Rule>>)
    ensures groups.Keys == FullNames(rules)
    ensures forall k :: k in groups ==> groups[k] == RulesNamed(rules, k)
  {
    groups := map[];
    var i := 0;
    while i < |rules|
      invariant 0 <= i <= |rules|
      invariant groups.Keys == FullNames(rules[..i])
      invariant forall k :: k in groups ==> groups[k] == RulesNamed(rules[..i], k)
    {
      var rule := rules[i];
      var key := FullName(rule.head);
      assert rules[..i + 1][..i] == rules[..i];
      assert FullNames(rules[..i + 1]) == FullNames(rules[..i]) + {key} by {
        forall k | k in FullNames(rules[..i + 1]) ensures k in FullNames(rules[..i]) + {key} {
          var j :| 0 <= j < i + 1 && FullName(rules[..i + 1][j].head) == k;
          if j < i {
            assert rules[..i + 1][j] == rules[..i][j];
          }
        }
      }
      RulesNamedMembers(rules[..i], key);
      if key !in groups {
        groups := groups[key := []];
      }
      groups := groups[key := groups[key] + [rule]];
      i := i + 1;
    }
    assert rules[..i] == rules;
  }

  /** `p` is the predicate the knowledge base builds for full name `k`. */
  predicate Catalogued(rules: seq<Rule>, k: string, p: Predicate)
  {
    WellFormed(p) && p.fullName == k && p.clauses == RulesNamed(rules, k)
  }

  class Knowledge {
    /** The rules the base was built from (a specification-only record). */
    ghost const rules: seq<Rule>
    const predicates: map<string, Predicate>

    ghost predicate Valid()
    {
      && predicates.Keys == FullNames(rules)
      && forall k :: k in predicates ==> Catalogued(rules, k, predicates[k])
    }

    /** `new Knowledge(rules)`: one predicate per full name, holding that
        name's rules in input order. */
    constructor (rules: seq<Rule>)
      ensures this.rules == rules
      ensures Valid()
    {
      var groups := GroupRules(rules);
      var built: map<string, Predicate> := map[];
      var pending := groups.Keys;
      while pending != {}
        invariant pending <= groups.Keys
        invariant built.Keys == groups.Keys - pending
        invariant forall k :: k in built ==> Catalogued(rules, k, built[k])
        decreases |pending|
      {
        var k :| k in pending;
        GroupIsUniform(rules, k);
        var made := NewPredicate(Some(groups[k]));
        built := built[k := made.value];
        pending := pending - {k};
      }
      this.rules := rules;
      predicates := built;
    }

    /** `getPredicate(fullName)`: the predicate made of exactly the rules
        with that full name, or null when no rule has it. */
    function GetPredicate(fullName: string): (r: Option<Predicate>)
      requires Valid()
      ensures r.None? <==> forall i :: 0 <= i < |rules| ==> FullName(rules[i].head) != fullName
      ensures r.Some? ==> r.value.clauses == RulesNamed(rules, fullName) && |r.value.clauses| > 0
    {
      if fullName in predicates then Some(predicates[fullName]) else None
    }

    /** `getPredicate(name, arity)` looks up the string `name + '/' + arity`,
        which for a non-negative arity is the full name `name/arity`. */
    function GetPredicateByArity(name: string, arity: int): (r: Option<Predicate>)
      requires Valid()
      ensures arity >= 0 ==> r == GetPredicate(FullNameOf(name, arity))
    {
      GetPredicate(name + "/" + IntToString(arity))
    }
  }

  /** No full name has a negative arity: the text after the last '/' of a
      full name is all digits, while a negative arity starts with '-'. */
  lemma NegativeArityNamesNothing(name: string, arity: int, s: Struct)
    requires arity < 0
    ensures name + "/" + IntToString(arity) != FullName(s)
  {
    var d1, d2 := IntToString(arity), NatToString(Arity(s));
    var lhs, rhs := name + "/" + d1, s.functor + "/" + d2;
    if |lhs| == |rhs| {
      // A position where the two strings differ.
      if |d1| == |d2| {
        assert lhs[|lhs| - |d1|] == '-' && IsDigit(rhs[|rhs| - |d2|]);
      } else if |d1| < |d2| {
        assert lhs[|lhs| - |d1| - 1] == '/' && IsDigit(rhs[|rhs| - |d1| - 1]);
      } else {
        var k := |d1| - |d2| - 1;
        assert rhs[|rhs| - |d2| - 1] == '/';
        assert lhs[|lhs| - |d2| - 1] == d1[k];
        assert k == 0 || d1[k] == d1[1..][k - 1];
      }
    }
  }

  /** Looking up by name and arity finds a predicate of that name and arity,
      and finds one exactly when some rule's head has them; a negative arity
      finds nothing. */
  lemma GetPredicateByArityFinds(knowledge: Knowledge, name: string, arity: int)
    requires knowledge.Valid()
    ensures var r := knowledge.GetPredicateByArity(name, arity);
      && (arity < 0 ==> r.None?)
      && (r.Some? ==> r.value.name == name && r.value.arity == arity)
      && (r.Some? <==> exists i :: 0 <= i < |knowledge.rules|
                         && knowledge.rules[i].head.functor == name && Arity(knowledge.rules[i].head) == arity)
  {
    var r := knowledge.GetPredicateByArity(name, arity);
    if arity < 0 {
      forall i | 0 <= i < |knowledge.rules|
        ensures FullName(knowledge.rules[i].head) != name + "/" + IntToString(arity)
      {
        NegativeArityNamesNothing(name, arity, knowledge.rules[i].head);
      }
    } else if r.Some? {
      var key := FullNameOf(name, arity);
      var p := r.value;
      FullNameInjective(p.name, p.arity, name, arity);
      RulesNamedMembers(knowledge.rules, key);
      var head := p.clauses[0].head;
      assert p.clauses[0] in knowledge.rules;
      var i :| 0 <= i < |knowledge.rules| && knowledge.rules[i] == p.clauses[0];
      FullNameInjective(head.functor, Arity(head), name, arity);
    } else {
      var key := FullNameOf(name, arity);
      forall i | 0 <= i < |knowledge.rules|
        ensures !(knowledge.rules[i].head.functor == name && Arity(knowledge.rules[i].head) == arity)
      {
        assert FullName(knowledge.rules[i].head) != key;
      }
    }
  }
}
