/** The term hierarchy of the interpreter: atoms, named variables, the
    anonymous variable `_` and compound structures. Terms are immutable; the
    visitor dispatch of the source becomes a `match` over this datatype. */
module Terms {
  import opened Wrappers
  import opened Text

  datatype Term =
    | Atom(name: string)
    | Variable(name: string)
    | Anonymous
    | Structure(functor: string, arguments: seq<Term>)

  /** The source's static types `Variable` and `Structure`. */
  type Var = t: Term | t.Variable? witness Variable("_")

  type Struct = t: Term | t.Structure? witness Structure("", [])

  // ---------------------------------------------------------------------
  // Construction (the constructors' argument checks)
  // ---------------------------------------------------------------------

  /** Atom names are never rejected: the validity check is a stub that
      accepts every string, the empty one included. */
  predicate IsValidAtomName(name: string) { true }

  /** `new Atom(name)`; `None` stands for a null name. */
  function NewAtom(name: Option<string>): (r: Result<Term, string>)
    ensures r.Ok? <==> name.Some?
    ensures r.Ok? ==> r.value == Atom(name.value) && ToString(r.value) == name.value
    ensures name.None? ==> r == Err("name must not be null")
  {
    if name.None? then Err("name must not be null")
    else if !IsValidAtomName(name.value) then Err("name is invalid")
    else Ok(Atom(name.value))
  }

  /** Variable names start with an underscore or an upper-case letter;
      a lower-case letter or a digit first makes an atom or a number. */
  function IsValidVariableName(name: string): (r: bool)
    ensures r ==> |name| > 0 && !IsLower(name[0]) && !IsDigit(name[0])
    ensures |name| > 0 && name[0] == '_' ==> r
  {
    |name| > 0 && (name[0] == '_' || IsUpper(name[0]))
  }

  /** `new Variable(name)`: the name must be non-null, non-empty and start
      with an underscore or an upper-case letter. */
  function NewVariable(name: Option<string>): (r: Result<Term, string>)
    ensures r.Ok? <==> name.Some? && name.value != [] && (name.value[0] == '_' || 'A' <= name.value[0] <= 'Z')
    ensures r.Ok? ==> r.value == Variable(name.value) && ToString(r.value) == name.value
    ensures name.None? ==> r == Err("name must not be null")
    ensures name.Some? && r.Err? ==> r == Err("name is invalid")
  {
    if name.None? then Err("name must not be null")
    else if !IsValidVariableName(name.value) then Err("name is invalid")
    else Ok(Variable(name.value))
  }

  /** `new Structure(functor, arguments)`: neither may be null. The functor
      parameter has the static type `Atom`. */
  function NewStructure(functor: Option<Term>, arguments: Option<seq<Term>>): (r: Result<Term, string>)
    requires functor.Some? ==> functor.value.Atom?
    ensures r.Ok? <==> functor.Some? && arguments.Some?
    ensures r.Ok? ==> r.value.Structure? && Functor(r.value) == functor.value
                      && r.value.arguments == arguments.value && Arity(r.value) == |arguments.value|
    ensures functor.None? ==> r == Err("functor must not be null")
  {
    if functor.None? then Err("functor must not be null")
    else if arguments.None? then Err("arguments must not be null")
    else Ok(Structure(functor.value.name, arguments.value))
  }

  // ---------------------------------------------------------------------
  // Structure accessors
  // ---------------------------------------------------------------------

  function Functor(s: Struct): Term { Atom(s.functor) }

  /** The number of arguments; zero only for a structure written `f()`. */
  function Arity(s: Struct): (n: nat)
    ensures n == 0 <==> s.arguments == []
  {
    |s.arguments|
  }

  /** The key under which the knowledge base files a predicate. */
  function FullNameOf(name: string, arity: nat): string
  {
    name + "/" + NatToString(arity)
  }

  /** `getFullName`: the key of the structure's functor and arity. */
  function FullName(s: Struct): string
  {
    FullNameOf(s.functor, Arity(s))
  }

  /** A full name is the name, a '/', then decimal digits that read back
      as the arity. */
  lemma FullNameOfParts(name: string, arity: nat)
    ensures var r := FullNameOf(name, arity);
      |r| > |name| + 1 && r[..|name|] == name && r[|name|] == '/'
      && AllDigits(r[|name| + 1..]) && DigitsValue(r[|name| + 1..]) == arity
  {
    var digits := NatToString(arity);
    NatToStringRoundTrip(arity);
    assert FullNameOf(name, arity)[|name| + 1..] == digits;
  }

  /** The full name of a structure starts with its functor and a '/', and
      its digits read back as the number of arguments. */
  lemma FullNameParts(s: Struct)
    ensures var r := FullName(s);
      |r| > |s.functor| + 1 && r[..|s.functor|] == s.functor && r[|s.functor|] == '/'
      && AllDigits(r[|s.functor| + 1..]) && DigitsValue(r[|s.functor| + 1..]) == |s.arguments|
  {
    FullNameOfParts(s.functor, Arity(s));
  }

  /** Full names never collide: the decimal arity contains no '/', so the
      last '/' of a full name separates the name from the arity, whatever
      characters the name holds. */
  lemma FullNameInjective(name1: string, arity1: nat, name2: string, arity2: nat)
    ensures FullNameOf(name1, arity1) == FullNameOf(name2, arity2) <==> name1 == name2 && arity1 == arity2
  {
    if FullNameOf(name1, arity1) == FullNameOf(name2, arity2) {
      var d1, d2 := NatToString(arity1), NatToString(arity2);
      if |d1| < |d2| {
        SlashInLongerSuffix(name2, d2, name1, d1);
        assert false;
      } else if |d2| < |d1| {
        SlashInLongerSuffix(name1, d1, name2, d2);
        assert false;
      }
      var s := FullNameOf(name1, arity1);
      assert d1 == s[|s| - |d1|..] == d2;
      NatToStringInjective(arity1, arity2);
      assert name1 == s[..|name1|] == name2;
    }
  }

  /** In two equal strings "prefix/suffix", a longer suffix would hold the
      other string's '/'. */
  lemma SlashInLongerSuffix(prefix1: string, suffix1: string, prefix2: string, suffix2: string)
    requires prefix1 + "/" + suffix1 == prefix2 + "/" + suffix2
    requires |suffix2| < |suffix1|
    ensures suffix1[|suffix1| - |suffix2| - 1] == '/'
  {
    assert (prefix1 + "/" + suffix1)[|prefix2|] == (prefix2 + "/" + suffix2)[|prefix2|];
  }

  // ---------------------------------------------------------------------
  // equals and hashCode
  // ---------------------------------------------------------------------

  /** `Atom.equals`: the other object must be an atom with an equal name. */
  function AtomEquals(name: string, other: Option<Term>): bool
  {
    other.Some? && other.value.Atom? && other.value.name == name
  }

  /** `Structure.equals` between distinct references (the identity test
      that comes first is not modelled). The functor check compares the
      functor atom with the whole other object, so it always fails and the
      argument comparison after it is never reached: two distinct structure
      references are never equal, whatever they contain. */
  function StructureEquals(s: Struct, other: Option<Term>): (r: bool)
    ensures !r
  {
    if other.None? then false
    else if !other.value.Structure? then false
    else if !AtomEquals(other.value.functor, other) then false
    else assert false; false
  }

  /** `t.equals(other)` for two terms held by distinct references; `None`
      is null. Atoms and variables compare by name, any two anonymous
      variables are equal, and structures compare by identity only. */
  function Equals(t: Term, other: Option<Term>): (r: bool)
    ensures r <==> other == Some(t) && !t.Structure?
  {
    match t
    case Atom(name) => AtomEquals(name, other)
    case Variable(name) => other.Some? && other.value.Variable? && other.value.name == name
    case Anonymous => other.Some? && other.value.Anonymous?
    case Structure(_, _) => StructureEquals(t, other)
  }

  /** `Variable.hashCode` is the hash of the name, a signed 32-bit value. */
  function HashCode(v: Var): (h: int)
    ensures -0x8000_0000 <= h < 0x8000_0000
  {
    JavaHash(v.name)
  }

  lemma HashCodeConsistent(a: Var, b: Var)
    ensures Equals(a, Some(b)) ==> HashCode(a) == HashCode(b)
  {
  }

  // ---------------------------------------------------------------------
  // toString
  // ---------------------------------------------------------------------

  /** Atoms and variables print as their names, the anonymous variable as
      `_`, a structure as its functor followed by a parenthesised list. */
  function ToString(t: Term): (s: string)
    ensures t.Atom? || t.Variable? ==> s == t.name
    ensures t.Anonymous? ==> s == "_"
    ensures t.Structure? ==> |s| >= |t.functor| + 2 && s[..|t.functor|] == t.functor
                             && s[|t.functor|] == '(' && s[|s| - 1] == ')'
  {
    match t
    case Atom(name) => name
    case Variable(name) => name
    case Anonymous => "_"
    case Structure(functor, arguments) => functor + "(" + ArgumentsText(arguments) + ")"
  }

  /** The loop of `Structure.toString`: every argument, each but the last
      followed by ','. */
  function ArgumentsText(arguments: seq<Term>): string
  {
    if |arguments| == 0 then ""
    else if |arguments| == 1 then ToString(arguments[0])
    else ToString(arguments[0]) + "," + ArgumentsText(arguments[1..])
  }

  /** Strings joined with a separator, built from the right end. */
  function Join(parts: seq<string>, separator: string): string
  {
    if |parts| == 0 then ""
    else if |parts| == 1 then parts[0]
    else Join(parts[..|parts| - 1], separator) + separator + parts[|parts| - 1]
  }

  lemma {:induction false} JoinCons(first: string, rest: seq<string>, separator: string)
    requires |rest| > 0
    ensures Join([first] + rest, separator) == first + separator + Join(rest, separator)
  {
    var parts := [first] + rest;
    if |rest| > 1 {
      assert parts[..|parts| - 1] == [first] + rest[..|rest| - 1];
      JoinCons(first, rest[..|rest| - 1], separator);
    } else {
      assert parts[..|parts| - 1] == [first];
    }
  }

  /** `toString` of a structure is its functor, '(', the arguments' own
      renderings separated by ',', and ')'. */
  lemma {:induction false} StructureToString(functor: string, arguments: seq<Term>)
    ensures ToString(Structure(functor, arguments))
         == functor + "(" + Join(seq(|arguments|, i requires 0 <= i < |arguments| => ToString(arguments[i])), ",") + ")"
  {
    ArgumentsTextIsJoin(arguments);
  }

  lemma {:induction false} ArgumentsTextIsJoin(arguments: seq<Term>)
    ensures ArgumentsText(arguments)
         == Join(seq(|arguments|, i requires 0 <= i < |arguments| => ToString(arguments[i])), ",")
  {
    var parts := seq(|arguments|, i requires 0 <= i < |arguments| => ToString(arguments[i]));
    if |arguments| > 1 {
      var rest := seq(|arguments| - 1, i requires 0 <= i < |arguments| - 1 => ToString(arguments[1..][i]));
      ArgumentsTextIsJoin(arguments[1..]);
      assert parts == [ToString(arguments[0])] + rest;
      JoinCons(ToString(arguments[0]), rest, ",");
    }
  }

  // ---------------------------------------------------------------------
  // Variables of a term
  // ---------------------------------------------------------------------

  /** The named variables occurring in a term (the anonymous variable is not
      one of them). */
  function Vars(t: Term): set<Var>
  {
    match t
    case Variable(_) => {t}
    case Structure(_, arguments) => VarsOfList(arguments)
    case _ => {}
  }

  function VarsOfList(ts: seq<Term>): set<Var>
  {
    if |ts| == 0 then {} else VarsOfList(ts[..|ts| - 1]) + Vars(ts[|ts| - 1])
  }

  lemma {:induction false} VarsOfListAppend(xs: seq<Term>, ys: seq<Term>)
    ensures VarsOfList(xs + ys) == VarsOfList(xs) + VarsOfList(ys)
    decreases |ys|
  {
    if |ys| > 0 {
      assert (xs + ys)[..|xs + ys| - 1] == xs + ys[..|ys| - 1];
      VarsOfListAppend(xs, ys[..|ys| - 1]);
    } else {
      assert xs + ys == xs;
    }
  }

  lemma VarsOfListCons(ts: seq<Term>)
    requires |ts| > 0
    ensures VarsOfList(ts) == Vars(ts[0]) + VarsOfList(ts[1..])
  {
    assert ts == [ts[0]] + ts[1..];
    VarsOfListAppend([ts[0]], ts[1..]);
    assert VarsOfList([ts[0]]) == Vars(ts[0]);
  }

  /** The variables of a list are those of its elements. */
  lemma {:induction false} VarsOfListElements(ts: seq<Term>)
    ensures forall v :: v in VarsOfList(ts) <==> exists i :: 0 <= i < |ts| && v in Vars(ts[i])
  {
    if |ts| > 0 {
      VarsOfListElements(ts[..|ts| - 1]);
      assert forall i :: 0 <= i < |ts| - 1 ==> ts[..|ts| - 1][i] == ts[i];
    }
  }
}
