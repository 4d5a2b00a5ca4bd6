/** The recursive-descent reader of terms, rules and knowledge bases, over
    the tokens of `Lexing`. */
module Parsing {
  import opened Wrappers
  import opened Text
  import opened Terms
  import opened InternalVariables
  import opened Rules
  import opened KnowledgeBase
  import opened Lexing

  /** The parser's fields: the current token and the lexer behind it. */
  datatype ParserState = ParserState(token: Token, lex: LexState)

  /** A parse result and the state it leaves; after a failure the state is
      where the exception was raised. */
  datatype Parsed<+T> = Parsed(result: Result<T, Failure>, state: ParserState)

  /** Decreases with every token the parser consumes: the lexer moves
      forward on every token but the last, and the last one is consumed
      at most once before the end-of-file token stays current. */
  function Measure(code: string, p: ParserState): nat
    requires Consistent(code, p.lex)
  {
    2 * (|code| - p.lex.index) + (if p.token.tokenType == EndOfFile then 0 else 1)
  }

  function WithValue<T, U>(r: Parsed<T>, value: U): Parsed<U>
  {
    Parsed(if r.result.Ok? then Ok(value) else Err(r.result.error), r.state)
  }

  function Expected(wanted: TokenType, got: Token): Failure
  {
    ReadException(got.location, "Expected " + TypeName(wanted) + ", got " + TypeName(got.tokenType))
  }

  /** `advance`: the next token becomes current. */
  function Step(file: string, code: string, p: ParserState): (r: Parsed<()>)
    requires Consistent(code, p.lex)
    ensures Consistent(code, r.state.lex)
    ensures r.result.Ok? && p.token.tokenType != EndOfFile ==> Measure(code, r.state) < Measure(code, p)
  {
    var l := NextToken(file, code, p.lex);
    if l.result.Err? then Parsed(Err(l.result.error), ParserState(p.token, l.state))
    else Parsed(Ok(()), ParserState(l.result.value, l.state))
  }

  /** `checkAdvance`: the current token must have the given type; it is
      then consumed. */
  function CheckedAdvance(file: string, code: string, p: ParserState, wanted: TokenType): (r: Parsed<()>)
    requires Consistent(code, p.lex)
    ensures Consistent(code, r.state.lex)
    ensures p.token.tokenType != wanted ==> r == Parsed(Err(Expected(wanted, p.token)), p)
    ensures r.result.Ok? && wanted != EndOfFile ==> Measure(code, r.state) < Measure(code, p)
  {
    if p.token.tokenType != wanted then Parsed(Err(Expected(wanted, p.token)), p)
    else Step(file, code, p)
  }

  /** `advanceExpect`: the token after the current one must have the given
      type; it becomes current. */
  function ExpectNext(file: string, code: string, p: ParserState, wanted: TokenType): (r: Parsed<()>)
    requires Consistent(code, p.lex)
    ensures Consistent(code, r.state.lex)
    ensures r.result.Ok? ==> r.state.token.tokenType == wanted
    ensures r.result.Ok? && p.token.tokenType != EndOfFile ==> Measure(code, r.state) < Measure(code, p)
  {
    var a := Step(file, code, p);
    if a.result.Err? then a
    else if a.state.token.tokenType != wanted then Parsed(Err(Expected(wanted, a.state.token)), a.state)
    else a
  }

  /** The optional comma after an argument or a goal: consumed when
      present. */
  function OptionalComma(file: string, code: string, p: ParserState): (r: Parsed<()>)
    requires Consistent(code, p.lex)
    ensures Consistent(code, r.state.lex)
    ensures r.result.Ok? ==> Measure(code, r.state) <= Measure(code, p)
  {
    if p.token.tokenType == Comma then Step(file, code, p) else Parsed(Ok(()), p)
  }

  /** The shape of every term the parser builds: variables are named by
      identifiers that start with an upper-case letter. */
  predicate NamedByParser(t: Term)
  {
    match t
    case Variable(name) => name != [] && IsUpper(name[0])
    case Structure(_, arguments) => forall i :: 0 <= i < |arguments| ==> NamedByParser(arguments[i])
    case _ => true
  }

  /** `parseAtom`: the current identifier as an atom. */
  function AtomAt(file: string, code: string, p: ParserState): (r: Parsed<Term>)
    requires Consistent(code, p.lex)
    ensures Consistent(code, r.state.lex)
    ensures r.result.Ok? ==> p.token.tokenType == Identifier && r.result.value == Atom(p.token.text)
    ensures r.result.Ok? ==> Measure(code, r.state) < Measure(code, p)
    ensures p.token.tokenType != Identifier ==> r == Parsed(Err(Expected(Identifier, p.token)), p)
  {
    WithValue(CheckedAdvance(file, code, p, Identifier), Atom(p.token.text))
  }

  /** `parseTerm`: a variable for an identifier with an upper-case initial;
      otherwise an atom, or a structure when `(` follows; the anonymous
      variable for `_`. */
  function TermAt(file: string, code: string, p: ParserState): (r: Parsed<Term>)
    requires Consistent(code, p.lex)
    ensures Consistent(code, r.state.lex)
    ensures r.result.Ok? ==> Measure(code, r.state) < Measure(code, p) && NamedByParser(r.result.value)
    decreases Measure(code, p), 1
  {
    match p.token.tokenType
    case Identifier =>
      if p.token.text == [] then Parsed(Err(StringIndexOutOfBounds), p)
      else if IsUpper(p.token.text[0]) then WithValue(Step(file, code, p), Variable(p.token.text))
      else
        var a := AtomAt(file, code, p);
        if a.result.Err? || a.state.token.tokenType != LeftParen then a
        else WithArguments(p.token.text, ArgumentsAt(file, code, a.state))
    case Underscore => WithValue(Step(file, code, p), Anonymous)
    case _ => Parsed(Err(ReadException(p.token.location, "Expected term")), p)
  }

  function WithArguments(functor: string, r: Parsed<seq<Term>>): Parsed<Term>
  {
    Parsed(if r.result.Ok? then Ok(Structure(functor, r.result.value)) else Err(r.result.error), r.state)
  }

  /** `parseArguments`: from `(` to the matching `)`. */
  function ArgumentsAt(file: string, code: string, p: ParserState): (r: Parsed<seq<Term>>)
    requires Consistent(code, p.lex) && p.token.tokenType == LeftParen
    ensures Consistent(code, r.state.lex)
    ensures r.result.Ok? ==> Measure(code, r.state) < Measure(code, p)
    ensures r.result.Ok? ==> forall i :: 0 <= i < |r.result.value| ==> NamedByParser(r.result.value[i])
    decreases Measure(code, p), 3
  {
    var s := Step(file, code, p);
    if s.result.Err? then Parsed(Err(s.result.error), s.state)
    else ArgumentsFrom(file, code, s.state, [])
  }

  /** The loop of `parseArguments`: terms, each optionally followed by a
      comma, up to `)`; `arguments` holds those read so far. */
  function ArgumentsFrom(file: string, code: string, p: ParserState, arguments: seq<Term>): (r: Parsed<seq<Term>>)
    requires Consistent(code, p.lex)
    ensures Consistent(code, r.state.lex)
    ensures r.result.Ok? ==> Measure(code, r.state) < Measure(code, p)
    ensures r.result.Ok? ==> |arguments| <= |r.result.value| && r.result.value[..|arguments|] == arguments
    ensures r.result.Ok? && (forall i :: 0 <= i < |arguments| ==> NamedByParser(arguments[i])) ==>
              forall i :: 0 <= i < |r.result.value| ==> NamedByParser(r.result.value[i])
    decreases Measure(code, p), 2
  {
    if p.token.tokenType == RightParen then
      WithValue(Step(file, code, p), arguments)
    else if p.token.tokenType == EndOfFile then
      Parsed(Err(ReadException(p.token.location, "Unexpected end of file in parameter list")), p)
    else
      var t := TermAt(file, code, p);
      if t.result.Err? then Parsed(Err(t.result.error), t.state)
      else
        var c := OptionalComma(file, code, t.state);
        if c.result.Err? then Parsed(Err(c.result.error), c.state)
        else
          var more := arguments + [t.result.value];
          assert more[..|arguments|] == arguments;
          ArgumentsFrom(file, code, c.state, more)
  }

  /** `parseStructure`: a term that must be a structure. */
  function StructureAt(file: string, code: string, p: ParserState): (r: Parsed<Struct>)
    requires Consistent(code, p.lex)
    ensures Consistent(code, r.state.lex)
    ensures r.result.Ok? ==> Measure(code, r.state) < Measure(code, p) && NamedByParser(r.result.value)
    ensures var t := TermAt(file, code, p);
      && (r.result.Ok? <==> t.result.Ok? && t.result.value.Structure?)
      && (t.result.Ok? && !t.result.value.Structure? ==>
            r == Parsed(Err(ReadException(t.state.token.location, "Expected structure")), t.state))
  {
    var t := TermAt(file, code, p);
    if t.result.Err? then Parsed(Err(t.result.error), t.state)
    else if !t.result.value.Structure? then Parsed(Err(ReadException(t.state.token.location, "Expected structure")), t.state)
    else
      var head: Struct := t.result.value;
      Parsed(Ok(head), t.state)
  }

  predicate RuleNamedByParser(rule: Rule)
  {
    && NamedByParser(rule.head)
    && (rule.body.Some? ==> forall i :: 0 <= i < |rule.body.value| ==> NamedByParser(rule.body.value[i]))
  }

  /** `parseRule`: `head.` is a fact; `head :- goal, ... .` a rule whose
      body may be empty. */
  function RuleAt(file: string, code: string, p: ParserState): (r: Parsed<Rule>)
    requires Consistent(code, p.lex)
    ensures Consistent(code, r.state.lex)
    ensures r.result.Ok? ==> Measure(code, r.state) < Measure(code, p) && RuleNamedByParser(r.result.value)
  {
    var h := StructureAt(file, code, p);
    if h.result.Err? then Parsed(Err(h.result.error), h.state)
    else if h.state.token.tokenType == Colon then
      var e := ExpectNext(file, code, h.state, Hyphen);
      if e.result.Err? then Parsed(Err(e.result.error), e.state)
      else
        var s := Step(file, code, e.state);
        if s.result.Err? then Parsed(Err(s.result.error), s.state)
        else BodyFrom(file, code, s.state, h.result.value, [])
    else
      WithValue(CheckedAdvance(file, code, h.state, Period), Rule(h.result.value, None))
  }

  /** The loop of `parseRule` over the body: terms, each optionally followed
      by a comma, up to `.`; `body` holds those read so far. */
  function BodyFrom(file: string, code: string, p: ParserState, head: Struct, body: seq<Term>): (r: Parsed<Rule>)
    requires Consistent(code, p.lex)
    ensures Consistent(code, r.state.lex)
    ensures r.result.Ok? ==> Measure(code, r.state) < Measure(code, p)
    ensures r.result.Ok? ==> && r.result.value.head == head && r.result.value.body.Some?
                             && |body| <= |r.result.value.body.value|
                             && r.result.value.body.value[..|body|] == body
    ensures r.result.Ok? && (forall i :: 0 <= i < |body| ==> NamedByParser(body[i])) ==>
              forall i :: 0 <= i < |r.result.value.body.value| ==> NamedByParser(r.result.value.body.value[i])
    decreases Measure(code, p)
  {
    if p.token.tokenType == Period then
      WithValue(CheckedAdvance(file, code, p, Period), Rule(head, Some(body)))
    else if p.token.tokenType == EndOfFile then
      Parsed(Err(ReadException(p.token.location, "Unexpected end of file in rule")), p)
    else
      var t := TermAt(file, code, p);
      if t.result.Err? then Parsed(Err(t.result.error), t.state)
      else
        var c := OptionalComma(file, code, t.state);
        if c.result.Err? then Parsed(Err(c.result.error), c.state)
        else
          var more := body + [t.result.value];
          assert more[..|body|] == body;
          BodyFrom(file, code, c.state, head, more)
  }

  /** The loop of `parseKnowledge`: rules while the current token is an
      identifier, in the order of the text; `rules` holds those read so
      far. */
  function RulesFrom(file: string, code: string, p: ParserState, rules: seq<Rule>): (r: Parsed<seq<Rule>>)
    requires Consistent(code, p.lex)
    ensures Consistent(code, r.state.lex)
    ensures r.result.Ok? ==> |rules| <= |r.result.value| && r.result.value[..|rules|] == rules
    ensures r.result.Ok? ==> r.state.token.tokenType != Identifier
    ensures r.result.Ok? && (forall i :: 0 <= i < |rules| ==> RuleNamedByParser(rules[i])) ==>
              forall i :: 0 <= i < |r.result.value| ==> RuleNamedByParser(r.result.value[i])
    decreases Measure(code, p)
  {
    if p.token.tokenType != Identifier then Parsed(Ok(rules), p)
    else
      var r := RuleAt(file, code, p);
      if r.result.Err? then Parsed(Err(r.result.error), r.state)
      else
        var more := rules + [r.result.value];
        assert more[..|rules|] == rules;
        RulesFrom(file, code, r.state, more)
  }

  /** The variables of a rule, head and body. */
  function RuleVars(rule: Rule): set<Var>
  {
    Vars(rule.head) + if rule.body.Some? then VarsOfList(rule.body.value) else {}
  }

  /** What the parser does with each kind of current token: an identifier
      with an upper-case initial is a variable of that name, any other
      identifier an atom or (before `(`) a structure with that name, `_` the
      anonymous variable, and anything else an error. */
  lemma TermByToken(file: string, code: string, p: ParserState)
    requires Consistent(code, p.lex)
    ensures var r := TermAt(file, code, p); var token := p.token;
      && (token.tokenType != Identifier && token.tokenType != Underscore ==>
            r == Parsed(Err(ReadException(token.location, "Expected term")), p))
      && (token.tokenType == Identifier && token.text == [] ==> r == Parsed(Err(StringIndexOutOfBounds), p))
      && (r.result.Ok? ==>
            match r.result.value
            case Variable(name) => token.tokenType == Identifier && name == token.text && IsUpper(name[0])
            case Anonymous => token.tokenType == Underscore
            case Atom(name) =>
              && token.tokenType == Identifier && name == token.text && !IsUpper(name[0])
              && r.state.token.tokenType != LeftParen
            case Structure(functor, _) => token.tokenType == Identifier && functor == token.text && !IsUpper(functor[0]))
  {
  }

  /** A variable the parser builds never carries the `_G` prefix reserved
      for internal variables. */
  lemma {:induction false} NamedByParserVars(t: Term)
    requires NamedByParser(t)
    ensures forall v :: v in Vars(t) ==> v.name != [] && IsUpper(v.name[0]) && !IsInternalName(v.name)
  {
    match t
    case Structure(_, arguments) =>
      VarsOfListElements(arguments);
      forall i | 0 <= i < |arguments|
        ensures forall v :: v in Vars(arguments[i]) ==> v.name != [] && IsUpper(v.name[0]) && !IsInternalName(v.name)
      {
        NamedByParserVars(arguments[i]);
      }
    case _ =>
  }

  /** So no variable of a parsed knowledge base is internal: the renaming
      before each clause is tried always replaces all of them. */
  lemma ParsedRulesHaveNoInternalVariables(file: string, code: string, p: ParserState)
    requires Consistent(code, p.lex)
    ensures var r := RulesFrom(file, code, p, []);
      r.result.Ok? ==>
        forall i, v :: 0 <= i < |r.result.value| && v in RuleVars(r.result.value[i]) ==> !IsInternalName(v.name)
  {
    var r := RulesFrom(file, code, p, []);
    if r.result.Ok? {
      forall i, v | 0 <= i < |r.result.value| && v in RuleVars(r.result.value[i])
        ensures !IsInternalName(v.name)
      {
        var rule := r.result.value[i];
        NamedByParserVars(rule.head);
        if rule.body.Some? && v in VarsOfList(rule.body.value) {
          VarsOfListElements(rule.body.value);
          var j :| 0 <= j < |rule.body.value| && v in Vars(rule.body.value[j]);
          NamedByParserVars(rule.body.value[j]);
        }
      }
    }
  }

  /** `f()`: a `(` directly followed by `)` gives no arguments. */
  lemma EmptyArgumentList(file: string, code: string, p: ParserState)
    requires Consistent(code, p.lex) && p.token.tokenType == LeftParen
    requires var s := Step(file, code, p); s.result.Ok? && s.state.token.tokenType == RightParen
    ensures var q := Step(file, code, p).state; var r := ArgumentsAt(file, code, p);
      && (r.result.Ok? <==> Step(file, code, q).result.Ok?)
      && (r.result.Ok? ==> r.result.value == [])
  {
  }

  /** A comma after the last argument is accepted: it is consumed and the
      list ends at the `)` after it. */
  lemma TrailingCommaAccepted(file: string, code: string, p: ParserState, arguments: seq<Term>)
    requires Consistent(code, p.lex) && p.token.tokenType != RightParen && p.token.tokenType != EndOfFile
    requires var t := TermAt(file, code, p);
      && t.result.Ok? && t.state.token.tokenType == Comma
      && var c := Step(file, code, t.state); c.result.Ok? && c.state.token.tokenType == RightParen
    ensures var t := TermAt(file, code, p); var c := Step(file, code, t.state);
      ArgumentsFrom(file, code, p, arguments) == WithValue(Step(file, code, c.state), arguments + [t.result.value])
  {
    var t := TermAt(file, code, p);
    var c := Step(file, code, t.state);
    assert OptionalComma(file, code, t.state) == c;
  }

  /** Commas between arguments are optional: when a term is not followed
      by a comma, the next argument is read straight after it, so `f(a b)`
      reads as `f(a, b)`. */
  lemma MissingCommaAccepted(file: string, code: string, p: ParserState, arguments: seq<Term>)
    requires Consistent(code, p.lex) && p.token.tokenType != RightParen && p.token.tokenType != EndOfFile
    requires var t := TermAt(file, code, p); t.result.Ok? && t.state.token.tokenType != Comma
    ensures var t := TermAt(file, code, p);
      ArgumentsFrom(file, code, p, arguments) == ArgumentsFrom(file, code, t.state, arguments + [t.result.value])
  {
  }

  /** The same in a rule body: `h :- a b.` has the body `a, b`. */
  lemma MissingCommaInBody(file: string, code: string, p: ParserState, head: Struct, body: seq<Term>)
    requires Consistent(code, p.lex) && p.token.tokenType != Period && p.token.tokenType != EndOfFile
    requires var t := TermAt(file, code, p); t.result.Ok? && t.state.token.tokenType != Comma
    ensures var t := TermAt(file, code, p);
      BodyFrom(file, code, p, head, body) == BodyFrom(file, code, t.state, head, body + [t.result.value])
  {
  }

  /** The end of the text inside an argument list is an error. */
  lemma EndOfFileInArguments(file: string, code: string, p: ParserState, arguments: seq<Term>)
    requires Consistent(code, p.lex) && p.token.tokenType == EndOfFile
    ensures ArgumentsFrom(file, code, p, arguments)
         == Parsed(Err(ReadException(p.token.location, "Unexpected end of file in parameter list")), p)
  {
  }

  /** A rule is a fact exactly when its head is not followed by `:`; the
      head is the structure read first. */
  lemma FactOrRule(file: string, code: string, p: ParserState)
    requires Consistent(code, p.lex)
    ensures var h := StructureAt(file, code, p); var r := RuleAt(file, code, p);
      r.result.Ok? ==>
        && h.result.Ok? && r.result.value.head == h.result.value
        && (IsFact(r.result.value) <==> h.state.token.tokenType != Colon)
  {
  }

  /** `:` must be followed by `-`; anything else is an error naming what
      was found. */
  lemma ColonNeedsHyphen(file: string, code: string, p: ParserState)
    requires Consistent(code, p.lex)
    requires var h := StructureAt(file, code, p);
      && h.result.Ok? && h.state.token.tokenType == Colon
      && var s := Step(file, code, h.state); s.result.Ok? && s.state.token.tokenType != Hyphen
    ensures var s := Step(file, code, StructureAt(file, code, p).state);
      RuleAt(file, code, p) == Parsed(Err(Expected(Hyphen, s.state.token)), s.state)
  {
  }

  /** `head :- .` is accepted: a rule with an empty body, which is not a
      fact. */
  lemma EmptyBodyAccepted(file: string, code: string, p: ParserState)
    requires Consistent(code, p.lex)
    requires var h := StructureAt(file, code, p);
      && h.result.Ok? && h.state.token.tokenType == Colon
      && var e := ExpectNext(file, code, h.state, Hyphen);
      && e.result.Ok?
      && var s := Step(file, code, e.state);
      && s.result.Ok? && s.state.token.tokenType == Period
      && Step(file, code, s.state).result.Ok?
    ensures var r := RuleAt(file, code, p);
      r.result.Ok? && r.result.value.body == Some([]) && !IsFact(r.result.value)
  {
  }

  class Parser {
    const lexer: Lexer
    var current: Token

    function State(): ParserState
      reads this, lexer
    {
      ParserState(current, lexer.State())
    }

    predicate Valid()
      reads this, lexer
    {
      lexer.Valid()
    }

    /** The fields once the first token is read; `Open` reads it. */
    constructor Over(lexer: Lexer, first: Token)
      ensures this.lexer == lexer && current == first
    {
      this.lexer := lexer;
      current := first;
    }

    /** The constructor: reads the first token, whose failure is the
        constructor's. */
    static method Open(lexer: Lexer) returns (r: Result<Parser, Failure>)
      requires lexer.Valid()
      modifies lexer
      ensures lexer.Valid()
      ensures var l := NextToken(lexer.file, lexer.code, old(lexer.State()));
        && lexer.State() == l.state
        && (r.Ok? <==> l.result.Ok?)
        && (r.Ok? ==> fresh(r.value) && r.value.lexer == lexer && r.value.current == l.result.value)
        && (r.Err? ==> r.error == l.result.error)
    {
      var first := lexer.Read();
      if first.Err? {
        return Err(first.error);
      }
      var parser := new Parser.Over(lexer, first.value);
      return Ok(parser);
    }

    method Advance() returns (r: Result<(), Failure>)
      requires Valid()
      modifies this, lexer
      ensures Valid() && Parsed(r, State()) == Step(lexer.file, lexer.code, old(State()))
    {
      var next := lexer.Read();
      if next.Err? {
        return Err(next.error);
      }
      current := next.value;
      return Ok(());
    }

    method CheckAdvance(wanted: TokenType) returns (r: Result<(), Failure>)
      requires Valid()
      modifies this, lexer
      ensures Valid() && Parsed(r, State()) == CheckedAdvance(lexer.file, lexer.code, old(State()), wanted)
    {
      if current.tokenType != wanted {
        return Err(Expected(wanted, current));
      }
      r := Advance();
    }

    method AdvanceExpect(wanted: TokenType) returns (r: Result<(), Failure>)
      requires Valid()
      modifies this, lexer
      ensures Valid() && Parsed(r, State()) == ExpectNext(lexer.file, lexer.code, old(State()), wanted)
    {
      r := Advance();
      if r.Err? {
        return;
      }
      if current.tokenType != wanted {
        return Err(Expected(wanted, current));
      }
    }

    method ParseAtom() returns (r: Result<Term, Failure>)
      requires Valid()
      modifies this, lexer
      ensures Valid() && Parsed(r, State()) == AtomAt(lexer.file, lexer.code, old(State()))
    {
      var name := current.text;
      var checked := CheckAdvance(Identifier);
      if checked.Err? {
        return Err(checked.error);
      }
      return Ok(Atom(name));
    }

    method ParseTerm() returns (r: Result<Term, Failure>)
      requires Valid()
      modifies this, lexer
      ensures Valid() && Parsed(r, State()) == TermAt(lexer.file, lexer.code, old(State()))
      decreases Measure(lexer.code, State())
    {
      match current.tokenType
      case Identifier =>
        if current.text == [] {
          return Err(StringIndexOutOfBounds);
        }
        var name := current.text;
        if IsUpper(name[0]) {
          var advanced := Advance();
          if advanced.Err? {
            return Err(advanced.error);
          }
          return Ok(Variable(name));
        }
        var atom := ParseAtom();
        if atom.Err? || current.tokenType != LeftParen {
          return atom;
        }
        var arguments := ParseArguments();
        if arguments.Err? {
          return Err(arguments.error);
        }
        return Ok(Structure(name, arguments.value));
      case Underscore =>
        var advanced := Advance();
        if advanced.Err? {
          return Err(advanced.error);
        }
        return Ok(Anonymous);
      case _ =>
        return Err(ReadException(current.location, "Expected term"));
    }

    method ParseArguments() returns (r: Result<seq<Term>, Failure>)
      requires Valid() && current.tokenType == LeftParen
      modifies this, lexer
      ensures Valid() && Parsed(r, State()) == ArgumentsAt(lexer.file, lexer.code, old(State()))
      decreases Measure(lexer.code, State())
    {
      var advanced := Advance();
      if advanced.Err? {
        return Err(advanced.error);
      }
      var arguments: seq<Term> := [];
      while current.tokenType != RightParen
        invariant Valid()
        invariant ArgumentsFrom(lexer.file, lexer.code, State(), arguments) == ArgumentsAt(lexer.file, lexer.code, old(State()))
        invariant Measure(lexer.code, State()) < Measure(lexer.code, old(State()))
        decreases Measure(lexer.code, State())
      {
        if current.tokenType == EndOfFile {
          return Err(ReadException(current.location, "Unexpected end of file in parameter list"));
        }
        var term := ParseTerm();
        if term.Err? {
          return Err(term.error);
        }
        arguments := arguments + [term.value];
        if current.tokenType == Comma {
          advanced := Advance();
          if advanced.Err? {
            return Err(advanced.error);
          }
        }
      }
      advanced := Advance();
      if advanced.Err? {
        return Err(advanced.error);
      }
      return Ok(arguments);
    }

    method ParseStructure() returns (r: Result<Struct, Failure>)
      requires Valid()
      modifies this, lexer
      ensures Valid() && Parsed(r, State()) == StructureAt(lexer.file, lexer.code, old(State()))
    {
      var term := ParseTerm();
      if term.Err? {
        return Err(term.error);
      }
      if !term.value.Structure? {
        return Err(ReadException(current.location, "Expected structure"));
      }
      return Ok(term.value);
    }

    method ParseRule() returns (r: Result<Rule, Failure>)
      requires Valid()
      modifies this, lexer
      ensures Valid() && Parsed(r, State()) == RuleAt(lexer.file, lexer.code, old(State()))
    {
      var head := ParseStructure();
      if head.Err? {
        return Err(head.error);
      }
      if current.tokenType == Colon {
        var expected := AdvanceExpect(Hyphen);
        if expected.Err? {
          return Err(expected.error);
        }
        var advanced := Advance();
        if advanced.Err? {
          return Err(advanced.error);
        }
        var body: seq<Term> := [];
        while current.tokenType != Period
          invariant Valid()
          invariant BodyFrom(lexer.file, lexer.code, State(), head.value, body) == RuleAt(lexer.file, lexer.code, old(State()))
          decreases Measure(lexer.code, State())
        {
          if current.tokenType == EndOfFile {
            return Err(ReadException(current.location, "Unexpected end of file in rule"));
          }
          var term := ParseTerm();
          if term.Err? {
            return Err(term.error);
          }
          body := body + [term.value];
          if current.tokenType == Comma {
            advanced := Advance();
            if advanced.Err? {
              return Err(advanced.error);
            }
          }
        }
        var checked := CheckAdvance(Period);
        if checked.Err? {
          return Err(checked.error);
        }
        return Ok(Rule(head.value, Some(body)));
      } else {
        var checked := CheckAdvance(Period);
        if checked.Err? {
          return Err(checked.error);
        }
        return Ok(Rule(head.value, None));
      }
    }

    /** `parseKnowledge`: the rules up to the first token that is not an
        identifier, filed into a new knowledge base. */
    method ParseKnowledge() returns (r: Result<Knowledge, Failure>)
      requires Valid()
      modifies this, lexer
      ensures Valid()
      ensures var spec := RulesFrom(lexer.file, lexer.code, old(State()), []);
        && State() == spec.state
        && (r.Ok? <==> spec.result.Ok?)
        && (r.Ok? ==> fresh(r.value) && r.value.rules == spec.result.value && r.value.Valid())
        && (r.Err? ==> r.error == spec.result.error)
    {
      var rules: seq<Rule> := [];
      while current.tokenType == Identifier
        invariant Valid()
        invariant RulesFrom(lexer.file, lexer.code, State(), rules) == RulesFrom(lexer.file, lexer.code, old(State()), [])
        decreases Measure(lexer.code, State())
      {
        var rule := ParseRule();
        if rule.Err? {
          return Err(rule.error);
        }
        rules := rules + [rule.value];
      }
      var knowledge := new Knowledge(rules);
      return Ok(knowledge);
    }
  }
}
