/** The tokenizer of the reader: a character cursor over the program text
    that skips whitespace and `%` comments and produces identifier and
    punctuation tokens. */
module Lexing {
  import opened Wrappers
  import opened Text

  datatype TokenType =
    | LeftParen | RightParen | Comma | Underscore | Colon | Hyphen | Period
    | Identifier | EndOfFile

  /** The name of an enum constant, as `toString` gives it. */
  function TypeName(t: TokenType): (r: string)
    ensures |r| > 0 && IsUpper(r[0])
  {
    match t
    case LeftParen => "LeftParen"
    case RightParen => "RightParen"
    case Comma => "Comma"
    case Underscore => "Underscore"
    case Colon => "Colon"
    case Hyphen => "Hyphen"
    case Period => "Period"
    case Identifier => "Identifier"
    case EndOfFile => "EndOfFile"
  }

  datatype Location = Location(file: string, line: nat, column: nat)

  datatype Token = Token(location: Location, tokenType: TokenType, text: string)

  /** Why reading stopped: a `ReadException` with its location and message;
      `StringIndexOutOfBounds` when the parser takes the first character of
      an empty identifier; `Hangs` where the source loops forever. */
  datatype Failure =
    | ReadException(location: Location, message: string)
    | StringIndexOutOfBounds
    | Hangs

  /** The table of one-character tokens. */
  function SimpleTokenType(c: char): (r: Option<TokenType>)
    ensures r.Some? ==> r.value != Identifier && r.value != EndOfFile
    ensures r.Some? <==> c in "()_,:-."
  {
    match c
    case '(' => Some(LeftParen)
    case ')' => Some(RightParen)
    case '_' => Some(Underscore)
    case ',' => Some(Comma)
    case ':' => Some(Colon)
    case '-' => Some(Hyphen)
    case '.' => Some(Period)
    case _ => None
  }

  predicate IsIdentifierChar(c: char) { IsLetter(c) || IsDigit(c) || c == '_' }

  /** `(char) -1`: what the cursor holds when the text is empty. */
  const NoChar: char := '\U{FFFF}'

  /** The character the cursor keeps once the end of the text is reached:
      the last one read. */
  function LastChar(code: string): char
  {
    if code == [] then NoChar else code[|code| - 1]
  }

  /** The lexer's fields: `index` is the position of `current` in the text
      (the length of the text once the end is reached). */
  datatype LexState = LexState(index: nat, line: nat, column: nat, current: char, endOfFile: bool)

  predicate Consistent(code: string, s: LexState)
  {
    && s.index <= |code|
    && (s.endOfFile <==> s.index == |code|)
    && s.current == (if s.index < |code| then code[s.index] else LastChar(code))
  }

  function LocationOf(file: string, s: LexState): Location
  {
    Location(file, s.line, s.column)
  }

  /** The state right after the constructor has read the first character. */
  function Start(code: string): (s: LexState)
    ensures Consistent(code, s) && s.index == 0 && s.line == 0 && s.column == 0
  {
    LexState(0, 0, 0, if code == [] then NoChar else code[0], code == [])
  }

  /** `advance`: one column further and one character further, or at the
      end of the text with the last character kept. */
  function Advanced(code: string, s: LexState): (r: LexState)
    requires Consistent(code, s)
    ensures Consistent(code, r)
    ensures r.column == s.column + 1 && r.line == s.line
    ensures r.index == if s.endOfFile then s.index else s.index + 1
  {
    if s.index + 1 >= |code| then s.(index := |code|, column := s.column + 1, endOfFile := true)
    else s.(index := s.index + 1, column := s.column + 1, current := code[s.index + 1])
  }

  /** The number of line feeds in a text. */
  function Newlines(text: string): nat
  {
    if text == [] then 0 else (if text[0] == '\n' then 1 else 0) + Newlines(text[1..])
  }

  /** `skipWhitespace`: the state after the run of whitespace at the cursor;
      each line feed skipped starts a new line at column 0. */
  function AfterWhitespace(code: string, s: LexState): (r: LexState)
    requires Consistent(code, s)
    ensures Consistent(code, r) && s.index <= r.index
    ensures r.endOfFile || !IsWhitespace(r.current)
    ensures forall i :: s.index <= i < r.index ==> IsWhitespace(code[i])
    ensures r.line == s.line + Newlines(code[s.index..r.index])
    ensures Newlines(code[s.index..r.index]) == 0 ==> r.column == s.column + (r.index - s.index)
    decreases |code| - s.index
  {
    if !s.endOfFile && IsWhitespace(s.current) then
      var a := Advanced(code, s);
      var r := AfterWhitespace(code, if s.current == '\n' then a.(column := 0, line := s.line + 1) else a);
      assert code[s.index..r.index] == [code[s.index]] + code[s.index + 1..r.index];
      r
    else
      s
  }

  /** The first loop of `skipComment`: the state at the line feed that ends
      the comment, or at the end of the text. */
  function CommentEnd(code: string, s: LexState): (r: LexState)
    requires Consistent(code, s)
    ensures Consistent(code, r) && s.index <= r.index
    ensures r.endOfFile || r.current == '\n'
    ensures forall i :: s.index <= i < r.index ==> code[i] != '\n'
    ensures r.line == s.line && r.column == s.column + (r.index - s.index)
    ensures !s.endOfFile && s.current != '\n' ==> s.index < r.index
    decreases |code| - s.index
  {
    if !s.endOfFile && s.current != '\n' then CommentEnd(code, Advanced(code, s)) else s
  }

  /** `skipComment`: the comment, then the whitespace after it. */
  function AfterComment(code: string, s: LexState): (r: LexState)
    requires Consistent(code, s)
    ensures Consistent(code, r) && s.index <= r.index
    ensures !s.endOfFile && s.current != '\n' ==> s.index < r.index
  {
    AfterWhitespace(code, CommentEnd(code, s))
  }

  /** The `while (current == '%')` loop of `read`. It stops at a character
      other than `%`; its result still holds `%` exactly when the cursor is
      at the end of the text on a `%`, where the source loops forever. */
  function AfterComments(code: string, s: LexState): (r: LexState)
    requires Consistent(code, s)
    ensures Consistent(code, r) && s.index <= r.index
    ensures r.current == '%' ==> r.endOfFile && (s.current == '%' || r == s)
    ensures s.current != '%' ==> r == s
    decreases |code| - s.index
  {
    if s.current != '%' || s.endOfFile then s else AfterComments(code, AfterComment(code, s))
  }

  datatype Scanned = Scanned(text: string, state: LexState)

  /** `readIdentifier`: the longest run of letters, digits and underscores
      at the cursor. */
  function IdentifierAt(code: string, s: LexState): (r: Scanned)
    requires Consistent(code, s)
    ensures Consistent(code, r.state)
    ensures r.state.index == s.index + |r.text| && r.text == code[s.index..r.state.index]
    ensures forall i :: 0 <= i < |r.text| ==> IsIdentifierChar(r.text[i])
    ensures r.state.endOfFile || !IsIdentifierChar(r.state.current)
    ensures r.state.line == s.line && r.state.column == s.column + |r.text|
    decreases |code| - s.index
  {
    if !s.endOfFile && IsIdentifierChar(s.current) then
      var rest := IdentifierAt(code, Advanced(code, s));
      Scanned([s.current] + rest.text, rest.state)
    else
      Scanned([], s)
  }

  datatype Lexed = Lexed(result: Result<Token, Failure>, state: LexState)

  /** `read`: the next token and the state after it. Every token but the
      end-of-file token moves the cursor forward; the end-of-file token
      leaves the state as it is. */
  function NextToken(file: string, code: string, s: LexState): (r: Lexed)
    requires Consistent(code, s)
    ensures Consistent(code, r.state)
    ensures r.result.Ok? && s.endOfFile ==> r.state == s && r.result.value.tokenType == EndOfFile
    ensures r.result.Ok? && !s.endOfFile ==> s.index < r.state.index && r.result.value.tokenType != EndOfFile
  {
    if s.endOfFile then
      Lexed(Ok(Token(LocationOf(file, s), EndOfFile, "")), s)
    else
      var t := AfterComments(code, AfterWhitespace(code, s));
      if t.current == '%' then
        Lexed(Err(Hangs), t)
      else if IsLetter(t.current) then
        var id := IdentifierAt(code, t);
        Lexed(Ok(Token(LocationOf(file, t), Identifier, id.text)), id.state)
      else if SimpleTokenType(t.current).Some? then
        Lexed(Ok(Token(LocationOf(file, t), SimpleTokenType(t.current).value, [t.current])), Advanced(code, t))
      else
        Lexed(Err(ReadException(LocationOf(file, t), "Unknown character: " + [t.current])), t)
  }

  /** Once the end of the text is reached, every read gives the same
      end-of-file token with an empty text and changes nothing. */
  lemma ReadAtEnd(file: string, code: string, s: LexState)
    requires Consistent(code, s) && s.endOfFile
    ensures NextToken(file, code, s) == Lexed(Ok(Token(Location(file, s.line, s.column), EndOfFile, "")), s)
    ensures NextToken(file, code, NextToken(file, code, s).state) == NextToken(file, code, s)
  {
  }

  /** A letter at the cursor starts one identifier token, located at that
      letter, whose text is the longest run of letters, digits and
      underscores there. */
  lemma ReadIdentifierToken(file: string, code: string, s: LexState)
    requires Consistent(code, s) && !s.endOfFile && IsLetter(s.current)
    ensures var r := NextToken(file, code, s);
      && r.result.Ok?
      && r.result.value.tokenType == Identifier
      && r.result.value.location == Location(file, s.line, s.column)
      && r.result.value.text == code[s.index..r.state.index]
      && |r.result.value.text| > 0
      && (forall i :: s.index <= i < r.state.index ==> IsIdentifierChar(code[i]))
      && (r.state.index == |code| || !IsIdentifierChar(code[r.state.index]))
  {
    assert !IsWhitespace(s.current);
    var r := NextToken(file, code, s);
    var id := IdentifierAt(code, s);
    assert r.result.value.text == id.text;
    assert forall i :: s.index <= i < r.state.index ==> code[i] == id.text[i - s.index];
  }

  /** A letter followed by a character that cannot continue an identifier
      is an identifier token of that one letter. */
  lemma ReadSingleLetter(file: string, code: string, s: LexState)
    requires Consistent(code, s) && !s.endOfFile && IsLetter(s.current)
    requires s.index + 1 < |code| && !IsIdentifierChar(code[s.index + 1])
    ensures NextToken(file, code, s)
         == Lexed(Ok(Token(Location(file, s.line, s.column), Identifier, [s.current])), Advanced(code, s))
  {
    assert !IsWhitespace(s.current) && AfterWhitespace(code, s) == s;
    assert AfterComments(code, s) == s;
    var a := Advanced(code, s);
    assert a.current == code[s.index + 1];
    assert IdentifierAt(code, a) == Scanned([], a);
    assert IdentifierAt(code, s) == Scanned([s.current], a);
  }

  /** Each of `( ) _ , : - .` at the cursor is one token of its type whose
      text is that character. */
  lemma ReadSimpleToken(file: string, code: string, s: LexState)
    requires Consistent(code, s) && !s.endOfFile && s.current in "()_,:-."
    ensures var r := NextToken(file, code, s);
      && r.result == Ok(Token(Location(file, s.line, s.column), SimpleTokenType(s.current).value, [s.current]))
      && r.state == Advanced(code, s)
  {
  }

  /** Any other character at the cursor, once whitespace and comments are
      passed, is an error naming that character. */
  lemma ReadUnknownCharacter(file: string, code: string, s: LexState)
    requires Consistent(code, s) && !s.endOfFile
    requires !IsWhitespace(s.current) && s.current != '%' && !IsLetter(s.current) && !(s.current in "()_,:-.")
    ensures NextToken(file, code, s)
         == Lexed(Err(ReadException(Location(file, s.line, s.column), "Unknown character: " + [s.current])), s)
  {
  }

  /** The end of the text is not checked again after whitespace: a text that
      ends in whitespace reports its last whitespace character as unknown
      instead of giving the end-of-file token. */
  lemma TrailingWhitespaceIsUnknown(file: string, code: string, s: LexState)
    requires Consistent(code, s) && !s.endOfFile
    requires forall i :: s.index <= i < |code| ==> IsWhitespace(code[i])
    ensures var r := NextToken(file, code, s);
      && r.state.endOfFile
      && r.result == Err(ReadException(Location(file, r.state.line, r.state.column),
                                        "Unknown character: " + [code[|code| - 1]]))
  {
    var w := AfterWhitespace(code, s);
    assert w.endOfFile;
    assert w.current == code[|code| - 1];
    assert IsWhitespace(w.current);
  }

  /** The lexer only ever loops forever on a text whose last character is
      `%`: the comment loop then finds the `%` again at the end. */
  lemma HangsOnlyOnTrailingPercent(file: string, code: string, s: LexState)
    requires Consistent(code, s)
    ensures NextToken(file, code, s).result == Err(Hangs) ==> code != [] && code[|code| - 1] == '%'
  {
  }

  /** At the end of the text on a `%`, skipping a comment changes nothing,
      so `while (current == '%')` never stops there. */
  lemma CommentAtEndIsFixedPoint(code: string, s: LexState)
    requires Consistent(code, s) && s.endOfFile && s.current == '%'
    ensures AfterComment(code, s) == s
  {
  }

  /** A lone `%` is such a text. */
  lemma LonePercentHangs(file: string)
    ensures NextToken(file, "%", Start("%")).result == Err(Hangs)
  {
    var s := Start("%");
    assert AfterWhitespace("%", s) == s;
    assert AfterComment("%", s).endOfFile;
  }

  class Lexer {
    const file: string
    const code: string
    var index: nat
    var line: nat
    var column: nat
    var current: char
    var endOfFile: bool

    function State(): LexState
      reads this
    {
      LexState(index, line, column, current, endOfFile)
    }

    predicate Valid()
      reads this
    {
      Consistent(code, State())
    }

    /** Reads the first character, or notes that the text is empty. */
    constructor (file: string, code: string)
      ensures this.file == file && this.code == code
      ensures State() == Start(code) && Valid()
    {
      this.file := file;
      this.code := code;
      index := 0;
      line := 0;
      column := 0;
      current := if code == [] then NoChar else code[0];
      endOfFile := code == [];
    }

    method Advance()
      requires Valid()
      modifies this
      ensures State() == Advanced(code, old(State())) && Valid()
    {
      column := column + 1;
      if index + 1 >= |code| {
        index := |code|;
        endOfFile := true;
        return;
      }
      index := index + 1;
      current := code[index];
    }

    method SkipWhitespace()
      requires Valid()
      modifies this
      ensures State() == AfterWhitespace(code, old(State())) && Valid()
    {
      while !endOfFile && IsWhitespace(current)
        invariant Valid()
        invariant AfterWhitespace(code, State()) == AfterWhitespace(code, old(State()))
        decreases |code| - index
      {
        if current == '\n' {
          Advance();
          column := 0;
          line := line + 1;
        } else {
          Advance();
        }
      }
    }

    method SkipComment()
      requires Valid()
      modifies this
      ensures State() == AfterComment(code, old(State())) && Valid()
    {
      while !endOfFile && current != '\n'
        invariant Valid()
        invariant CommentEnd(code, State()) == CommentEnd(code, old(State()))
        decreases |code| - index
      {
        Advance();
      }
      SkipWhitespace();
    }

    method ReadIdentifier() returns (token: Token)
      requires Valid()
      modifies this
      ensures Valid()
      ensures var id := IdentifierAt(code, old(State()));
        token == Token(Location(file, old(line), old(column)), Identifier, id.text) && State() == id.state
    {
      var location := Location(file, line, column);
      var text := "";
      while !endOfFile && IsIdentifierChar(current)
        invariant Valid()
        invariant var rest := IdentifierAt(code, State());
          Scanned(text + rest.text, rest.state) == IdentifierAt(code, old(State()))
        decreases |code| - index
      {
        ghost var before := State();
        text := text + [current];
        Advance();
        assert text + IdentifierAt(code, State()).text == text[..|text| - 1] + IdentifierAt(code, before).text;
      }
      token := Token(location, Identifier, text);
    }

    method Read() returns (r: Result<Token, Failure>)
      requires Valid()
      modifies this
      ensures Valid() && Lexed(r, State()) == NextToken(file, code, old(State()))
    {
      if endOfFile {
        return Ok(Token(Location(file, line, column), EndOfFile, ""));
      }
      SkipWhitespace();
      ghost var afterWhitespace := State();
      while current == '%'
        invariant Valid()
        invariant AfterComments(code, State()) == AfterComments(code, afterWhitespace)
        decreases |code| - index
      {
        if endOfFile {
          return Err(Hangs);
        }
        SkipComment();
      }
      if IsLetter(current) {
        var token := ReadIdentifier();
        return Ok(token);
      }
      var tokenType := SimpleTokenType(current);
      if tokenType.Some? {
        r := Ok(Token(Location(file, line, column), tokenType.value, [current]));
        Advance();
        return;
      }
      return Err(ReadException(Location(file, line, column), "Unknown character: " + [current]));
    }
  }
}
