/**
 From Java source text to the tokens of the structure walks: a lexer that tells code from comments and
 literals, and a tokenizer over the code.
 */
module JavaLexer {
  import opened JavaTokens
  import opened Options
  import opened Text

  datatype LexState = Code | LineComment | BlockComment | StringLiteral | TextBlock | CharLiteral

  /** The Unicode classes the tokenizer asks about. */
  datatype CharClass = CharClass(alphabetic: char -> bool, alphanumeric: char -> bool, whitespace: char -> bool)

  /** Letters are alphanumeric and a line break is not. */
  ghost predicate Sane(cls: CharClass) {
    (forall c: char :: cls.alphabetic(c) ==> cls.alphanumeric(c)) && !cls.alphanumeric('\n')
  }

  /** The byte offset character `i` begins at. */
  ghost function OffsetOf(chars: seq<char>, i: nat): nat
    requires i <= |chars|
  {
    if i == 0 then 0 else OffsetOf(chars, i - 1) + Utf8Length(chars[i - 1])
  }

  predicate IsAt(chars: seq<char>, i: nat, c: char) {
    i < |chars| && chars[i] == c
  }

  predicate QuotesAt(chars: seq<char>, i: nat)
    ensures QuotesAt(chars, i) <==> i + 3 <= |chars| && chars[i..i + 3] == "\"\"\""
  {
    IsAt(chars, i, '"') && IsAt(chars, i + 1, '"') && IsAt(chars, i + 2, '"')
  }

  // ----- the lexical automaton, one character at a time

  /** `state` is what the next character is in; `inside` more characters belong to a delimiter that leads to `after`. */
  datatype Mode = Mode(state: LexState, inside: nat, after: LexState)

  ghost function Fresh(state: LexState): Mode {
    Mode(state, 0, state)
  }

  ghost function Next(chars: seq<char>, i: nat, m: Mode): Mode
    requires i < |chars|
  {
    var c := chars[i];
    if m.inside == 1 then Fresh(m.after)
    else if m.inside > 1 then m.(inside := m.inside - 1)
    else
      match m.state
      case Code =>
        if c == '/' && IsAt(chars, i + 1, '/') then Mode(Code, 1, LineComment)
        else if c == '/' && IsAt(chars, i + 1, '*') then Mode(Code, 1, BlockComment)
        else if QuotesAt(chars, i) then Mode(TextBlock, 2, TextBlock)
        else if c == '"' then Fresh(StringLiteral)
        else if c == '\'' then Fresh(CharLiteral)
        else m
      case LineComment => if c == '\n' then Fresh(Code) else m
      case BlockComment => if c == '*' && IsAt(chars, i + 1, '/') then Mode(BlockComment, 1, Code) else m
      case StringLiteral =>
        if c == '\\' then Mode(StringLiteral, 1, StringLiteral) else if c == '"' then Fresh(Code) else m
      case CharLiteral =>
        if c == '\\' then Mode(CharLiteral, 1, CharLiteral) else if c == '\'' then Fresh(Code) else m
      case TextBlock => if QuotesAt(chars, i) then Mode(TextBlock, 2, Code) else m
  }

  ghost function ModeAt(chars: seq<char>, i: nat): Mode
    requires i <= |chars|
  {
    if i == 0 then Fresh(Code) else Next(chars, i - 1, ModeAt(chars, i - 1))
  }

  // ----- what the automaton makes of delimiters

  /** Outside comments and literals, and not in the middle of a delimiter. */
  ghost predicate InCode(chars: seq<char>, i: nat) {
    i <= |chars| && ModeAt(chars, i) == Fresh(Code)
  }

  predicate Begins(chars: seq<char>, i: nat, sign: string) {
    i + |sign| <= |chars| && chars[i..i + |sign|] == sign
  }

  lemma NextMode(chars: seq<char>, i: nat, m: Mode)
    requires i < |chars| && ModeAt(chars, i) == m
    ensures ModeAt(chars, i + 1) == Next(chars, i, m)
  {
  }

  /** A character of code that begins no comment and no literal leaves the code as it is. */
  lemma CodeGoesOn(chars: seq<char>, i: nat)
    requires InCode(chars, i) && i < |chars| && chars[i] != '"' && chars[i] != '\''
    requires !Begins(chars, i, "//") && !Begins(chars, i, "/*")
    ensures InCode(chars, i + 1)
  {
    assert i + 1 < |chars| ==> chars[i..i + 2] == [chars[i], chars[i + 1]];
  }

  /** A line comment goes on up to the line break, and the break ends it. */
  lemma {:induction false} LineCommentRuns(chars: seq<char>, i: nat, j: nat)
    requires InCode(chars, i) && Begins(chars, i, "//") && i + 2 <= j <= |chars|
    requires forall k | i + 2 <= k < j :: chars[k] != '\n'
    ensures ModeAt(chars, i + 1).state == Code && ModeAt(chars, j) == Fresh(LineComment)
    ensures j < |chars| && chars[j] == '\n' ==> InCode(chars, j + 1)
    decreases j
  {
    assert chars[i] == chars[i..i + 2][0] && chars[i + 1] == chars[i..i + 2][1];
    if j == i + 2 {
      assert ModeAt(chars, i + 1) == Mode(Code, 1, LineComment);
    } else {
      LineCommentRuns(chars, i, j - 1);
    }
  }

  /** A block comment goes on up to the first end mark behind its opening, and the mark belongs to it. */
  lemma {:induction false} BlockCommentRuns(chars: seq<char>, i: nat, j: nat)
    requires InCode(chars, i) && Begins(chars, i, "/*") && i + 2 <= j <= |chars|
    requires forall k | i + 2 <= k < j :: !Begins(chars, k, "*/")
    ensures ModeAt(chars, i + 1).state == Code && ModeAt(chars, j) == Fresh(BlockComment)
    ensures Begins(chars, j, "*/") ==> ModeAt(chars, j + 1).state == BlockComment && InCode(chars, j + 2)
    decreases j
  {
    assert chars[i] == chars[i..i + 2][0] && chars[i + 1] == chars[i..i + 2][1];
    if j == i + 2 {
      assert ModeAt(chars, i + 1) == Mode(Code, 1, BlockComment);
    } else {
      BlockCommentRuns(chars, i, j - 1);
      assert j < |chars| ==> chars[j - 1..j + 1] == [chars[j - 1], chars[j]];
      NextMode(chars, j - 1, Fresh(BlockComment));
    }
    if Begins(chars, j, "*/") {
      assert chars[j] == chars[j..j + 2][0] && chars[j + 1] == chars[j..j + 2][1];
      NextMode(chars, j, Fresh(BlockComment));
      NextMode(chars, j + 1, Mode(BlockComment, 1, Code));
    }
  }

  /** A text block goes on up to the next three quotes, which belong to it. */
  lemma {:induction false} TextBlockRuns(chars: seq<char>, i: nat, j: nat)
    requires InCode(chars, i) && QuotesAt(chars, i) && i + 3 <= j <= |chars|
    requires forall k | i + 3 <= k < j :: !QuotesAt(chars, k)
    ensures ModeAt(chars, i + 1).state == ModeAt(chars, i + 2).state == TextBlock && ModeAt(chars, j) == Fresh(TextBlock)
    ensures QuotesAt(chars, j) ==>
              ModeAt(chars, j + 1).state == ModeAt(chars, j + 2).state == TextBlock && InCode(chars, j + 3)
    decreases j
  {
    NextMode(chars, i, Fresh(Code));
    NextMode(chars, i + 1, Mode(TextBlock, 2, TextBlock));
    NextMode(chars, i + 2, Mode(TextBlock, 1, TextBlock));
    if j > i + 3 {
      TextBlockRuns(chars, i, j - 1);
      NextMode(chars, j - 1, Fresh(TextBlock));
    }
    if QuotesAt(chars, j) {
      NextMode(chars, j, Fresh(TextBlock));
      NextMode(chars, j + 1, Mode(TextBlock, 2, Code));
      NextMode(chars, j + 2, Mode(TextBlock, 1, Code));
    }
  }

  /** The character follows a backslash, from `from` on, that is not itself behind one. */
  predicate IsEscaped(chars: seq<char>, from: nat, j: nat)
    requires j <= |chars|
    decreases j
  {
    from < j && chars[j - 1] == '\\' && !IsEscaped(chars, from, j - 1)
  }

  /** The quote that begins a string or a character literal, and not a text block. */
  predicate BeginsLiteral(chars: seq<char>, i: nat, quote: char, state: LexState) {
    && i < |chars| && chars[i] == quote
    && ((quote == '"' && state == StringLiteral && !QuotesAt(chars, i)) || (quote == '\'' && state == CharLiteral))
  }

  /** A literal goes on up to the next quote of its kind that is not escaped, which belongs to it. */
  lemma {:induction false} LiteralRuns(chars: seq<char>, i: nat, j: nat, quote: char, state: LexState)
    requires InCode(chars, i) && BeginsLiteral(chars, i, quote, state) && i < j <= |chars|
    requires forall k | i < k < j :: chars[k] == quote ==> IsEscaped(chars, i + 1, k)
    ensures ModeAt(chars, j) == if IsEscaped(chars, i + 1, j) then Mode(state, 1, state) else Fresh(state)
    ensures j < |chars| && chars[j] == quote && !IsEscaped(chars, i + 1, j) ==> InCode(chars, j + 1)
    decreases j
  {
    if j > i + 1 {
      LiteralRuns(chars, i, j - 1, quote, state);
    }
  }

  /** Each character with its byte offset and the lexical state it is in. */
  ghost predicate Classified(chars: seq<char>, classified: seq<(nat, LexState)>, n: nat) {
    && n <= |chars| && |classified| == n
    && forall i | 0 <= i < n :: classified[i] == (OffsetOf(chars, i), ModeAt(chars, i).state)
  }

  /**
   What the lexer makes of the character it stands at: how many characters it takes in one stride, the
   state of those after the first, and the state it goes on in.
   */
  method Stride(chars: seq<char>, index: nat, state: LexState) returns (taken: nat, inner: LexState, next: LexState)
    requires index < |chars|
    ensures 1 <= taken <= 3 && (taken == 3 ==> index + 2 < |chars|)
    ensures Next(chars, index, Fresh(state)) == if taken == 1 then Fresh(next) else Mode(inner, taken - 1, next)
  {
    var c := chars[index];
    taken, inner, next := 1, state, state;
    match state {
      case Code =>
        if c == '/' && IsAt(chars, index + 1, '/') {
          next, taken := LineComment, 2;
        } else if c == '/' && IsAt(chars, index + 1, '*') {
          next, taken := BlockComment, 2;
        } else if QuotesAt(chars, index) {
          inner, next, taken := TextBlock, TextBlock, 3;
        } else if c == '"' {
          next := StringLiteral;
        } else if c == '\'' {
          next := CharLiteral;
        }
      case LineComment =>
        if c == '\n' {
          next := Code;
        }
      case BlockComment =>
        if c == '*' && IsAt(chars, index + 1, '/') {
          next, taken := Code, 2;
        }
      case StringLiteral =>
        if c == '\\' {
          taken := 2;
        } else if c == '"' {
          next := Code;
        }
      case CharLiteral =>
        if c == '\\' {
          taken := 2;
        } else if c == '\'' {
          next := Code;
        }
      case TextBlock =>
        if QuotesAt(chars, index) {
          next, taken := Code, 3;
        }
    }
  }

  lemma ClassifiedOneMore(chars: seq<char>, classified: seq<(nat, LexState)>, n: nat, offset: nat, state: LexState)
    requires n < |chars| && Classified(chars, classified, n)
    requires offset == OffsetOf(chars, n) && ModeAt(chars, n).state == state
    ensures Classified(chars, classified + [(offset, state)], n + 1)
    ensures offset + Utf8Length(chars[n]) == OffsetOf(chars, n + 1)
  {
  }

  /** The lexer takes delimiters and escapes in one stride, to the same effect as character by character. */
  method Lex(chars: seq<char>) returns (classified: seq<(nat, LexState)>)
    ensures Classified(chars, classified, |chars|)
  {
    classified := [];
    var state := Code;
    var index: nat := 0;
    var offset: nat := 0;
    while index < |chars|
      invariant index <= |chars| ==> ModeAt(chars, index) == Fresh(state) && offset == OffsetOf(chars, index)
      invariant Classified(chars, classified, if index <= |chars| then index else |chars|)
      decreases |chars| - index
    {
      var taken, inner, next := Stride(chars, index, state);
      ClassifiedOneMore(chars, classified, index, offset, state);
      classified := classified + [(offset, state)];
      offset := offset + Utf8Length(chars[index]);
      if taken > 1 && index + 1 < |chars| {
        assert ModeAt(chars, index + 1) == Mode(inner, taken - 1, next);
        ClassifiedOneMore(chars, classified, index + 1, offset, inner);
        classified := classified + [(offset, inner)];
        offset := offset + Utf8Length(chars[index + 1]);
        if taken > 2 {
          assert ModeAt(chars, index + 2) == Mode(inner, 1, next);
          ClassifiedOneMore(chars, classified, index + 2, offset, inner);
          classified := classified + [(offset, inner)];
          offset := offset + Utf8Length(chars[index + 2]);
        }
      }
      index := index + taken;
      state := next;
    }
  }

  // ----- lines

  ghost function Newlines(chars: seq<char>, i: nat): nat
    requires i <= |chars|
  {
    if i == 0 then 0 else Newlines(chars, i - 1) + (if chars[i - 1] == '\n' then 1 else 0)
  }

  /** The 1-based line of character `i`. */
  ghost function LineOf(chars: seq<char>, i: nat): nat
    requires i <= |chars|
  {
    Newlines(chars, i) + 1
  }

  /** How many lines the text has, a last line without a line break included, and one at least. */
  ghost function LineCount(chars: seq<char>): nat {
    var broken := Newlines(chars, |chars|);
    if chars == [] then 1
    else if chars[|chars| - 1] == '\n' then broken
    else broken + 1
  }

  lemma {:induction false} NewlinesGrow(chars: seq<char>, i: nat, j: nat)
    requires i <= j <= |chars|
    ensures Newlines(chars, i) <= Newlines(chars, j)
    ensures (exists k :: i <= k < j && chars[k] == '\n') ==> Newlines(chars, i) < Newlines(chars, j)
    ensures (forall k | i <= k < j :: chars[k] != '\n') ==> Newlines(chars, i) == Newlines(chars, j)
  {
    if i < j {
      NewlinesGrow(chars, i, j - 1);
    }
  }

  lemma LineWithinText(chars: seq<char>, i: nat)
    requires i < |chars| && chars[i] != '\n'
    ensures 1 <= LineOf(chars, i) <= LineCount(chars)
  {
    NewlinesGrow(chars, i, |chars|);
    if chars[|chars| - 1] == '\n' {
      assert i <= |chars| - 1 < |chars|;
    }
  }

  method CountLines(chars: seq<char>) returns (count: nat)
    ensures count == LineCount(chars)
  {
    var broken := 0;
    for i := 0 to |chars|
      invariant broken == Newlines(chars, i)
    {
      if chars[i] == '\n' {
        broken := broken + 1;
      }
    }
    count := if |chars| > 0 && chars[|chars| - 1] != '\n' then broken + 1 else broken;
    count := if count < 1 then 1 else count;
  }

  // ----- tokens

  predicate IsIdentStart(cls: CharClass, c: char) {
    cls.alphabetic(c) || c == '_' || c == '$'
  }

  predicate IsIdentContinue(cls: CharClass, c: char) {
    cls.alphanumeric(c) || c == '_' || c == '$'
  }

  function StructuralToken(c: char): Option<Token> {
    match c
    case '{' => Some(LBrace)
    case '}' => Some(RBrace)
    case '(' => Some(LParen)
    case ')' => Some(RParen)
    case ';' => Some(Semi)
    case '@' => Some(At)
    case '=' => Some(Eq)
    case '<' => Some(LAngle)
    case '>' => Some(RAngle)
    case _ => None
  }

  /** The text is lexed: `states` has an entry per character. */
  ghost predicate Lexed(chars: seq<char>, states: seq<(nat, LexState)>) {
    |states| == |chars|
  }

  /** The end of the identifier whose characters from `i` on are code. */
  ghost function IdentEnd(cls: CharClass, chars: seq<char>, states: seq<(nat, LexState)>, i: nat): (end: nat)
    requires Lexed(chars, states) && i <= |chars|
    ensures i <= end <= |chars|
    ensures forall k | i <= k < end :: states[k].1.Code? && IsIdentContinue(cls, chars[k])
    ensures end < |chars| ==> !(states[end].1.Code? && IsIdentContinue(cls, chars[end]))
    decreases |chars| - i
  {
    if i < |chars| && states[i].1.Code? && IsIdentContinue(cls, chars[i]) then IdentEnd(cls, chars, states, i + 1) else i
  }

  /** The tokens of the text from character `i` on: what begins at each character of code, and where it leads. */
  ghost function TokensFrom(cls: CharClass, chars: seq<char>, states: seq<(nat, LexState)>, i: nat): seq<Spanned>
    requires Lexed(chars, states) && i <= |chars|
    decreases |chars| - i
  {
    if i == |chars| then []
    else if !states[i].1.Code? || chars[i] == '\n' || cls.whitespace(chars[i]) then TokensFrom(cls, chars, states, i + 1)
    else
      var line, offset := LineOf(chars, i), states[i].0;
      if IsIdentStart(cls, chars[i]) then
        var end := IdentEnd(cls, chars, states, i);
        if end == i then TokensFrom(cls, chars, states, i + 1)
        else [Spanned(Ident(chars[i..end]), line, offset)] + TokensFrom(cls, chars, states, end)
      else if chars[i] == '-' && IsAt(chars, i + 1, '>') && states[i + 1].1.Code? then
        [Spanned(Arrow, line, offset)] + TokensFrom(cls, chars, states, i + 2)
      else
        match StructuralToken(chars[i])
        case Some(token) => [Spanned(token, line, offset)] + TokensFrom(cls, chars, states, i + 1)
        case None => TokensFrom(cls, chars, states, i + 1)
  }

  lemma IdentStaysOnLine(cls: CharClass, chars: seq<char>, states: seq<(nat, LexState)>, i: nat)
    requires Sane(cls) && Lexed(chars, states) && i <= |chars|
    ensures LineOf(chars, IdentEnd(cls, chars, states, i)) == LineOf(chars, i)
  {
    var end := IdentEnd(cls, chars, states, i);
    forall k | i <= k < end
      ensures chars[k] != '\n'
    {
      assert IsIdentContinue(cls, chars[k]);
    }
    NewlinesGrow(chars, i, end);
  }

  lemma LineAfter(chars: seq<char>, i: nat)
    requires i < |chars|
    ensures LineOf(chars, i + 1) == if chars[i] == '\n' then LineOf(chars, i) + 1 else LineOf(chars, i)
  {
  }

  lemma ArrowStaysOnLine(chars: seq<char>, i: nat)
    requires i + 1 < |chars| && chars[i] == '-' && chars[i + 1] == '>'
    ensures LineOf(chars, i + 2) == LineOf(chars, i)
  {
    assert Newlines(chars, i + 1) == Newlines(chars, i);
  }

  /** Reads one identifier: as far as code continues it. */
  method ReadIdent(cls: CharClass, chars: seq<char>, states: seq<(nat, LexState)>, start: nat) returns (index: nat)
    requires Lexed(chars, states) && start <= |chars|
    ensures index == IdentEnd(cls, chars, states, start)
  {
    index := start;
    while index < |chars| && states[index].1.Code? && IsIdentContinue(cls, chars[index])
      invariant start <= index <= |chars|
      invariant IdentEnd(cls, chars, states, index) == IdentEnd(cls, chars, states, start)
    {
      index := index + 1;
    }
  }

  /** What was read, then what is to come, are all the tokens; so they are when one of those to come was read. */
  lemma ReadMore(read: seq<Spanned>, token: Option<Spanned>, rest: seq<Spanned>)
    ensures Appended(read, token) + rest == read + (Appended([], token) + rest)
  {
  }

  /** What is neither code nor anything but white space makes no token. */
  lemma NothingRead(cls: CharClass, chars: seq<char>, states: seq<(nat, LexState)>, i: nat)
    requires Lexed(chars, states) && i < |chars|
    requires !states[i].1.Code? || chars[i] == '\n' || cls.whitespace(chars[i])
    ensures TokensFrom(cls, chars, states, i) == TokensFrom(cls, chars, states, i + 1)
  {
  }

  /** The tokens of a text under its lexical classification. */
  ghost predicate TokensOf(cls: CharClass, chars: seq<char>, tokens: seq<Spanned>) {
    exists states :: Classified(chars, states, |chars|) && tokens == TokensFrom(cls, chars, states, 0)
  }

  /** Reads what begins at a character of code that is not white space: a token, if it makes one. */
  method ReadToken(cls: CharClass, chars: seq<char>, states: seq<(nat, LexState)>, index: nat, line: nat)
    returns (token: Option<Spanned>, next: nat)
    requires Sane(cls) && Lexed(chars, states) && index < |chars| && states[index].1.Code?
    requires chars[index] != '\n' && !cls.whitespace(chars[index]) && line == LineOf(chars, index)
    ensures index < next <= |chars| && LineOf(chars, next) == line
    ensures TokensFrom(cls, chars, states, index) == Appended([], token) + TokensFrom(cls, chars, states, next)
  {
    var c, offset := chars[index], states[index].0;
    LineAfter(chars, index);
    if IsIdentStart(cls, c) {
      next := ReadIdent(cls, chars, states, index);
      IdentStaysOnLine(cls, chars, states, index);
      token := Some(Spanned(Ident(chars[index..next]), line, offset));
    } else if c == '-' && IsAt(chars, index + 1, '>') && states[index + 1].1.Code? {
      ArrowStaysOnLine(chars, index);
      token, next := Some(Spanned(Arrow, line, offset)), index + 2;
    } else {
      next := index + 1;
      match StructuralToken(c) {
        case Some(kind) => token := Some(Spanned(kind, line, offset));
        case None => token := None;
      }
    }
  }

  /** Reads the classified text to its end, counting lines on the way. */
  method ReadAll(cls: CharClass, chars: seq<char>, states: seq<(nat, LexState)>) returns (tokens: seq<Spanned>)
    requires Sane(cls) && Lexed(chars, states)
    ensures tokens == TokensFrom(cls, chars, states, 0)
  {
    tokens := [];
    var line: nat := 1;
    var index: nat := 0;
    ghost var all := TokensFrom(cls, chars, states, 0);
    while index < |chars|
      invariant index <= |chars| && line == LineOf(chars, index)
      invariant tokens + TokensFrom(cls, chars, states, index) == all
    {
      var c := chars[index];
      LineAfter(chars, index);
      if c == '\n' {
        NothingRead(cls, chars, states, index);
        line := line + 1;
        index := index + 1;
      } else if !states[index].1.Code? || cls.whitespace(c) {
        NothingRead(cls, chars, states, index);
        index := index + 1;
      } else {
        var token;
        token, index := ReadToken(cls, chars, states, index, line);
        ReadMore(tokens, token, TokensFrom(cls, chars, states, index));
        tokens := Appended(tokens, token);
      }
    }
    assert TokensFrom(cls, chars, states, |chars|) == [];
  }

  /** Splits the code into tokens. */
  method Tokenize(cls: CharClass, chars: seq<char>) returns (tokens: seq<Spanned>)
    requires Sane(cls)
    ensures TokensOf(cls, chars, tokens)
  {
    var states := Lex(chars);
    tokens := ReadAll(cls, chars, states);
  }

  // ----- the tokens are exactly those of the code

  /** How many characters a token takes. */
  ghost function ExtentOf(token: Token): nat {
    match token
    case Ident(name) => |name|
    case Arrow => 2
    case _ => 1
  }

  /** The character that a token of one character is. */
  ghost function SignOf(token: Token): char
    requires !token.Ident? && !token.Arrow?
  {
    match token
    case LBrace => '{'
    case RBrace => '}'
    case LParen => '('
    case RParen => ')'
    case Semi => ';'
    case At => '@'
    case Eq => '='
    case LAngle => '<'
    case RAngle => '>'
  }

  /** All of the identifier characters of code from `i` on, and no more, are the name. */
  ghost predicate IsIdentifierAt(cls: CharClass, chars: seq<char>, states: seq<(nat, LexState)>, i: nat, name: string)
    requires Lexed(chars, states)
  {
    var end := i + |name|;
    && 0 < |name| && end <= |chars| && name == chars[i..end]
    && (forall k | i <= k < end :: states[k].1.Code? && IsIdentContinue(cls, chars[k]))
    && (end < |chars| ==> !(states[end].1.Code? && IsIdentContinue(cls, chars[end])))
  }

  ghost predicate IsTokenAt(cls: CharClass, chars: seq<char>, states: seq<(nat, LexState)>, t: Spanned, i: nat)
    requires Lexed(chars, states)
  {
    && i < |chars| && states[i].1.Code? && t.line == LineOf(chars, i) && t.offset == states[i].0
    && match t.token
       case Ident(name) => IsIdentStart(cls, chars[i]) && IsIdentifierAt(cls, chars, states, i, name)
       case Arrow => Begins(chars, i, "->") && states[i + 1].1.Code?
       case _ => chars[i] == SignOf(t.token)
  }

  /** The character is no part of any token: no code, white space, or neither identifier nor sign. */
  ghost predicate MakesNone(cls: CharClass, chars: seq<char>, states: seq<(nat, LexState)>, i: nat)
    requires Lexed(chars, states) && i < |chars|
  {
    || !states[i].1.Code? || chars[i] == '\n' || cls.whitespace(chars[i])
    || (IsIdentStart(cls, chars[i]) && !IsIdentContinue(cls, chars[i]))
    || (!IsIdentStart(cls, chars[i]) && chars[i] !in "{}();@=<>")
  }

  /** The tokens stand at the positions, one behind the other, and take every character from `i` on that is for a token. */
  ghost predicate Tile(cls: CharClass, chars: seq<char>, states: seq<(nat, LexState)>, i: nat, tokens: seq<Spanned>,
                       at: seq<nat>)
    requires Lexed(chars, states)
  {
    && |at| == |tokens|
    && (forall k | 0 <= k < |at| :: i <= at[k] && IsTokenAt(cls, chars, states, tokens[k], at[k]))
    && StandApart(tokens, at)
    && (forall p | i <= p < |chars| :: MakesNone(cls, chars, states, p) || IsTaken(tokens, at, p))
  }

  ghost predicate StandApart(tokens: seq<Spanned>, at: seq<nat>)
    requires |at| == |tokens|
  {
    forall k, l | 0 <= k < l < |at| :: at[k] + ExtentOf(tokens[k].token) <= at[l]
  }

  /** The character is part of a token. */
  ghost predicate IsTaken(tokens: seq<Spanned>, at: seq<nat>, p: nat)
    requires |at| == |tokens|
  {
    exists k :: 0 <= k < |at| && at[k] <= p < at[k] + ExtentOf(tokens[k].token)
  }

  lemma StillTaken(token: Spanned, i: nat, tokens: seq<Spanned>, at: seq<nat>, p: nat)
    requires |at| == |tokens| && (IsTaken(tokens, at, p) || i <= p < i + ExtentOf(token.token))
    ensures IsTaken([token] + tokens, [i] + at, p)
  {
    if IsTaken(tokens, at, p) {
      var k :| 0 <= k < |at| && at[k] <= p < at[k] + ExtentOf(tokens[k].token);
      assert ([i] + at)[k + 1] == at[k] && ([token] + tokens)[k + 1] == tokens[k];
    } else {
      assert ([i] + at)[0] == i && ([token] + tokens)[0] == token;
    }
  }

  lemma StillApart(token: Spanned, i: nat, tokens: seq<Spanned>, at: seq<nat>)
    requires |at| == |tokens| && StandApart(tokens, at)
    requires forall k | 0 <= k < |at| :: i + ExtentOf(token.token) <= at[k]
    ensures StandApart([token] + tokens, [i] + at)
  {
  }

  lemma TileOneMore(cls: CharClass, chars: seq<char>, states: seq<(nat, LexState)>, i: nat, next: nat,
                    token: Spanned, rest: seq<Spanned>, at: seq<nat>)
    requires Lexed(chars, states) && IsTokenAt(cls, chars, states, token, i) && next == i + ExtentOf(token.token)
    requires next <= |chars| && Tile(cls, chars, states, next, rest, at)
    ensures Tile(cls, chars, states, i, [token] + rest, [i] + at)
  {
    StillApart(token, i, rest, at);
    forall p | i <= p < |chars| && !MakesNone(cls, chars, states, p)
      ensures IsTaken([token] + rest, [i] + at, p)
    {
      StillTaken(token, i, rest, at, p);
    }
  }

  lemma TileNoMore(cls: CharClass, chars: seq<char>, states: seq<(nat, LexState)>, i: nat, tokens: seq<Spanned>,
                   at: seq<nat>)
    requires Lexed(chars, states) && i < |chars| && MakesNone(cls, chars, states, i)
    requires Tile(cls, chars, states, i + 1, tokens, at)
    ensures Tile(cls, chars, states, i, tokens, at)
  {
  }

  /** What is read at a character: a token that stands there, or nothing where there is none. */
  lemma TokenStandsThere(cls: CharClass, chars: seq<char>, states: seq<(nat, LexState)>, i: nat)
    returns (token: Option<Spanned>, next: nat)
    requires Lexed(chars, states) && i < |chars|
    ensures i < next <= |chars|
    ensures TokensFrom(cls, chars, states, i) == Appended([], token) + TokensFrom(cls, chars, states, next)
    ensures match token
            case Some(t) => IsTokenAt(cls, chars, states, t, i) && next == i + ExtentOf(t.token)
            case None => MakesNone(cls, chars, states, i) && next == i + 1
  {
    token, next := None, i + 1;
    if states[i].1.Code? && chars[i] != '\n' && !cls.whitespace(chars[i]) {
      var line, offset := LineOf(chars, i), states[i].0;
      if IsIdentStart(cls, chars[i]) {
        var end := IdentEnd(cls, chars, states, i);
        if end > i {
          token, next := Some(Spanned(Ident(chars[i..end]), line, offset)), end;
          assert IsIdentifierAt(cls, chars, states, i, chars[i..end]);
        }
      } else if chars[i] == '-' && IsAt(chars, i + 1, '>') && states[i + 1].1.Code? {
        assert chars[i..i + 2] == "->";
        token, next := Some(Spanned(Arrow, line, offset)), i + 2;
      } else if StructuralToken(chars[i]).Some? {
        token := Some(Spanned(StructuralToken(chars[i]).value, line, offset));
      }
    }
  }

  lemma {:induction false} TokensTile(cls: CharClass, chars: seq<char>, states: seq<(nat, LexState)>, i: nat)
    returns (at: seq<nat>)
    requires Lexed(chars, states) && i <= |chars|
    ensures Tile(cls, chars, states, i, TokensFrom(cls, chars, states, i), at)
    decreases |chars| - i
  {
    if i == |chars| {
      at := [];
    } else {
      var token, next := TokenStandsThere(cls, chars, states, i);
      var later := TokensTile(cls, chars, states, next);
      at := TileNext(cls, chars, states, i, next, token, TokensFrom(cls, chars, states, next), later);
    }
  }

  lemma TileNext(cls: CharClass, chars: seq<char>, states: seq<(nat, LexState)>, i: nat, next: nat,
                 token: Option<Spanned>, rest: seq<Spanned>, later: seq<nat>)
    returns (at: seq<nat>)
    requires Lexed(chars, states) && i < next <= |chars| && Tile(cls, chars, states, next, rest, later)
    requires match token
             case Some(t) => IsTokenAt(cls, chars, states, t, i) && next == i + ExtentOf(t.token)
             case None => MakesNone(cls, chars, states, i) && next == i + 1
    ensures Tile(cls, chars, states, i, Appended([], token) + rest, at)
  {
    if token.Some? {
      TileOneMore(cls, chars, states, i, next, token.value, rest, later);
      assert Appended([], token) == [token.value];
      at := [i] + later;
    } else {
      assert Appended([], token) + rest == rest;
      TileNoMore(cls, chars, states, i, rest, later);
      at := later;
    }
  }

  /**
   The tokens are exactly those of the code: each stands at its offset and line, identifiers as long as they go, none
   overlaps another, and every character outside them is no code, white space, or no part of a token.
   */
  lemma TokensAreExact(cls: CharClass, chars: seq<char>, tokens: seq<Spanned>)
    requires TokensOf(cls, chars, tokens)
    ensures exists states, at :: Classified(chars, states, |chars|) && Tile(cls, chars, states, 0, tokens, at)
  {
    var states :| Classified(chars, states, |chars|) && tokens == TokensFrom(cls, chars, states, 0);
    var at := TokensTile(cls, chars, states, 0);
  }

  // ----- the tokens are in order

  /** Where the reading of what begins at character `i` ends, and the token it makes, if any. */
  ghost predicate ReadsTo(cls: CharClass, chars: seq<char>, states: seq<(nat, LexState)>, i: nat, next: nat)
    requires Lexed(chars, states) && i < |chars|
  {
    && i < next <= |chars|
    && var tokens, rest := TokensFrom(cls, chars, states, i), TokensFrom(cls, chars, states, next);
       tokens == rest
       || (chars[i] != '\n' && |tokens| > 0 && tokens == [tokens[0]] + rest && tokens[0].line == LineOf(chars, i)
           && tokens[0].offset == states[i].0)
  }

  lemma SomethingIsRead(cls: CharClass, chars: seq<char>, states: seq<(nat, LexState)>, i: nat) returns (next: nat)
    requires Lexed(chars, states) && i < |chars|
    ensures ReadsTo(cls, chars, states, i, next)
  {
    if !states[i].1.Code? || chars[i] == '\n' || cls.whitespace(chars[i]) {
      next := i + 1;
    } else if IsIdentStart(cls, chars[i]) {
      next := IdentEnd(cls, chars, states, i);
      if next == i {
        next := i + 1;
      }
    } else if chars[i] == '-' && IsAt(chars, i + 1, '>') && states[i + 1].1.Code? {
      next := i + 2;
    } else {
      next := i + 1;
    }
  }

  ghost predicate LinesFrom(tokens: seq<Spanned>, first: nat, last: nat) {
    && (forall k | 0 <= k < |tokens| :: first <= tokens[k].line <= last)
    && (forall k, l | 0 <= k <= l < |tokens| :: tokens[k].line <= tokens[l].line)
  }

  lemma {:induction false} TokensInOrder(cls: CharClass, chars: seq<char>, states: seq<(nat, LexState)>, i: nat)
    requires Lexed(chars, states) && i <= |chars|
    ensures LinesFrom(TokensFrom(cls, chars, states, i), LineOf(chars, i), LineCount(chars))
    decreases |chars| - i
  {
    if i < |chars| {
      var next := SomethingIsRead(cls, chars, states, i);
      TokensInOrder(cls, chars, states, next);
      NewlinesGrow(chars, i, next);
      if chars[i] != '\n' {
        LineWithinText(chars, i);
      }
    }
  }

  lemma {:induction false} OffsetsGrow(chars: seq<char>, i: nat, j: nat)
    requires i <= j <= |chars|
    ensures OffsetOf(chars, i) + (j - i) <= OffsetOf(chars, j)
  {
    if i < j {
      OffsetsGrow(chars, i, j - 1);
    }
  }

  lemma {:induction false} OffsetsInOrder(cls: CharClass, chars: seq<char>, states: seq<(nat, LexState)>, i: nat)
    requires Classified(chars, states, |chars|) && i <= |chars|
    ensures var tokens := TokensFrom(cls, chars, states, i);
            OffsetsAscend(tokens) && forall k | 0 <= k < |tokens| :: OffsetOf(chars, i) <= tokens[k].offset
    decreases |chars| - i
  {
    if i < |chars| {
      var next := SomethingIsRead(cls, chars, states, i);
      OffsetsInOrder(cls, chars, states, next);
      OffsetsGrow(chars, i, next);
    }
  }

  lemma TokensOfInOrder(cls: CharClass, chars: seq<char>, tokens: seq<Spanned>)
    requires TokensOf(cls, chars, tokens)
    ensures LinesFrom(tokens, 1, LineCount(chars)) && OffsetsAscend(tokens)
  {
    var states :| Classified(chars, states, |chars|) && tokens == TokensFrom(cls, chars, states, 0);
    TokensInOrder(cls, chars, states, 0);
    OffsetsInOrder(cls, chars, states, 0);
  }
}
