/** The lexer of Lexer.java written as functions of the source text and a cursor
    (position and line). Each scanning loop of the Java class has one function here that
    says where the cursor stops and what was read; the class in lexer.dfy is proved to
    compute exactly these, and the lemmas below state what the token stream promises. */
module LexerSpec {
  import opened Wrappers
  import opened Text
  import opened Tokens

  /** Identifier characters, restricted to ASCII (see README, "Left out"). */
  predicate IsIdentifierStart(c: char) {
    c == '_' || ('a' <= c <= 'z') || ('A' <= c <= 'Z')
  }

  predicate IsIdentifierPart(c: char) {
    IsIdentifierStart(c) || ('0' <= c <= '9')
  }

  /** The characters skipped between tokens. */
  predicate IsBlank(c: char) {
    c == ' ' || c == '\t' || c == '\r' || c == '\n'
  }

  predicate IsPunctuation(c: char) {
    c == '(' || c == ')' || c == '=' || c == '{' || c == '}' || c == '|' || c == ';'
  }

  function PunctuationKind(c: char): (k: TokenKind)
    requires IsPunctuation(c)
  {
    match c
    case '(' => LParen
    case ')' => RParen
    case '=' => Equal
    case '{' => LBrace
    case '}' => RBrace
    case '|' => Pipe
    case _ => Semicolon
  }

  /** Where `skipWhitespace` stops, and the line it has counted up to: every LF skipped
      adds exactly one line. */
  function SkipBlanks(src: string, pos: nat, line: nat): (r: (nat, nat))
    requires pos <= |src|
    ensures pos <= r.0 <= |src|
    ensures forall i | pos <= i < r.0 :: IsBlank(src[i])
    ensures r.0 < |src| ==> !IsBlank(src[r.0])
    ensures r.1 == line + CountNewlines(src[pos..r.0])
    decreases |src| - pos
  {
    if pos < |src| && IsBlank(src[pos]) then
      var r := SkipBlanks(src, pos + 1, if src[pos] == '\n' then line + 1 else line);
      assert src[pos..r.0][1..] == src[pos + 1..r.0];
      r
    else
      (pos, line)
  }

  /** Where `skipComment` stops: at the first LF (which is left for `skipWhitespace` to
      count) or at the end of the source. */
  function CommentEnd(src: string, pos: nat): (e: nat)
    requires pos <= |src|
    ensures pos <= e <= |src|
    ensures e < |src| ==> src[e] == '\n'
    ensures forall i | pos <= i < e :: src[i] != '\n'
    decreases |src| - pos
  {
    if pos < |src| && src[pos] != '\n' then CommentEnd(src, pos + 1) else pos
  }

  /** Where `readIdentifier` stops: the longest run of identifier characters. */
  function IdentifierEnd(src: string, pos: nat): (e: nat)
    requires pos <= |src|
    ensures pos <= e <= |src|
    ensures e < |src| ==> !IsIdentifierPart(src[e])
    ensures forall i | pos <= i < e :: IsIdentifierPart(src[i])
    decreases |src| - pos
  {
    if pos < |src| && IsIdentifierPart(src[pos]) then IdentifierEnd(src, pos + 1) else pos
  }

  /** The loop of `readString`, started just after the opening quote: the index of the
      closing quote, or the error it stops with. */
  function QuotedEnd(src: string, pos: nat, quote: char, line: nat): (r: Result<nat>)
    requires pos <= |src|
    ensures r.Ok? ==> pos <= r.value < |src| && src[r.value] == quote
    ensures r.Ok? ==> forall i | pos <= i < r.value ::
      src[i] != quote && src[i] != '\n' && AsciiAllowed(src[i])
    ensures r.Err? ==> r.error.line == line
    decreases |src| - pos
  {
    if pos == |src| then Err(Diagnostic(line, "Unterminated string literal"))
    else if src[pos] == quote then Ok(pos)
    else if src[pos] == '\n' then Err(Diagnostic(line, "Unterminated string literal"))
    else if !AsciiAllowed(src[pos]) then Err(Diagnostic(line, "Non-ASCII character in string literal"))
    else QuotedEnd(src, pos + 1, quote, line)
  }

  /** What a scanning loop that builds text has read: the text, the cursor after it and
      the line the cursor is on. */
  datatype Scanned = Scanned(text: string, next: nat, line: nat)

  /** The loop of `readMultilineString`, started just after the opening `"""`, with the
      text read so far in `acc`. A `"` followed by a second `"` but not a third has
      already consumed the second one when the test fails, so that one is not kept. */
  function TripleBody(src: string, pos: nat, line: nat, acc: string): (r: Result<Scanned>)
    requires pos <= |src|
    ensures r.Ok? ==> pos + 3 <= r.value.next <= |src|
    decreases |src| - pos
  {
    if pos == |src| then
      Err(Diagnostic(line, "Unterminated multi-line string literal"))
    else
      var ch := src[pos];
      var second := ch == '"' && pos + 1 < |src| && src[pos + 1] == '"';
      if second && pos + 2 < |src| && src[pos + 2] == '"' then
        Ok(Scanned(acc, pos + 3, line))
      else if !AsciiAllowed(ch) then
        Err(Diagnostic(line, "Non-ASCII character in string literal"))
      else
        var after := if second then pos + 2 else pos + 1;
        var r := TripleBody(src, after, if ch == '\n' then line + 1 else line, acc + [ch]);
        r
  }

  /** A multi-line literal ends just after a `"""`, on the line reached by counting
      every LF it read, with what was read before as a prefix of its text, which stays
      allowed. */
  lemma {:induction false} TripleBodyResult(src: string, pos: nat, line: nat, acc: string)
    requires pos <= |src|
    ensures var r := TripleBody(src, pos, line, acc);
      r.Ok? ==>
        && src[r.value.next - 3..r.value.next] == "\"\"\""
        && r.value.line == line + CountNewlines(src[pos..r.value.next - 3])
        && acc <= r.value.text && (AllAllowed(acc) ==> AllAllowed(r.value.text))
    decreases |src| - pos
  {
    if pos < |src| {
      var ch := src[pos];
      var second := ch == '"' && pos + 1 < |src| && src[pos + 1] == '"';
      if second && pos + 2 < |src| && src[pos + 2] == '"' {
        assert src[pos..pos] == [];
      } else if AsciiAllowed(ch) {
        var after := if second then pos + 2 else pos + 1;
        var nextLine := if ch == '\n' then line + 1 else line;
        TripleBodyResult(src, after, nextLine, acc + [ch]);
        var r := TripleBody(src, after, nextLine, acc + [ch]);
        if r.Ok? {
          TripleStep(src, pos, after, line, acc, r.value);
        }
      }
    }
  }

  /** One step of the multi-line loop when it neither closes nor fails: one character
      read, or two when it is a `"` and a second `"` follows. */
  lemma TripleBodyUnfold(src: string, pos: nat, line: nat, acc: string)
    requires pos < |src| && AsciiAllowed(src[pos])
    requires !TripleQuoteAt(src, pos)
    ensures var second := src[pos] == '"' && pos + 1 < |src| && src[pos + 1] == '"';
      TripleBody(src, pos, line, acc) ==
        TripleBody(src, if second then pos + 2 else pos + 1,
                   if src[pos] == '\n' then line + 1 else line, acc + [src[pos]])
  {
    TripleQuoteChars(src, pos);
  }

  /** The loop ends at a `"""`, keeping what it has read. */
  lemma TripleBodyCloses(src: string, pos: nat, line: nat, acc: string)
    requires TripleQuoteAt(src, pos)
    ensures TripleBody(src, pos, line, acc) == Ok(Scanned(acc, pos + 3, line))
  {
    TripleQuoteChars(src, pos);
  }

  /** A forbidden character that does not start a `"""` fails the loop on its line. */
  lemma TripleBodyRejects(src: string, pos: nat, line: nat, acc: string)
    requires pos < |src| && !AsciiAllowed(src[pos]) && !TripleQuoteAt(src, pos)
    ensures TripleBody(src, pos, line, acc) == Err(Diagnostic(line, "Non-ASCII character in string literal"))
  {
    TripleQuoteChars(src, pos);
  }

  /** What one step of the multi-line loop adds to what the rest of the loop reads. */
  lemma TripleStep(src: string, pos: nat, after: nat, line: nat, acc: string, s: Scanned)
    requires pos < after <= |src| && AsciiAllowed(src[pos])
    requires after == pos + 1 || (after == pos + 2 && src[pos + 1] == '"')
    requires after + 3 <= s.next <= |src|
    requires s.line == (if src[pos] == '\n' then line + 1 else line) + CountNewlines(src[after..s.next - 3])
    requires acc + [src[pos]] <= s.text
    requires AllAllowed(acc + [src[pos]]) ==> AllAllowed(s.text)
    ensures s.line == line + CountNewlines(src[pos..s.next - 3])
    ensures acc <= s.text && (AllAllowed(acc) ==> AllAllowed(s.text))
  {
    TripleStepLines(src, pos, after, s.next - 3);
    if AllAllowed(acc) {
      AppendAllowed(acc, src[pos]);
    }
  }

  /** One step of the multi-line loop reads one character, or a `"` and the `"` after
      it, and counts a line only when that character is an LF. */
  lemma TripleStepLines(src: string, pos: nat, after: nat, end: nat)
    requires pos < after <= end <= |src|
    requires after == pos + 1 || (after == pos + 2 && src[pos + 1] == '"')
    ensures CountNewlines(src[pos..end]) == (if src[pos] == '\n' then 1 else 0) + CountNewlines(src[after..end])
  {
    assert src[pos..end] == src[pos..after] + src[after..end];
    CountNewlinesAppend(src[pos..after], src[after..end]);
    if after == pos + 2 {
      assert src[pos..after] == [src[pos]] + [src[pos + 1]];
      CountNewlinesAppend([src[pos]], [src[pos + 1]]);
    }
  }

  /** One step of the `tokenize` loop: what it emits (nothing for a comment, one token
      otherwise), where the cursor ends up and on which line. */
  datatype Step = Step(emitted: seq<Token>, next: nat, line: nat)

  function QuotedToken(src: string, pos: nat, quote: char, line: nat): (r: Result<Step>)
    requires pos <= |src|
    ensures r.Ok? ==> pos < r.value.next <= |src| && r.value.line == line
    ensures r.Ok? ==> r.value.emitted == [Token(Str, src[pos..r.value.next - 1], line)]
    ensures r.Ok? ==> AllAllowed(src[pos..r.value.next - 1])
  {
    match QuotedEnd(src, pos, quote, line)
    case Err(e) => Err(e)
    case Ok(close) => Ok(Step([Token(Str, src[pos..close], line)], close + 1, line))
  }

  /** The body of the `tokenize` loop once blanks are skipped and the cursor is on a
      character: the switch on that character. */
  function ScanToken(src: string, pos: nat, line: nat): (r: Result<Step>)
    requires pos < |src|
    ensures r.Ok? ==> pos < r.value.next <= |src| && line <= r.value.line
    ensures r.Ok? ==> |r.value.emitted| <= 1
    ensures r.Ok? ==> forall t | t in r.value.emitted :: t.kind != Eof && t.line == line && WellShaped(t)
    ensures r.Ok? && r.value.emitted != [] && r.value.emitted[0].kind in {Ident, Def} ==>
      r.value.emitted[0].lexeme == src[pos..r.value.next]
  {
    var ch := src[pos];
    if ch == '"' then
      if pos + 2 < |src| && src[pos + 1] == '"' && src[pos + 2] == '"' then
        match TripleBody(src, pos + 3, line, "")
        case Err(e) => Err(e)
        case Ok(s) =>
          TripleBodyResult(src, pos + 3, line, "");
          Ok(Step([Token(Str, s.text, line)], s.next, s.line))
      else
        QuotedToken(src, pos + 1, '"', line)
    else if ch == '\'' then
      QuotedToken(src, pos + 1, '\'', line)
    else if IsPunctuation(ch) then
      Ok(Step([Token(PunctuationKind(ch), [ch], line)], pos + 1, line))
    else if ch == '#' then
      Ok(Step([], CommentEnd(src, pos + 1), line))
    else if IsIdentifierStart(ch) then
      var e := IdentifierEnd(src, pos + 1);
      var word := src[pos..e];
      Ok(Step([Token(if word == "def" then Def else Ident, word, line)], e, line))
    else
      Err(Diagnostic(line, "Unexpected character '" + [ch] + "'"))
  }

  /** The `tokenize` loop from cursor (`pos`, `line`) with the tokens `acc` already
      emitted. */
  function LexFrom(src: string, pos: nat, line: nat, acc: seq<Token>): (r: Result<seq<Token>>)
    requires pos <= |src|
    decreases |src| - pos
  {
    if pos == |src| then
      Ok(acc + [Token(Eof, "", line)])
    else
      var (p, l) := SkipBlanks(src, pos, line);
      if p == |src| then
        Ok(acc + [Token(Eof, "", l)])
      else
        match ScanToken(src, p, l)
        case Err(e) => Err(e)
        case Ok(step) => LexFrom(src, step.next, step.line, acc + step.emitted)
  }

  /** The token list of a whole source text: `new Lexer(src).tokenize()`. */
  function Tokenize(src: string): Result<seq<Token>> {
    LexFrom(src, 0, 1, [])
  }

  /** A word the identifier scanner accepts. */
  predicate IsWord(s: string) {
    |s| >= 1 && IsIdentifierStart(s[0]) && forall i | 1 <= i < |s| :: IsIdentifierPart(s[i])
  }

  /** What each kind of token promises about its lexeme. */
  predicate WellShaped(t: Token) {
    && (t.kind == Str ==> AllAllowed(t.lexeme))
    && (t.kind == Def ==> t.lexeme == "def")
    && (t.kind == Ident ==> IsWord(t.lexeme) && t.lexeme != "def")
    && (t.kind !in {Eof, Ident, Str, Def} ==>
          |t.lexeme| == 1 && IsPunctuation(t.lexeme[0]) && PunctuationKind(t.lexeme[0]) == t.kind)
  }

  /** Token lines never decrease along the list. */
  predicate LinesSorted(ts: seq<Token>) {
    forall i, j | 0 <= i <= j < |ts| :: ts[i].line <= ts[j].line
  }

  predicate LinesAtMost(ts: seq<Token>, line: nat) {
    forall i | 0 <= i < |ts| :: ts[i].line <= line
  }

  predicate AllWellShaped(ts: seq<Token>) {
    forall i | 0 <= i < |ts| :: WellShaped(ts[i])
  }

  /** The loop keeps the tokens emitted so far, and what it adds keeps the list's
      invariants: a single final EOF, well-shaped lexemes and non-decreasing lines. */
  lemma {:induction false} LexFromShape(src: string, pos: nat, line: nat, acc: seq<Token>)
    requires pos <= |src|
    requires NoEof(acc) && AllWellShaped(acc) && LinesSorted(acc) && LinesAtMost(acc, line)
    ensures var r := LexFrom(src, pos, line, acc);
      r.Ok? ==> acc <= r.value && EofOnlyAtEnd(r.value) && AllWellShaped(r.value) && LinesSorted(r.value)
    decreases |src| - pos
  {
    if pos == |src| {
      var ts := acc + [Token(Eof, "", line)];
      assert ts[..|ts| - 1] == acc;
    } else {
      var (p, l) := SkipBlanks(src, pos, line);
      if p == |src| {
        var ts := acc + [Token(Eof, "", l)];
        assert ts[..|ts| - 1] == acc;
      } else {
        var r := ScanToken(src, p, l);
        if r.Ok? {
          var acc' := acc + r.value.emitted;
          forall i | 0 <= i < |acc'| ensures acc'[i].kind != Eof && WellShaped(acc'[i]) && acc'[i].line <= r.value.line {
            if i >= |acc| {
              assert acc'[i] in r.value.emitted;
            }
          }
          LexFromShape(src, r.value.next, r.value.line, acc');
        }
      }
    }
  }

  /** What a successful `tokenize` returns: exactly one EOF, at the end; STRING lexemes
      contain only allowed characters; `def` is the only DEF lexeme and never an
      IDENTIFIER; punctuation lexemes are their one character; lines start at 1 and never
      decrease. */
  lemma TokenizeShape(src: string)
    ensures var r := Tokenize(src);
      r.Ok? ==> && EofOnlyAtEnd(r.value) && AllWellShaped(r.value) && LinesSorted(r.value)
                && forall i | 0 <= i < |r.value| :: r.value[i].line >= 1
  {
    LexFromShape(src, 0, 1, []);
    LexFromLinesFrom(src, 0, 1, []);
  }

  /** Lines never drop below the line the loop started on. */
  lemma {:induction false} LexFromLinesFrom(src: string, pos: nat, line: nat, acc: seq<Token>)
    requires pos <= |src|
    requires forall i | 0 <= i < |acc| :: acc[i].line >= 1
    requires line >= 1
    ensures var r := LexFrom(src, pos, line, acc);
      r.Ok? ==> forall i | 0 <= i < |r.value| :: r.value[i].line >= 1
    decreases |src| - pos
  {
    if pos < |src| {
      var (p, l) := SkipBlanks(src, pos, line);
      if p < |src| {
        var r := ScanToken(src, p, l);
        if r.Ok? {
          assert l >= line;
          var acc' := acc + r.value.emitted;
          forall i | 0 <= i < |acc'| ensures acc'[i].line >= 1 {
            if i >= |acc| {
              assert acc'[i] in r.value.emitted;
            }
          }
          assert LexFrom(src, pos, line, acc) == LexFrom(src, r.value.next, r.value.line, acc');
          LexFromLinesFrom(src, r.value.next, r.value.line, acc');
        }
      }
    }
  }

  /** A quoted literal ends at the first quote, LF, forbidden character or end of input
      after its opening quote: the quote closes it, LF or the end leaves it unterminated,
      and a forbidden character is reported as such. */
  lemma {:induction false} QuotedEndStops(src: string, pos: nat, quote: char, line: nat, j: nat)
    requires quote == '"' || quote == '\''
    requires pos <= j <= |src|
    requires forall i | pos <= i < j :: src[i] != quote && src[i] != '\n' && AsciiAllowed(src[i])
    ensures j < |src| && src[j] == quote ==> QuotedEnd(src, pos, quote, line) == Ok(j)
    ensures j == |src| || src[j] == '\n' ==>
      QuotedEnd(src, pos, quote, line) == Err(Diagnostic(line, "Unterminated string literal"))
    ensures j < |src| && !AsciiAllowed(src[j]) ==>
      QuotedEnd(src, pos, quote, line) == Err(Diagnostic(line, "Non-ASCII character in string literal"))
    decreases j - pos
  {
    if pos < j {
      QuotedEndStops(src, pos + 1, quote, line, j);
    }
  }

  predicate TripleQuoteAt(src: string, i: nat) {
    i + 3 <= |src| && src[i..i + 3] == "\"\"\""
  }

  lemma TripleQuoteChars(src: string, i: nat)
    ensures TripleQuoteAt(src, i) <==>
      i + 3 <= |src| && src[i] == '"' && src[i + 1] == '"' && src[i + 2] == '"'
  {
    if i + 3 <= |src| && src[i] == '"' && src[i + 1] == '"' && src[i + 2] == '"' {
      assert src[i..i + 3] == "\"\"\"";
    }
  }

  /** A multi-line literal with no `"""` after its opening and no forbidden character
      fails at the end of input, on the line reached by counting every LF it read. */
  lemma {:induction false} TripleBodyUnterminated(src: string, pos: nat, line: nat, acc: string)
    requires pos <= |src|
    requires AllAllowed(src[pos..])
    requires forall i | pos <= i < |src| :: !TripleQuoteAt(src, i)
    ensures TripleBody(src, pos, line, acc) ==
      Err(Diagnostic(line + CountNewlines(src[pos..]), "Unterminated multi-line string literal"))
    decreases |src| - pos
  {
    if pos < |src| {
      var ch := src[pos];
      assert AsciiAllowed(src[pos..][0]);
      var second := ch == '"' && pos + 1 < |src| && src[pos + 1] == '"';
      TripleQuoteChars(src, pos);
      var after := if second then pos + 2 else pos + 1;
      assert src[after..] == src[pos..][after - pos..];
      TripleBodyUnterminated(src, after, if ch == '\n' then line + 1 else line, acc + [ch]);
      assert src[pos..] == src[pos..after] + src[after..];
      CountNewlinesAppend(src[pos..after], src[after..]);
      if second {
        assert src[pos..after] == [ch] + [src[pos + 1]];
        CountNewlinesAppend([ch], [src[pos + 1]]);
      }
    }
  }

  /** Inside a multi-line literal, `""` not followed by a third `"` keeps only one
      of its two quote characters. */
  lemma TripleBodyDropsQuote(src: string, pos: nat, line: nat, acc: string)
    requires pos + 1 < |src| && src[pos] == '"' && src[pos + 1] == '"'
    requires pos + 2 == |src| || src[pos + 2] != '"'
    ensures TripleBody(src, pos, line, acc) == TripleBody(src, pos + 2, line, acc + "\"")
  {
  }

  /** A first non-blank character that no token starts with stops `tokenize` with
      "Unexpected character", on the line that character is on. */
  lemma TokenizeUnexpected(src: string, k: nat)
    requires k < |src|
    requires forall i | 0 <= i < k :: IsBlank(src[i])
    requires var c := src[k];
      !IsBlank(c) && c != '"' && c != '\'' && !IsPunctuation(c) && c != '#' && !IsIdentifierStart(c)
    ensures Tokenize(src) ==
      Err(Diagnostic(1 + CountNewlines(src[..k]), "Unexpected character '" + [src[k]] + "'"))
  {
    var (p, l) := SkipBlanks(src, 0, 1);
    assert p == k;
    assert src[0..k] == src[..k];
  }

  /** A `#` comment emits no token; the cursor stops on the LF that ends it. */
  lemma CommentEmitsNothing(src: string, pos: nat, line: nat)
    requires pos < |src| && src[pos] == '#'
    ensures ScanToken(src, pos, line) == Ok(Step([], CommentEnd(src, pos + 1), line))
  {
  }

  /** That LF is then skipped as a blank and counted like any other. */
  lemma {:induction false} NewlineCounted(src: string, e: nat, line: nat, acc: seq<Token>)
    requires e < |src| && src[e] == '\n'
    ensures LexFrom(src, e, line, acc) == LexFrom(src, e + 1, line + 1, acc)
  {
    var s := SkipBlanks(src, e, line);
    assert s == SkipBlanks(src, e + 1, line + 1);
    if e + 1 < |src| {
      assert LexFrom(src, e + 1, line + 1, acc) == (
        if s.0 == |src| then Ok(acc + [Token(Eof, "", s.1)])
        else match ScanToken(src, s.0, s.1)
          case Err(err) => Err(err)
          case Ok(step) => LexFrom(src, step.next, step.line, acc + step.emitted));
    }
  }

  /** The body of `"""a""b"""`: the pair of quotes before `b` leaves one quote. */
  lemma DroppedQuoteBody()
    ensures TripleBody("\"\"\"a\"\"b\"\"\"", 3, 1, "") == Ok(Scanned("a\"b", 10, 1))
  {
    var src := "\"\"\"a\"\"b\"\"\"";
    assert TripleBody(src, 7, 1, "a\"b") == Ok(Scanned("a\"b", 10, 1));
    assert "a\"" + ['b'] == "a\"b";
    assert TripleBody(src, 6, 1, "a\"") == Ok(Scanned("a\"b", 10, 1));
    assert "a" + ['"'] == "a\"";
    assert TripleBody(src, 4, 1, "a") == Ok(Scanned("a\"b", 10, 1));
    assert "" + ['a'] == "a";
  }

  /** The dropped quote on a whole source: `"""a""b"""` lexes to the text `a"b`. */
  lemma DroppedQuoteExample()
    ensures Tokenize("\"\"\"a\"\"b\"\"\"") == Ok([Token(Str, "a\"b", 1), Token(Eof, "", 1)])
  {
    var src := "\"\"\"a\"\"b\"\"\"";
    var str := Token(Str, "a\"b", 1);
    assert SkipBlanks(src, 0, 1) == (0, 1);
    DroppedQuoteBody();
    assert ScanToken(src, 0, 1) == Ok(Step([str], 10, 1));
    assert |src| == 10;
    assert [str] + [Token(Eof, "", 1)] == [str, Token(Eof, "", 1)];
    assert LexFrom(src, 10, 1, [str]) == Ok([str, Token(Eof, "", 1)]);
    assert [] + [str] == [str];
    assert LexFrom(src, 0, 1, []) == LexFrom(src, 10, 1, [] + [str]);
  }
}
