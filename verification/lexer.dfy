/** The character-cursor scanner of Lexer.java. Its cursor is the pair of fields
    `position` and `line`, moved by `Advance` and `Match` inside the scanning loops; every
    method is proved to leave the cursor where the matching function of LexerSpec says. */
module Lexer {
  import opened Wrappers
  import opened Text
  import opened Tokens
  import opened LexerSpec

  class Lexer {
    const source: string
    var position: nat
    var line: nat

    predicate Valid()
      reads this
    {
      position <= |source|
    }

    constructor (source: string)
      ensures this.source == source && position == 0 && line == 1 && Valid()
    {
      this.source := source;
      position := 0;
      line := 1;
    }

    /** The token list, ended by one end-of-input token, or the first error. */
    method Tokenize() returns (r: Result<seq<Token>>)
      requires Valid()
      modifies this
      ensures r == LexFrom(source, old(position), old(line), [])
    {
      var tokens: seq<Token> := [];
      while !IsAtEnd()
        invariant Valid()
        invariant LexFrom(source, position, line, tokens) == LexFrom(source, old(position), old(line), [])
        decreases |source| - position
      {
        SkipWhitespace();
        if IsAtEnd() {
          break;
        }
        var emitted :- NextToken();
        tokens := tokens + emitted;
      }
      tokens := tokens + [Token(Eof, "", line)];
      return Ok(tokens);
    }

    /** One pass of the `tokenize` loop after the blanks: the switch on the next
        character, emitting at most one token. */
    method NextToken() returns (r: Result<seq<Token>>)
      requires Valid() && position < |source|
      modifies this
      ensures var step := ScanToken(source, old(position), old(line));
        && (step.Err? ==> r == Err(step.error))
        && (step.Ok? ==> r == Ok(step.value.emitted) && Valid()
                         && position == step.value.next && line == step.value.line)
    {
      var start := position;
      var tokenLine := line;
      var ch := Advance();
      match ch {
        case '"' =>
          if !IsAtEnd() && Peek() == '"' && PeekNext() == '"' {
            var _ := Advance();
            var _ := Advance();
            var t :- ReadMultilineString(tokenLine);
            return Ok([t]);
          } else {
            var t :- ReadString('"', tokenLine);
            return Ok([t]);
          }
        case '\'' =>
          var t :- ReadString('\'', tokenLine);
          return Ok([t]);
        case '(' => return Ok([Token(LParen, "(", line)]);
        case ')' => return Ok([Token(RParen, ")", line)]);
        case '=' => return Ok([Token(Equal, "=", line)]);
        case '{' => return Ok([Token(LBrace, "{", line)]);
        case '}' => return Ok([Token(RBrace, "}", line)]);
        case '|' => return Ok([Token(Pipe, "|", line)]);
        case ';' => return Ok([Token(Semicolon, ";", line)]);
        case '#' =>
          SkipComment();
          return Ok([]);
        case _ =>
          if IsIdentifierStart(ch) {
            var ident := ReadIdentifier(start);
            var kind := if ident == "def" then Def else Ident;
            return Ok([Token(kind, ident, tokenLine)]);
          } else {
            return Err(Diagnostic(line, "Unexpected character '" + [ch] + "'"));
          }
      }
    }

    /** Skips spaces, tabs, CRs and LFs, counting one line per LF. */
    method SkipWhitespace()
      requires Valid()
      modifies this
      ensures Valid() && (position, line) == SkipBlanks(source, old(position), old(line))
    {
      while !IsAtEnd()
        invariant Valid()
        invariant SkipBlanks(source, position, line) == SkipBlanks(source, old(position), old(line))
        decreases |source| - position
      {
        var ch := Peek();
        if ch == ' ' || ch == '\t' || ch == '\r' {
          var _ := Advance();
        } else if ch == '\n' {
          var _ := Advance();
          line := line + 1;
        } else {
          break;
        }
      }
    }

    /** Skips the rest of a `#` comment, stopping before the LF. */
    method SkipComment()
      requires Valid()
      modifies this`position
      ensures Valid() && position == CommentEnd(source, old(position))
    {
      while !IsAtEnd() && Peek() != '\n'
        invariant Valid()
        invariant CommentEnd(source, position) == CommentEnd(source, old(position))
        decreases |source| - position
      {
        var _ := Advance();
      }
    }

    /** Reads a `'..'` or `".."` literal whose opening quote has been consumed. */
    method ReadString(quote: char, startLine: nat) returns (r: Result<Token>)
      requires Valid()
      modifies this`position
      ensures Valid()
      ensures var e := QuotedEnd(source, old(position), quote, line);
        && (e.Err? ==> r == Err(e.error))
        && (e.Ok? ==> r == Ok(Token(Str, source[old(position)..e.value], startLine)) && position == e.value + 1)
    {
      var sb: string := "";
      ghost var start := position;
      while !IsAtEnd()
        invariant start <= position <= |source|
        invariant sb == source[start..position]
        invariant QuotedEnd(source, position, quote, line) == QuotedEnd(source, start, quote, line)
        decreases |source| - position
      {
        var ch := Advance();
        if ch == quote {
          return Ok(Token(Str, sb, startLine));
        }
        if ch == '\n' {
          return Err(Diagnostic(line, "Unterminated string literal"));
        }
        if !IsAsciiAllowed(ch) {
          return Err(Diagnostic(line, "Non-ASCII character in string literal"));
        }
        sb := sb + [ch];
      }
      return Err(Diagnostic(line, "Unterminated string literal"));
    }

    /** Reads a `"""` literal whose opening quotes have been consumed; it may span lines,
        and the token carries the line it started on. */
    method ReadMultilineString(startLine: nat) returns (r: Result<Token>)
      requires Valid()
      modifies this
      ensures Valid()
      ensures var e := TripleBody(source, old(position), old(line), "");
        && (e.Err? ==> r == Err(e.error))
        && (e.Ok? ==> r == Ok(Token(Str, e.value.text, startLine))
                      && position == e.value.next && line == e.value.line)
    {
      var sb: string := "";
      while !IsAtEnd()
        invariant Valid()
        invariant TripleBody(source, position, line, sb) == TripleBody(source, old(position), old(line), "")
        decreases |source| - position
      {
        ghost var before := position;
        var ch := Advance();
        var closing := false;
        if ch == '"' {
          var second := Match('"');
          if second {
            closing := Match('"');
          }
        }
        TripleQuoteChars(source, before);
        if closing {
          TripleBodyCloses(source, before, line, sb);
          return Ok(Token(Str, sb, startLine));
        }
        if !IsAsciiAllowed(ch) {
          TripleBodyRejects(source, before, line, sb);
          return Err(Diagnostic(line, "Non-ASCII character in string literal"));
        }
        TripleBodyUnfold(source, before, line, sb);
        if ch == '\n' {
          sb := sb + ['\n'];
          line := line + 1;
        } else {
          sb := sb + [ch];
        }
      }
      return Err(Diagnostic(line, "Unterminated multi-line string literal"));
    }

    /** Reads the rest of an identifier whose first character is at `start`. */
    method ReadIdentifier(start: nat) returns (word: string)
      requires Valid() && start <= position
      modifies this`position
      ensures Valid() && position == IdentifierEnd(source, old(position))
      ensures word == source[start..position]
    {
      while !IsAtEnd() && IsIdentifierPart(Peek())
        invariant Valid() && old(position) <= position
        invariant IdentifierEnd(source, position) == IdentifierEnd(source, old(position))
        decreases |source| - position
      {
        var _ := Advance();
      }
      word := source[start..position];
    }

    predicate IsAsciiAllowed(ch: char) {
      AsciiAllowed(ch)
    }

    method Match(expected: char) returns (matched: bool)
      requires Valid()
      modifies this`position
      ensures Valid()
      ensures matched == (old(position) < |source| && source[old(position)] == expected)
      ensures position == if matched then old(position) + 1 else old(position)
    {
      if IsAtEnd() {
        return false;
      }
      if source[position] != expected {
        return false;
      }
      position := position + 1;
      return true;
    }

    /** The character after the next one, or NUL past the end. */
    function PeekNext(): char
      reads this
    {
      if position + 1 >= |source| then '\0' else source[position + 1]
    }

    predicate IsAtEnd()
      reads this
    {
      position >= |source|
    }

    method Advance() returns (ch: char)
      requires position < |source|
      modifies this`position
      ensures position == old(position) + 1 && ch == source[old(position)]
    {
      ch := source[position];
      position := position + 1;
    }

    function Peek(): char
      reads this
      requires position < |source|
    {
      source[position]
    }
  }
}
