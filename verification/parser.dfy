/** The recursive-descent parser of Parser.java. Its one piece of state is the cursor
    `current` into the token list, moved by `Advance`, `Match` and `Consume`; every
    parsing method is proved to return what the matching function of ParserSpec returns
    and to leave the cursor where that function says. */
module Parser {
  import opened Wrappers
  import opened Tokens
  import opened Ast
  import opened ParserSpec

  class Parser {
    const tokens: seq<Token>
    var current: nat

    predicate Valid()
      reads this
    {
      Stream(tokens) && current < |tokens|
    }

    constructor (tokens: seq<Token>)
      requires Stream(tokens)
      ensures this.tokens == tokens && current == 0 && Valid()
    {
      this.tokens := tokens;
      current := 0;
    }

    /** Definitions while the next token is `def`, one expression, then the end. */
    method ParseProgram() returns (r: Parsed<Program>)
      requires Valid() && current == 0
      modifies this
      ensures r == ParserSpec.ParseProgram(tokens) && Valid()
      ensures r.Done? ==> current == r.next
    {
      var definitions: seq<Definition> := [];
      while true
        invariant Valid()
        invariant forall i | 0 <= i < |definitions| :: ExpressionWellFormed(definitions[i].body)
        invariant Definitions(tokens, current, definitions) == Definitions(tokens, 0, [])
        decreases |tokens| - current
      {
        var isDef := Match(Def);
        if !isDef {
          break;
        }
        var d :- ParseDefinition();
        definitions := definitions + [d.0];
      }
      var expression :- ParseExpression();
      var end :- Consume(Eof, "Expected end of input");
      return Done(Program(definitions, expression.0), current);
    }

    method ParseDefinition() returns (r: Parsed<Definition>)
      requires Valid()
      modifies this
      ensures r == ParserSpec.ParseDefinition(tokens, old(current)) && Valid()
      ensures r.Done? ==> current == r.next
    {
      var name :- Consume(Ident, "Expected function name");
      var open :- Consume(LParen, "Expected '('");
      var param :- Consume(Ident, "Expected parameter name");
      var close :- Consume(RParen, "Expected ')'");
      var eq :- Consume(Equal, "Expected '='");
      var body :- ParseExpression();
      return Done(Definition(name.0.lexeme, param.0.lexeme, body.0, eq.0.line), current);
    }

    method ParseExpression() returns (r: Parsed<Expression>)
      requires Valid()
      modifies this
      ensures r == ParserSpec.ParsePipeline(tokens, old(current)) && Valid()
      ensures r.Done? ==> current == r.next
      decreases |tokens| - current, 4
    {
      r := ParsePipeline();
    }

    method ParsePipeline() returns (r: Parsed<Expression>)
      requires Valid()
      modifies this
      ensures r == ParserSpec.ParsePipeline(tokens, old(current)) && Valid()
      ensures r.Done? ==> current == r.next
      decreases |tokens| - current, 3
    {
      var first :- ParseTerm();
      var terms := [first.0];
      var line := first.0.line;
      while true
        invariant Valid() && old(current) <= current
        invariant |terms| >= 1 && line == terms[0].line
        invariant forall i | 0 <= i < |terms| :: TermWellFormed(terms[i])
        invariant PipelineRest(tokens, current, terms, line) == ParserSpec.ParsePipeline(tokens, old(current))
        decreases |tokens| - current
      {
        var more := Match(Pipe);
        if !more {
          break;
        }
        var t :- ParseTerm();
        terms := terms + [t.0];
      }
      return Done(Pipeline(terms, line), current);
    }

    method ParseTerm() returns (r: Parsed<Term>)
      requires Valid()
      modifies this
      ensures r == ParserSpec.ParseTerm(tokens, old(current)) && Valid()
      ensures r.Done? ==> current == r.next
      decreases |tokens| - current, 1
    {
      var isGroup := Match(LBrace);
      if isGroup {
        r := ParseGroup();
        return;
      }
      if IsAtEnd() && current == 0 {
        // `advance()` stays put at the end and `previous()` then reads before the first token.
        return OutOfRange;
      }
      var token := Advance();
      match token.kind {
        case Ident =>
          var arguments :- ParseArguments(token.line);
          if arguments.0 == [] {
            return Done(Identifier(token.lexeme, token.line), current);
          }
          return Done(Call(token.lexeme, arguments.0, token.line), current);
        case Str =>
          return Done(StringLiteral(token.lexeme, token.line), current);
        case LParen =>
          return Failed(ErrorAt(token, "Parenthesised expressions are not supported"));
        case _ =>
          return Failed(ErrorAt(token, "Unexpected token '" + token.lexeme + "'"));
      }
    }

    /** The group branch of `parseTerm`, entered just after the `{`. */
    method ParseGroup() returns (r: Parsed<Term>)
      requires Valid()
      modifies this
      ensures r == GroupBody(tokens, old(current)) && Valid()
      ensures r.Done? ==> current == r.next
      decreases |tokens| - current, 5
    {
      var expressions: seq<Expression> := [];
      if !Check(RBrace) {
        ghost var start := current;
        while true
          invariant Valid() && start <= current
          invariant forall i | 0 <= i < |expressions| :: ExpressionWellFormed(expressions[i])
          invariant GroupMembers(tokens, current, expressions) == GroupMembers(tokens, start, [])
          decreases |tokens| - current
        {
          var before := current;
          var e :- ParseExpression();
          expressions := expressions + [e.0];
          var semicolon := Match(Semicolon);
          if semicolon {
            continue;
          }
          if Check(RBrace) {
            assert GroupMembers(tokens, start, []) == Done(expressions, current);
            break;
          }
          if current == before {
            // Nothing was consumed: the loop would repeat this iteration, adding the same
            // member each time, until memory runs out.
            return Diverges;
          }
        }
      }
      var brace :- Consume(RBrace, "Expected '}'");
      return Done(Group(expressions, brace.0.line), current);
    }

    /** The argument loop of `parseTerm` for a head on line `callLine`. */
    method ParseArguments(callLine: nat) returns (r: Parsed<seq<Term>>)
      requires Valid()
      modifies this
      ensures r == Arguments(tokens, old(current), callLine, []) && Valid()
      ensures r.Done? ==> current == r.next
      decreases |tokens| - current, if IsAtEnd() then 0 else 2
    {
      var arguments: seq<Term> := [];
      while true
        invariant Valid() && old(current) <= current
        invariant forall i | 0 <= i < |arguments| :: TermWellFormed(arguments[i])
        invariant Arguments(tokens, current, callLine, arguments) == Arguments(tokens, old(current), callLine, [])
        decreases |tokens| - current
      {
        if IsAtEnd() {
          break;
        }
        if Peek().line > callLine {
          break;
        }
        if Check(Pipe) || Check(RBrace) || Check(Semicolon) || Check(Eof) {
          break;
        }
        if Check(Ident) || Check(Str) || Check(LBrace) {
          var t :- ParseTerm();
          arguments := arguments + [t.0];
          continue;
        }
        break;
      }
      return Done(arguments, current);
    }

    method Match(kind: TokenKind) returns (matched: bool)
      requires Valid() && kind != Eof
      modifies this
      ensures Valid() && matched == ParserSpec.Check(tokens, old(current), kind)
      ensures current == if matched then old(current) + 1 else old(current)
    {
      if Check(kind) {
        var _ := Advance();
        return true;
      }
      return false;
    }

    predicate Check(kind: TokenKind)
      reads this
      requires Valid()
    {
      if IsAtEnd() then kind == Eof else Peek().kind == kind
    }

    /** Moves past the current token unless at the end, and returns the token before
        the cursor. */
    method Advance() returns (token: Token)
      requires Valid() && (current > 0 || !IsAtEnd())
      modifies this
      ensures Valid() && current == AdvancePos(tokens, old(current)) && token == tokens[current - 1]
    {
      if !IsAtEnd() {
        current := current + 1;
      }
      return Previous();
    }

    predicate IsAtEnd()
      reads this
    {
      current >= |tokens| || tokens[current].kind == Eof
    }

    function Peek(): Token
      reads this
      requires Valid()
    {
      tokens[current]
    }

    function Previous(): Token
      reads this
      requires 0 < current <= |tokens|
    {
      tokens[current - 1]
    }

    method Consume(kind: TokenKind, message: string) returns (r: Parsed<Token>)
      requires Valid()
      modifies this
      ensures r == ParserSpec.Consume(tokens, old(current), kind, message) && Valid()
      ensures r.Done? ==> current == r.next
    {
      if Check(kind) {
        if IsAtEnd() && current == 0 {
          return OutOfRange;
        }
        var token := Advance();
        return Done(token, current);
      }
      return Failed(ErrorAt(Peek(), message));
    }
  }
}
