/** The recursive-descent parser of Parser.java written as functions of the token list
    and the cursor `current`. Each parsing method, and each loop inside one, has a
    function here that returns what it builds and where the cursor ends; the class in
    parser.dfy is proved to compute exactly these. */
module ParserSpec {
  import opened Wrappers
  import opened Tokens
  import opened Ast

  /** What a parsing step yields: the node and the cursor after it, a parse error, the
      exception `previous()` throws when it reads before the first token, or the verdict
      that the group loop repeats the same iteration until memory runs out. */
  datatype Parsed<+T> =
    | Done(value: T, next: nat)
    | Failed(error: Diagnostic)
    | OutOfRange
    | Diverges
  {
    predicate IsFailure() {
      !Done?
    }

    function PropagateFailure<U>(): Parsed<U>
      requires !Done?
    {
      match this
      case Failed(e) => Failed(e)
      case OutOfRange => OutOfRange
      case Diverges => Diverges
    }

    function Extract(): (T, nat)
      requires Done?
    {
      (value, next)
    }
  }

  /** Token lists the parser is given: the lexer's output. */
  predicate Stream(ts: seq<Token>) {
    EofOnlyAtEnd(ts)
  }

  predicate AtEnd(ts: seq<Token>, pos: nat) {
    pos >= |ts| || ts[pos].kind == Eof
  }

  /** `check(kind)`: at the end only EOF matches. */
  predicate Check(ts: seq<Token>, pos: nat, kind: TokenKind) {
    if AtEnd(ts, pos) then kind == Eof else ts[pos].kind == kind
  }

  /** The cursor after `advance()`, which does not move at the end. */
  function AdvancePos(ts: seq<Token>, pos: nat): nat {
    if AtEnd(ts, pos) then pos else pos + 1
  }

  /** A parse error as `error(token, message)` renders it. */
  function ErrorAt(t: Token, message: string): Diagnostic {
    Diagnostic(t.line, "Error at " + (if t.kind == Eof then "end" else "'" + t.lexeme + "'") + ": " + message)
  }

  /** `consume(kind, message)`: the token it takes, or the error at the current token. */
  function Consume(ts: seq<Token>, pos: nat, kind: TokenKind, message: string): (r: Parsed<Token>)
    requires Stream(ts) && pos < |ts|
    ensures r.Done? ==> Check(ts, pos, kind) && pos <= r.next < |ts|
    ensures r.Done? && kind != Eof ==> r.value == ts[pos] && r.next == pos + 1
    ensures r.Failed? ==> !Check(ts, pos, kind) && r.error == ErrorAt(ts[pos], message)
    ensures !r.Diverges?
  {
    if Check(ts, pos, kind) then
      var next := AdvancePos(ts, pos);
      if next == 0 then OutOfRange else Done(ts[next - 1], next)
    else
      Failed(ErrorAt(ts[pos], message))
  }

  /** `parseTerm`: a group, an identifier with its same-line arguments, or a literal. */
  function ParseTerm(ts: seq<Token>, pos: nat): (r: Parsed<Term>)
    requires Stream(ts) && pos < |ts|
    ensures r.Done? ==> pos <= r.next < |ts| && (!AtEnd(ts, pos) ==> pos < r.next)
    ensures r.Done? ==> TermWellFormed(r.value)
    decreases |ts| - pos, 1
  {
    if Check(ts, pos, LBrace) then
      GroupBody(ts, pos + 1)
    else
      var next := AdvancePos(ts, pos);
      if next == 0 then
        OutOfRange
      else
        var token := ts[next - 1];
        match token.kind
        case Ident =>
          var a :- Arguments(ts, next, token.line, []);
          if a.0 == [] then Done(Identifier(token.lexeme, token.line), a.1)
          else Done(Call(token.lexeme, a.0, token.line), a.1)
        case Str => Done(StringLiteral(token.lexeme, token.line), next)
        case LParen => Failed(ErrorAt(token, "Parenthesised expressions are not supported"))
        case _ => Failed(ErrorAt(token, "Unexpected token '" + token.lexeme + "'"))
  }

  /** A group after its `{`: no members when `}` follows at once, otherwise the member
      loop; then the closing brace. */
  function GroupBody(ts: seq<Token>, pos: nat): (r: Parsed<Term>)
    requires Stream(ts) && pos < |ts|
    ensures r.Done? ==> pos < r.next < |ts| && r.value.Group? && TermWellFormed(r.value)
    decreases |ts| - pos, 5
  {
    if Check(ts, pos, RBrace) then
      CloseGroup(ts, pos, [])
    else
      var g :- GroupMembers(ts, pos, []);
      CloseGroup(ts, g.1, g.0)
  }

  /** The closing brace of a group: the group takes the brace's line. */
  function CloseGroup(ts: seq<Token>, pos: nat, members: seq<Expression>): (r: Parsed<Term>)
    requires Stream(ts) && pos < |ts|
    ensures r.Done? ==> pos < r.next < |ts| && r.value == Group(members, ts[pos].line)
    ensures !r.Diverges?
  {
    var brace :- Consume(ts, pos, RBrace, "Expected '}'");
    Done(Group(members, brace.0.line), brace.1)
  }

  /** The argument loop of `parseTerm` for a head on line `callLine`: it stops at a token
      on a later line, at `|`, `}`, `;` or the end, and at any token that cannot start a
      term; an identifier, a literal or `{` starts one more argument. */
  function Arguments(ts: seq<Token>, pos: nat, callLine: nat, acc: seq<Term>): (r: Parsed<seq<Term>>)
    requires Stream(ts) && pos < |ts|
    requires forall i | 0 <= i < |acc| :: TermWellFormed(acc[i])
    ensures r.Done? ==> pos <= r.next < |ts| && acc <= r.value
    ensures r.Done? ==> forall i | 0 <= i < |r.value| :: TermWellFormed(r.value[i])
    decreases |ts| - pos, if AtEnd(ts, pos) then 0 else 2
  {
    if AtEnd(ts, pos) then
      Done(acc, pos)
    else if ts[pos].line > callLine then
      Done(acc, pos)
    else if Check(ts, pos, Pipe) || Check(ts, pos, RBrace) || Check(ts, pos, Semicolon) || Check(ts, pos, Eof) then
      Done(acc, pos)
    else if Check(ts, pos, Ident) || Check(ts, pos, Str) || Check(ts, pos, LBrace) then
      var t :- ParseTerm(ts, pos);
      Arguments(ts, t.1, callLine, acc + [t.0])
    else
      Done(acc, pos)
  }

  /** The member loop of a group: after each member a `;` continues, a `}` ends the
      loop, and anything else starts the next member. An iteration that leaves the
      cursor where it found it (only possible at the end of input) would be repeated,
      adding the same member each time, until memory runs out: that is `Diverges`. */
  function GroupMembers(ts: seq<Token>, pos: nat, acc: seq<Expression>): (r: Parsed<seq<Expression>>)
    requires Stream(ts) && pos < |ts|
    requires forall i | 0 <= i < |acc| :: ExpressionWellFormed(acc[i])
    ensures r.Done? ==> pos <= r.next < |ts| && Check(ts, r.next, RBrace)
    ensures r.Done? ==> acc < r.value && forall i | 0 <= i < |r.value| :: ExpressionWellFormed(r.value[i])
    decreases |ts| - pos, 4
  {
    var e :- ParsePipeline(ts, pos);
    var (member, q) := e;
    if Check(ts, q, Semicolon) then
      GroupMembers(ts, q + 1, acc + [member])
    else if Check(ts, q, RBrace) then
      Done(acc + [member], q)
    else if q == pos then
      Diverges
    else
      GroupMembers(ts, q, acc + [member])
  }

  /** `parsePipeline`: a first term, then one more term after each `|`; the pipeline
      takes the first term's line. */
  function ParsePipeline(ts: seq<Token>, pos: nat): (r: Parsed<Expression>)
    requires Stream(ts) && pos < |ts|
    ensures r.Done? ==> pos <= r.next < |ts| && (!AtEnd(ts, pos) ==> pos < r.next)
    ensures r.Done? ==> ExpressionWellFormed(r.value)
    decreases |ts| - pos, 3
  {
    var first :- ParseTerm(ts, pos);
    PipelineRest(ts, first.1, [first.0], first.0.line)
  }

  /** The `while (match(PIPE))` loop of `parsePipeline`. */
  function PipelineRest(ts: seq<Token>, pos: nat, terms: seq<Term>, line: nat): (r: Parsed<Expression>)
    requires Stream(ts) && pos < |ts|
    requires |terms| >= 1 && line == terms[0].line
    requires forall i | 0 <= i < |terms| :: TermWellFormed(terms[i])
    ensures r.Done? ==> pos <= r.next < |ts| && terms <= r.value.terms
    ensures r.Done? ==> ExpressionWellFormed(r.value)
    decreases |ts| - pos, 2
  {
    if Check(ts, pos, Pipe) then
      var t :- ParseTerm(ts, pos + 1);
      PipelineRest(ts, t.1, terms + [t.0], line)
    else
      Done(Pipeline(terms, line), pos)
  }

  /** `parseDefinition`, after `def`: name, `(`, parameter, `)`, `=` in that order, then
      the body. The definition takes the line of its `=`. */
  function ParseDefinition(ts: seq<Token>, pos: nat): (r: Parsed<Definition>)
    requires Stream(ts) && pos < |ts|
    ensures r.Done? ==> pos + 5 <= r.next < |ts|
    ensures r.Done? ==>
      && ts[pos].kind == Ident && ts[pos + 1].kind == LParen && ts[pos + 2].kind == Ident
      && ts[pos + 3].kind == RParen && ts[pos + 4].kind == Equal
      && r.value == Definition(ts[pos].lexeme, ts[pos + 2].lexeme, r.value.body, ts[pos + 4].line)
      && ExpressionWellFormed(r.value.body)
    ensures ts[pos].kind != Ident ==> r == Failed(ErrorAt(ts[pos], "Expected function name"))
    ensures ts[pos].kind == Ident && ts[pos + 1].kind != LParen ==>
      r == Failed(ErrorAt(ts[pos + 1], "Expected '('"))
    ensures ts[pos].kind == Ident && ts[pos + 1].kind == LParen && ts[pos + 2].kind != Ident ==>
      r == Failed(ErrorAt(ts[pos + 2], "Expected parameter name"))
    ensures && ts[pos].kind == Ident && ts[pos + 1].kind == LParen && ts[pos + 2].kind == Ident
            && ts[pos + 3].kind != RParen ==>
      r == Failed(ErrorAt(ts[pos + 3], "Expected ')'"))
    ensures && ts[pos].kind == Ident && ts[pos + 1].kind == LParen && ts[pos + 2].kind == Ident
            && ts[pos + 3].kind == RParen && ts[pos + 4].kind != Equal ==>
      r == Failed(ErrorAt(ts[pos + 4], "Expected '='"))
  {
    var name :- Consume(ts, pos, Ident, "Expected function name");
    var open :- Consume(ts, name.1, LParen, "Expected '('");
    var param :- Consume(ts, open.1, Ident, "Expected parameter name");
    var close :- Consume(ts, param.1, RParen, "Expected ')'");
    var eq :- Consume(ts, close.1, Equal, "Expected '='");
    var body :- ParsePipeline(ts, eq.1);
    Done(Definition(name.0.lexeme, param.0.lexeme, body.0, eq.0.line), body.1)
  }

  /** The `while (match(DEF))` loop of `parseProgram`. */
  function Definitions(ts: seq<Token>, pos: nat, acc: seq<Definition>): (r: Parsed<seq<Definition>>)
    requires Stream(ts) && pos < |ts|
    requires forall i | 0 <= i < |acc| :: ExpressionWellFormed(acc[i].body)
    ensures r.Done? ==> pos <= r.next < |ts| && acc <= r.value && !Check(ts, r.next, Def)
    ensures r.Done? ==> forall i | 0 <= i < |r.value| :: ExpressionWellFormed(r.value[i].body)
    decreases |ts| - pos
  {
    if Check(ts, pos, Def) then
      var d :- ParseDefinition(ts, pos + 1);
      Definitions(ts, d.1, acc + [d.0])
    else
      Done(acc, pos)
  }

  /** `parseProgram`: the definitions, one expression, then the end of input. */
  function ParseProgram(ts: seq<Token>): (r: Parsed<Program>)
    requires Stream(ts)
    ensures r.Done? ==> ProgramWellFormed(r.value) && r.next == |ts| - 1
  {
    var defs :- Definitions(ts, 0, []);
    var e :- ParsePipeline(ts, defs.1);
    var end :- Consume(ts, e.1, Eof, "Expected end of input");
    Done(Program(defs.0, e.0), end.1)
  }
}
