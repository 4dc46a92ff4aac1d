/** The syntax tree the parser builds: four kinds of term, the pipeline (the only kind
    of expression), definitions and the program. Every node carries its source line. */
module Ast {

  datatype Term =
    | Identifier(name: string, line: nat)
    | StringLiteral(value: string, line: nat)
    | Call(target: string, arguments: seq<Term>, line: nat)
    | Group(expressions: seq<Expression>, line: nat)

  datatype Expression = Pipeline(terms: seq<Term>, line: nat)

  datatype Definition = Definition(name: string, parameter: string, body: Expression, line: nat)

  datatype Program = Program(definitions: seq<Definition>, expression: Expression)

  /** The shape the parser guarantees: every pipeline has a first term and the first
      term's line, and every call has at least one argument. */
  predicate TermWellFormed(t: Term)
    decreases t
  {
    match t
    case Identifier(_, _) => true
    case StringLiteral(_, _) => true
    case Call(_, args, _) => |args| >= 1 && forall i | 0 <= i < |args| :: TermWellFormed(args[i])
    case Group(es, _) => forall i | 0 <= i < |es| :: ExpressionWellFormed(es[i])
  }

  predicate ExpressionWellFormed(e: Expression)
    decreases e
  {
    && |e.terms| >= 1
    && e.line == e.terms[0].line
    && forall i | 0 <= i < |e.terms| :: TermWellFormed(e.terms[i])
  }

  predicate ProgramWellFormed(p: Program) {
    && (forall i | 0 <= i < |p.definitions| :: ExpressionWellFormed(p.definitions[i].body))
    && ExpressionWellFormed(p.expression)
  }
}
