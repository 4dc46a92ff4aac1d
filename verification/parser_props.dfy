/** Properties of the parser functions: the layout rule for arguments, the rejected
    parenthesis, the empty group, and exactly when the group loop fails to terminate. */
module ParserProps {
  import opened Wrappers
  import opened Tokens
  import opened Ast
  import opened ParserSpec

  /** An identifier followed by a token on a later line takes no arguments: a line
      break ends a call. */
  lemma IdentifierBeforeLineBreak(ts: seq<Token>, pos: nat)
    requires Stream(ts) && pos < |ts|
    requires ts[pos].kind == Ident && ts[pos + 1].line > ts[pos].line
    ensures ParseTerm(ts, pos) == Done(Identifier(ts[pos].lexeme, ts[pos].line), pos + 1)
  {
    assert Arguments(ts, pos + 1, ts[pos].line, []) == Done([], pos + 1);
  }

  /** Where the argument loop stops for a head on line `callLine`: at the end, at a token
      on a later line, or at a token that cannot start a term (`|`, `}`, `;` among them). */
  predicate ArgumentsStopAt(ts: seq<Token>, pos: nat, callLine: nat) {
    AtEnd(ts, pos) || ts[pos].line > callLine || ts[pos].kind !in {Ident, Str, LBrace}
  }

  /** At a stop the argument loop ends with the arguments it has. */
  lemma ArgumentsStop(ts: seq<Token>, pos: nat, callLine: nat, acc: seq<Term>)
    requires Stream(ts) && pos < |ts|
    requires forall i | 0 <= i < |acc| :: TermWellFormed(acc[i])
    requires ArgumentsStopAt(ts, pos, callLine)
    ensures Arguments(ts, pos, callLine, acc) == Done(acc, pos)
  {
  }

  /** Anywhere else the argument loop parses one more term and goes on after it; if that
      term fails, so does the loop. */
  lemma ArgumentsContinue(ts: seq<Token>, pos: nat, callLine: nat, acc: seq<Term>)
    requires Stream(ts) && pos < |ts|
    requires forall i | 0 <= i < |acc| :: TermWellFormed(acc[i])
    requires !ArgumentsStopAt(ts, pos, callLine)
    ensures var t := ParseTerm(ts, pos);
      && (t.Done? ==> Arguments(ts, pos, callLine, acc) == Arguments(ts, t.next, callLine, acc + [t.value]))
      && (!t.Done? ==> !Arguments(ts, pos, callLine, acc).Done?)
  {
  }

  /** A finished argument loop always sits at a stop. */
  lemma {:induction false} ArgumentsEndAtStop(ts: seq<Token>, pos: nat, callLine: nat, acc: seq<Term>)
    requires Stream(ts) && pos < |ts|
    requires forall i | 0 <= i < |acc| :: TermWellFormed(acc[i])
    requires Arguments(ts, pos, callLine, acc).Done?
    ensures ArgumentsStopAt(ts, Arguments(ts, pos, callLine, acc).next, callLine)
    decreases |ts| - pos
  {
    if !ArgumentsStopAt(ts, pos, callLine) {
      ArgumentsContinue(ts, pos, callLine, acc);
      var t := ParseTerm(ts, pos);
      ArgumentsEndAtStop(ts, t.next, callLine, acc + [t.value]);
    }
  }

  /** An identifier followed on the same line by a literal is a call whose first argument
      is that literal, whatever comes after it; the call fails only if the rest of its
      argument loop fails. */
  lemma IdentifierTakesLiteral(ts: seq<Token>, pos: nat)
    requires Stream(ts) && pos + 1 < |ts|
    requires ts[pos].kind == Ident && ts[pos + 1].kind == Str && ts[pos + 1].line == ts[pos].line
    ensures var r := ParseTerm(ts, pos);
      var literal := StringLiteral(ts[pos + 1].lexeme, ts[pos + 1].line);
      && (r.Done? <==> Arguments(ts, pos + 2, ts[pos].line, [literal]).Done?)
      && (r.Done? ==> r.value.Call? && r.value.target == ts[pos].lexeme && r.value.line == ts[pos].line
                      && r.value.arguments[0] == literal)
  {
    var literal := StringLiteral(ts[pos + 1].lexeme, ts[pos + 1].line);
    assert ParseTerm(ts, pos + 1) == Done(literal, pos + 2);
    ArgumentsContinue(ts, pos + 1, ts[pos].line, []);
    assert [] + [literal] == [literal];
  }

  /** `f "x"` at the end of the input: the call takes just the literal. */
  lemma IdentifierTakesOnlyLiteral(ts: seq<Token>, pos: nat)
    requires Stream(ts) && pos + 2 < |ts|
    requires ts[pos].kind == Ident && ts[pos + 1].kind == Str && ts[pos + 1].line == ts[pos].line
    requires ts[pos + 2].kind == Eof
    ensures ParseTerm(ts, pos) ==
      Done(Call(ts[pos].lexeme, [StringLiteral(ts[pos + 1].lexeme, ts[pos + 1].line)], ts[pos].line), pos + 2)
  {
    var literal := StringLiteral(ts[pos + 1].lexeme, ts[pos + 1].line);
    assert ParseTerm(ts, pos + 1) == Done(literal, pos + 2);
    ArgumentsContinue(ts, pos + 1, ts[pos].line, []);
    ArgumentsStop(ts, pos + 2, ts[pos].line, [literal]);
    assert [] + [literal] == [literal];
  }

  /** An identifier right after an identifier on the same line is parsed as a term of its
      own, which absorbs everything the outer call would have taken: `f g "x"` is
      `f(g("x"))`. */
  lemma NestedCallAbsorbs(ts: seq<Token>, pos: nat)
    requires Stream(ts) && pos + 1 < |ts|
    requires ts[pos].kind == Ident && ts[pos + 1].kind == Ident && ts[pos + 1].line == ts[pos].line
    requires ParseTerm(ts, pos + 1).Done?
    ensures var inner := ParseTerm(ts, pos + 1);
      ParseTerm(ts, pos) == Done(Call(ts[pos].lexeme, [inner.value], ts[pos].line), inner.next)
  {
    var line := ts[pos].line;
    var inner := ParseTerm(ts, pos + 1);
    ArgumentsEndAtStop(ts, pos + 2, line, []);
    ArgumentsStop(ts, inner.next, line, [inner.value]);
    ArgumentsContinue(ts, pos + 1, line, []);
    assert [] + [inner.value] == [inner.value];
  }

  /** `f g "x"` on one line is `f` called with `g "x"`, not with `g` and `"x"`. */
  lemma NestedCallExample()
    ensures var ts := [Token(Ident, "f", 1), Token(Ident, "g", 1), Token(Str, "x", 1), Token(Eof, "", 1)];
      ParseTerm(ts, 0) == Done(Call("f", [Call("g", [StringLiteral("x", 1)], 1)], 1), 3)
  {
    var ts := [Token(Ident, "f", 1), Token(Ident, "g", 1), Token(Str, "x", 1), Token(Eof, "", 1)];
    IdentifierTakesOnlyLiteral(ts, 1);
    NestedCallAbsorbs(ts, 0);
  }

  /** The group loop after one member: `;` moves on past it, `}` ends the loop, and any
      other token after a member that consumed input starts the next member at once. */
  lemma GroupMemberSeparators(ts: seq<Token>, pos: nat, acc: seq<Expression>)
    requires Stream(ts) && pos < |ts|
    requires forall i | 0 <= i < |acc| :: ExpressionWellFormed(acc[i])
    requires ParsePipeline(ts, pos).Done?
    ensures var e := ParsePipeline(ts, pos);
      && (Check(ts, e.next, Semicolon) ==> GroupMembers(ts, pos, acc) == GroupMembers(ts, e.next + 1, acc + [e.value]))
      && (Check(ts, e.next, RBrace) ==> GroupMembers(ts, pos, acc) == Done(acc + [e.value], e.next))
      && (!Check(ts, e.next, Semicolon) && !Check(ts, e.next, RBrace) && pos < e.next ==>
            GroupMembers(ts, pos, acc) == GroupMembers(ts, e.next, acc + [e.value]))
  {
  }

  /** A literal not followed by `|` is a member of its own. */
  lemma LiteralMember(ts: seq<Token>, pos: nat)
    requires Stream(ts) && pos + 1 < |ts| && ts[pos].kind == Str && ts[pos + 1].kind != Pipe
    ensures ParsePipeline(ts, pos) == Done(Pipeline([StringLiteral(ts[pos].lexeme, ts[pos].line)], ts[pos].line), pos + 1)
  {
    assert ParseTerm(ts, pos) == Done(StringLiteral(ts[pos].lexeme, ts[pos].line), pos + 1);
  }

  /** A `{` not followed at once by `}` is a group of the members its member loop reads,
      on the line of the `}` that ends the loop. */
  lemma GroupOfMembers(ts: seq<Token>, pos: nat)
    requires Stream(ts) && pos + 1 < |ts| && ts[pos].kind == LBrace && ts[pos + 1].kind != RBrace
    requires GroupMembers(ts, pos + 1, []).Done?
    ensures var g := GroupMembers(ts, pos + 1, []);
      ParseTerm(ts, pos) == Done(Group(g.value, ts[g.next].line), g.next + 1)
  {
  }

  /** `{ "a"; "b" }`: a group of two members, the `;` skipped. */
  lemma SemicolonSeparatedGroup(ts: seq<Token>)
    requires Stream(ts) && |ts| == 6
    requires ts[0].kind == LBrace && ts[1].kind == Str && ts[2].kind == Semicolon && ts[3].kind == Str
    requires ts[4].kind == RBrace
    ensures ParseTerm(ts, 0) == Done(Group([Pipeline([StringLiteral(ts[1].lexeme, ts[1].line)], ts[1].line),
                                           Pipeline([StringLiteral(ts[3].lexeme, ts[3].line)], ts[3].line)], ts[4].line), 5)
  {
    var a := Pipeline([StringLiteral(ts[1].lexeme, ts[1].line)], ts[1].line);
    var b := Pipeline([StringLiteral(ts[3].lexeme, ts[3].line)], ts[3].line);
    assert [] + [a] == [a] && [a] + [b] == [a, b];
    LiteralMember(ts, 1);
    LiteralMember(ts, 3);
    GroupMemberSeparators(ts, 3, [a]);
    GroupMemberSeparators(ts, 1, []);
    GroupOfMembers(ts, 0);
  }

  /** `{ "a" "b" }`: a group of two members with nothing between them. */
  lemma JuxtaposedGroup(us: seq<Token>)
    requires Stream(us) && |us| == 5
    requires us[0].kind == LBrace && us[1].kind == Str && us[2].kind == Str && us[3].kind == RBrace
    ensures ParseTerm(us, 0) == Done(Group([Pipeline([StringLiteral(us[1].lexeme, us[1].line)], us[1].line),
                                           Pipeline([StringLiteral(us[2].lexeme, us[2].line)], us[2].line)], us[3].line), 4)
  {
    var a := Pipeline([StringLiteral(us[1].lexeme, us[1].line)], us[1].line);
    var b := Pipeline([StringLiteral(us[2].lexeme, us[2].line)], us[2].line);
    assert [] + [a] == [a] && [a] + [b] == [a, b];
    LiteralMember(us, 1);
    LiteralMember(us, 2);
    GroupMemberSeparators(us, 2, [a]);
    GroupMemberSeparators(us, 1, []);
    GroupOfMembers(us, 0);
  }

  /** The `;` between two members is optional: `{ "a"; "b" }` and `{ "a" "b" }` are the
      same group. */
  lemma SemicolonOptional(ts: seq<Token>, us: seq<Token>)
    requires Stream(ts) && |ts| == 6
    requires ts[0].kind == LBrace && ts[1].kind == Str && ts[2].kind == Semicolon && ts[3].kind == Str
    requires ts[4].kind == RBrace
    requires Stream(us) && |us| == 5 && us[0].kind == LBrace && us[1] == ts[1] && us[2] == ts[3] && us[3] == ts[4]
    ensures ParseTerm(ts, 0).Done? && ParseTerm(us, 0).Done? && ParseTerm(ts, 0).value == ParseTerm(us, 0).value
  {
    SemicolonSeparatedGroup(ts);
    JuxtaposedGroup(us);
  }

  /** From `start` to `end` the input is `|` followed by the term `parsed[0]`, then `|`
      followed by `parsed[1]`, and so on: each term is parsed right after its `|`, and the
      next `|` stands where it ends. */
  predicate PipeTrace(ts: seq<Token>, start: nat, parsed: seq<Term>, end: nat)
    requires Stream(ts)
    decreases |parsed|
  {
    if parsed == [] then start == end
    else
      && start + 1 < |ts| && ts[start].kind == Pipe
      && ParseTerm(ts, start + 1).Done? && ParseTerm(ts, start + 1).value == parsed[0]
      && PipeTrace(ts, ParseTerm(ts, start + 1).next, parsed[1..], end)
  }

  lemma TermsAssoc(a: seq<Term>, b: seq<Term>, c: seq<Term>)
    ensures a + b + c == a + (b + c)
  {
  }

  /** One pass of the `|` loop: at a `|`, the term after it is added and the loop goes on
      where that term ends. */
  lemma PipelineRestStep(ts: seq<Token>, pos: nat, terms: seq<Term>, line: nat)
    requires Stream(ts) && pos < |ts|
    requires |terms| >= 1 && line == terms[0].line
    requires forall i | 0 <= i < |terms| :: TermWellFormed(terms[i])
    requires Check(ts, pos, Pipe) && PipelineRest(ts, pos, terms, line).Done?
    ensures var t := ParseTerm(ts, pos + 1);
      t.Done? && PipelineRest(ts, pos, terms, line) == PipelineRest(ts, t.next, terms + [t.value], line)
  {
  }

  /** The `|` loop of a pipeline: the terms are the ones it started with followed by
      exactly one term per `|`, each parsed right after its `|` and ending where the next
      `|` stands; the loop stops at the first token that is not `|`, and the pipeline
      keeps the first term's line. */
  lemma {:induction false} PipelineTermsExact(ts: seq<Token>, pos: nat, terms: seq<Term>, line: nat)
    returns (parsed: seq<Term>)
    requires Stream(ts) && pos < |ts|
    requires |terms| >= 1 && line == terms[0].line
    requires forall i | 0 <= i < |terms| :: TermWellFormed(terms[i])
    requires PipelineRest(ts, pos, terms, line).Done?
    ensures var r := PipelineRest(ts, pos, terms, line);
      && r.value == Pipeline(terms + parsed, line)
      && !Check(ts, r.next, Pipe)
      && PipeTrace(ts, pos, parsed, r.next)
    decreases |ts| - pos
  {
    if !Check(ts, pos, Pipe) {
      parsed := [];
      assert terms + [] == terms;
    } else {
      var t := ParseTerm(ts, pos + 1);
      PipelineRestStep(ts, pos, terms, line);
      var rest := PipelineTermsExact(ts, t.next, terms + [t.value], line);
      parsed := [t.value] + rest;
      assert parsed[1..] == rest;
      TermsAssoc(terms, [t.value], rest);
    }
  }

  /** `(` never starts a term. */
  lemma ParenthesisRejected(ts: seq<Token>, pos: nat)
    requires Stream(ts) && pos < |ts| && ts[pos].kind == LParen
    ensures ParseTerm(ts, pos) == Failed(ErrorAt(ts[pos], "Parenthesised expressions are not supported"))
  {
  }

  /** `{ }` is a group without members, on the line of its `}`. */
  lemma EmptyGroup(ts: seq<Token>, pos: nat)
    requires Stream(ts) && pos + 1 < |ts|
    requires ts[pos].kind == LBrace && ts[pos + 1].kind == RBrace
    ensures ParseTerm(ts, pos) == Done(Group([], ts[pos + 1].line), pos + 2)
  {
  }

  /** An input with no tokens but the end makes `previous()` read before the first
      token. */
  lemma EmptyInputOutOfRange(line: nat)
    ensures ParseProgram([Token(Eof, "", line)]) == OutOfRange
  {
    var ts := [Token(Eof, "", line)];
    assert Definitions(ts, 0, []) == Done([], 0);
    assert ParseTerm(ts, 0) == OutOfRange;
  }

  /** The token lists on which the group loop can spin: the last token before the end is
      an identifier or a literal. */
  predicate EndsAfterWord(ts: seq<Token>) {
    |ts| >= 2 && (ts[|ts| - 2].kind == Ident || ts[|ts| - 2].kind == Str)
  }

  /** A pipeline that consumes nothing sits at the end, right after a word. */
  lemma PipelineStalls(ts: seq<Token>, pos: nat)
    requires Stream(ts) && pos < |ts|
    requires ParsePipeline(ts, pos).Done? && ParsePipeline(ts, pos).next == pos
    ensures EndsAfterWord(ts) && pos == |ts| - 1
  {
    assert AtEnd(ts, pos);
    var t := ParseTerm(ts, pos);
    assert t.Done?;
    assert !Check(ts, pos, LBrace);
    var token := ts[pos - 1];
    assert token.kind == Ident || token.kind == Str;
  }

  lemma {:induction false} TermDiverges(ts: seq<Token>, pos: nat)
    requires Stream(ts) && pos < |ts| && ParseTerm(ts, pos).Diverges?
    ensures EndsAfterWord(ts)
    decreases |ts| - pos, 1
  {
    if Check(ts, pos, LBrace) {
      GroupBodyDiverges(ts, pos + 1);
    } else {
      var next := AdvancePos(ts, pos);
      var token := ts[next - 1];
      ArgumentsDiverge(ts, next, token.line, []);
    }
  }

  lemma {:induction false} GroupBodyDiverges(ts: seq<Token>, pos: nat)
    requires Stream(ts) && pos < |ts| && GroupBody(ts, pos).Diverges?
    ensures EndsAfterWord(ts)
    decreases |ts| - pos, 5
  {
    GroupMembersDiverge(ts, pos, []);
  }

  lemma {:induction false} ArgumentsDiverge(ts: seq<Token>, pos: nat, callLine: nat, acc: seq<Term>)
    requires Stream(ts) && pos < |ts|
    requires forall i | 0 <= i < |acc| :: TermWellFormed(acc[i])
    requires Arguments(ts, pos, callLine, acc).Diverges?
    ensures EndsAfterWord(ts)
    decreases |ts| - pos, if AtEnd(ts, pos) then 0 else 2
  {
    var t := ParseTerm(ts, pos);
    if t.Diverges? {
      TermDiverges(ts, pos);
    } else {
      ArgumentsDiverge(ts, t.next, callLine, acc + [t.value]);
    }
  }

  lemma {:induction false} GroupMembersDiverge(ts: seq<Token>, pos: nat, acc: seq<Expression>)
    requires Stream(ts) && pos < |ts|
    requires forall i | 0 <= i < |acc| :: ExpressionWellFormed(acc[i])
    requires GroupMembers(ts, pos, acc).Diverges?
    ensures EndsAfterWord(ts)
    decreases |ts| - pos, 4
  {
    var e := ParsePipeline(ts, pos);
    if e.Diverges? {
      PipelineDiverges(ts, pos);
    } else {
      var q := e.next;
      if Check(ts, q, Semicolon) {
        GroupMembersDiverge(ts, q + 1, acc + [e.value]);
      } else if q == pos {
        PipelineStalls(ts, pos);
      } else {
        GroupMembersDiverge(ts, q, acc + [e.value]);
      }
    }
  }

  lemma {:induction false} PipelineDiverges(ts: seq<Token>, pos: nat)
    requires Stream(ts) && pos < |ts| && ParsePipeline(ts, pos).Diverges?
    ensures EndsAfterWord(ts)
    decreases |ts| - pos, 3
  {
    var t := ParseTerm(ts, pos);
    if t.Diverges? {
      TermDiverges(ts, pos);
    } else {
      PipelineRestDiverges(ts, t.next, [t.value], t.value.line);
    }
  }

  lemma {:induction false} PipelineRestDiverges(ts: seq<Token>, pos: nat, terms: seq<Term>, line: nat)
    requires Stream(ts) && pos < |ts|
    requires |terms| >= 1 && line == terms[0].line
    requires forall i | 0 <= i < |terms| :: TermWellFormed(terms[i])
    requires PipelineRest(ts, pos, terms, line).Diverges?
    ensures EndsAfterWord(ts)
    decreases |ts| - pos, 2
  {
    var t := ParseTerm(ts, pos + 1);
    if t.Diverges? {
      TermDiverges(ts, pos + 1);
    } else {
      PipelineRestDiverges(ts, t.next, terms + [t.value], line);
    }
  }

  lemma {:induction false} DefinitionsDiverge(ts: seq<Token>, pos: nat, acc: seq<Definition>)
    requires Stream(ts) && pos < |ts|
    requires forall i | 0 <= i < |acc| :: ExpressionWellFormed(acc[i].body)
    requires Definitions(ts, pos, acc).Diverges?
    ensures EndsAfterWord(ts)
    decreases |ts| - pos
  {
    var d := ParseDefinition(ts, pos + 1);
    if d.Diverges? {
      PipelineDiverges(ts, pos + 6);
    } else {
      DefinitionsDiverge(ts, d.next, acc + [d.value]);
    }
  }

  /** The parser fails to terminate only on input whose last token is an identifier or a
      literal (inside a group left open): every other input ends in a program or an error. */
  lemma ProgramDiverges(ts: seq<Token>)
    requires Stream(ts) && ParseProgram(ts).Diverges?
    ensures EndsAfterWord(ts)
  {
    var defs := Definitions(ts, 0, []);
    if defs.Diverges? {
      DefinitionsDiverge(ts, 0, []);
    } else {
      PipelineDiverges(ts, defs.next);
    }
  }

  /** `{ "a"` without its `}` does make the group loop spin. */
  lemma UnclosedGroupDiverges()
    ensures ParseProgram([Token(LBrace, "{", 1), Token(Str, "a", 1), Token(Eof, "", 1)]) == Diverges
  {
    var ts := [Token(LBrace, "{", 1), Token(Str, "a", 1), Token(Eof, "", 1)];
    var member := Pipeline([StringLiteral("a", 1)], 1);
    assert Definitions(ts, 0, []) == Done([], 0);
    assert ParsePipeline(ts, 1) == Done(member, 2);
    assert ParsePipeline(ts, 2) == Done(member, 2);
    assert GroupMembers(ts, 2, [member]) == Diverges;
    assert GroupMembers(ts, 1, []) == Diverges;
    assert ParseTerm(ts, 0) == Diverges;
  }
}
