/** The statement list one generated procedure accumulates: temporaries `tmp0`, `tmp1`, ...
    declared in order, free statements in between, and the rendering of the list as the
    indented lines of the procedure's body. */
module CodeBuilder {
  import opened Text

  /** The name of the k-th temporary of a procedure. */
  function TempName(k: nat): string {
    "tmp" + NatToString(k)
  }

  /** Two temporaries of the same procedure never share a name. */
  lemma TempNameInjective(k: nat, m: nat)
    requires TempName(k) == TempName(m)
    ensures k == m
  {
    assert NatToString(k) == TempName(k)[3..];
    assert NatToString(m) == TempName(m)[3..];
    NatToStringInjective(k, m);
  }

  /** What a builder holds: the statements so far and the number of temporaries issued. */
  datatype BuilderState = BuilderState(statements: seq<string>, tempCounter: nat)

  /** A fresh builder, as each generated procedure starts with. */
  const Empty := BuilderState([], 0)

  /** A variable holding a value of the generated code, and the builder after the
      statements that compute it. */
  datatype Emitted = Emitted(variable: string, state: BuilderState)

  /** The statement declaring a variable with its initial value. */
  function Declaration(typeName: string, name: string, expression: string): string {
    typeName + " " + name + " = " + expression + ";"
  }

  /** Declaring the next temporary with a type and an initialiser. */
  function WithTypedTemp(b: BuilderState, typeName: string, expression: string): Emitted {
    var name := TempName(b.tempCounter);
    Emitted(name, BuilderState(b.statements + [Declaration(typeName, name, expression)], b.tempCounter + 1))
  }

  /** Declaring the next temporary as a `String`. */
  function WithTemp(b: BuilderState, expression: string): Emitted {
    WithTypedTemp(b, "String", expression)
  }

  /** Adding a statement that declares nothing. */
  function WithStatement(b: BuilderState, statement: string): BuilderState {
    b.(statements := b.statements + [statement])
  }

  /** `after` is `before` with statements added and possibly more temporaries issued. */
  predicate Extends(before: BuilderState, after: BuilderState) {
    before.statements <= after.statements && before.tempCounter <= after.tempCounter
  }

  /** `e` holds the temporary issued last, and it was issued after `before`. */
  predicate FreshResult(before: BuilderState, e: Emitted) {
    before.tempCounter < e.state.tempCounter && e.variable == TempName(e.state.tempCounter - 1)
  }

  /** Every way of growing a builder keeps what was there, issues names it never issued
      before and declares the new temporary in the statement it adds. */
  lemma TempIsNewAndDeclared(b: BuilderState, typeName: string, expression: string)
    ensures var e := WithTypedTemp(b, typeName, expression);
      && Extends(b, e.state)
      && FreshResult(b, e)
      && (forall k: nat | k < b.tempCounter :: TempName(k) != e.variable)
      && e.state.statements[|e.state.statements| - 1] == Declaration(typeName, e.variable, expression)
  {
    var e := WithTypedTemp(b, typeName, expression);
    forall k: nat | k < b.tempCounter
      ensures TempName(k) != e.variable
    {
      if TempName(k) == e.variable {
        TempNameInjective(k, b.tempCounter);
      }
    }
  }

  /** `"    ".repeat(level)`. */
  function Indentation(level: nat): (r: string)
    ensures |r| == 4 * level
    ensures forall i | 0 <= i < |r| :: r[i] == ' '
  {
    if level == 0 then "" else Indentation(level - 1) + "    "
  }

  /** The text `appendTo` writes: each statement on a line of its own, indented. */
  function Rendered(statements: seq<string>, level: nat): string {
    if statements == [] then ""
    else
      var n := |statements|;
      Rendered(statements[..n - 1], level) + Indentation(level) + statements[n - 1] + "\n"
  }

  function IndentAll(statements: seq<string>, level: nat): (r: seq<string>)
    ensures |r| == |statements|
  {
    seq(|statements|, i requires 0 <= i < |statements| => Indentation(level) + statements[i])
  }

  /** Rendering distributes over concatenation of statement lists. */
  lemma {:induction false} RenderedAppend(a: seq<string>, b: seq<string>, level: nat)
    ensures Rendered(a + b, level) == Rendered(a, level) + Rendered(b, level)
    decreases |b|
  {
    if b == [] {
      assert a + b == a;
    } else {
      var n := |b|;
      assert (a + b)[..|a + b| - 1] == a + b[..n - 1];
      RenderedAppend(a, b[..n - 1], level);
    }
  }

  /** The rendering is the indented statements joined by LF, with an LF after the last. */
  lemma {:induction false} RenderedIsJoin(statements: seq<string>, level: nat)
    ensures Rendered(statements, level) == Join(IndentAll(statements, level) + [""])
    decreases |statements|
  {
    var n := |statements|;
    if n > 0 {
      var init := statements[..n - 1];
      RenderedIsJoin(init, level);
      var lines := IndentAll(statements, level);
      assert (lines + [""])[..n] == lines;
      assert Join(lines + [""]) == Join(lines) + "\n";
      if n > 1 {
        assert lines[..n - 1] == IndentAll(init, level);
        assert (IndentAll(init, level) + [""])[..n - 1] == IndentAll(init, level);
        assert Join(IndentAll(init, level) + [""]) == Join(IndentAll(init, level)) + "\n";
      }
    }
  }

  /** Statements free of LF come back out of the rendering as its lines: one indented
      line per statement, in order, and nothing after the final LF. */
  lemma RenderedLines(statements: seq<string>, level: nat)
    requires forall i | 0 <= i < |statements| :: '\n' !in statements[i]
    ensures Split(Rendered(statements, level)) == IndentAll(statements, level) + [""]
  {
    RenderedIsJoin(statements, level);
    var lines := IndentAll(statements, level) + [""];
    forall i | 0 <= i < |lines|
      ensures '\n' !in lines[i]
    {
      if i < |statements| {
        var indent := Indentation(level);
        assert lines[i] == indent + statements[i];
        forall j | 0 <= j < |lines[i]|
          ensures lines[i][j] != '\n'
        {
          if j >= |indent| {
            assert lines[i][j] == statements[i][j - |indent|];
          }
        }
      }
    }
    SplitJoin(lines);
  }

  /** `CodeBuilder`: the statement list and the temporary counter of one procedure. */
  class CodeBuilder {
    var statements: seq<string>
    var tempCounter: nat

    constructor()
      ensures State() == Empty
    {
      statements := [];
      tempCounter := 0;
    }

    function State(): BuilderState
      reads this
    {
      BuilderState(statements, tempCounter)
    }

    method NewTemp(expression: string) returns (name: string)
      modifies this
      ensures Emitted(name, State()) == WithTemp(old(State()), expression)
    {
      name := NewTypedTemp("String", expression);
    }

    method NewTypedTemp(typeName: string, expression: string) returns (name: string)
      modifies this
      ensures Emitted(name, State()) == WithTypedTemp(old(State()), typeName, expression)
    {
      name := TempName(tempCounter);
      tempCounter := tempCounter + 1;
      statements := statements + [Declaration(typeName, name, expression)];
    }

    method Add(statement: string)
      modifies this
      ensures State() == WithStatement(old(State()), statement)
    {
      statements := statements + [statement];
    }

    /** `appendTo`: the text with the rendered statements after it. */
    method AppendTo(sb: string, indentLevel: nat) returns (r: string)
      ensures r == sb + Rendered(statements, indentLevel)
    {
      var indent := Indentation(indentLevel);
      r := sb;
      for i := 0 to |statements|
        invariant r == sb + Rendered(statements[..i], indentLevel)
      {
        assert statements[..i + 1][..i] == statements[..i];
        r := r + indent + statements[i] + "\n";
      }
      assert statements[..|statements|] == statements;
    }
  }
}
