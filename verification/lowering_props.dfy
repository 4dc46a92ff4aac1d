/** What the lowering promises: how names resolve in each context, that a literal in a
    pipeline replaces the value, that a group in a pipeline sees the piped value under
    the parameter's name, and which runtime method each builtin call reaches. */
module LoweringProps {
  import opened Wrappers
  import opened Text
  import opened Ast
  import opened CodeBuilder
  import opened BuiltinRegistry
  import opened Lowering
  import Builtins

  /** In value context the parameter is its variable and costs no statement. */
  lemma ValueParameterEmitsNothing(scope: Scope, b: BuilderState, line: nat)
    ensures LowerValue(Identifier(scope.parameterName, line), scope, b) == Ok(Emitted(scope.parameterVariable, b))
  {
  }

  /** Any other name in value context is an error naming it, even a builtin or a
      definition. */
  lemma ValueNameUnknown(name: string, scope: Scope, b: BuilderState, line: nat)
    requires name != scope.parameterName
    ensures LowerValue(Identifier(name, line), scope, b) ==
      Err(Diagnostic(line, "Unknown identifier '" + name + "' in value context"))
  {
  }

  /** A literal in value context is declared as a Java literal that denotes it; no
      runtime check is called on it. */
  lemma ValueLiteralDenotesItself(value: string, scope: Scope, b: BuilderState, line: nat)
    ensures var r := LowerValue(StringLiteral(value, line), scope, b);
      && r.Ok?
      && r.value.variable == TempName(b.tempCounter)
      && r.value.state.statements == b.statements + [Declaration("String", r.value.variable, Quoted(value))]
      && Unquote(Quoted(value)) == Some(value)
  {
    QuoteRoundTrip(value);
  }

  /** A literal in a pipeline drops the value flowing in: what it lowers to does not
      depend on that value, and it is the literal passed to `constValue`. */
  lemma LiteralResetsPipeline(value: string, scope: Scope, b: BuilderState, line: nat, current: string, other: string)
    ensures LowerStep(StringLiteral(value, line), scope, b, current) == LowerStep(StringLiteral(value, line), scope, b, other)
    ensures var r := LowerStep(StringLiteral(value, line), scope, b, current);
      && r.Ok?
      && r.value.state.statements == b.statements + [Declaration("String", r.value.variable, "Builtins.constValue(" + Quoted(value) + ")")]
  {
  }

  /** The parameter cannot be applied to the piped value, even when it is spelled like a
      builtin or a definition. */
  lemma ParameterNotCallable(scope: Scope, b: BuilderState, line: nat, current: string)
    ensures LowerStep(Identifier(scope.parameterName, line), scope, b, current) ==
      Err(Diagnostic(line, "Cannot call parameter '" + scope.parameterName + "' as a function"))
  {
  }

  /** A builtin's name is looked up before the definitions: a definition of the same
      name is never called through a bare name in a pipeline. */
  lemma BuiltinShadowsDefinition(name: string, scope: Scope, b: BuilderState, line: nat, current: string)
    requires name != scope.parameterName && Find(name).Some?
    ensures var d := Find(name).value;
      LowerStep(Identifier(name, line), scope, b, current) ==
        if d.argCount != 0 then Err(Diagnostic(line, "Builtin '" + name + "' requires arguments"))
        else Ok(WithTemp(b, "Builtins." + d.methodName + "(" + current + ")"))
  {
  }

  /** The same precedence for calls: a call to a builtin name with the wrong number of
      arguments is a builtin arity error in either context, whatever is defined. */
  lemma BuiltinCallArityChecked(target: string, args: seq<Term>, scope: Scope, b: BuilderState, line: nat, current: string)
    requires Find(target).Some?
    ensures var n := Find(target).value.argCount;
      && (|args| != n + 1 ==>
            LowerValueCall(Call(target, args, line), scope, b) ==
            Err(Diagnostic(line, "Builtin '" + target + "' expects " + NatToString(n + 1) + " arguments in value context")))
      && (|args| != n ==>
            LowerPipelineCall(Call(target, args, line), scope, b, current) ==
            Err(Diagnostic(line, "Builtin '" + target + "' expects " + NatToString(n) + " argument(s) in pipeline context")))
  {
  }

  /** A name that is neither the parameter, nor a builtin, nor defined is unknown in a
      pipeline and as a call in either context. */
  lemma UnknownFunction(name: string, args: seq<Term>, scope: Scope, b: BuilderState, line: nat, current: string)
    requires name != scope.parameterName && Find(name).None? && name !in scope.definitions
    ensures LowerStep(Identifier(name, line), scope, b, current) == Err(Diagnostic(line, "Unknown function '" + name + "'"))
    ensures LowerValueCall(Call(name, args, line), scope, b) == Err(Diagnostic(line, "Unknown function '" + name + "'"))
    ensures LowerPipelineCall(Call(name, args, line), scope, b, current) == Err(Diagnostic(line, "Unknown function '" + name + "'"))
  {
  }

  /** A definition applied in a pipeline gets the piped value as its one argument; given
      any explicit argument it is an error. */
  lemma DefinitionTakesPipedValue(name: string, args: seq<Term>, scope: Scope, b: BuilderState, line: nat, current: string)
    requires Find(name).None? && name in scope.definitions
    ensures args == [] ==> LowerPipelineCall(Call(name, args, line), scope, b, current) == Ok(WithTemp(b, "fn_" + name + "(" + current + ")"))
    ensures args != [] ==>
      LowerPipelineCall(Call(name, args, line), scope, b, current) ==
      Err(Diagnostic(line, "User function '" + name + "' does not accept additional arguments in pipeline"))
  {
  }

  /** An empty group is the empty string, in either context. */
  lemma EmptyGroup(scope: Scope, b: BuilderState, line: nat, pipelineValue: Option<string>)
    ensures LowerGroup(Group([], line), scope, b, pipelineValue) == Ok(WithTemp(b, "\"\""))
  {
  }

  /** A pipeline of one term is that term in value context. */
  lemma SingleTermPipeline(t: Term, scope: Scope, b: BuilderState, line: nat)
    ensures LowerPipeline(Pipeline([t], line), scope, b) == LowerValue(t, scope, b)
  {
    var e := Pipeline([t], line);
    match LowerValue(t, scope, b)
    case Err(_) =>
    case Ok(first) =>
      assert PipelineSteps(e, 1, scope, first) == Ok(first);
  }

  /** A group of one member holds what the member lowers to, appended once and with no
      LF after it. */
  lemma OneMemberGroup(member: Expression, scope: Scope, b: BuilderState, line: nat, pipelineValue: Option<string>)
    requires LowerPipeline(member, GroupScope(scope, pipelineValue), WithTypedTemp(b, "StringBuilder", "new StringBuilder()").state).Ok?
    ensures var sb := WithTypedTemp(b, "StringBuilder", "new StringBuilder()");
      var value := LowerPipeline(member, GroupScope(scope, pipelineValue), sb.state).value;
      LowerGroup(Group([member], line), scope, b, pipelineValue) ==
        Ok(WithTemp(WithStatement(value.state, sb.variable + ".append(" + value.variable + ");"), sb.variable + ".toString()"))
  {
    var t := Group([member], line);
    var sb := WithTypedTemp(b, "StringBuilder", "new StringBuilder()");
    var inner := GroupScope(scope, pipelineValue);
    var value := LowerPipeline(member, inner, sb.state).value;
    var appended := WithStatement(value.state, sb.variable + ".append(" + value.variable + ");");
    assert GroupMembers(t, 1, inner, sb.variable, appended) == Ok(appended);
    assert GroupMembers(t, 0, inner, sb.variable, sb.state) == Ok(appended);
  }

  /** Forking: inside a group in a pipeline, the parameter's name is the piped value. */
  lemma GroupSeesPipedValue(scope: Scope, b: BuilderState, line: nat, current: string)
    ensures var member := Pipeline([Identifier(scope.parameterName, line)], line);
      var r := LowerGroup(Group([member], line), scope, b, Some(current));
      var sb := TempName(b.tempCounter);
      && r.Ok?
      && r.value.variable == TempName(b.tempCounter + 1)
      && r.value.state.statements == b.statements + [
        Declaration("StringBuilder", sb, "new StringBuilder()"),
        AppendStatement(sb, current),
        Declaration("String", r.value.variable, sb + ".toString()")]
  {
    var member := Pipeline([Identifier(scope.parameterName, line)], line);
    var sb := WithTypedTemp(b, "StringBuilder", "new StringBuilder()");
    var inner := GroupScope(scope, Some(current));
    SingleTermPipeline(Identifier(scope.parameterName, line), inner, sb.state, line);
    assert LowerPipeline(member, inner, sb.state) == Ok(Emitted(current, sb.state));
    OneMemberGroup(member, scope, b, line, Some(current));
    var appended := WithStatement(sb.state, AppendStatement(sb.variable, current));
    var result := WithTemp(appended, sb.variable + ".toString()");
    assert LowerGroup(Group([member], line), scope, b, Some(current)) == Ok(result);
    assert result.state.statements == b.statements + [
      Declaration("StringBuilder", sb.variable, "new StringBuilder()"),
      AppendStatement(sb.variable, current),
      Declaration("String", result.variable, sb.variable + ".toString()")];
  }

  /** One pass of the member loop: `member` lowered from `before` gives `value`, and `after`
      is that state with the value appended and, unless `last`, an LF appended after it. */
  predicate MemberStep(member: Expression, scope: Scope, sbVar: string, before: BuilderState,
                       value: Emitted, after: BuilderState, last: bool)
  {
    && LowerPipeline(member, scope, before) == Ok(value)
    && after.tempCounter == value.state.tempCounter
    && after.statements == value.state.statements + [AppendStatement(sbVar, value.variable)]
         + (if last then [] else [SeparatorStatement(sbVar)])
  }

  /** The member loop over `members`: `states[0]` is where it starts, each member is
      lowered from the state the previous one left (giving `values[k]`), and every member
      but the last is followed by an LF. */
  predicate MembersWritten(members: seq<Expression>, scope: Scope, sbVar: string,
                           values: seq<Emitted>, states: seq<BuilderState>)
    decreases |members|
  {
    && |values| == |members| && |states| == |members| + 1
    && (members != [] ==>
          && MemberStep(members[0], scope, sbVar, states[0], values[0], states[1], |members| == 1)
          && MembersWritten(members[1..], scope, sbVar, values[1..], states[1..]))
  }

  /** The member loop from member `i` on, for any number of members: each member is lowered
      in order from the state the previous one left, its value is appended, and an LF
      follows every member but the last. */
  lemma {:induction false} GroupMembersTrace(t: Term, i: nat, scope: Scope, sbVar: string, b: BuilderState)
    returns (values: seq<Emitted>, states: seq<BuilderState>)
    requires t.Group? && i <= |t.expressions|
    requires GroupMembers(t, i, scope, sbVar, b).Ok?
    ensures MembersWritten(t.expressions[i..], scope, sbVar, values, states)
    ensures states[0] == b && states[|values|] == GroupMembers(t, i, scope, sbVar, b).value
    decreases |t.expressions| - i
  {
    if i == |t.expressions| {
      values, states := [], [b];
    } else {
      var value := LowerPipeline(t.expressions[i], scope, b).value;
      var appended := WithStatement(value.state, AppendStatement(sbVar, value.variable));
      var last := i == |t.expressions| - 1;
      var separated := if !last then WithStatement(appended, SeparatorStatement(sbVar)) else appended;
      assert GroupMembers(t, i, scope, sbVar, b) == GroupMembers(t, i + 1, scope, sbVar, separated);
      var restValues, restStates := GroupMembersTrace(t, i + 1, scope, sbVar, separated);
      values, states := [value] + restValues, [b] + restStates;
      assert t.expressions[i..][1..] == t.expressions[i + 1..];
      assert values[1..] == restValues && states[1..] == restStates;
      assert MemberStep(t.expressions[i], scope, sbVar, b, value, separated, last);
    }
  }

  /** `compileGroup` for any non-empty group: a fresh `StringBuilder` is declared, the
      members are written as `GroupMembersTrace` describes (LF between consecutive members
      only), and the group's value is the builder's `toString()`. */
  lemma GroupJoinsMembers(t: Term, scope: Scope, b: BuilderState, pipelineValue: Option<string>)
    returns (sb: Emitted, values: seq<Emitted>, states: seq<BuilderState>)
    requires t.Group? && t.expressions != []
    requires LowerGroup(t, scope, b, pipelineValue).Ok?
    ensures sb == WithTypedTemp(b, "StringBuilder", "new StringBuilder()")
    ensures MembersWritten(t.expressions, GroupScope(scope, pipelineValue), sb.variable, values, states)
    ensures states[0] == sb.state
    ensures LowerGroup(t, scope, b, pipelineValue) == Ok(WithTemp(states[|values|], sb.variable + ".toString()"))
  {
    sb := WithTypedTemp(b, "StringBuilder", "new StringBuilder()");
    values, states := GroupMembersTrace(t, 0, GroupScope(scope, pipelineValue), sb.variable, sb.state);
    assert t.expressions[0..] == t.expressions;
  }

  /** Two members: an LF is appended between them and not after the last. */
  lemma GroupSeparatesMembers(scope: Scope, line: nat)
    ensures var t := Group([Pipeline([StringLiteral("a", line)], line), Pipeline([StringLiteral("b", line)], line)], line);
      var tmp0, tmp1, tmp2, tmp3 := TempName(0), TempName(1), TempName(2), TempName(3);
      LowerValue(t, scope, Empty) == Ok(Emitted(tmp3, BuilderState([
        Declaration("StringBuilder", tmp0, "new StringBuilder()"),
        Declaration("String", tmp1, Quoted("a")),
        AppendStatement(tmp0, tmp1),
        SeparatorStatement(tmp0),
        Declaration("String", tmp2, Quoted("b")),
        AppendStatement(tmp0, tmp2),
        Declaration("String", tmp3, tmp0 + ".toString()")], 4)))
  {
    var a := Pipeline([StringLiteral("a", line)], line);
    var bb := Pipeline([StringLiteral("b", line)], line);
    var t := Group([a, bb], line);
    var tmp0, tmp1, tmp2 := TempName(0), TempName(1), TempName(2);
    var s0 := BuilderState([Declaration("StringBuilder", tmp0, "new StringBuilder()")], 1);
    assert Empty.statements + s0.statements == s0.statements;
    assert WithTypedTemp(Empty, "StringBuilder", "new StringBuilder()") == Emitted(tmp0, s0);
    SingleTermPipeline(StringLiteral("a", line), scope, s0, line);
    var m1 := BuilderState(s0.statements + [Declaration("String", tmp1, Quoted("a"))], 2);
    assert LowerPipeline(a, scope, s0) == Ok(Emitted(tmp1, m1));
    var s1 := BuilderState(m1.statements + [AppendStatement(tmp0, tmp1), SeparatorStatement(tmp0)], 2);
    assert m1.statements + [AppendStatement(tmp0, tmp1)] + [SeparatorStatement(tmp0)] == s1.statements;
    SingleTermPipeline(StringLiteral("b", line), scope, s1, line);
    var m2 := BuilderState(s1.statements + [Declaration("String", tmp2, Quoted("b"))], 3);
    assert LowerPipeline(bb, scope, s1) == Ok(Emitted(tmp2, m2));
    var s2 := BuilderState(m2.statements + [AppendStatement(tmp0, tmp2)], 3);
    assert GroupMembers(t, 2, scope, tmp0, s2) == Ok(s2);
    assert GroupMembers(t, 1, scope, tmp0, s1) == Ok(s2);
    assert GroupMembers(t, 0, scope, tmp0, s0) == Ok(s2);
    assert s2.statements + [Declaration("String", TempName(3), tmp0 + ".toString()")] == [
        Declaration("StringBuilder", tmp0, "new StringBuilder()"),
        Declaration("String", tmp1, Quoted("a")),
        AppendStatement(tmp0, tmp1),
        SeparatorStatement(tmp0),
        Declaration("String", tmp2, Quoted("b")),
        AppendStatement(tmp0, tmp2),
        Declaration("String", TempName(3), tmp0 + ".toString()")];
  }

  /** A builtin call in a pipeline passes the piped value and then one value per
      explicit argument, one more than the builtin's registered count. */
  lemma PipelineBuiltinCallArguments(t: Term, scope: Scope, b: BuilderState, current: string)
    requires t.Call? && Find(t.target).Some?
    requires LowerPipelineCall(t, scope, b, current).Ok?
    ensures var d := Find(t.target).value;
      var r := LowerPipelineCall(t, scope, b, current).value;
      exists args: seq<string> ::
        && |args| == d.argCount + 1 && args[0] == current
        && r.state.statements[|r.state.statements| - 1] == Declaration("String", r.variable, BuildCall("Builtins." + d.methodName, args))
  {
    var lowered := ValueArguments(t, 0, scope, [current], b).value;
    assert lowered.0[0] == current;
  }

  /** The same count in value context, where the first argument is explicit. */
  lemma ValueBuiltinCallArguments(t: Term, scope: Scope, b: BuilderState)
    requires t.Call? && Find(t.target).Some?
    requires LowerValueCall(t, scope, b).Ok?
    ensures var d := Find(t.target).value;
      var r := LowerValueCall(t, scope, b).value;
      exists args: seq<string> ::
        && |args| == d.argCount + 1
        && r.state.statements[|r.state.statements| - 1] == Declaration("String", r.variable, BuildCall("Builtins." + d.methodName, args))
  {
    var lowered := ValueArguments(t, 0, scope, [], b).value;
  }

  /** Every builtin but `const` reaches a runtime method taking the number of strings
      the generated call passes. */
  lemma RegisteredMethodsResolve(name: string, args: seq<string>)
    requires Find(name).Some? && name != "const" && |args| == Find(name).value.argCount + 1
    ensures Builtins.Invoke(Find(name).value.methodName, args).Some?
  {
    TableContents();
  }

  /** `it | const "a"`: the call generated passes two strings to `constValue`, and the
      runtime has only a one-argument `constValue`, so the generated source does not
      compile. */
  lemma ConstCallHasNoMethod(x: string, y: string)
    ensures var top := Pipeline([Identifier("it", 1), Call("const", [StringLiteral("a", 1)], 1)], 1);
      var tmp0, tmp1 := TempName(0), TempName(1);
      LowerPipeline(top, Scope("it", "input", map[]), Empty) == Ok(Emitted(tmp1, BuilderState([
        Declaration("String", tmp0, Quoted("a")),
        Declaration("String", tmp1, BuildCall("Builtins.constValue", ["input", tmp0]))], 2)))
    ensures Builtins.Invoke("constValue", [x, y]).None?
  {
    TableContents();
    var t := Call("const", [StringLiteral("a", 1)], 1);
    var scope := Scope("it", "input", map[]);
    var tmp0 := TempName(0);
    var s0 := BuilderState([Declaration("String", tmp0, Quoted("a"))], 1);
    assert Empty.statements + s0.statements == s0.statements;
    assert LowerValue(StringLiteral("a", 1), scope, Empty) == Ok(Emitted(tmp0, s0));
    assert ["input"] + [tmp0] == ["input", tmp0];
    assert ValueArguments(t, 1, scope, ["input", tmp0], s0) == Ok((["input", tmp0], s0));
    assert ValueArguments(t, 0, scope, ["input"], Empty) == Ok((["input", tmp0], s0));
    assert "Builtins." + "constValue" == "Builtins.constValue";
    var top := Pipeline([Identifier("it", 1), t], 1);
    var result := WithTemp(s0, BuildCall("Builtins.constValue", ["input", tmp0]));
    assert LowerPipelineCall(t, scope, Empty, "input") == Ok(result);
    assert PipelineSteps(top, 2, scope, result) == Ok(result);
    assert PipelineSteps(top, 1, scope, Emitted("input", Empty)) == Ok(result);
    var call := Declaration("String", TempName(1), BuildCall("Builtins.constValue", ["input", tmp0]));
    assert s0.statements + [call] == [Declaration("String", tmp0, Quoted("a")), call];
  }

  /** With the two-argument `constValue` added, every builtin call the compiler can
      generate reaches a runtime method, and `const` yields its literal. */
  lemma RegisteredMethodsResolveCorrected(name: string, args: seq<string>)
    requires Find(name).Some? && |args| == Find(name).value.argCount + 1
    ensures Builtins.InvokeCorrected(Find(name).value.methodName, args).Some?
    ensures name == "const" ==> Builtins.InvokeCorrected("constValue", args) == Some(Builtins.ConstValue(args[1]))
  {
    TableContents();
  }
}
