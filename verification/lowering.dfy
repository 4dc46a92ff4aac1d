/** The meaning of the code generator (ProgramCompiler.java): what each syntax node
    lowers to, as statements added to the builder of the procedure being generated and
    the variable that holds the node's value. The class in program_compiler.dfy computes
    the same thing step by step. */
module Lowering {
  import opened Wrappers
  import opened Text
  import opened Ast
  import opened CodeBuilder
  import opened BuiltinRegistry

  /** `Scope`: the name the source code uses for the current value, the Java variable
      that holds it, and the program's definitions by name. */
  datatype Scope = Scope(parameterName: string, parameterVariable: string, definitions: map<string, Definition>)

  /** `fnName`: the Java method generated for a definition. */
  function FnName(name: string): string {
    "fn_" + name
  }

  /** The `StringJoiner(", ")` of `buildCall`. */
  function JoinArguments(args: seq<string>): string {
    if |args| == 0 then ""
    else if |args| == 1 then args[0]
    else JoinArguments(args[..|args| - 1]) + ", " + args[|args| - 1]
  }

  /** `buildCall`: a method call with its arguments separated by commas. */
  function BuildCall(target: string, args: seq<string>): string {
    target + "(" + JoinArguments(args) + ")"
  }

  /** Arguments free of commas can be counted in the call text: one comma between each
      two of them and none anywhere else. */
  lemma {:induction false} JoinArgumentsCommas(args: seq<string>)
    requires forall i | 0 <= i < |args| :: ',' !in args[i]
    ensures multiset(JoinArguments(args))[','] == if args == [] then 0 else |args| - 1
    decreases |args|
  {
    var n := |args|;
    if n == 1 {
      assert ',' !in multiset(args[0]);
    } else if n > 1 {
      JoinArgumentsCommas(args[..n - 1]);
      assert ',' !in multiset(args[n - 1]);
      assert multiset(JoinArguments(args)) ==
        multiset(JoinArguments(args[..n - 1])) + multiset(", ") + multiset(args[n - 1]);
    }
  }

  lemma BuildCallCommas(target: string, args: seq<string>)
    requires ',' !in target && args != []
    requires forall i | 0 <= i < |args| :: ',' !in args[i]
    ensures multiset(BuildCall(target, args))[','] + 1 == |args|
  {
    JoinArgumentsCommas(args);
    assert ',' !in multiset(target);
    assert multiset(BuildCall(target, args)) ==
      multiset(target) + multiset("(") + multiset(JoinArguments(args)) + multiset(")");
  }

  /** The escape `quote` writes for one character. */
  function Escape(c: char): (r: string)
    ensures 1 <= |r| <= 2
    ensures forall i | 0 <= i < |r| :: r[i] != '\n' && r[i] != '\r' && r[i] != '\t'
  {
    if c == '"' then "\\\""
    else if c == '\\' then "\\\\"
    else if c == '\n' then "\\n"
    else if c == '\r' then "\\r"
    else if c == '\t' then "\\t"
    else [c]
  }

  /** The body of the Java string literal for `s`: it holds no line break and no tab. */
  function EscapeAll(s: string): (r: string)
    ensures |s| <= |r| <= 2 * |s|
  {
    if s == [] then "" else Escape(s[0]) + EscapeAll(s[1..])
  }

  /** The escaped text holds no raw LF, CR or tab, so the literal fits on one line. */
  lemma {:induction false} EscapeAllNoBreaks(s: string)
    ensures forall i | 0 <= i < |EscapeAll(s)| :: NotBreak(EscapeAll(s)[i])
    decreases |s|
  {
    if s != [] {
      EscapeAllNoBreaks(s[1..]);
      var e := Escape(s[0]);
      var tail := EscapeAll(s[1..]);
      assert EscapeAll(s) == e + tail;
      forall i | 0 <= i < |e + tail| ensures NotBreak((e + tail)[i]) {
        if i >= |e| {
          assert (e + tail)[i] == tail[i - |e|];
        } else {
          assert (e + tail)[i] == e[i];
        }
      }
    }
  }

  predicate NotBreak(c: char) {
    c != '\n' && c != '\r' && c != '\t'
  }

  lemma {:induction false} EscapeAllAppend(s: string, c: char)
    ensures EscapeAll(s + [c]) == EscapeAll(s) + Escape(c)
    decreases |s|
  {
    if s == [] {
      assert [c][1..] == [];
    } else {
      assert (s + [c])[1..] == s[1..] + [c];
      EscapeAllAppend(s[1..], c);
    }
  }

  /** Escaping one more character of a prefix adds that character's escape. */
  lemma EscapeAllPrefix(s: string, i: nat)
    requires i < |s|
    ensures EscapeAll(s[..i + 1]) == EscapeAll(s[..i]) + Escape(s[i])
  {
    assert s[..i + 1] == s[..i] + [s[i]];
    EscapeAllAppend(s[..i], s[i]);
  }

  /** `quote`: the Java string literal denoting `value`. */
  function Quoted(value: string): string {
    "\"" + EscapeAll(value) + "\""
  }

  /** How `javac` reads the body of a string literal back, for the escapes `quote` uses:
      an unescaped quote or an unknown escape is not a literal body. */
  function Unescape(body: string): Option<string>
    decreases |body|
  {
    if body == [] then Some("")
    else if body[0] == '"' then None
    else if body[0] != '\\' then
      match Unescape(body[1..])
      case None => None
      case Some(rest) => Some([body[0]] + rest)
    else if |body| < 2 then None
    else
      var e := body[1];
      var c := if e == 'n' then '\n' else if e == 'r' then '\r' else if e == 't' then '\t' else e;
      if e !in {'n', 'r', 't', '"', '\\'} then None
      else
        match Unescape(body[2..])
        case None => None
        case Some(rest) => Some([c] + rest)
  }

  /** A Java string literal's value. */
  function Unquote(literal: string): Option<string> {
    if |literal| >= 2 && literal[0] == '"' && literal[|literal| - 1] == '"' then
      Unescape(literal[1..|literal| - 1])
    else None
  }

  /** Reading one escape back gives its character in front of what the rest reads as. */
  lemma UnescapeOne(c: char, rest: string)
    ensures Unescape(Escape(c) + rest) ==
      match Unescape(rest)
      case None => None
      case Some(tail) => Some([c] + tail)
  {
    var body := Escape(c) + rest;
    if |Escape(c)| == 1 {
      assert body[0] == c && body[1..] == rest;
    } else {
      assert body[0] == '\\' && body[2..] == rest;
    }
  }

  lemma {:induction false} EscapeRoundTrip(s: string)
    ensures Unescape(EscapeAll(s)) == Some(s)
    decreases |s|
  {
    if s != [] {
      EscapeRoundTrip(s[1..]);
      UnescapeOne(s[0], EscapeAll(s[1..]));
      assert s == [s[0]] + s[1..];
    }
  }

  /** The literal `quote` writes denotes exactly the string it was given. */
  lemma QuoteRoundTrip(value: string)
    ensures Unquote(Quoted(value)) == Some(value)
  {
    var q := Quoted(value);
    assert q[1..|q| - 1] == EscapeAll(value);
    EscapeRoundTrip(value);
  }

  /** The value of a node in value context: the parameter variable itself or the
      temporary declared last. */
  predicate ValueResult(scope: Scope, b: BuilderState, e: Emitted) {
    FreshResult(b, e) || (e.variable == scope.parameterVariable && e.state == b)
  }

  /** `compileExpression` and `compilePipeline`: the first term in value context, each
      later term in pipeline context with the value so far. */
  function LowerPipeline(e: Expression, scope: Scope, b: BuilderState): (r: Result<Emitted>)
    ensures r.Ok? ==> Extends(b, r.value.state) && ValueResult(scope, b, r.value)
    ensures e.terms == [] ==> r.Err?
    decreases e, 2, 0
  {
    if e.terms == [] then Err(Diagnostic(e.line, "Empty pipeline at line " + NatToString(e.line)))
    else
      var first :- LowerValue(e.terms[0], scope, b);
      PipelineSteps(e, 1, scope, first)
  }

  /** The loop of `compilePipeline` from term `i` on, with the value so far. The result
      is that value when no term is left, and otherwise the temporary the last term
      declared. */
  function PipelineSteps(e: Expression, i: nat, scope: Scope, current: Emitted): (r: Result<Emitted>)
    requires 1 <= i <= |e.terms|
    ensures r.Ok? ==> Extends(current.state, r.value.state)
    ensures r.Ok? ==> (i == |e.terms| && r.value == current) || (i < |e.terms| && FreshResult(current.state, r.value))
    decreases e, 1, |e.terms| - i
  {
    if i == |e.terms| then Ok(current)
    else
      var next :- LowerStep(e.terms[i], scope, current.state, current.variable);
      PipelineSteps(e, i + 1, scope, next)
  }

  /** `compileValueTerm`: only the parameter is a name in value context, and a literal is
      declared as it is. */
  function LowerValue(t: Term, scope: Scope, b: BuilderState): (r: Result<Emitted>)
    ensures r.Ok? ==> Extends(b, r.value.state) && ValueResult(scope, b, r.value)
    ensures t.Identifier? ==> (r.Ok? <==> t.name == scope.parameterName)
    decreases t, 3, 0
  {
    match t
    case Identifier(name, line) =>
      if name == scope.parameterName then Ok(Emitted(scope.parameterVariable, b))
      else Err(Diagnostic(line, "Unknown identifier '" + name + "' in value context"))
    case StringLiteral(value, _) => Ok(WithTemp(b, Quoted(value)))
    case Call(_, _, _) => LowerValueCall(t, scope, b)
    case Group(_, _) => LowerGroup(t, scope, b, None)
  }

  /** `compileValueCall`: a builtin takes the value it works on as an explicit first
      argument, a definition takes exactly its one argument; the catalog is consulted
      before the definitions. */
  function LowerValueCall(t: Term, scope: Scope, b: BuilderState): (r: Result<Emitted>)
    requires t.Call?
    ensures r.Ok? ==> Extends(b, r.value.state) && FreshResult(b, r.value)
    ensures r.Ok? ==>
      match Find(t.target)
      case Some(d) => |t.arguments| == d.argCount + 1
      case None => t.target in scope.definitions && |t.arguments| == 1
    decreases t, 2, 0
  {
    match Find(t.target)
    case Some(d) =>
      if |t.arguments| != d.argCount + 1 then
        Err(Diagnostic(t.line, "Builtin '" + t.target + "' expects " + NatToString(d.argCount + 1) + " arguments in value context"))
      else
        var lowered :- ValueArguments(t, 0, scope, [], b);
        Ok(WithTemp(lowered.1, BuildCall("Builtins." + d.methodName, lowered.0)))
    case None =>
      if t.target in scope.definitions then
        if |t.arguments| != 1 then
          Err(Diagnostic(t.line, "Function '" + t.target + "' expects exactly one argument"))
        else
          var argument :- LowerValue(t.arguments[0], scope, b);
          Ok(WithTemp(argument.state, FnName(t.target) + "(" + argument.variable + ")"))
      else Err(Diagnostic(t.line, "Unknown function '" + t.target + "'"))
  }

  /** The argument loop of both call forms from argument `i` on: each argument in value
      context, its variable added to `done`. */
  function ValueArguments(t: Term, i: nat, scope: Scope, done: seq<string>, b: BuilderState)
    : (r: Result<(seq<string>, BuilderState)>)
    requires t.Call? && i <= |t.arguments|
    ensures r.Ok? ==> Extends(b, r.value.1)
    ensures r.Ok? ==> |r.value.0| == |done| + |t.arguments| - i && done <= r.value.0
    decreases t, 1, |t.arguments| - i
  {
    if i == |t.arguments| then Ok((done, b))
    else
      var argument :- LowerValue(t.arguments[i], scope, b);
      ValueArguments(t, i + 1, scope, done + [argument.variable], argument.state)
  }

  /** `compilePipelineStep`: a term applied to the current value. */
  function LowerStep(t: Term, scope: Scope, b: BuilderState, current: string): (r: Result<Emitted>)
    ensures r.Ok? ==> Extends(b, r.value.state) && FreshResult(b, r.value)
    ensures t.Identifier? && t.name == scope.parameterName ==> r.Err?
    decreases t, 3, 0
  {
    match t
    case Identifier(name, line) =>
      if name == scope.parameterName then
        Err(Diagnostic(line, "Cannot call parameter '" + name + "' as a function"))
      else
        (match Find(name)
         case Some(d) =>
           if d.argCount != 0 then Err(Diagnostic(line, "Builtin '" + name + "' requires arguments"))
           else Ok(WithTemp(b, "Builtins." + d.methodName + "(" + current + ")"))
         case None =>
           if name in scope.definitions then Ok(WithTemp(b, FnName(name) + "(" + current + ")"))
           else Err(Diagnostic(line, "Unknown function '" + name + "'")))
    case StringLiteral(value, _) => Ok(WithTemp(b, "Builtins.constValue(" + Quoted(value) + ")"))
    case Call(_, _, _) => LowerPipelineCall(t, scope, b, current)
    case Group(_, _) => LowerGroup(t, scope, b, Some(current))
  }

  /** `compilePipelineCall`: a builtin gets the current value in front of its explicit
      arguments; a definition gets the current value and nothing else. */
  function LowerPipelineCall(t: Term, scope: Scope, b: BuilderState, current: string): (r: Result<Emitted>)
    requires t.Call?
    ensures r.Ok? ==> Extends(b, r.value.state) && FreshResult(b, r.value)
    ensures r.Ok? ==>
      match Find(t.target)
      case Some(d) => |t.arguments| == d.argCount
      case None => t.target in scope.definitions && t.arguments == []
    decreases t, 2, 0
  {
    match Find(t.target)
    case Some(d) =>
      if |t.arguments| != d.argCount then
        Err(Diagnostic(t.line, "Builtin '" + t.target + "' expects " + NatToString(d.argCount) + " argument(s) in pipeline context"))
      else
        var lowered :- ValueArguments(t, 0, scope, [current], b);
        Ok(WithTemp(lowered.1, BuildCall("Builtins." + d.methodName, lowered.0)))
    case None =>
      if t.target in scope.definitions then
        if t.arguments != [] then
          Err(Diagnostic(t.line, "User function '" + t.target + "' does not accept additional arguments in pipeline"))
        else Ok(WithTemp(b, FnName(t.target) + "(" + current + ")"))
      else Err(Diagnostic(t.line, "Unknown function '" + t.target + "'"))
  }

  /** The scope a group's members are lowered in: in pipeline context the parameter's
      name stands for the value piped into the group. */
  function GroupScope(scope: Scope, pipelineValue: Option<string>): Scope {
    match pipelineValue
    case None => scope
    case Some(v) => scope.(parameterVariable := v)
  }

  /** The statement appending a value to a group's `StringBuilder`. */
  function AppendStatement(sbVar: string, value: string): string {
    sbVar + ".append(" + value + ");"
  }

  /** The statement appending the LF between two members of a group. */
  function SeparatorStatement(sbVar: string): string {
    sbVar + ".append('\\n');"
  }

  /** `compileGroup`: the members' values joined by LF in a `StringBuilder`; an empty
      group is the empty string. */
  function LowerGroup(t: Term, scope: Scope, b: BuilderState, pipelineValue: Option<string>): (r: Result<Emitted>)
    requires t.Group?
    ensures r.Ok? ==> Extends(b, r.value.state) && FreshResult(b, r.value)
    decreases t, 2, 0
  {
    if t.expressions == [] then Ok(WithTemp(b, "\"\""))
    else
      var sb := WithTypedTemp(b, "StringBuilder", "new StringBuilder()");
      var filled :- GroupMembers(t, 0, GroupScope(scope, pipelineValue), sb.variable, sb.state);
      Ok(WithTemp(filled, sb.variable + ".toString()"))
  }

  /** The member loop of `compileGroup` from member `i` on: the member's value appended,
      then an LF unless it is the last member. */
  function GroupMembers(t: Term, i: nat, scope: Scope, sbVar: string, b: BuilderState): (r: Result<BuilderState>)
    requires t.Group? && i <= |t.expressions|
    ensures r.Ok? ==> Extends(b, r.value)
    decreases t, 1, |t.expressions| - i
  {
    if i == |t.expressions| then Ok(b)
    else
      var value :- LowerPipeline(t.expressions[i], scope, b);
      var appended := WithStatement(value.state, AppendStatement(sbVar, value.variable));
      var separated := if i < |t.expressions| - 1 then WithStatement(appended, SeparatorStatement(sbVar)) else appended;
      GroupMembers(t, i + 1, scope, sbVar, separated)
  }
}
