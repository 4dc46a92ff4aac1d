/** The code generator as the compiler runs it (ProgramCompiler.java): methods that add
    statements to a `CodeBuilder` object and return the variable holding each node's
    value, each proved to do what the lowering functions say; and the assembly of the
    generated procedures' text. */
module ProgramCompiler {
  import opened Wrappers
  import opened Text
  import opened Ast
  import opened CodeBuilder
  import opened BuiltinRegistry
  import opened Lowering

  /** `definitionMap`: the definitions by name, a later one replacing an earlier one of
      the same name. */
  function DefinitionMap(defs: seq<Definition>): map<string, Definition> {
    if defs == [] then map[]
    else
      var last := defs[|defs| - 1];
      DefinitionMap(defs[..|defs| - 1])[last.name := last]
  }

  /** The map holds exactly the defined names. */
  lemma {:induction false} DefinitionMapKeys(defs: seq<Definition>, name: string)
    ensures name in DefinitionMap(defs) <==> exists i | 0 <= i < |defs| :: defs[i].name == name
    decreases |defs|
  {
    if defs != [] {
      var n := |defs|;
      var init := defs[..n - 1];
      DefinitionMapKeys(init, name);
      if defs[n - 1].name != name {
        if exists i | 0 <= i < n :: defs[i].name == name {
          var i :| 0 <= i < n && defs[i].name == name;
          assert init[i].name == name;
        } else {
          assert forall i | 0 <= i < n - 1 :: init[i] == defs[i];
        }
      }
    }
  }

  /** A definition no later one shadows is the one its name is bound to: a later
      definition of the same name wins. */
  lemma {:induction false} DefinitionMapLaterWins(defs: seq<Definition>, i: nat)
    requires i < |defs|
    requires forall j | i < j < |defs| :: defs[j].name != defs[i].name
    ensures defs[i].name in DefinitionMap(defs) && DefinitionMap(defs)[defs[i].name] == defs[i]
    decreases |defs|
  {
    var n := |defs|;
    if i < n - 1 {
      var init := defs[..n - 1];
      assert init[i] == defs[i];
      forall j | i < j < |init| ensures init[j].name != init[i].name {
        assert init[j] == defs[j];
      }
      DefinitionMapLaterWins(init, i);
    }
  }

  /** The scope of a definition's body: its parameter is itself. */
  function DefinitionScope(d: Definition, definitions: map<string, Definition>): Scope {
    Scope(d.parameter, d.parameter, definitions)
  }

  /** The scope of the top-level expression: `it` is the program's input. */
  function TopScope(definitions: map<string, Definition>): Scope {
    Scope("it", "input", definitions)
  }

  function DefinitionSignature(d: Definition): string {
    "private static String " + FnName(d.name) + "(String " + d.parameter + ")"
  }

  const RunSignature := "public static String run(String input)"

  /** The text of one generated method: its statements two levels deep, then the return
      of the value's variable. */
  function Procedure(signature: string, body: Emitted): string {
    ProcedureHeader(signature) + Rendered(body.state.statements, 2) + ProcedureEnd(body.variable)
  }

  function ProcedureHeader(signature: string): string {
    "    " + signature + " {\n"
  }

  function ProcedureEnd(variable: string): string {
    "        return " + variable + ";\n" + "    }\n\n"
  }

  /** The loop over the definitions from `i` on: each body lowered with a fresh builder,
      in declaration order, shadowed definitions included. */
  function Procedures(defs: seq<Definition>, i: nat, definitions: map<string, Definition>, text: string)
    : (r: Result<string>)
    requires i <= |defs|
    ensures r.Ok? ==> text <= r.value
    decreases |defs| - i
  {
    if i == |defs| then Ok(text)
    else
      var body :- LowerPipeline(defs[i].body, DefinitionScope(defs[i], definitions), Empty);
      Procedures(defs, i + 1, definitions, text + Procedure(DefinitionSignature(defs[i]), body))
  }

  /** The generated methods of `buildSource`: one per definition, then `run`. The class
      declaration around them is not part of this model. */
  function SourceBody(p: Program): (r: Result<string>) {
    var definitions := DefinitionMap(p.definitions);
    var procedures :- Procedures(p.definitions, 0, definitions, "");
    var top :- LowerPipeline(p.expression, TopScope(definitions), Empty);
    Ok(procedures + Procedure(RunSignature, top))
  }

  /** Every definition's body must lower, even one a later definition shadows. */
  lemma {:induction false} ProceduresSucceed(defs: seq<Definition>, i: nat, definitions: map<string, Definition>, text: string)
    requires i <= |defs|
    ensures Procedures(defs, i, definitions, text).Ok? <==>
      forall j | i <= j < |defs| :: LowerPipeline(defs[j].body, DefinitionScope(defs[j], definitions), Empty).Ok?
    decreases |defs| - i
  {
    if i < |defs| {
      var body := LowerPipeline(defs[i].body, DefinitionScope(defs[i], definitions), Empty);
      if body.Ok? {
        ProceduresSucceed(defs, i + 1, definitions, text + Procedure(DefinitionSignature(defs[i]), body.value));
      }
    }
  }

  /** A program compiles exactly when every definition's body and the top-level
      expression lower in their scopes. */
  lemma SourceBodySucceeds(p: Program)
    ensures var definitions := DefinitionMap(p.definitions);
      SourceBody(p).Ok? <==>
        && (forall j | 0 <= j < |p.definitions| ::
              LowerPipeline(p.definitions[j].body, DefinitionScope(p.definitions[j], definitions), Empty).Ok?)
        && LowerPipeline(p.expression, TopScope(definitions), Empty).Ok?
  {
    ProceduresSucceed(p.definitions, 0, DefinitionMap(p.definitions), "");
  }

  /** A method's outcome matches a lowering: the same error, or the same variable with
      the builder left in the lowering's state. */
  predicate Agrees(r: Result<string>, spec: Result<Emitted>, after: BuilderState) {
    match spec
    case Ok(e) => r == Ok(e.variable) && after == e.state
    case Err(d) => r == Err(d)
  }

  class ProgramCompiler {
    const program: Program
    const className: string

    constructor(program: Program, className: string)
      ensures this.program == program && this.className == className
    {
      this.program := program;
      this.className := className;
    }

    /** `buildSource`, without the class declaration around the methods: the map of
        definitions, a fresh builder per definition and one for `run`. */
    method BuildSource() returns (r: Result<string>)
      ensures r == SourceBody(program)
    {
      var defs := program.definitions;
      var definitionMap := DefinitionMapOf(defs);
      var sb := "";
      for i := 0 to |defs|
        invariant Procedures(defs, i, definitionMap, sb) == Procedures(defs, 0, definitionMap, "")
      {
        var definition := defs[i];
        var written := WriteProcedure(sb, DefinitionSignature(definition), definition.body, DefinitionScope(definition, definitionMap));
        if written.Err? {
          return Err(written.error);
        }
        sb := written.value;
      }
      var top := WriteProcedure(sb, RunSignature, program.expression, TopScope(definitionMap));
      return top;
    }

    /** The first loop of `buildSource`. */
    static method DefinitionMapOf(defs: seq<Definition>) returns (definitionMap: map<string, Definition>)
      ensures definitionMap == DefinitionMap(defs)
    {
      definitionMap := map[];
      for i := 0 to |defs|
        invariant definitionMap == DefinitionMap(defs[..i])
      {
        assert defs[..i + 1][..i] == defs[..i];
        definitionMap := definitionMap[defs[i].name := defs[i]];
      }
      assert defs[..|defs|] == defs;
    }

    /** One generated method of `buildSource`: its header, the statements of a fresh
        builder and the return. */
    method WriteProcedure(sb: string, signature: string, body: Expression, scope: Scope) returns (r: Result<string>)
      ensures r == match LowerPipeline(body, scope, Empty)
        case Ok(e) => Ok(sb + Procedure(signature, e))
        case Err(d) => Err(d)
    {
      var builder := new CodeBuilder();
      var resultVar := CompileExpression(body, scope, builder);
      if resultVar.Err? {
        return Err(resultVar.error);
      }
      ghost var e := LowerPipeline(body, scope, Empty).value;
      assert builder.statements == e.state.statements && resultVar.value == e.variable;
      var text := builder.AppendTo(sb + ProcedureHeader(signature), 2);
      r := Ok(text + ProcedureEnd(resultVar.value));
      ghost var rendered := Rendered(e.state.statements, 2);
      AppendAssoc(sb, ProcedureHeader(signature), rendered);
      AppendAssoc(sb, ProcedureHeader(signature) + rendered, ProcedureEnd(e.variable));
    }

    /** `compileExpression` and `compilePipeline`. */
    method CompileExpression(e: Expression, scope: Scope, builder: CodeBuilder) returns (r: Result<string>)
      modifies builder
      ensures Agrees(r, LowerPipeline(e, scope, old(builder.State())), builder.State())
      decreases e, 2, 0
    {
      if e.terms == [] {
        return Err(Diagnostic(e.line, "Empty pipeline at line " + NatToString(e.line)));
      }
      ghost var b0 := builder.State();
      var first := CompileValueTerm(e.terms[0], scope, builder);
      if first.Err? {
        return Err(first.error);
      }
      var current := first.value;
      var i := 1;
      while i < |e.terms|
        invariant 1 <= i <= |e.terms|
        invariant LowerPipeline(e, scope, b0) == PipelineSteps(e, i, scope, Emitted(current, builder.State()))
        decreases |e.terms| - i
      {
        var next := CompilePipelineStep(e.terms[i], scope, builder, current);
        if next.Err? {
          return Err(next.error);
        }
        current := next.value;
        i := i + 1;
      }
      return Ok(current);
    }

    /** `compileValueTerm`. */
    method CompileValueTerm(t: Term, scope: Scope, builder: CodeBuilder) returns (r: Result<string>)
      modifies builder
      ensures Agrees(r, LowerValue(t, scope, old(builder.State())), builder.State())
      decreases t, 3, 0
    {
      match t
      case Identifier(name, line) =>
        if name == scope.parameterName {
          return Ok(scope.parameterVariable);
        }
        return Err(Diagnostic(line, "Unknown identifier '" + name + "' in value context"));
      case StringLiteral(value, _) =>
        var literal := Quote(value);
        var name := builder.NewTemp(literal);
        return Ok(name);
      case Call(_, _, _) =>
        r := CompileValueCall(t, scope, builder);
      case Group(_, _) =>
        r := CompileGroup(t, scope, builder, None);
    }

    /** `compileValueCall`. */
    method CompileValueCall(t: Term, scope: Scope, builder: CodeBuilder) returns (r: Result<string>)
      requires t.Call?
      modifies builder
      ensures Agrees(r, LowerValueCall(t, scope, old(builder.State())), builder.State())
      decreases t, 2, 0
    {
      var builtin := Find(t.target);
      if builtin.Some? {
        var d := builtin.value;
        if |t.arguments| != d.argCount + 1 {
          return Err(Diagnostic(t.line, "Builtin '" + t.target + "' expects " + NatToString(d.argCount + 1) + " arguments in value context"));
        }
        var args := CompileArguments(t, scope, builder, []);
        if args.Err? {
          return Err(args.error);
        }
        var call := BuildCallText("Builtins." + d.methodName, args.value);
        var name := builder.NewTemp(call);
        return Ok(name);
      }
      if t.target in scope.definitions {
        if |t.arguments| != 1 {
          return Err(Diagnostic(t.line, "Function '" + t.target + "' expects exactly one argument"));
        }
        var argument := CompileValueTerm(t.arguments[0], scope, builder);
        if argument.Err? {
          return Err(argument.error);
        }
        var name := builder.NewTemp(FnName(t.target) + "(" + argument.value + ")");
        return Ok(name);
      }
      return Err(Diagnostic(t.line, "Unknown function '" + t.target + "'"));
    }

    /** The argument loop of both call forms: each argument in value context, its
        variable after those already in `args`. */
    method CompileArguments(t: Term, scope: Scope, builder: CodeBuilder, args: seq<string>)
      returns (r: Result<seq<string>>)
      requires t.Call?
      modifies builder
      ensures var spec := ValueArguments(t, 0, scope, args, old(builder.State()));
        match spec
        case Ok(done) => r == Ok(done.0) && builder.State() == done.1
        case Err(d) => r == Err(d)
      decreases t, 1, |t.arguments|
    {
      ghost var b0 := builder.State();
      var done := args;
      for i := 0 to |t.arguments|
        invariant ValueArguments(t, 0, scope, args, b0) == ValueArguments(t, i, scope, done, builder.State())
      {
        var argument := CompileValueTerm(t.arguments[i], scope, builder);
        if argument.Err? {
          return Err(argument.error);
        }
        done := done + [argument.value];
      }
      return Ok(done);
    }

    /** `compilePipelineStep`. */
    method CompilePipelineStep(t: Term, scope: Scope, builder: CodeBuilder, currentVar: string)
      returns (r: Result<string>)
      modifies builder
      ensures Agrees(r, LowerStep(t, scope, old(builder.State()), currentVar), builder.State())
      decreases t, 3, 0
    {
      match t
      case Identifier(name, line) =>
        if name == scope.parameterName {
          return Err(Diagnostic(line, "Cannot call parameter '" + name + "' as a function"));
        }
        var builtin := Find(name);
        if builtin.Some? {
          if builtin.value.argCount != 0 {
            return Err(Diagnostic(line, "Builtin '" + name + "' requires arguments"));
          }
          var temp := builder.NewTemp("Builtins." + builtin.value.methodName + "(" + currentVar + ")");
          return Ok(temp);
        }
        if name in scope.definitions {
          var temp := builder.NewTemp(FnName(name) + "(" + currentVar + ")");
          return Ok(temp);
        }
        return Err(Diagnostic(line, "Unknown function '" + name + "'"));
      case StringLiteral(value, _) =>
        var literal := Quote(value);
        var temp := builder.NewTemp("Builtins.constValue(" + literal + ")");
        return Ok(temp);
      case Call(_, _, _) =>
        r := CompilePipelineCall(t, scope, builder, currentVar);
      case Group(_, _) =>
        r := CompileGroup(t, scope, builder, Some(currentVar));
    }

    /** `compileGroup`. */
    method CompileGroup(t: Term, scope: Scope, builder: CodeBuilder, pipelineValue: Option<string>)
      returns (r: Result<string>)
      requires t.Group?
      modifies builder
      ensures Agrees(r, LowerGroup(t, scope, old(builder.State()), pipelineValue), builder.State())
      decreases t, 2, 0
    {
      if t.expressions == [] {
        var empty := builder.NewTemp("\"\"");
        return Ok(empty);
      }
      var innerScope := if pipelineValue.None? then scope else scope.(parameterVariable := pipelineValue.value);
      assert innerScope == GroupScope(scope, pipelineValue);
      var sbVar := builder.NewTypedTemp("StringBuilder", "new StringBuilder()");
      ghost var b1 := builder.State();
      for i := 0 to |t.expressions|
        invariant GroupMembers(t, 0, innerScope, sbVar, b1) == GroupMembers(t, i, innerScope, sbVar, builder.State())
      {
        var value := CompileExpression(t.expressions[i], innerScope, builder);
        if value.Err? {
          return Err(value.error);
        }
        builder.Add(AppendStatement(sbVar, value.value));
        if i < |t.expressions| - 1 {
          builder.Add(SeparatorStatement(sbVar));
        }
      }
      var joined := builder.NewTemp(sbVar + ".toString()");
      return Ok(joined);
    }

    /** `compilePipelineCall`. */
    method CompilePipelineCall(t: Term, scope: Scope, builder: CodeBuilder, currentVar: string)
      returns (r: Result<string>)
      requires t.Call?
      modifies builder
      ensures Agrees(r, LowerPipelineCall(t, scope, old(builder.State()), currentVar), builder.State())
      decreases t, 2, 0
    {
      var builtin := Find(t.target);
      if builtin.Some? {
        var d := builtin.value;
        if |t.arguments| != d.argCount {
          return Err(Diagnostic(t.line, "Builtin '" + t.target + "' expects " + NatToString(d.argCount) + " argument(s) in pipeline context"));
        }
        var args := CompileArguments(t, scope, builder, [currentVar]);
        if args.Err? {
          return Err(args.error);
        }
        var call := BuildCallText("Builtins." + d.methodName, args.value);
        var temp := builder.NewTemp(call);
        return Ok(temp);
      }
      if t.target in scope.definitions {
        if t.arguments != [] {
          return Err(Diagnostic(t.line, "User function '" + t.target + "' does not accept additional arguments in pipeline"));
        }
        var temp := builder.NewTemp(FnName(t.target) + "(" + currentVar + ")");
        return Ok(temp);
      }
      return Err(Diagnostic(t.line, "Unknown function '" + t.target + "'"));
    }

    /** `buildCall`, with the `StringJoiner`'s separator written out. */
    static method BuildCallText(target: string, arguments: seq<string>) returns (r: string)
      ensures r == BuildCall(target, arguments)
    {
      var joined := "";
      for i := 0 to |arguments|
        invariant joined == JoinArguments(arguments[..i])
      {
        assert arguments[..i + 1][..i] == arguments[..i];
        if i > 0 {
          joined := joined + ", ";
        }
        joined := joined + arguments[i];
      }
      assert arguments[..|arguments|] == arguments;
      r := target + "(" + joined + ")";
    }

    /** `quote`. */
    static method Quote(value: string) returns (r: string)
      ensures r == Quoted(value)
    {
      var sb := "\"";
      for i := 0 to |value|
        invariant sb == "\"" + EscapeAll(value[..i])
      {
        var ch := value[i];
        EscapeAllPrefix(value, i);
        ghost var before := sb;
        if ch == '"' {
          sb := sb + "\\\"";
        } else if ch == '\\' {
          sb := sb + "\\\\";
        } else if ch == '\n' {
          sb := sb + "\\n";
        } else if ch == '\r' {
          sb := sb + "\\r";
        } else if ch == '\t' {
          sb := sb + "\\t";
        } else {
          sb := sb + [ch];
        }
        assert sb == before + Escape(ch);
        AppendAssoc("\"", EscapeAll(value[..i]), Escape(ch));
      }
      assert value[..|value|] == value;
      r := sb + "\"";
    }
  }
}
