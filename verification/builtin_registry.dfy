/** The constant table of builtins the compiler may call: for each name, the runtime
    method that implements it and how many arguments it takes besides the value flowing
    through the pipeline. */
module BuiltinRegistry {
  import opened Wrappers

  datatype Descriptor = Descriptor(name: string, methodName: string, argCount: nat)

  /** `register`: files a descriptor under its own name. */
  function Register(table: map<string, Descriptor>, name: string, methodName: string, argCount: nat)
    : map<string, Descriptor>
  {
    table[name := Descriptor(name, methodName, argCount)]
  }

  /** The static initialiser: eleven registrations in order. */
  const Table: map<string, Descriptor> :=
    var t := Register(map[], "id", "id", 0);
    var t := Register(t, "upper", "upper", 0);
    var t := Register(t, "lower", "lower", 0);
    var t := Register(t, "trim", "trim", 0);
    var t := Register(t, "append", "append", 1);
    var t := Register(t, "prepend", "prepend", 1);
    var t := Register(t, "replace", "replace", 2);
    var t := Register(t, "const", "constValue", 1);
    var t := Register(t, "indent", "indent", 1);
    var t := Register(t, "trim_indent", "trimIndent", 0);
    Register(t, "wrap", "wrap", 2)

  /** What the registrations leave in the table: no name is registered twice, so each
      keeps the descriptor it was registered with. */
  lemma TableContents()
    ensures Table == map[
      "id" := Descriptor("id", "id", 0),
      "upper" := Descriptor("upper", "upper", 0),
      "lower" := Descriptor("lower", "lower", 0),
      "trim" := Descriptor("trim", "trim", 0),
      "append" := Descriptor("append", "append", 1),
      "prepend" := Descriptor("prepend", "prepend", 1),
      "replace" := Descriptor("replace", "replace", 2),
      "const" := Descriptor("const", "constValue", 1),
      "indent" := Descriptor("indent", "indent", 1),
      "trim_indent" := Descriptor("trim_indent", "trimIndent", 0),
      "wrap" := Descriptor("wrap", "wrap", 2)]
  {
  }

  /** `find`: the descriptor of a registered name, nothing for any other name. */
  function Find(name: string): (r: Option<Descriptor>)
    ensures r.Some? <==> name in Table
    ensures r.Some? ==> r.value.name == name && r.value.argCount <= 2
  {
    TableContents();
    if name in Table then Some(Table[name]) else None
  }

  /** The names taking no extra argument. */
  const Unary: set<string> := {"id", "upper", "lower", "trim", "trim_indent"}
  /** The names taking one extra argument. */
  const Binary: set<string> := {"append", "prepend", "const", "indent"}
  /** The names taking two extra arguments. */
  const Ternary: set<string> := {"replace", "wrap"}

  /** The table holds exactly eleven names, each with the arity of its group. */
  lemma RegisteredNames(name: string)
    ensures Find(name).Some? <==> name in Unary + Binary + Ternary
    ensures name in Unary ==> Find(name).value.argCount == 0
    ensures name in Binary ==> Find(name).value.argCount == 1
    ensures name in Ternary ==> Find(name).value.argCount == 2
  {
    TableContents();
  }

  /** Every descriptor is filed under its own name, takes at most two extra arguments,
      and names a runtime method spelled like the builtin except `const` and
      `trim_indent`. */
  lemma DescriptorsWellFormed(name: string)
    requires Find(name).Some?
    ensures Find(name).value.name == name && Find(name).value.argCount <= 2
    ensures Find(name).value.methodName ==
      if name == "const" then "constValue" else if name == "trim_indent" then "trimIndent" else name
  {
    TableContents();
  }
}
