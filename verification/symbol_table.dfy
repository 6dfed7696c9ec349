/** Variables and the symbol table of grammar.h / grammar.cpp: an
    insertion-ordered list of named values, each either mutable or constant. */
module SymbolTable {
  import opened Failures

  datatype Variable = Variable(name: string, value: real, mutable: bool)

  /** The table, in declaration order. */
  type Env = seq<Variable>

  /** The names no declaration may take. */
  const ProhibitedNames: seq<string> := ["const", "pow", "sqrt"]

  /** A variable built without an explicit flag is mutable. */
  function NewVariable(name: string, value: real): (v: Variable)
    ensures v.mutable && v.name == name && v.value == value
  {
    Variable(name, value, true)
  }

  /** Variable::set_value: a constant refuses the new value. */
  function SetValue(v: Variable, x: real): (r: Result<Variable>)
    ensures r.Err? <==> !v.mutable
    ensures r.Err? ==> r.error == ImmutableAssignment
    ensures r.Ok? ==> r.value.name == v.name && r.value.mutable && r.value.value == x
  {
    if !v.mutable then Err(ImmutableAssignment) else Ok(v.(value := x))
  }

  /** The position of the first variable with the given name: the entry the
      table's linear searches stop at. */
  function Find(env: Env, name: string): (r: Option<nat>)
    ensures r.Some? ==> r.value < |env| && env[r.value].name == name
    ensures r.Some? ==> forall j :: 0 <= j < r.value ==> env[j].name != name
    ensures r.None? <==> forall j :: 0 <= j < |env| ==> env[j].name != name
  {
    if |env| == 0 then None
    else if env[0].name == name then Some(0)
    else match Find(env[1..], name)
      case None => None
      case Some(k) => Some(k + 1)
  }

  /** The names in the table are pairwise distinct. */
  ghost predicate Unique(env: Env) {
    forall i, j :: 0 <= i < j < |env| ==> env[i].name != env[j].name
  }

  /** In a table with unique names, the entry found is the only one. */
  lemma FindUnique(env: Env, name: string, i: nat)
    requires Unique(env)
    requires i < |env| && env[i].name == name
    ensures Find(env, name) == Some(i)
  {
  }

  /** is_declared(). */
  function IsDeclared(env: Env, name: string): (r: bool)
    ensures r <==> exists i :: 0 <= i < |env| && env[i].name == name
  {
    Find(env, name).Some?
  }

  /** is_prohibited(). */
  function IsProhibited(name: string): (r: bool)
    ensures r <==> name == "const" || name == "pow" || name == "sqrt"
  {
    name in ProhibitedNames
  }

  /** get(): the value of the named variable. */
  function Get(env: Env, name: string): (r: Result<real>)
    ensures r.Err? <==> !IsDeclared(env, name)
    ensures r.Err? ==> r.error == UndeclaredName
    ensures r.Ok? ==> exists i :: 0 <= i < |env| && env[i] == Variable(name, r.value, env[i].mutable)
  {
    match Find(env, name)
    case None => Err(UndeclaredName)
    case Some(i) => Ok(env[i].value)
  }

  /** set(): set_value() on the first variable with the name. */
  function Set(env: Env, name: string, x: real): (r: Result<Env>)
    ensures r.Err? <==> !IsDeclared(env, name) || !env[Find(env, name).value].mutable
    ensures r.Err? && !IsDeclared(env, name) ==> r.error == UndeclaredName
    ensures r.Err? && IsDeclared(env, name) ==> r.error == ImmutableAssignment
    ensures r.Ok? ==> |r.value| == |env|
    ensures r.Ok? ==> forall j :: 0 <= j < |env| ==>
              r.value[j] == if j == Find(env, name).value then env[j].(value := x) else env[j]
  {
    match Find(env, name)
    case None => Err(UndeclaredName)
    case Some(i) =>
      match SetValue(env[i], x)
      case Err(e) => Err(e)
      case Ok(v) => Ok(env[i := v])
  }

  /** define(): duplicates are checked before reserved names; a new variable
      is appended at the end. */
  function Define(env: Env, name: string, x: real, mutable: bool := true): (r: Result<Env>)
    ensures r.Err? <==> IsDeclared(env, name) || IsProhibited(name)
    ensures r.Err? && IsDeclared(env, name) ==> r.error == DuplicateName
    ensures r.Err? && !IsDeclared(env, name) ==> r.error == ReservedName
    ensures r.Ok? ==> r.value == env + [Variable(name, x, mutable)]
  {
    if IsDeclared(env, name) then Err(DuplicateName)
    else if IsProhibited(name) then Err(ReservedName)
    else Ok(env + [Variable(name, x, mutable)])
  }

  /** The table is only ever changed by define() and set(), and both keep
      the names unique. */
  lemma DefinePreservesUnique(env: Env, name: string, x: real, mutable: bool)
    requires Unique(env)
    requires Define(env, name, x, mutable).Ok?
    ensures Unique(Define(env, name, x, mutable).value)
  {
  }

  lemma SetPreservesUnique(env: Env, name: string, x: real)
    requires Unique(env)
    requires Set(env, name, x).Ok?
    ensures Unique(Set(env, name, x).value)
  {
  }

  /** Round trip: get() after a successful set() or define() reads the value
      just stored, and leaves every other name's value as it was. */
  lemma GetAfterSet(env: Env, name: string, x: real, other: string)
    requires Unique(env)
    requires Set(env, name, x).Ok?
    ensures Get(Set(env, name, x).value, name) == Ok(x)
    ensures other != name ==> Get(Set(env, name, x).value, other) == Get(env, other)
  {
    var env' := Set(env, name, x).value;
    var i := Find(env, name).value;
    FindUnique(env', name, i);
    if other != name {
      match Find(env, other)
      case None =>
      case Some(k) => FindUnique(env', other, k);
    }
  }

  lemma GetAfterDefine(env: Env, name: string, x: real, mutable: bool, other: string)
    requires Define(env, name, x, mutable).Ok?
    ensures Get(Define(env, name, x, mutable).value, name) == Ok(x)
    ensures other != name ==> Get(Define(env, name, x, mutable).value, other) == Get(env, other)
  {
    var env' := Define(env, name, x, mutable).value;
    assert env'[|env|].name == name;
    assert forall j :: 0 <= j < |env| ==> env'[j] == env[j];
  }

  /** A constant keeps its value: set() on it fails and changes nothing. */
  lemma ConstantsStayConstant(env: Env, name: string, x: real)
    requires Unique(env)
    requires exists i :: 0 <= i < |env| && env[i].name == name && !env[i].mutable
    ensures Set(env, name, x) == Err(ImmutableAssignment)
  {
    var i :| 0 <= i < |env| && env[i].name == name && !env[i].mutable;
    FindUnique(env, name, i);
  }

  /** The table every session starts with: the constants pi and e. */
  const PiValue: real := 3.1415926535
  const EValue: real := 2.7182818284

  function InitialEnv(): (env: Env)
    ensures Unique(env)
    ensures Get(env, "pi") == Ok(PiValue) && Get(env, "e") == Ok(EValue)
    ensures Set(env, "pi", 0.0) == Err(ImmutableAssignment)
    ensures Set(env, "e", 0.0) == Err(ImmutableAssignment)
  {
    var env := Define(Define([], "pi", PiValue, false).value, "e", EValue, false).value;
    assert env == [Variable("pi", PiValue, false), Variable("e", EValue, false)];
    FindUnique(env, "pi", 0);
    FindUnique(env, "e", 1);
    env
  }
}
