/** The slice of the PHP syntax tree the rule looks at: a class declaration,
    its statements, its methods and their parameters. */
module PhpAst {
  import opened Wrappers

  /** Name PHP reserves for the constructor (`MethodName::CONSTRUCT`). */
  const CONSTRUCT: string := "__construct"

  /** A statement of a method body. The rule never looks inside one; only the
      usage oracle may. */
  datatype Stmt = Stmt(source: string)

  /** A parameter of a method declaration. */
  datatype Param = Param(name: string)

  /** A method declaration. The rule never reads `body`; it is there so the
      usage oracle has a body to depend on. */
  datatype ClassMethod = ClassMethod(
    name: string,
    params: seq<Param>,
    isAbstract: bool,
    body: Option<seq<Stmt>>)

  /** A statement directly inside a class body: a method, or anything else
      (property, constant, trait use) that `getMethod` skips. */
  datatype ClassStmt = MethodStmt(classMethod: ClassMethod) | OtherStmt(kind: string)

  /** A class declaration (`Class_`). */
  datatype Class = Class(name: string, stmts: seq<ClassStmt>)

  /** ASCII lower-casing, as PHP's `strtolower` does. */
  function ToLowerChar(ch: char): char
  {
    if 'A' <= ch <= 'Z' then (ch as int + 32) as char else ch
  }

  function ToLower(s: string): string
  {
    seq(|s|, i requires 0 <= i < |s| => ToLowerChar(s[i]))
  }

  /** PHP method names are compared without regard to ASCII case. */
  predicate SameMethodName(a: string, b: string)
  {
    ToLower(a) == ToLower(b)
  }

  predicate IsMethodNamed(s: ClassStmt, name: string)
  {
    s.MethodStmt? && SameMethodName(s.classMethod.name, name)
  }

  /** Position of the first method statement at or after `from` named `name`. */
  function FirstMethodIndex(stmts: seq<ClassStmt>, name: string, from: nat): (r: Option<nat>)
    requires from <= |stmts|
    ensures r.Some? ==>
      && from <= r.value < |stmts|
      && IsMethodNamed(stmts[r.value], name)
      && forall j | from <= j < r.value :: !IsMethodNamed(stmts[j], name)
    ensures r.None? ==> forall j | from <= j < |stmts| :: !IsMethodNamed(stmts[j], name)
    decreases |stmts| - from
  {
    if from == |stmts| then None
    else if IsMethodNamed(stmts[from], name) then Some(from)
    else FirstMethodIndex(stmts, name, from + 1)
  }

  /** `Class_::getMethod`: the first method of the class with that name, or
      `None` when the class declares none. */
  function GetMethod(cls: Class, name: string): (r: Option<ClassMethod>)
    ensures r.None? <==> forall i | 0 <= i < |cls.stmts| :: !IsMethodNamed(cls.stmts[i], name)
    ensures r.Some? ==>
      exists i | 0 <= i < |cls.stmts| ::
        && cls.stmts[i] == MethodStmt(r.value)
        && SameMethodName(r.value.name, name)
        && forall j | 0 <= j < i :: !IsMethodNamed(cls.stmts[j], name)
  {
    match FirstMethodIndex(cls.stmts, name, 0)
    case None => None
    case Some(i) => Some(cls.stmts[i].classMethod)
  }
}
