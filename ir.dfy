/**
 * The intermediate representation of the code the mapping-plan compiler
 * generates: a small tagged expression tree standing for the .NET
 * expression trees the compiler builds, together with the few facts about
 * .NET types the compiler's decisions depend on.
 */
module Ir {

  datatype Option<+T> = None | Some(value: T)

  datatype Result<+T, +E> = Ok(value: T) | Err(error: E)

  /** The types the decisions look at: nullability, strings, enumerables, dictionaries. */
  datatype Type =
    | VoidType
    | BoolType
    | IntType
    | StringType
    | ObjectType
    | ValueType(name: string)            // a non-nullable struct
    | ClassType(name: string)            // a reference type other than the ones below
    | NullableOf(underlying: Type)       // Nullable<T>
    | ListOf(element: Type)              // an enumerable type
    | DictionaryOf(key: Type, value: Type) // Dictionary<TKey, TValue>
    | MappingDataType                    // the IMappingData interface

  /** Whether a value of this type can be null (reference types and Nullable<T>). */
  predicate CanBeNull(t: Type) {
    !(t.VoidType? || t.BoolType? || t.IntType? || t.ValueType?)
  }

  predicate IsNullableType(t: Type) {
    t.NullableOf?
  }

  /** Enumerable types; a string is not treated as one. */
  predicate IsEnumerable(t: Type) {
    t.ListOf? || t.DictionaryOf?
  }

  datatype Literal = NullLit | BoolLit(b: bool) | IntLit(i: int) | StringLit(s: string)

  /** Generated code. Statements and expressions share one tree, as in .NET expression trees. */
  datatype Expr =
    | Const(lit: Literal, ty: Type)
    | Param(name: string, ty: Type)                    // a parameter or block variable
    | MemberRead(subject: Option<Expr>, member: string, ty: Type)
    | Call(subject: Option<Expr>, methodName: string, declaringType: Type, args: seq<Expr>, ty: Type)
    | New(ctor: string, args: seq<Expr>, ty: Type)
    | Cond(test: Expr, ifTrue: Expr, ifFalse: Expr)
    | Coalesce(left: Expr, right: Expr)
    | NotEqual(left: Expr, right: Expr)
    | And(left: Expr, right: Expr)
    | Not(operand: Expr)
    | Assign(target: Expr, value: Expr)
    | IfThen(test: Expr, thenStmt: Expr)
    | IfThenElse(test: Expr, thenStmt: Expr, elseStmt: Expr)
    | Block(variables: seq<Expr>, body: seq<Expr>)
    | Loop(loopBody: Expr)
    | Break
    | Return(returned: Expr)
    | Empty

  const Null: Expr := Const(NullLit, ObjectType)

  /** `x != null` */
  function NotEqualNull(x: Expr): Expr {
    NotEqual(x, Null)
  }

  /** `y.HasValue`, a member read on a nullable value. */
  function HasValue(y: Expr): Expr {
    MemberRead(Some(y), "HasValue", BoolType)
  }

  /** The static type of a node, as .NET gives it. */
  function TypeOf(e: Expr): Type {
    match e
    case Const(_, t) => t
    case Param(_, t) => t
    case MemberRead(_, _, t) => t
    case Call(_, _, _, _, t) => t
    case New(_, _, t) => t
    case Cond(_, a, _) => TypeOf(a)
    case Coalesce(l, _) => TypeOf(l)
    case NotEqual(_, _) => BoolType
    case And(_, _) => BoolType
    case Not(_) => BoolType
    case Assign(t, _) => TypeOf(t)
    case _ => VoidType
  }

  /** Whether `e` is `root` itself or a chain of member reads and calls starting at `root`. */
  predicate RootedIn(e: Expr, root: Expr) {
    e == root ||
    match e
    case MemberRead(Some(s), _, _) => RootedIn(s, root)
    case Call(Some(s), _, _, _, _) => RootedIn(s, root)
    case _ => false
  }

  /** Left-nested conjunction of a non-empty list of tests, as `AndTogether` builds it. */
  function Conjunction(tests: seq<Expr>): (r: Expr)
    requires |tests| > 0
    decreases |tests|
  {
    if |tests| == 1 then tests[0] else And(Conjunction(tests[..|tests| - 1]), tests[|tests| - 1])
  }

  /** The truth of a test built from `And` and atomic tests whose truth `atom` gives. */
  predicate Holds(e: Expr, atom: Expr -> bool) {
    match e
    case And(l, r) => Holds(l, atom) && Holds(r, atom)
    case _ => atom(e)
  }

  lemma {:induction false} ConjunctionHolds(tests: seq<Expr>, atom: Expr -> bool)
    requires |tests| > 0
    ensures Holds(Conjunction(tests), atom) <==> forall i :: 0 <= i < |tests| ==> Holds(tests[i], atom)
    decreases |tests|
  {
    if |tests| > 1 {
      var front := tests[..|tests| - 1];
      ConjunctionHolds(front, atom);
      assert forall i :: 0 <= i < |front| ==> front[i] == tests[i];
    }
  }

  /**
   * The choice a tree of `Cond` nodes makes: the branch taken when the tests
   * whose truth `holds` gives are evaluated.
   */
  function Selected(e: Expr, holds: Expr -> bool): (r: Expr)
    ensures !r.Cond?
  {
    match e
    case Cond(c, a, b) => if holds(c) then Selected(a, holds) else Selected(b, holds)
    case _ => e
  }

  /**
   * The value a statement built from `Assign`, `IfThen`, `IfThenElse` and
   * `Block` assigns to `target`, the last assignment winning; None when it
   * leaves `target` alone.
   */
  function Assigned(s: Expr, target: Expr, holds: Expr -> bool): Option<Expr> {
    match s
    case Assign(t, v) => if t == target then Some(v) else None
    case IfThen(c, a) => if holds(c) then Assigned(a, target, holds) else None
    case IfThenElse(c, a, b) => if holds(c) then Assigned(a, target, holds) else Assigned(b, target, holds)
    case Block(_, body) => AssignedInSeq(body, target, holds)
    case _ => None
  }

  function AssignedInSeq(body: seq<Expr>, target: Expr, holds: Expr -> bool): Option<Expr>
    decreases body
  {
    if body == [] then None
    else
      var later := AssignedInSeq(body[1..], target, holds);
      if later.Some? then later else Assigned(body[0], target, holds)
  }

  /** An environment of variables; an absent variable holds null. */
  type Env = map<Expr, Expr>

  function Lookup(env: Env, x: Expr): Expr {
    if x in env then env[x] else Null
  }

  /**
   * Evaluation of variable reads, assignments and `??` over an environment.
   * Any other node stands for the value it produces (a constructed object,
   * a call's result) and evaluates to itself.
   */
  function Eval(e: Expr, env: Env): (Expr, Env) {
    match e
    case Param(_, _) => (Lookup(env, e), env)
    case Assign(x, v) =>
      var (val, env1) := Eval(v, env);
      (val, env1[x := val])
    case Coalesce(l, r) =>
      var (lv, env1) := Eval(l, env);
      if lv == Null then Eval(r, env1) else (lv, env1)
    case _ => (e, env)
  }
}
