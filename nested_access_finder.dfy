/**
 * The nested-access finder: a visitor over a generated expression that
 * records which member accesses and calls below the mapping-data object need
 * a null guard, skipping accesses already null-checked in the expression,
 * duplicates and the root accessors (AgileMapper/Members/NestedAccessFinder.cs).
 */
module NestedAccess {
  import opened Ir

  /** What the visitor is given: the mapping-data object, the rendering of nodes, and whether the target may be null. */
  datatype Scope = Scope(mappingDataObject: Expr, render: Expr -> string, includeTargetNullChecking: bool)

  /** The visitor's accumulators; `paths` and `accesses` together are the path-keyed dictionary, in insertion order. */
  datatype Accumulators = Accumulators(
    stringMemberAccessSubjects: seq<Expr>,
    nullCheckSubjects: seq<string>,
    paths: seq<string>,
    accesses: seq<Expr>)

  const Cleared := Accumulators([], [], [], [])

  // ---------------------------------------------------------------------------
  // The decisions

  /** `IsNotRootObject(MemberExpression)`: the root accessors of the mapping-data object are not guarded. */
  predicate IsNotRootMember(sc: Scope, m: Expr)
    requires m.MemberRead?
  {
    if m.member == "Parent" then !RootedIn(m, sc.mappingDataObject)
    else if m.subject != Some(sc.mappingDataObject) then true
    else if m.member == "EnumerableIndex" then false
    else if m.member == "Source" then false
    else sc.includeTargetNullChecking || m.member != "Target"
  }

  /** `IsNotRootObject(Expression)`: only member accesses can be root objects. */
  predicate IsNotRootObject(sc: Scope, e: Expr) {
    !e.MemberRead? || IsNotRootMember(sc, e)
  }

  /** `ShouldAddNullCheck`: not yet checked, a string only as a registered subject, new, nullable and rooted. */
  predicate ShouldAddNullCheck(sc: Scope, acc: Accumulators, e: Expr) {
    sc.render(e) !in acc.nullCheckSubjects &&
    (TypeOf(e) != StringType || e in acc.stringMemberAccessSubjects) &&
    sc.render(e) !in acc.paths &&
    CanBeNull(TypeOf(e)) &&
    RootedIn(e, sc.mappingDataObject)
  }

  function MarkChecked(sc: Scope, acc: Accumulators, e: Expr): Accumulators {
    acc.(nullCheckSubjects := acc.nullCheckSubjects + [sc.render(e)])
  }

  /** `AddStringMemberAccessSubjectIfAppropriate` */
  function AddStringSubject(sc: Scope, acc: Accumulators, member: Option<Expr>): Accumulators {
    if member.Some? && TypeOf(member.value) == StringType && IsNotRootObject(sc, member.value) then
      acc.(stringMemberAccessSubjects := acc.stringMemberAccessSubjects + [member.value])
    else acc
  }

  /** `AddMemberAccessIfAppropriate` */
  function AddMemberAccess(sc: Scope, acc: Accumulators, e: Expr): Accumulators {
    if ShouldAddNullCheck(sc, acc, e) then
      acc.(paths := acc.paths + [sc.render(e)], accesses := acc.accesses + [e])
    else acc
  }

  /** What `VisitBinary` does before visiting the operands: `left != null` marks `left` as checked. */
  function BinaryStep(sc: Scope, acc: Accumulators, e: Expr): Accumulators {
    if e.NotEqual? && e.right.Const? && e.right.lit.NullLit? && ShouldAddNullCheck(sc, acc, e.left) then
      MarkChecked(sc, acc, e.left)
    else acc
  }

  /** What `VisitMember` does before visiting the member's subject. */
  function MemberStep(sc: Scope, acc: Accumulators, m: Expr): Accumulators
    requires m.MemberRead?
  {
    if IsNotRootMember(sc, m) then
      var acc1 :=
        if m.subject.Some? && m.member == "HasValue" && IsNullableType(TypeOf(m.subject.value))
        then MarkChecked(sc, acc, m.subject.value)
        else acc;
      AddMemberAccess(sc, AddStringSubject(sc, acc1, m.subject), m)
    else acc
  }

  /** What `VisitMethodCall` does before visiting the call's object and arguments. */
  function CallStep(sc: Scope, acc: Accumulators, c: Expr): Accumulators
    requires c.Call?
  {
    if c.subject != Some(sc.mappingDataObject) && c.declaringType != MappingDataType then
      AddMemberAccess(sc, AddStringSubject(sc, acc, c.subject), c)
    else acc
  }

  predicate IsBinary(e: Expr) {
    e.NotEqual? || e.Coalesce? || e.And? || e.Assign?
  }

  function Operands(e: Expr): (r: (Expr, Expr))
    requires IsBinary(e)
    ensures r.0 < e && r.1 < e
  {
    if e.Assign? then (e.target, e.value) else (e.left, e.right)
  }

  /**
   * The whole visit: each node's own step, then its children in the order
   * the expression visitor visits them.
   */
  function Scan(sc: Scope, acc: Accumulators, e: Expr): Accumulators
    decreases e
  {
    match e
    case MemberRead(subject, _, _) =>
      var acc1 := MemberStep(sc, acc, e);
      if subject.Some? then Scan(sc, acc1, subject.value) else acc1
    case Call(subject, _, _, args, _) =>
      var acc1 := CallStep(sc, acc, e);
      var acc2 := if subject.Some? then Scan(sc, acc1, subject.value) else acc1;
      ScanAll(sc, acc2, args)
    case NotEqual(l, r) => Scan(sc, Scan(sc, BinaryStep(sc, acc, e), l), r)
    case Coalesce(l, r) => Scan(sc, Scan(sc, acc, l), r)
    case And(l, r) => Scan(sc, Scan(sc, acc, l), r)
    case Assign(t, v) => Scan(sc, Scan(sc, acc, t), v)
    case Cond(c, a, b) => Scan(sc, Scan(sc, Scan(sc, acc, c), a), b)
    case IfThen(c, a) => Scan(sc, Scan(sc, acc, c), a)
    case IfThenElse(c, a, b) => Scan(sc, Scan(sc, Scan(sc, acc, c), a), b)
    case Not(o) => Scan(sc, acc, o)
    case Loop(b) => Scan(sc, acc, b)
    case Return(v) => Scan(sc, acc, v)
    case New(_, args, _) => ScanAll(sc, acc, args)
    case Block(_, body) => ScanAll(sc, acc, body)
    case _ => acc
  }

  function ScanAll(sc: Scope, acc: Accumulators, es: seq<Expr>): Accumulators
    decreases es
  {
    if es == [] then acc else Scan(sc, ScanAll(sc, acc, es[..|es| - 1]), es[|es| - 1])
  }

  function Reversed(s: seq<Expr>): (r: seq<Expr>)
    ensures |r| == |s|
    ensures forall i :: 0 <= i < |s| ==> r[i] == s[|s| - 1 - i]
  {
    if s == [] then [] else [s[|s| - 1]] + Reversed(s[..|s| - 1])
  }

  /** What `FindIn` returns: the recorded accesses of a visit from cleared accumulators, last recorded first. */
  function FindResult(sc: Scope, e: Expr): seq<Expr> {
    Reversed(Scan(sc, Cleared, e).accesses)
  }

  // ---------------------------------------------------------------------------
  // What a visit preserves

  /** The path-keyed dictionary: each path renders its access, and no path occurs twice. */
  ghost predicate WellFormed(sc: Scope, acc: Accumulators) {
    |acc.paths| == |acc.accesses| &&
    (forall i :: 0 <= i < |acc.accesses| ==> acc.paths[i] == sc.render(acc.accesses[i])) &&
    (forall i, j :: 0 <= i < j < |acc.paths| ==> acc.paths[i] != acc.paths[j])
  }

  /**
   * Why an access recorded between `before` and `after` was recorded: a
   * non-root member access, or a call neither on the mapping-data object nor
   * declared by `IMappingData`; nullable; rooted in the mapping-data object;
   * a string only when registered as a subject; not null-checked before.
   */
  ghost predicate Eligible(sc: Scope, before: Accumulators, after: Accumulators, a: Expr) {
    ((a.MemberRead? && IsNotRootMember(sc, a)) ||
     (a.Call? && a.subject != Some(sc.mappingDataObject) && a.declaringType != MappingDataType)) &&
    CanBeNull(TypeOf(a)) &&
    RootedIn(a, sc.mappingDataObject) &&
    (TypeOf(a) == StringType ==> a in after.stringMemberAccessSubjects) &&
    sc.render(a) !in before.nullCheckSubjects
  }

  /** Accumulators only grow, keep the dictionary well formed, and every new access is eligible. */
  ghost predicate Extends(sc: Scope, before: Accumulators, after: Accumulators) {
    before.stringMemberAccessSubjects <= after.stringMemberAccessSubjects &&
    before.nullCheckSubjects <= after.nullCheckSubjects &&
    before.paths <= after.paths &&
    before.accesses <= after.accesses &&
    (WellFormed(sc, before) ==> WellFormed(sc, after)) &&
    forall i :: |before.accesses| <= i < |after.accesses| ==> Eligible(sc, before, after, after.accesses[i])
  }

  lemma ExtendsTransitive(sc: Scope, a: Accumulators, b: Accumulators, c: Accumulators)
    requires Extends(sc, a, b) && Extends(sc, b, c)
    ensures Extends(sc, a, c)
  {
    forall i | |a.accesses| <= i < |c.accesses|
      ensures Eligible(sc, a, c, c.accesses[i])
    {
      if i < |b.accesses| {
        assert c.accesses[i] == b.accesses[i];
        assert Eligible(sc, a, b, b.accesses[i]);
      } else {
        assert Eligible(sc, b, c, c.accesses[i]);
      }
    }
  }

  lemma AddMemberAccessExtends(sc: Scope, acc: Accumulators, e: Expr)
    requires (e.MemberRead? && IsNotRootMember(sc, e)) ||
             (e.Call? && e.subject != Some(sc.mappingDataObject) && e.declaringType != MappingDataType)
    ensures Extends(sc, acc, AddMemberAccess(sc, acc, e))
  {
    var r := AddMemberAccess(sc, acc, e);
    if ShouldAddNullCheck(sc, acc, e) && WellFormed(sc, acc) {
      assert forall i :: 0 <= i < |acc.paths| ==> r.paths[i] == acc.paths[i];
      assert r.paths[|acc.paths|] == sc.render(e);
    }
  }

  lemma {:induction false} ScanExtends(sc: Scope, acc: Accumulators, e: Expr)
    ensures Extends(sc, acc, Scan(sc, acc, e))
    decreases e, 2
  {
    match e
    case MemberRead(_, _, _) => MemberReadExtends(sc, acc, e);
    case Call(_, _, _, _, _) => CallExtends(sc, acc, e);
    case NotEqual(l, r) =>
      var acc1 := BinaryStep(sc, acc, e);
      ScanExtends(sc, acc1, l);
      ExtendsTransitive(sc, acc, acc1, Scan(sc, acc1, l));
      ScanPairExtends(sc, acc, Scan(sc, acc1, l), r);
    case Coalesce(l, r) =>
      ScanExtends(sc, acc, l);
      ScanPairExtends(sc, acc, Scan(sc, acc, l), r);
    case And(l, r) =>
      ScanExtends(sc, acc, l);
      ScanPairExtends(sc, acc, Scan(sc, acc, l), r);
    case Assign(t, v) =>
      ScanExtends(sc, acc, t);
      ScanPairExtends(sc, acc, Scan(sc, acc, t), v);
    case Cond(c, a, b) =>
      ScanExtends(sc, acc, c);
      ScanPairExtends(sc, acc, Scan(sc, acc, c), a);
      ScanPairExtends(sc, acc, Scan(sc, Scan(sc, acc, c), a), b);
    case IfThen(c, a) =>
      ScanExtends(sc, acc, c);
      ScanPairExtends(sc, acc, Scan(sc, acc, c), a);
    case IfThenElse(c, a, b) =>
      ScanExtends(sc, acc, c);
      ScanPairExtends(sc, acc, Scan(sc, acc, c), a);
      ScanPairExtends(sc, acc, Scan(sc, Scan(sc, acc, c), a), b);
    case Not(o) => ScanExtends(sc, acc, o);
    case Loop(b) => ScanExtends(sc, acc, b);
    case Return(v) => ScanExtends(sc, acc, v);
    case New(_, args, _) => ScanAllExtends(sc, acc, args);
    case Block(_, body) => ScanAllExtends(sc, acc, body);
    case _ =>
  }

  lemma {:induction false} MemberReadExtends(sc: Scope, acc: Accumulators, e: Expr)
    requires e.MemberRead?
    ensures Extends(sc, acc, Scan(sc, acc, e))
    decreases e, 1
  {
    var subject := e.subject;
    var acc0 := if subject.Some? && e.member == "HasValue" && IsNullableType(TypeOf(subject.value))
                then MarkChecked(sc, acc, subject.value) else acc;
    var acc1 := MemberStep(sc, acc, e);
    if IsNotRootMember(sc, e) {
      AddMemberAccessExtends(sc, AddStringSubject(sc, acc0, subject), e);
      ExtendsTransitive(sc, acc, AddStringSubject(sc, acc0, subject), acc1);
    }
    if subject.Some? {
      ScanPairExtends(sc, acc, acc1, subject.value);
    }
  }

  lemma {:induction false} CallExtends(sc: Scope, acc: Accumulators, e: Expr)
    requires e.Call?
    ensures Extends(sc, acc, Scan(sc, acc, e))
    decreases e, 1
  {
    var subject := e.subject;
    var acc1 := CallStep(sc, acc, e);
    if subject != Some(sc.mappingDataObject) && e.declaringType != MappingDataType {
      AddMemberAccessExtends(sc, AddStringSubject(sc, acc, subject), e);
      ExtendsTransitive(sc, acc, AddStringSubject(sc, acc, subject), acc1);
    }
    var acc2 := if subject.Some? then Scan(sc, acc1, subject.value) else acc1;
    if subject.Some? {
      ScanPairExtends(sc, acc, acc1, subject.value);
    }
    ScanAllExtends(sc, acc2, e.args);
    ExtendsTransitive(sc, acc, acc2, ScanAll(sc, acc2, e.args));
  }

  /** One more visit after a stretch that already extends `start`. */
  lemma {:induction false} ScanPairExtends(sc: Scope, start: Accumulators, mid: Accumulators, e: Expr)
    requires Extends(sc, start, mid)
    ensures Extends(sc, start, Scan(sc, mid, e))
    decreases e, 3
  {
    ScanExtends(sc, mid, e);
    ExtendsTransitive(sc, start, mid, Scan(sc, mid, e));
  }

  lemma {:induction false} ScanAllExtends(sc: Scope, acc: Accumulators, es: seq<Expr>)
    ensures Extends(sc, acc, ScanAll(sc, acc, es))
    decreases es, 0
  {
    if es != [] {
      var front := ScanAll(sc, acc, es[..|es| - 1]);
      ScanAllExtends(sc, acc, es[..|es| - 1]);
      ScanExtends(sc, front, es[|es| - 1]);
      ExtendsTransitive(sc, acc, front, Scan(sc, front, es[|es| - 1]));
    }
  }

  // ---------------------------------------------------------------------------
  // What `FindIn` promises

  /** The result never holds two accesses with the same rendered path. */
  lemma FindResultDistinct(sc: Scope, e: Expr)
    ensures forall i, j :: 0 <= i < j < |FindResult(sc, e)| ==>
      sc.render(FindResult(sc, e)[i]) != sc.render(FindResult(sc, e)[j])
  {
    ScanExtends(sc, Cleared, e);
    var acc := Scan(sc, Cleared, e);
    var r := FindResult(sc, e);
    forall i, j | 0 <= i < j < |r| ensures sc.render(r[i]) != sc.render(r[j]) {
      assert r[i] == acc.accesses[|r| - 1 - i] && r[j] == acc.accesses[|r| - 1 - j];
      assert acc.paths[|r| - 1 - j] != acc.paths[|r| - 1 - i];
    }
  }

  /**
   * Every access in the result is nullable, rooted in the mapping-data
   * object, a non-root member access or a call that is neither on the
   * mapping-data object nor declared by `IMappingData`, and a string only
   * when registered as the subject of a further access.
   */
  lemma FindResultEligible(sc: Scope, e: Expr, a: Expr)
    requires a in FindResult(sc, e)
    ensures CanBeNull(TypeOf(a)) && RootedIn(a, sc.mappingDataObject)
    ensures a.MemberRead? ==> IsNotRootMember(sc, a)
    ensures a.Call? ==> a.subject != Some(sc.mappingDataObject) && a.declaringType != MappingDataType
    ensures a.MemberRead? || a.Call?
    ensures TypeOf(a) == StringType ==> a in Scan(sc, Cleared, e).stringMemberAccessSubjects
  {
    ScanExtends(sc, Cleared, e);
    var acc := Scan(sc, Cleared, e);
    var r := FindResult(sc, e);
    var i :| 0 <= i < |r| && r[i] == a;
    assert a == acc.accesses[|r| - 1 - i];
    assert Eligible(sc, Cleared, acc, acc.accesses[|r| - 1 - i]);
  }

  /** The root accessors `Source` and `EnumerableIndex` are never guarded; `Target` only when it may be null. */
  lemma RootAccessorsNotGuarded(sc: Scope, e: Expr, t: Type)
    ensures MemberRead(Some(sc.mappingDataObject), "Source", t) !in FindResult(sc, e)
    ensures MemberRead(Some(sc.mappingDataObject), "EnumerableIndex", t) !in FindResult(sc, e)
    ensures !sc.includeTargetNullChecking ==> MemberRead(Some(sc.mappingDataObject), "Target", t) !in FindResult(sc, e)
  {
    var mdo := sc.mappingDataObject;
    if MemberRead(Some(mdo), "Source", t) in FindResult(sc, e) {
      FindResultEligible(sc, e, MemberRead(Some(mdo), "Source", t));
    }
    if MemberRead(Some(mdo), "EnumerableIndex", t) in FindResult(sc, e) {
      FindResultEligible(sc, e, MemberRead(Some(mdo), "EnumerableIndex", t));
    }
    if !sc.includeTargetNullChecking && MemberRead(Some(mdo), "Target", t) in FindResult(sc, e) {
      FindResultEligible(sc, e, MemberRead(Some(mdo), "Target", t));
    }
  }

  /**
   * A `Parent` access is never guarded: it counts as a root object unless it
   * is not rooted in the mapping-data object, and only rooted accesses are
   * recorded.
   */
  lemma ParentNeverGuarded(sc: Scope, e: Expr, p: Expr)
    requires p.MemberRead? && p.member == "Parent"
    ensures p !in FindResult(sc, e)
  {
    if p in FindResult(sc, e) {
      FindResultEligible(sc, e, p);
      assert false;
    }
  }

  /**
   * Visiting `x != null` marks `x` as checked when it was eligible, and from
   * then on no access rendered as `x` is recorded: neither `x` itself nor
   * anything visited later.
   */
  lemma NotNullComparisonMarks(sc: Scope, acc: Accumulators, x: Expr, t: Type, later: Expr)
    requires ShouldAddNullCheck(sc, acc, x)
    ensures var afterTest := Scan(sc, acc, NotEqual(x, Const(NullLit, t)));
      sc.render(x) in afterTest.nullCheckSubjects &&
      var r := Scan(sc, afterTest, later);
      forall i :: |acc.accesses| <= i < |r.accesses| ==> sc.render(r.accesses[i]) != sc.render(x)
  {
    var test := NotEqual(x, Const(NullLit, t));
    var marked := BinaryStep(sc, acc, test);
    assert marked == MarkChecked(sc, acc, x);
    assert sc.render(x) in marked.nullCheckSubjects;
    var afterTest := Scan(sc, acc, test);
    ScanExtends(sc, marked, x);
    ScanPairExtends(sc, marked, Scan(sc, marked, x), Const(NullLit, t));
    ScanPairExtends(sc, marked, afterTest, later);
    var r := Scan(sc, afterTest, later);
    assert acc.accesses == marked.accesses;
    forall i | |acc.accesses| <= i < |r.accesses| ensures sc.render(r.accesses[i]) != sc.render(x) {
      assert Eligible(sc, marked, r, r.accesses[i]);
    }
  }

  /** `y.HasValue` on a nullable `y` marks `y` as checked, so `y` is not recorded while visiting it. */
  lemma HasValueMarks(sc: Scope, acc: Accumulators, y: Expr)
    requires IsNullableType(TypeOf(y)) && y != sc.mappingDataObject
    ensures var r := Scan(sc, acc, HasValue(y));
      sc.render(y) in r.nullCheckSubjects &&
      forall i :: |acc.accesses| <= i < |r.accesses| ==> sc.render(r.accesses[i]) != sc.render(y)
  {
    var m := HasValue(y);
    assert IsNotRootMember(sc, m);
    var marked := MarkChecked(sc, acc, y);
    var step := MemberStep(sc, acc, m);
    assert !CanBeNull(TypeOf(m));
    assert step == AddStringSubject(sc, marked, Some(y));
    assert sc.render(y) in step.nullCheckSubjects;
    ScanExtends(sc, step, y);
    var r := Scan(sc, acc, m);
    assert r == Scan(sc, step, y);
    forall i | |acc.accesses| <= i < |r.accesses| ensures sc.render(r.accesses[i]) != sc.render(y) {
      assert Eligible(sc, step, r, r.accesses[i]);
    }
  }

  /**
   * Recording order: for `Target.Customer.Address` each node is recorded
   * before its subject is visited, so the result, reversed, lists the inner
   * accesses first; `Target` itself only when the target may be null.
   */
  lemma InnerAccessesFirst(render: Expr -> string, includeTarget: bool)
    requires var mdo := Param("data", MappingDataType);
      var target := MemberRead(Some(mdo), "Target", ClassType("Order"));
      var customer := MemberRead(Some(target), "Customer", ClassType("Customer"));
      var address := MemberRead(Some(customer), "Address", ClassType("Address"));
      render(target) != render(customer) && render(target) != render(address) && render(customer) != render(address)
    ensures var mdo := Param("data", MappingDataType);
      var target := MemberRead(Some(mdo), "Target", ClassType("Order"));
      var customer := MemberRead(Some(target), "Customer", ClassType("Customer"));
      var address := MemberRead(Some(customer), "Address", ClassType("Address"));
      FindResult(Scope(mdo, render, includeTarget), address) ==
        if includeTarget then [target, customer, address] else [customer, address]
  {
    var mdo := Param("data", MappingDataType);
    var sc := Scope(mdo, render, includeTarget);
    var target := MemberRead(Some(mdo), "Target", ClassType("Order"));
    var customer := MemberRead(Some(target), "Customer", ClassType("Customer"));
    var address := MemberRead(Some(customer), "Address", ClassType("Address"));
    assert RootedIn(target, mdo) && RootedIn(customer, mdo) && RootedIn(address, mdo);
    var s1 := Accumulators([], [], [render(address)], [address]);
    assert MemberStep(sc, Cleared, address) == s1;
    var s2 := Accumulators([], [], [render(address), render(customer)], [address, customer]);
    assert MemberStep(sc, s1, customer) == s2;
    var s3 := if includeTarget then Accumulators([], [], s2.paths + [render(target)], s2.accesses + [target]) else s2;
    assert MemberStep(sc, s2, target) == s3;
    assert Scan(sc, s3, mdo) == s3;
    assert Scan(sc, Cleared, address) == s3;
  }

  // ---------------------------------------------------------------------------
  // The visitor object

  class NestedAccessFinder {
    const mappingDataObject: Expr
    const render: Expr -> string
    var stringMemberAccessSubjects: seq<Expr>
    var nullCheckSubjects: seq<string>
    var paths: seq<string>
    var accesses: seq<Expr>
    var includeTargetNullChecking: bool

    function Current(): Accumulators
      reads this
    {
      Accumulators(stringMemberAccessSubjects, nullCheckSubjects, paths, accesses)
    }

    function CurrentScope(): Scope
      reads this
    {
      Scope(mappingDataObject, render, includeTargetNullChecking)
    }

    /** Between two calls of `FindIn` the accumulators are empty. */
    predicate Idle()
      reads this
    {
      Current() == Cleared
    }

    constructor(mappingDataObject: Expr, render: Expr -> string)
      ensures this.mappingDataObject == mappingDataObject && this.render == render
      ensures Idle()
    {
      this.mappingDataObject := mappingDataObject;
      this.render := render;
      stringMemberAccessSubjects := [];
      nullCheckSubjects := [];
      paths := [];
      accesses := [];
      includeTargetNullChecking := false;
    }

    /**
     * Visits `expression` with the target null-checking flag set, returns the
     * recorded accesses last-recorded first, and clears the accumulators, so
     * that the result depends only on the arguments.
     */
    method FindIn(expression: Expr, targetCanBeNull: bool) returns (memberAccesses: seq<Expr>)
      requires Idle()
      modifies this
      ensures memberAccesses == FindResult(Scope(mappingDataObject, render, targetCanBeNull), expression)
      ensures Idle() && includeTargetNullChecking == targetCanBeNull
    {
      includeTargetNullChecking := targetCanBeNull;
      Visit(expression);
      memberAccesses := Reversed(accesses);
      stringMemberAccessSubjects := [];
      nullCheckSubjects := [];
      paths := [];
      accesses := [];
    }

    method Visit(e: Expr)
      modifies this
      ensures includeTargetNullChecking == old(includeTargetNullChecking)
      ensures Current() == Scan(CurrentScope(), old(Current()), e)
      decreases e, 1
    {
      match e
      case MemberRead(_, _, _) => VisitMember(e);
      case Call(_, _, _, _, _) => VisitMethodCall(e);
      case NotEqual(_, _) => VisitBinary(e);
      case Coalesce(_, _) => VisitBinary(e);
      case And(_, _) => VisitBinary(e);
      case Assign(_, _) => VisitBinary(e);
      case Cond(c, a, b) => Visit(c); Visit(a); Visit(b);
      case IfThen(c, a) => Visit(c); Visit(a);
      case IfThenElse(c, a, b) => Visit(c); Visit(a); Visit(b);
      case Not(o) => Visit(o);
      case Loop(b) => Visit(b);
      case Return(v) => Visit(v);
      case New(_, args, _) => VisitAll(args);
      case Block(_, body) => VisitAll(body);
      case Const(_, _) =>
      case Param(_, _) =>
      case Break =>
      case Empty =>
    }

    method VisitAll(es: seq<Expr>)
      modifies this
      ensures includeTargetNullChecking == old(includeTargetNullChecking)
      ensures Current() == ScanAll(CurrentScope(), old(Current()), es)
      decreases es, 1
    {
      ghost var start := Current();
      for i := 0 to |es|
        invariant includeTargetNullChecking == old(includeTargetNullChecking)
        invariant Current() == ScanAll(CurrentScope(), start, es[..i])
      {
        assert es[..i + 1][..i] == es[..i];
        Visit(es[i]);
      }
      assert es[..|es|] == es;
    }

    method VisitBinary(binary: Expr)
      requires IsBinary(binary)
      modifies this
      ensures includeTargetNullChecking == old(includeTargetNullChecking)
      ensures Current() == Scan(CurrentScope(), old(Current()), binary)
      decreases binary, 0
    {
      if binary.NotEqual? && binary.right.Const? && binary.right.lit.NullLit? &&
         ShouldAddNullCheck(CurrentScope(), Current(), binary.left) {
        nullCheckSubjects := nullCheckSubjects + [render(binary.left)];
      }
      var (l, r) := Operands(binary);
      Visit(l);
      Visit(r);
    }

    method VisitMember(memberAccess: Expr)
      requires memberAccess.MemberRead?
      modifies this
      ensures includeTargetNullChecking == old(includeTargetNullChecking)
      ensures Current() == Scan(CurrentScope(), old(Current()), memberAccess)
      decreases memberAccess, 0
    {
      if IsNotRootMember(CurrentScope(), memberAccess) {
        var subject := memberAccess.subject;
        if subject.Some? && memberAccess.member == "HasValue" && IsNullableType(TypeOf(subject.value)) {
          nullCheckSubjects := nullCheckSubjects + [render(subject.value)];
        }
        AddStringMemberAccessSubjectIfAppropriate(subject);
        AddMemberAccessIfAppropriate(memberAccess);
      }
      if memberAccess.subject.Some? {
        Visit(memberAccess.subject.value);
      }
    }

    method VisitMethodCall(methodCall: Expr)
      requires methodCall.Call?
      modifies this
      ensures includeTargetNullChecking == old(includeTargetNullChecking)
      ensures Current() == Scan(CurrentScope(), old(Current()), methodCall)
      decreases methodCall, 0
    {
      if methodCall.subject != Some(mappingDataObject) && methodCall.declaringType != MappingDataType {
        AddStringMemberAccessSubjectIfAppropriate(methodCall.subject);
        AddMemberAccessIfAppropriate(methodCall);
      }
      if methodCall.subject.Some? {
        Visit(methodCall.subject.value);
      }
      VisitAll(methodCall.args);
    }

    method AddStringMemberAccessSubjectIfAppropriate(member: Option<Expr>)
      modifies this
      ensures includeTargetNullChecking == old(includeTargetNullChecking)
      ensures Current() == AddStringSubject(CurrentScope(), old(Current()), member)
    {
      if member.Some? && TypeOf(member.value) == StringType && IsNotRootObject(CurrentScope(), member.value) {
        stringMemberAccessSubjects := stringMemberAccessSubjects + [member.value];
      }
    }

    method AddMemberAccessIfAppropriate(memberAccess: Expr)
      modifies this
      ensures includeTargetNullChecking == old(includeTargetNullChecking)
      ensures Current() == AddMemberAccess(CurrentScope(), old(Current()), memberAccess)
    {
      if ShouldAddNullCheck(CurrentScope(), Current(), memberAccess) {
        paths := paths + [render(memberAccess)];
        accesses := accesses + [memberAccess];
      }
    }
  }
}
