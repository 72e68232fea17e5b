/**
 * The construction plan of a complex target type: which configured
 * factories and which constructor build the instance, the conditional
 * cascade between them, the short-circuit returns, the resolution of an
 * existing target, and the member populations with their callbacks
 * (AgileMapper/ObjectPopulation/ComplexTypeMappingLambdaFactory.cs).
 */
module ConstructionPlan {
  import opened Ir
  import opened DataSourceSets
  import opened PlanCache

  /** A configured object factory: its creation expression and its condition, null when it has none. */
  datatype ConfiguredFactory = ConfiguredFactory(creation: Expr, condition: Option<Expr>)

  /** One candidate way of creating the instance: an expression, and a condition unless it is the default. */
  datatype Construction = Construction(expression: Expr, condition: Option<Expr>)

  /** A public instance constructor and the data sources found for each of its parameters, in order. */
  datatype ConstructorInfo = ConstructorInfo(name: string, argumentDataSources: seq<DataSourceSet>)

  datatype ConstructorData = ConstructorData(canBeConstructed: bool, numberOfParameters: nat, construction: Option<Construction>)

  /** A population of one target member, with the callbacks configured around it (`Empty` when none). */
  datatype MemberPopulation = MemberPopulation(isSuccessful: bool, population: Expr, preCallback: Expr, postCallback: Expr)

  /** What the lambda factory sees of one object mapping, its collaborators included. */
  datatype ObjectMappingContext = ObjectMappingContext(
    sourceSignature: string,
    targetSignature: string,
    targetIsEnumerable: bool,                      // TargetMember.IsEnumerable
    ruleSetName: string,
    instanceType: Type,                            // the type of the instance variable
    configuredFactories: seq<ConfiguredFactory>,   // UserConfigurations.GetObjectFactories, in order
    constructors: seq<ConstructorInfo>,            // GetConstructors, each with FindFor per parameter
    valueOf: DataSourceSet -> Expr,                // the value expression of a parameter's data sources
    matchingSourceMemberValue: Option<Expr>,       // GetSourceMemberDataSourceOrNull(omc)?.Value
    sourceObject: Expr,
    shortCircuitConditions: Expr -> seq<Expr>,     // the rule set's short-circuit strategy
    variableName: Type -> string,                  // GetVariableName in Pascal case
    tryGetCall: Option<Expr> -> Expr,              // omc.GetTryGetCall
    instanceVariable: Expr,
    targetObject: Expr,
    createdObject: Expr,
    objectRegistrationCall: Expr,
    memberPopulations: seq<MemberPopulation>)      // MemberPopulationFactory.Create, in order

  // ---------------------------------------------------------------------------
  // Constructors

  /** `ConstructorData`: usable exactly when every parameter's data sources have a value. */
  function NewConstructorData(ctor: ConstructorInfo, instanceType: Type, valueOf: DataSourceSet -> Expr): (r: ConstructorData)
    ensures r.canBeConstructed <==> forall i :: 0 <= i < |ctor.argumentDataSources| ==> ctor.argumentDataSources[i].hasValue
    ensures r.numberOfParameters == |ctor.argumentDataSources|
    ensures r.construction.Some? <==> r.canBeConstructed
    ensures r.construction.Some? ==> r.construction.value.condition.None?
    ensures r.construction.Some? ==> r.construction.value.expression.New?
    ensures r.construction.Some? ==> |r.construction.value.expression.args| == r.numberOfParameters
  {
    var args := ctor.argumentDataSources;
    var canBeConstructed := forall i :: 0 <= i < |args| ==> args[i].hasValue;
    ConstructorData(
      canBeConstructed,
      |args|,
      if canBeConstructed
      then Some(Construction(New(ctor.name, seq(|args|, i requires 0 <= i < |args| => valueOf(args[i])), instanceType), None))
      else None)
  }

  function ConstructorDatas(ctx: ObjectMappingContext): (r: seq<ConstructorData>)
    ensures |r| == |ctx.constructors|
    ensures forall i :: 0 <= i < |r| ==> r[i] == NewConstructorData(ctx.constructors[i], ctx.instanceType, ctx.valueOf)
  {
    seq(|ctx.constructors|, i requires 0 <= i < |ctx.constructors| =>
      NewConstructorData(ctx.constructors[i], ctx.instanceType, ctx.valueOf))
  }

  /**
   * `.Where(CanBeConstructed).OrderByDescending(NumberOfParameters).FirstOrDefault()`:
   * the index of a usable constructor with the most parameters, the first
   * such in enumeration order (the ordering is stable); None when none is usable.
   */
  function Greediest(cds: seq<ConstructorData>): (r: Option<nat>)
    ensures r.None? <==> forall i :: 0 <= i < |cds| ==> !cds[i].canBeConstructed
    ensures r.Some? ==> r.value < |cds| && cds[r.value].canBeConstructed
    ensures r.Some? ==> forall i :: 0 <= i < |cds| && cds[i].canBeConstructed ==>
                          cds[i].numberOfParameters <= cds[r.value].numberOfParameters
    ensures r.Some? ==> forall i :: 0 <= i < r.value && cds[i].canBeConstructed ==>
                          cds[i].numberOfParameters < cds[r.value].numberOfParameters
  {
    if cds == [] then None
    else
      var rest := Greediest(cds[1..]);
      assert forall i :: 1 <= i < |cds| ==> cds[i] == cds[1..][i - 1];
      if !cds[0].canBeConstructed then
        if rest.None? then None else Some(rest.value + 1)
      else if rest.Some? && cds[rest.value + 1].numberOfParameters > cds[0].numberOfParameters then
        Some(rest.value + 1)
      else Some(0)
  }

  // ---------------------------------------------------------------------------
  // The list of constructions and the cascade

  predicate AllConditional(fs: seq<ConfiguredFactory>) {
    forall j :: 0 <= j < |fs| ==> fs[j].condition.Some?
  }

  /**
   * How many configured factories the loop takes: all of them, or those up
   * to and including the first unconditional one.
   */
  function TakenCount(fs: seq<ConfiguredFactory>): (r: nat)
    ensures r <= |fs|
    ensures forall j :: 0 <= j < r - 1 ==> fs[j].condition.Some?
    ensures r == |fs| || (r >= 1 && fs[r - 1].condition.None?)
    ensures AllConditional(fs) ==> r == |fs|
    ensures |fs| > 0 ==> r >= 1
  {
    if fs == [] then 0
    else if fs[0].condition.None? then 1
    else
      var r := 1 + TakenCount(fs[1..]);
      assert forall j :: 1 <= j < |fs| ==> fs[j] == fs[1..][j - 1];
      r
  }

  function FactoryConstruction(f: ConfiguredFactory): Construction {
    Construction(f.creation, f.condition)
  }

  /** The first `n` factories, each inserted at the front in turn: the last of them first. */
  function InsertedAtFront(fs: seq<ConfiguredFactory>, n: nat): (cs: seq<Construction>)
    requires n <= |fs|
    ensures |cs| == n
    ensures forall j :: 0 <= j < n ==> cs[j] == FactoryConstruction(fs[n - 1 - j])
  {
    seq(n, j requires 0 <= j < n => FactoryConstruction(fs[n - 1 - j]))
  }

  lemma InsertNext(fs: seq<ConfiguredFactory>, i: nat)
    requires i < |fs|
    ensures [FactoryConstruction(fs[i])] + InsertedAtFront(fs, i) == InsertedAtFront(fs, i + 1)
  {
  }

  /**
   * The list `GetNewObjectCreation` builds: the factories taken, each
   * inserted at the front, so the last taken comes first; then, only when
   * every factory is conditional, the greediest usable constructor at the
   * front. Every element but the head carries a condition.
   */
  function Constructions(ctx: ObjectMappingContext): (cs: seq<Construction>)
    ensures forall i :: 1 <= i < |cs| ==> cs[i].condition.Some?
  {
    var fs := ctx.configuredFactories;
    var n := TakenCount(fs);
    var configured := InsertedAtFront(fs, n);
    var cds := ConstructorDatas(ctx);
    var g := Greediest(cds);
    if AllConditional(fs) && g.Some? then
      var cs := [cds[g.value].construction.value] + configured;
      assert forall i :: 1 <= i < |cs| ==> cs[i] == FactoryConstruction(fs[n - i]);
      cs
    else
      configured
  }

  /**
   * The `Aggregate`: the head's expression, wrapped by each later element
   * as `Condition(condition, expression, soFar)`.
   */
  function Cascade(cs: seq<Construction>): Expr
    requires |cs| > 0
    requires forall i :: 1 <= i < |cs| ==> cs[i].condition.Some?
    decreases |cs|
  {
    if |cs| == 1 then cs[0].expression
    else Cond(cs[|cs| - 1].condition.value, cs[|cs| - 1].expression, Cascade(cs[..|cs| - 1]))
  }

  /** `GetNewObjectCreation`'s value: null when there is nothing to construct with, else the cascade. */
  function NewObjectCreation(ctx: ObjectMappingContext): Option<Expr> {
    var cs := Constructions(ctx);
    if |cs| == 0 then None else Some(Cascade(cs))
  }

  /** `IsNotConstructable` */
  predicate IsNotConstructable(ctx: ObjectMappingContext) {
    NewObjectCreation(ctx).None?
  }

  /** Not constructable exactly when no factory is configured and no constructor is usable. */
  lemma NotConstructableIff(ctx: ObjectMappingContext)
    ensures IsNotConstructable(ctx) <==>
      |ctx.configuredFactories| == 0 &&
      forall i :: 0 <= i < |ctx.constructors| ==> !NewConstructorData(ctx.constructors[i], ctx.instanceType, ctx.valueOf).canBeConstructed
  {
    var cds := ConstructorDatas(ctx);
    if |ctx.configuredFactories| == 0 {
      assert AllConditional(ctx.configuredFactories);
      if Greediest(cds).Some? {
        assert |Constructions(ctx)| > 0;
      }
    } else {
      assert TakenCount(ctx.configuredFactories) >= 1;
    }
  }

  /**
   * The cascade at run time: the construction chosen is the last element
   * whose condition holds, so the element inserted first is tested first; when
   * no condition holds, the head.
   */
  lemma {:induction false} CascadeSelects(cs: seq<Construction>, holds: Expr -> bool, k: nat)
    requires |cs| > 0
    requires forall i :: 1 <= i < |cs| ==> cs[i].condition.Some?
    requires k < |cs|
    requires k == 0 || holds(cs[k].condition.value)
    requires forall j :: k < j < |cs| ==> !holds(cs[j].condition.value)
    ensures Selected(Cascade(cs), holds) == Selected(cs[k].expression, holds)
    decreases |cs|
  {
    if |cs| > 1 && k < |cs| - 1 {
      var front := cs[..|cs| - 1];
      assert forall i :: 0 <= i < |front| ==> front[i] == cs[i];
      CascadeSelects(front, holds, k);
    }
  }

  /** When the first configured factory's condition holds, its creation is what is built. */
  lemma FirstConfiguredFactoryTestedFirst(ctx: ObjectMappingContext, holds: Expr -> bool)
    requires |ctx.configuredFactories| > 0
    requires ctx.configuredFactories[0].condition.Some? && holds(ctx.configuredFactories[0].condition.value)
    requires |Constructions(ctx)| >= 2
    ensures NewObjectCreation(ctx).Some?
    ensures Selected(NewObjectCreation(ctx).value, holds) == Selected(ctx.configuredFactories[0].creation, holds)
  {
    var cs := Constructions(ctx);
    var n := TakenCount(ctx.configuredFactories);
    assert cs[|cs| - 1] == FactoryConstruction(ctx.configuredFactories[0]);
    CascadeSelects(cs, holds, |cs| - 1);
  }

  /**
   * The final else: with every factory conditional, the greediest usable
   * constructor; otherwise the last factory taken (the first unconditional
   * one, or the last conditional one when no constructor is usable).
   */
  lemma DefaultConstruction(ctx: ObjectMappingContext, holds: Expr -> bool)
    requires NewObjectCreation(ctx).Some?
    requires forall i :: 1 <= i < |Constructions(ctx)| ==> !holds(Constructions(ctx)[i].condition.value)
    ensures var fs := ctx.configuredFactories;
      var g := Greediest(ConstructorDatas(ctx));
      Selected(NewObjectCreation(ctx).value, holds) ==
        if AllConditional(fs) && g.Some?
        then Selected(ConstructorDatas(ctx)[g.value].construction.value.expression, holds)
        else Selected(fs[TakenCount(fs) - 1].creation, holds)
  {
    var cs := Constructions(ctx);
    CascadeSelects(cs, holds, 0);
    var fs := ctx.configuredFactories;
    var n := TakenCount(fs);
    if !(AllConditional(fs) && Greediest(ConstructorDatas(ctx)).Some?) {
      assert cs == InsertedAtFront(fs, n);
      assert cs[0] == FactoryConstruction(fs[n - 1]);
    }
  }

  /** The cascade never looks at its head's condition. */
  lemma {:induction false} CascadeIgnoresHeadCondition(cs: seq<Construction>, ds: seq<Construction>)
    requires |cs| > 0 && |ds| == |cs|
    requires forall i :: 1 <= i < |cs| ==> cs[i].condition.Some?
    requires ds[0].expression == cs[0].expression
    requires forall i :: 1 <= i < |cs| ==> ds[i] == cs[i]
    ensures Cascade(ds) == Cascade(cs)
    decreases |cs|
  {
    if |cs| > 1 {
      CascadeIgnoresHeadCondition(cs[..|cs| - 1], ds[..|ds| - 1]);
    }
  }

  /**
   * The head's own condition is never tested: with every factory conditional
   * and no usable constructor, the last factory's condition is dropped, and
   * the cascade is the one built as if that factory were unconditional. A
   * single conditional factory is therefore used unconditionally.
   */
  lemma HeadConditionNotTested(ctx: ObjectMappingContext)
    requires |ctx.configuredFactories| >= 1 && AllConditional(ctx.configuredFactories)
    requires forall i :: 0 <= i < |ctx.constructors| ==> !NewConstructorData(ctx.constructors[i], ctx.instanceType, ctx.valueOf).canBeConstructed
    ensures var fs := ctx.configuredFactories;
      NewObjectCreation(ctx) == Some(Cascade([Construction(fs[|fs| - 1].creation, None)] + InsertedAtFront(fs, |fs| - 1)))
    ensures |ctx.configuredFactories| == 1 ==> NewObjectCreation(ctx) == Some(ctx.configuredFactories[0].creation)
  {
    var fs := ctx.configuredFactories;
    var n := |fs|;
    var cds := ConstructorDatas(ctx);
    assert forall i :: 0 <= i < |cds| ==> !cds[i].canBeConstructed;
    assert Greediest(cds).None?;
    var cs := Constructions(ctx);
    assert cs == InsertedAtFront(fs, n);
    var ds := [Construction(fs[n - 1].creation, None)] + InsertedAtFront(fs, n - 1);
    assert forall i :: 1 <= i < n ==> ds[i] == InsertedAtFront(fs, n - 1)[i - 1] == FactoryConstruction(fs[n - 1 - i]);
    CascadeIgnoresHeadCondition(cs, ds);
  }

  /**
   * The factory body of `GetNewObjectCreation`: insert each configured
   * factory at the front, stop after an unconditional one, add the greediest
   * constructor when still required, and fold the list into the cascade.
   */
  method BuildNewObjectCreation(ctx: ObjectMappingContext) returns (r: Option<Expr>)
    ensures r == NewObjectCreation(ctx)
  {
    var fs := ctx.configuredFactories;
    var constructions: seq<Construction> := [];
    var newingConstructorRequired := true;
    var i := 0;
    while i < |fs|
      invariant 0 <= i <= |fs|
      invariant forall j :: 0 <= j < i ==> fs[j].condition.Some?
      invariant constructions == InsertedAtFront(fs, i)
    {
      InsertNext(fs, i);
      constructions := [FactoryConstruction(fs[i])] + constructions;
      if fs[i].condition.None? {
        newingConstructorRequired := false;
        break;
      }
      i := i + 1;
    }
    TakenCountAfterLoop(fs, i, newingConstructorRequired);
    if newingConstructorRequired {
      var cds := ConstructorDatas(ctx);
      var greediest := Greediest(cds);
      if greediest.Some? {
        constructions := [cds[greediest.value].construction.value] + constructions;
      }
    }
    if |constructions| == 0 {
      return None;
    }
    r := Some(Cascade(constructions));
  }

  /** Where the loop stops: after every factory when all are conditional, else just after the first unconditional one. */
  lemma TakenCountAfterLoop(fs: seq<ConfiguredFactory>, i: nat, newingConstructorRequired: bool)
    requires i <= |fs|
    requires forall j :: 0 <= j < i ==> fs[j].condition.Some?
    requires newingConstructorRequired ==> i == |fs|
    requires !newingConstructorRequired ==> i < |fs| && fs[i].condition.None?
    ensures newingConstructorRequired <==> AllConditional(fs)
    ensures TakenCount(fs) == if newingConstructorRequired then i else i + 1
  {
    var n := TakenCount(fs);
    if !newingConstructorRequired {
      assert !AllConditional(fs);
      assert n - 1 >= i;
      assert n - 1 <= i;
    }
  }

  /** `"{source} -> {target}: {rule set} Ctor"` */
  function CtorKey(ctx: ObjectMappingContext): (key: string)
    ensures EndsWith(key, CtorSuffix)
  {
    ctx.sourceSignature + " -> " + ctx.targetSignature + ": " + ctx.ruleSetName + CtorSuffix
  }

  /** `GetNewObjectCreation`: get-or-add under the construction key. */
  method GetNewObjectCreation(cache: Cache, ctx: ObjectMappingContext) returns (r: Option<Expr>)
    requires cache.Valid()
    modifies cache
    ensures cache.Valid()
    ensures CtorKey(ctx) in old(cache.entries) ==>
      old(cache.entries)[CtorKey(ctx)] == Creation(r) && cache.entries == old(cache.entries)
    ensures CtorKey(ctx) !in old(cache.entries) ==>
      r == NewObjectCreation(ctx) && cache.entries == old(cache.entries)[CtorKey(ctx) := Creation(r)]
  {
    var key := CtorKey(ctx);
    SuffixesExclusive(key);
    var value, _ := cache.GetOrAdd(key, k => Creation(NewObjectCreation(ctx)));
    r := value.creation;
  }

  // ---------------------------------------------------------------------------
  // Object resolution

  /** `target = target ?? (created = <new object>)` */
  function GetObjectResolution(ctx: ObjectMappingContext, creation: Expr): Expr {
    Assign(ctx.targetObject, Coalesce(ctx.targetObject, Assign(ctx.createdObject, creation)))
  }

  /**
   * An existing target is kept and nothing else changes; otherwise the new
   * object is assigned to both the created-object and the target variables.
   */
  lemma ObjectResolutionKeepsExistingTarget(ctx: ObjectMappingContext, creation: Expr, env: Env)
    requires ctx.targetObject.Param? && ctx.createdObject.Param?
    requires !creation.Param? && !creation.Assign? && !creation.Coalesce?
    ensures var (value, after) := Eval(GetObjectResolution(ctx, creation), env);
      if Lookup(env, ctx.targetObject) != Null
      then value == Lookup(env, ctx.targetObject) && after == env
      else value == creation && after == env[ctx.createdObject := creation][ctx.targetObject := creation]
  {
    var t, c := ctx.targetObject, ctx.createdObject;
    assert Eval(t, env) == (Lookup(env, t), env);
    if Lookup(env, t) != Null {
      assert Eval(Coalesce(t, Assign(c, creation)), env) == (Lookup(env, t), env);
      assert t in env;
      assert env[t := env[t]] == env;
    } else {
      assert Eval(creation, env) == (creation, env);
      assert Eval(Assign(c, creation), env) == (creation, env[c := creation]);
      assert Eval(Coalesce(t, Assign(c, creation)), env) == (creation, env[c := creation]);
    }
  }

  // ---------------------------------------------------------------------------
  // Short-circuit returns

  function IfThens(conditions: seq<Expr>, returnNull: Expr): (r: seq<Expr>)
    ensures |r| == |conditions|
    ensures forall i :: 0 <= i < |r| ==> r[i] == IfThen(conditions[i], returnNull)
  {
    seq(|conditions|, i requires 0 <= i < |conditions| => IfThen(conditions[i], returnNull))
  }

  /** The local the strategy's conditions test when the matching value is not the source object. */
  function MatchingVariable(ctx: ObjectMappingContext, value: Expr): Expr {
    Param("matching" + ctx.variableName(TypeOf(value)), TypeOf(value))
  }

  /** `Expression.Block(IEnumerable<Expression>)` rejects an empty list of expressions. */
  datatype ShortCircuitError = EmptyBlock

  /**
   * `GetStrategyShortCircuitReturns`: the block of the rule set's
   * short-circuit conditions on the matching source value, and that value.
   * When the value is the source object itself the conditions alone make up
   * the block, so no conditions is an error.
   */
  function GetStrategyShortCircuitReturns(ctx: ObjectMappingContext, returnNull: Expr): (r: (Result<Expr, ShortCircuitError>, Option<Expr>))
    ensures r.1 == ctx.matchingSourceMemberValue
    ensures r.0.Err? <==> r.1.Some? && r.1.value == ctx.sourceObject && ctx.shortCircuitConditions(ctx.sourceObject) == []
    ensures r.1.None? ==> r.0 == Ok(Empty)
    ensures r.1.Some? && r.1.value == ctx.sourceObject && r.0.Ok? ==>
      r.0.value == Block([], IfThens(ctx.shortCircuitConditions(ctx.sourceObject), returnNull))
    ensures r.1.Some? && r.1.value != ctx.sourceObject ==>
      var local := MatchingVariable(ctx, r.1.value);
      r.0 == Ok(Block([local], [Assign(local, r.1.value)] + IfThens(ctx.shortCircuitConditions(local), returnNull)))
  {
    match ctx.matchingSourceMemberValue
    case None => (Ok(Empty), None)
    case Some(value) =>
      if value == ctx.sourceObject then
        var conditions := IfThens(ctx.shortCircuitConditions(ctx.sourceObject), returnNull);
        if conditions == [] then (Err(EmptyBlock), Some(value))
        else (Ok(Block([], conditions)), Some(value))
      else
        var local := MatchingVariable(ctx, value);
        (Ok(Block([local], [Assign(local, value)] + IfThens(ctx.shortCircuitConditions(local), returnNull))), Some(value))
  }

  /** `GetShortCircuitReturns`: the strategy block, then the existing-object check. */
  function GetShortCircuitReturns(ctx: ObjectMappingContext, returnNull: Expr): (r: Result<seq<Expr>, ShortCircuitError>)
    ensures r.Err? <==> GetStrategyShortCircuitReturns(ctx, returnNull).0.Err?
    ensures r.Ok? ==> |r.value| == 2
    ensures r.Ok? ==> r.value[0] == GetStrategyShortCircuitReturns(ctx, returnNull).0.value
    ensures r.Ok? ==> r.value[1] == IfThen(ctx.tryGetCall(ctx.matchingSourceMemberValue), Return(ctx.instanceVariable))
  {
    var (strategy, matching) := GetStrategyShortCircuitReturns(ctx, returnNull);
    if strategy.Err? then Err(strategy.error)
    else Ok([strategy.value, IfThen(ctx.tryGetCall(matching), Return(ctx.instanceVariable))])
  }

  /** Whether running a statement leaves through a `Return`, the tests whose truth `holds` gives deciding. */
  predicate Returns(s: Expr, holds: Expr -> bool) {
    match s
    case Return(_) => true
    case IfThen(c, a) => holds(c) && Returns(a, holds)
    case Block(_, body) => exists i :: 0 <= i < |body| && Returns(body[i], holds)
    case _ => false
  }

  /** A block of statements that never return, followed by `if (c) return null;` per condition. */
  lemma {:induction false} GuardedBlockReturns(variables: seq<Expr>, prefix: seq<Expr>, conditions: seq<Expr>, holds: Expr -> bool)
    requires forall i :: 0 <= i < |prefix| ==> !Returns(prefix[i], holds)
    ensures Returns(Block(variables, prefix + IfThens(conditions, Return(Null))), holds) <==>
      exists c :: c in conditions && holds(c)
  {
    var ifs := IfThens(conditions, Return(Null));
    var body := prefix + ifs;
    if exists c :: c in conditions && holds(c) {
      var c :| c in conditions && holds(c);
      var i :| 0 <= i < |conditions| && conditions[i] == c;
      assert body[|prefix| + i] == IfThen(c, Return(Null));
      assert Returns(body[|prefix| + i], holds);
    }
    if exists i :: 0 <= i < |body| && Returns(body[i], holds) {
      var i :| 0 <= i < |body| && Returns(body[i], holds);
      assert i >= |prefix|;
      assert body[i] == ifs[i - |prefix|];
      assert conditions[i - |prefix|] in conditions;
    }
  }

  /**
   * The strategy block returns null exactly when one of the rule set's
   * conditions holds of the value tested: the source object itself, or the
   * local it was assigned to. Without a matching value it never returns.
   * Building it fails only for the source object with no conditions.
   */
  lemma StrategyReturnsIffConditionHolds(ctx: ObjectMappingContext, holds: Expr -> bool)
    ensures var block := GetStrategyShortCircuitReturns(ctx, Return(Null)).0;
      match ctx.matchingSourceMemberValue
      case None => block.Ok? && !Returns(block.value, holds)
      case Some(v) =>
        var tested := if v == ctx.sourceObject then ctx.sourceObject else MatchingVariable(ctx, v);
        (block.Err? <==> v == ctx.sourceObject && ctx.shortCircuitConditions(v) == []) &&
        (block.Ok? ==> (Returns(block.value, holds) <==> exists c :: c in ctx.shortCircuitConditions(tested) && holds(c)))
  {
    match ctx.matchingSourceMemberValue
    case None =>
    case Some(v) =>
      if v == ctx.sourceObject {
        assert [] + IfThens(ctx.shortCircuitConditions(v), Return(Null)) == IfThens(ctx.shortCircuitConditions(v), Return(Null));
        GuardedBlockReturns([], [], ctx.shortCircuitConditions(v), holds);
      } else {
        var local := MatchingVariable(ctx, v);
        GuardedBlockReturns([local], [Assign(local, v)], ctx.shortCircuitConditions(local), holds);
      }
  }

  // ---------------------------------------------------------------------------
  // Population

  /** `GetPopulationWithCallbacks`: unwrapped exactly when both callbacks are empty. */
  function GetPopulationWithCallbacks(p: MemberPopulation): (r: Expr)
    ensures r == p.population <==> p.preCallback == Empty && p.postCallback == Empty
    ensures r != p.population ==> r == Block([], [p.preCallback, p.population, p.postCallback])
  {
    if p.preCallback == Empty && p.postCallback == Empty then p.population
    else
      var r := Block([], [p.preCallback, p.population, p.postCallback]);
      assert p.population in r.body;
      r
  }

  /** Callbacks that assign nothing to the target member do not change what it is assigned. */
  lemma CallbacksKeepAssignment(p: MemberPopulation, target: Expr, holds: Expr -> bool)
    requires Assigned(p.preCallback, target, holds).None? && Assigned(p.postCallback, target, holds).None?
    ensures Assigned(GetPopulationWithCallbacks(p), target, holds) == Assigned(p.population, target, holds)
  {
    var body := [p.preCallback, p.population, p.postCallback];
    assert body[1..][1..][1..] == [];
    assert AssignedInSeq(body[1..][1..], target, holds) == Assigned(p.postCallback, target, holds);
    assert AssignedInSeq(body[1..], target, holds) == Assigned(p.population, target, holds);
  }

  /** The successful populations, each with its callbacks, in order. */
  function SuccessfulPopulations(ps: seq<MemberPopulation>): seq<Expr> {
    if ps == [] then []
    else if ps[0].isSuccessful then [GetPopulationWithCallbacks(ps[0])] + SuccessfulPopulations(ps[1..])
    else SuccessfulPopulations(ps[1..])
  }

  /** `GetObjectPopulation`: the object-registration call, then the successful populations. */
  function GetObjectPopulation(ctx: ObjectMappingContext): (r: seq<Expr>)
    ensures |r| >= 1 && r[0] == ctx.objectRegistrationCall
  {
    [ctx.objectRegistrationCall] + SuccessfulPopulations(ctx.memberPopulations)
  }

  /** A later population is appended after the earlier ones, and only if it is successful. */
  lemma {:induction false} SuccessfulPopulationsAppend(ps: seq<MemberPopulation>, p: MemberPopulation)
    ensures SuccessfulPopulations(ps + [p]) ==
      SuccessfulPopulations(ps) + (if p.isSuccessful then [GetPopulationWithCallbacks(p)] else [])
  {
    if ps != [] {
      assert (ps + [p])[1..] == ps[1..] + [p];
      assert SuccessfulPopulations(ps[1..] + [p]) == SuccessfulPopulations(ps[1..]) + (if p.isSuccessful then [GetPopulationWithCallbacks(p)] else []) by {
        SuccessfulPopulationsAppend(ps[1..], p);
      }
    } else {
      assert ps + [p] == [p];
    }
  }

  /** Exactly the successful populations appear, each wrapped with its callbacks. */
  lemma {:induction false} SuccessfulPopulationsMembers(ps: seq<MemberPopulation>, x: Expr)
    ensures x in SuccessfulPopulations(ps) <==>
      exists p :: p in ps && p.isSuccessful && x == GetPopulationWithCallbacks(p)
  {
    if ps != [] {
      SuccessfulPopulationsMembers(ps[1..], x);
      if exists p :: p in ps[1..] && p.isSuccessful && x == GetPopulationWithCallbacks(p) {
        var p :| p in ps[1..] && p.isSuccessful && x == GetPopulationWithCallbacks(p);
        assert p in ps;
      }
      if exists p :: p in ps && p.isSuccessful && x == GetPopulationWithCallbacks(p) {
        var p :| p in ps && p.isSuccessful && x == GetPopulationWithCallbacks(p);
        if p != ps[0] {
          assert p in ps[1..];
        }
      }
    }
  }

  function CountSuccessful(ps: seq<MemberPopulation>): nat {
    if ps == [] then 0 else (if ps[0].isSuccessful then 1 else 0) + CountSuccessful(ps[1..])
  }

  /** One statement per successful population, after the registration call. */
  lemma {:induction false} ObjectPopulationLength(ctx: ObjectMappingContext)
    ensures |GetObjectPopulation(ctx)| == 1 + CountSuccessful(ctx.memberPopulations)
  {
    SuccessfulPopulationsLength(ctx.memberPopulations);
  }

  lemma {:induction false} SuccessfulPopulationsLength(ps: seq<MemberPopulation>)
    ensures |SuccessfulPopulations(ps)| == CountSuccessful(ps)
  {
    if ps != [] {
      SuccessfulPopulationsLength(ps[1..]);
    }
  }
}
