/**
 * Data sources and the data-source set of one target member: the flags a
 * set derives from its ordered candidates, and the single population
 * statement it folds them into (AgileMapper/DataSources/DataSourceSet.cs).
 */
module DataSourceSets {
  import opened Ir

  /** One candidate way of producing a target member's value. */
  datatype DataSource = DataSource(
    isValid: bool,
    value: Expr,
    condition: Option<Expr>,          // null in the source when unconditional
    variables: seq<Expr>,
    sourceMemberTypeTest: Option<Expr>)
  {
    predicate IsConditional() {
      condition.Some?
    }
  }

  /** A set as its constructor leaves it: the sources and the flags derived from them. */
  datatype DataSourceSet = DataSourceSet(
    sources: seq<DataSource>,
    none: bool,
    hasValue: bool,
    variables: seq<Expr>,
    sourceMemberTypeTest: Option<Expr>)

  /** Whether some source is valid. */
  predicate AnyValid(sources: seq<DataSource>) {
    exists i :: 0 <= i < |sources| && sources[i].isValid
  }

  /** Every source's variables, concatenated in source order. */
  function AllVariables(sources: seq<DataSource>): seq<Expr> {
    if sources == [] then [] else sources[0].variables + AllVariables(sources[1..])
  }

  lemma {:induction false} AllVariablesAppend(sources: seq<DataSource>, d: DataSource)
    ensures AllVariables(sources + [d]) == AllVariables(sources) + d.variables
  {
    if sources != [] {
      assert (sources + [d])[1..] == sources[1..] + [d];
      AllVariablesAppend(sources[1..], d);
    } else {
      assert sources + [d] == [d];
    }
  }

  /** The type test of the last source that has one: a later test overrides an earlier one. */
  function LastTypeTest(sources: seq<DataSource>): (r: Option<Expr>)
    ensures r.None? <==> forall i :: 0 <= i < |sources| ==> sources[i].sourceMemberTypeTest.None?
    ensures r.Some? ==> exists i :: 0 <= i < |sources| && sources[i].sourceMemberTypeTest == r &&
                          forall j :: i < j < |sources| ==> sources[j].sourceMemberTypeTest.None?
  {
    if sources == [] then None
    else
      var last := sources[|sources| - 1];
      if last.sourceMemberTypeTest.Some? then last.sourceMemberTypeTest
      else
        var r := LastTypeTest(sources[..|sources| - 1]);
        assert forall i :: 0 <= i < |sources| - 1 ==> sources[..|sources| - 1][i] == sources[i];
        r
  }

  /** The `DataSourceSet` constructor: one pass accumulating the flags. */
  method NewDataSourceSet(sources: seq<DataSource>) returns (dss: DataSourceSet)
    ensures dss.sources == sources
    ensures dss.none <==> |sources| == 0
    ensures dss.hasValue <==> AnyValid(sources)
    ensures dss.variables == AllVariables(sources)
    ensures dss.sourceMemberTypeTest == LastTypeTest(sources)
  {
    if |sources| == 0 {
      return DataSourceSet(sources, true, false, [], None);
    }
    var hasValue := false;
    var variables: seq<Expr> := [];
    var typeTest: Option<Expr> := None;
    for i := 0 to |sources|
      invariant hasValue <==> AnyValid(sources[..i])
      invariant variables == AllVariables(sources[..i])
      invariant typeTest == LastTypeTest(sources[..i])
    {
      var dataSource := sources[i];
      assert sources[..i + 1] == sources[..i] + [dataSource];
      assert sources[..i + 1][..i] == sources[..i];
      AllVariablesAppend(sources[..i], dataSource);
      hasValue := hasValue || dataSource.isValid;
      variables := variables + dataSource.variables;
      if dataSource.sourceMemberTypeTest.Some? {
        typeTest := dataSource.sourceMemberTypeTest;
      }
    }
    assert sources[..|sources|] == sources;
    dss := DataSourceSet(sources, false, hasValue, variables, typeTest);
  }

  /**
   * The fallback value: the last source's value, except that a `??` yields
   * its right operand and a value rendered like the target member's own
   * access means there is no fallback. What the fallback does in the
   * population statement is stated by `PopulationMeaning`.
   */
  function GetFallbackValueOrNull(sources: seq<DataSource>, targetAccess: Expr, render: Expr -> string): (r: Option<Expr>)
    requires |sources| > 0
    ensures sources[|sources| - 1].value.Coalesce? ==> r == Some(sources[|sources| - 1].value.right)
    ensures r.None? <==> !sources[|sources| - 1].value.Coalesce? &&
                         render(sources[|sources| - 1].value) == render(targetAccess)
    ensures r.Some? && !sources[|sources| - 1].value.Coalesce? ==> r == Some(sources[|sources| - 1].value)
  {
    var fallback := sources[|sources| - 1].value;
    if fallback.Coalesce? then Some(fallback.right)
    else if render(fallback) == render(targetAccess) then None
    else Some(fallback)
  }

  /** `Expression.IfThenElse` rejects a null test; taking the last element of an empty list fails. */
  datatype PopulationError = NullCondition | NoElements

  /** `dataSource.AddCondition(population)`: guard it when the source is conditional. */
  function AddCondition(ds: DataSource, population: Expr): Expr {
    if ds.condition.Some? then IfThen(ds.condition.value, population) else population
  }

  /** `GetMemberPopulation`: assign the source's value to the target member. */
  function MemberPopulation(ds: DataSource, targetAccess: Expr): Expr {
    Assign(targetAccess, ds.value)
  }

  /** The statement the loop of `GetPopulationExpression` has built once it has seen sources k..end. */
  function PopulationFrom(sources: seq<DataSource>, k: nat, fallback: Option<Expr>, targetAccess: Expr)
    : Result<Option<Expr>, PopulationError>
    requires k < |sources|
    decreases |sources| - k
  {
    var ds := sources[k];
    if k == |sources| - 1 then
      if fallback.None? then Ok(None) else Ok(Some(AddCondition(ds, Assign(targetAccess, fallback.value))))
    else
      match PopulationFrom(sources, k + 1, fallback, targetAccess)
      case Err(e) => Err(e)
      case Ok(None) => Ok(Some(AddCondition(ds, MemberPopulation(ds, targetAccess))))
      case Ok(Some(p)) =>
        if ds.condition.None? then Err(NullCondition)
        else Ok(Some(IfThenElse(ds.condition.value, MemberPopulation(ds, targetAccess), p)))
  }

  /** A failure part-way through the fold is the fold's result. */
  lemma {:induction false} ErrorPropagates(sources: seq<DataSource>, j: nat, k: nat, fallback: Option<Expr>, targetAccess: Expr)
    requires j <= k < |sources|
    requires PopulationFrom(sources, k, fallback, targetAccess).Err?
    ensures PopulationFrom(sources, j, fallback, targetAccess) == PopulationFrom(sources, k, fallback, targetAccess)
    decreases k - j
  {
    if j < k {
      ErrorPropagates(sources, j + 1, k, fallback, targetAccess);
    }
  }

  /** `GetPopulationExpression`: the reverse loop folding the sources, last to first. */
  method GetPopulationExpression(dss: DataSourceSet, targetAccess: Expr, render: Expr -> string)
    returns (r: Result<Option<Expr>, PopulationError>)
    ensures |dss.sources| == 0 ==> r == Err(NoElements)
    ensures |dss.sources| > 0 ==>
      r == PopulationFrom(dss.sources, 0, GetFallbackValueOrNull(dss.sources, targetAccess, render), targetAccess)
  {
    var sources := dss.sources;
    if |sources| == 0 {
      return Err(NoElements);
    }
    var fallbackValue := GetFallbackValueOrNull(sources, targetAccess, render);
    var excludeFallback := fallbackValue.None?;
    var population: Option<Expr> := None;
    var i := |sources| - 1;
    while i >= 0
      invariant -1 <= i < |sources|
      invariant i < |sources| - 1 ==> PopulationFrom(sources, i + 1, fallbackValue, targetAccess) == Ok(population)
      invariant i == |sources| - 1 ==> population.None?
    {
      var dataSource := sources[i];
      if i == |sources| - 1 {
        if !excludeFallback {
          population := Some(Assign(targetAccess, fallbackValue.value));
          if dataSource.IsConditional() {
            population := Some(AddCondition(dataSource, population.value));
          }
        }
      } else if population.None? {
        population := Some(AddCondition(dataSource, MemberPopulation(dataSource, targetAccess)));
      } else {
        if dataSource.condition.None? {
          ErrorPropagates(sources, 0, i, fallbackValue, targetAccess);
          return Err(NullCondition);
        }
        population := Some(IfThenElse(dataSource.condition.value, MemberPopulation(dataSource, targetAccess), population.value));
      }
      i := i - 1;
    }
    r := Ok(population);
  }

  /** Whether a source's guard lets it through: unconditional, or its condition holds. */
  predicate Guard(ds: DataSource, holds: Expr -> bool) {
    ds.condition.None? || holds(ds.condition.value)
  }

  /**
   * What the population statement should do at run time: the value of the
   * first earlier source whose guard holds; past all of them, the fallback,
   * if there is one and the last source's guard holds; otherwise nothing.
   */
  function FirstApplicable(sources: seq<DataSource>, k: nat, fallback: Option<Expr>, holds: Expr -> bool): Option<Expr>
    requires k < |sources|
    decreases |sources| - k
  {
    if k == |sources| - 1 then
      if fallback.Some? && Guard(sources[k], holds) then fallback else None
    else if Guard(sources[k], holds) then Some(sources[k].value)
    else FirstApplicable(sources, k + 1, fallback, holds)
  }

  /** The statement built assigns the target exactly what `FirstApplicable` picks. */
  lemma {:induction false} PopulationMeaning(sources: seq<DataSource>, k: nat, fallback: Option<Expr>,
                                             targetAccess: Expr, holds: Expr -> bool)
    requires k < |sources|
    requires PopulationFrom(sources, k, fallback, targetAccess).Ok?
    ensures var p := PopulationFrom(sources, k, fallback, targetAccess).value;
      (if p.None? then None else Assigned(p.value, targetAccess, holds)) == FirstApplicable(sources, k, fallback, holds)
    decreases |sources| - k
  {
    if k < |sources| - 1 {
      PopulationMeaning(sources, k + 1, fallback, targetAccess, holds);
    }
  }

  /** When every source but the last is conditional, the fold never meets a null test. */
  lemma {:induction false} PopulationNeverFails(sources: seq<DataSource>, k: nat, fallback: Option<Expr>, targetAccess: Expr)
    requires k < |sources|
    requires forall i :: k <= i < |sources| - 1 ==> sources[i].IsConditional()
    ensures PopulationFrom(sources, k, fallback, targetAccess).Ok?
    decreases |sources| - k
  {
    if k < |sources| - 1 {
      PopulationNeverFails(sources, k + 1, fallback, targetAccess);
    }
  }

  /** With no fallback, a single source adds no statement at all. */
  lemma SingleSourceWithoutFallback(ds: DataSource, targetAccess: Expr, render: Expr -> string)
    requires GetFallbackValueOrNull([ds], targetAccess, render).None?
    ensures PopulationFrom([ds], 0, GetFallbackValueOrNull([ds], targetAccess, render), targetAccess) == Ok(None)
    ensures !ds.value.Coalesce? && render(ds.value) == render(targetAccess)
  {
  }

  /**
   * The first source is the outermost test: when it is conditional and the
   * fold succeeds, its condition guards its own assignment at the top of
   * the statement.
   */
  lemma {:induction false} FirstSourceOutermost(sources: seq<DataSource>, fallback: Option<Expr>, targetAccess: Expr)
    requires |sources| >= 2 && sources[0].IsConditional()
    requires PopulationFrom(sources, 0, fallback, targetAccess).Ok?
    ensures var p := PopulationFrom(sources, 0, fallback, targetAccess).value;
      p.Some? && (p.value.IfThen? || p.value.IfThenElse?) &&
      p.value.test == sources[0].condition.value &&
      p.value.thenStmt == Assign(targetAccess, sources[0].value)
  {
  }
}
