/**
 * The data-source finder: for one target member it enumerates candidate
 * sources in precedence order and keeps the valid ones
 * (AgileMapper/DataSources/DataSourceFinder.cs).
 */
module DataSourceFinding {
  import opened Ir
  import opened DataSourceSets

  datatype TargetKind = Simple | Complex | Enumerable

  /** A map-time factory from the registry: whether it applies to this member, and what it creates. */
  datatype MapTimeFactory = MapTimeFactory(isFor: bool, created: DataSource)

  /**
   * What the finder learns about one target member from its collaborators:
   * the map-time factory registry, the user configuration, the source-member
   * matcher and the rule set's factories.
   */
  datatype MemberContext = MemberContext(
    targetKind: TargetKind,
    mapTimeFactories: seq<MapTimeFactory>,             // registry order
    configured: seq<DataSource>,                       // configured sources, in configuration order
    matchedSource: Option<DataSource>,                 // SourceMemberDataSource of the best match, if any
    complexSource: nat -> DataSource,                  // ComplexTypeMappingDataSource for an index
    wrapEnumerable: (DataSource, nat) -> DataSource,   // EnumerableMappingDataSource for a source and index
    isSameAs: (DataSource, DataSource) -> bool,        // IConfiguredDataSource.IsSameAs
    fallback: DataSource,                              // the rule set's fallback source
    initial: DataSource)                               // the rule set's initial source

  /** The first applicable map-time factory's source; never for a complex target. */
  function GetMaptimeDataSourceOrNull(ctx: MemberContext): (r: Option<DataSource>)
    ensures ctx.targetKind == Complex ==> r.None?
    ensures ctx.targetKind != Complex ==>
      (r.None? <==> forall i :: 0 <= i < |ctx.mapTimeFactories| ==> !ctx.mapTimeFactories[i].isFor)
    ensures r.Some? ==>
      exists i :: FirstApplicableAt(ctx.mapTimeFactories, i) && r.value == ctx.mapTimeFactories[i].created
  {
    if ctx.targetKind == Complex then None else FirstMapTimeSource(ctx.mapTimeFactories)
  }

  /** Factory i applies and none before it does. */
  predicate FirstApplicableAt(factories: seq<MapTimeFactory>, i: int) {
    0 <= i < |factories| && factories[i].isFor && forall j :: 0 <= j < i ==> !factories[j].isFor
  }

  function FirstMapTimeSource(factories: seq<MapTimeFactory>): (r: Option<DataSource>)
    ensures r.None? <==> forall i :: 0 <= i < |factories| ==> !factories[i].isFor
    ensures r.Some? ==> exists i :: FirstApplicableAt(factories, i) && r.value == factories[i].created
  {
    if factories == [] then None
    else if factories[0].isFor then Some(factories[0].created)
    else
      var r := FirstMapTimeSource(factories[1..]);
      assert forall i :: 1 <= i < |factories| ==> factories[1..][i - 1] == factories[i];
      assert forall i :: FirstApplicableAt(factories[1..], i) ==> FirstApplicableAt(factories, i + 1);
      r
  }

  /**
   * An enumerable target's sources are wrapped in the enumerable-mapping
   * source. Where the wrapped sources end up is stated by `Enumerated` and
   * the lemmas about it (`StopsAtUnconditional`, `EnumeratedButLastConditional`).
   */
  function GetFinalDataSource(ctx: MemberContext, found: DataSource, index: nat): (r: DataSource)
    ensures ctx.targetKind == Enumerable ==> r == ctx.wrapEnumerable(found, index)
    ensures ctx.targetKind != Enumerable ==> r == found
  {
    if ctx.targetKind == Enumerable then ctx.wrapEnumerable(found, index) else found
  }

  /** The matched member's source, wrapped with index 0 when the target is enumerable. */
  function MatchedDataSource(ctx: MemberContext): Option<DataSource> {
    if ctx.matchedSource.None? then None else Some(GetFinalDataSource(ctx, ctx.matchedSource.value, 0))
  }

  predicate DuplicatesConfigured(ctx: MemberContext, d: DataSource) {
    exists c :: c in ctx.configured && ctx.isSameAs(c, d)
  }

  /**
   * The matched source, followed by the fallback when it is conditional; with
   * no usable match, the fallback only when conditional configured sources
   * came before. How these sources fold into the population statement is
   * stated by `FoundSourcesFoldWithoutError` and `PopulationMeaning`.
   */
  function GetSourceMemberDataSources(ctx: MemberContext, index: nat): (r: seq<DataSource>)
    ensures var m := MatchedDataSource(ctx);
      (m.None? || DuplicatesConfigured(ctx, m.value)) ==> r == (if index > 0 then [ctx.fallback] else [])
    ensures var m := MatchedDataSource(ctx);
      (m.Some? && !DuplicatesConfigured(ctx, m.value)) ==>
        |r| >= 1 && r[0] == m.value && (|r| == 2 <==> m.value.IsConditional()) &&
        (|r| == 2 ==> r[1] == ctx.fallback) && |r| <= 2
  {
    var m := MatchedDataSource(ctx);
    if m.None? || DuplicatesConfigured(ctx, m.value) then
      if index > 0 then [ctx.fallback] else []
    else if m.value.IsConditional() then [m.value, ctx.fallback]
    else [m.value]
  }

  /** The position of the first unconditional configured source, if any. */
  function FirstUnconditional(configured: seq<DataSource>): (r: Option<nat>)
    ensures r.None? ==> forall i :: 0 <= i < |configured| ==> configured[i].IsConditional()
    ensures r.Some? ==> (r.value < |configured| && !configured[r.value].IsConditional() &&
      forall i :: 0 <= i < r.value ==> configured[i].IsConditional())
  {
    if configured == [] then None
    else if !configured[0].IsConditional() then Some(0)
    else
      var r := FirstUnconditional(configured[1..]);
      assert forall i :: 1 <= i < |configured| ==> configured[1..][i - 1] == configured[i];
      if r.None? then None else Some(r.value + 1)
  }

  /** The first n configured sources, each finalised with its own position as index. */
  function ConfiguredPrefix(ctx: MemberContext, n: nat): (r: seq<DataSource>)
    requires n <= |ctx.configured|
    ensures |r| == n
    ensures forall i :: 0 <= i < n ==> r[i] == GetFinalDataSource(ctx, ctx.configured[i], i)
  {
    seq(n, i requires 0 <= i < n => GetFinalDataSource(ctx, ctx.configured[i], i))
  }

  /**
   * The enumeration order stated as a whole: a map-time source alone; else
   * configured sources up to and including the first unconditional one;
   * else all configured sources followed by the nested-mapping source (complex
   * target) or the matched-member sources.
   */
  function Enumerated(ctx: MemberContext): seq<DataSource> {
    var mapTime := GetMaptimeDataSourceOrNull(ctx);
    if mapTime.Some? then [mapTime.value]
    else
      var u := FirstUnconditional(ctx.configured);
      if u.Some? then ConfiguredPrefix(ctx, u.value + 1)
      else
        var n := |ctx.configured|;
        ConfiguredPrefix(ctx, n) +
          (if ctx.targetKind == Complex then [ctx.complexSource(n)] else GetSourceMemberDataSources(ctx, n))
  }

  /** `EnumerateDataSources`: the generator, with its early exits and running index. */
  method EnumerateDataSources(ctx: MemberContext) returns (r: seq<DataSource>)
    ensures r == Enumerated(ctx)
  {
    var maptimeDataSource := GetMaptimeDataSourceOrNull(ctx);
    if maptimeDataSource.Some? {
      return [maptimeDataSource.value];
    }
    var dataSourceIndex := 0;
    r := [];
    var configured := ctx.configured;
    for k := 0 to |configured|
      invariant dataSourceIndex == k
      invariant forall i :: 0 <= i < k ==> configured[i].IsConditional()
      invariant r == ConfiguredPrefix(ctx, k)
    {
      r := r + [GetFinalDataSource(ctx, configured[k], dataSourceIndex)];
      if !configured[k].IsConditional() {
        assert FirstUnconditional(configured) == Some(k);
        return r;
      }
      dataSourceIndex := dataSourceIndex + 1;
    }
    if ctx.targetKind == Complex {
      return r + [ctx.complexSource(dataSourceIndex)];
    }
    r := r + GetSourceMemberDataSources(ctx, dataSourceIndex);
  }

  /** The valid sources, in order. */
  function ValidOnly(s: seq<DataSource>): (r: seq<DataSource>)
    ensures forall x :: x in r ==> x.isValid && x in s
    ensures forall x :: x in s && x.isValid ==> x in r
    ensures |r| <= |s|
  {
    if s == [] then [] else (if s[0].isValid then [s[0]] else []) + ValidOnly(s[1..])
  }

  /** Filtering keeps order: filtering a concatenation concatenates the filtered parts. */
  lemma {:induction false} ValidOnlyAppend(a: seq<DataSource>, b: seq<DataSource>)
    ensures ValidOnly(a + b) == ValidOnly(a) + ValidOnly(b)
  {
    if a != [] {
      assert (a + b)[1..] == a[1..] + b;
      ValidOnlyAppend(a[1..], b);
    } else {
      assert a + b == b;
    }
  }

  /** A single source survives exactly when it is valid. */
  lemma ValidOnlySingleton(d: DataSource)
    ensures ValidOnly([d]) == if d.isValid then [d] else []
  {
    assert [d][1..] == [];
  }

  /** `FindFor`'s sources: the valid ones, preceded by the initial source under the stated conditions. */
  function FoundSources(ctx: MemberContext): seq<DataSource> {
    var valid := ValidOnly(Enumerated(ctx));
    if ctx.targetKind == Simple && |valid| > 0 && ctx.initial.isValid then [ctx.initial] + valid else valid
  }

  method FindFor(ctx: MemberContext) returns (dss: DataSourceSet)
    ensures dss.sources == FoundSources(ctx)
    ensures dss.none <==> |FoundSources(ctx)| == 0
    ensures dss.hasValue <==> AnyValid(FoundSources(ctx))
  {
    var enumerated := EnumerateDataSources(ctx);
    var validDataSources := ValidOnly(enumerated);
    if ctx.targetKind == Simple && |validDataSources| > 0 {
      var initialDataSource := ctx.initial;
      if initialDataSource.isValid {
        validDataSources := [initialDataSource] + validDataSources;
      }
    }
    dss := NewDataSourceSet(validDataSources);
  }

  /** Every source `FindFor` returns is valid, so its set has a value exactly when it is not empty. */
  lemma FoundSourcesValid(ctx: MemberContext)
    ensures forall x :: x in FoundSources(ctx) ==> x.isValid
    ensures AnyValid(FoundSources(ctx)) <==> |FoundSources(ctx)| > 0
  {
    var f := FoundSources(ctx);
    if |f| > 0 {
      assert f[0] in f;
    }
  }

  /** The initial source is prepended exactly when the target is simple, some source is valid and it is valid. */
  lemma InitialSourcePrepended(ctx: MemberContext)
    ensures var valid := ValidOnly(Enumerated(ctx));
      (|FoundSources(ctx)| == |valid| + 1) <==> (ctx.targetKind == Simple && |valid| > 0 && ctx.initial.isValid)
  {
  }

  /** A map-time source is the only source enumerated. */
  lemma MapTimeSourceWins(ctx: MemberContext, i: nat)
    requires ctx.targetKind != Complex
    requires i < |ctx.mapTimeFactories| && ctx.mapTimeFactories[i].isFor
    requires forall j :: 0 <= j < i ==> !ctx.mapTimeFactories[j].isFor
    ensures Enumerated(ctx) == [ctx.mapTimeFactories[i].created]
  {
    var r := GetMaptimeDataSourceOrNull(ctx);
    assert r.Some?;
    var k :| FirstApplicableAt(ctx.mapTimeFactories, k) && r.value == ctx.mapTimeFactories[k].created;
    assert k == i;
  }

  /** Enumeration stops right after the first unconditional configured source. */
  lemma StopsAtUnconditional(ctx: MemberContext, j: nat)
    requires GetMaptimeDataSourceOrNull(ctx).None?
    requires j < |ctx.configured| && !ctx.configured[j].IsConditional()
    requires forall i :: 0 <= i < j ==> ctx.configured[i].IsConditional()
    ensures |Enumerated(ctx)| == j + 1
    ensures forall i :: 0 <= i <= j ==> Enumerated(ctx)[i] == GetFinalDataSource(ctx, ctx.configured[i], i)
  {
    var u := FirstUnconditional(ctx.configured);
    assert u == Some(j);
  }

  /**
   * A complex target whose configured sources are all conditional gets all of
   * them, then exactly one nested-mapping source at the next index; no
   * source-member sources follow.
   */
  lemma ComplexTargetEndsWithNestedMapping(ctx: MemberContext)
    requires ctx.targetKind == Complex
    requires forall i :: 0 <= i < |ctx.configured| ==> ctx.configured[i].IsConditional()
    ensures var e := Enumerated(ctx);
      |e| == |ctx.configured| + 1 && e[|e| - 1] == ctx.complexSource(|ctx.configured|)
    ensures Enumerated(ctx) == ConfiguredPrefix(ctx, |ctx.configured|) + [ctx.complexSource(|ctx.configured|)]
  {
  }

  /**
   * Any other target without a map-time source, whose configured sources are
   * all conditional, gets all of them, then the source-member sources.
   */
  lemma MemberTargetEndsWithSourceMemberSources(ctx: MemberContext)
    requires ctx.targetKind != Complex && GetMaptimeDataSourceOrNull(ctx).None?
    requires forall i :: 0 <= i < |ctx.configured| ==> ctx.configured[i].IsConditional()
    ensures Enumerated(ctx) == ConfiguredPrefix(ctx, |ctx.configured|) + GetSourceMemberDataSources(ctx, |ctx.configured|)
  {
  }

  /** Whether every source but the last carries a condition. */
  predicate ButLastConditional(s: seq<DataSource>) {
    forall i :: 0 <= i < |s| - 1 ==> s[i].IsConditional()
  }

  ghost predicate WrapKeepsConditions(ctx: MemberContext) {
    forall d: DataSource, i: nat ::
      ctx.wrapEnumerable(d, i).IsConditional() == d.IsConditional()
  }

  /** Whatever the enumeration yields, only its last source may be unconditional. */
  lemma EnumeratedButLastConditional(ctx: MemberContext)
    requires WrapKeepsConditions(ctx)
    ensures ButLastConditional(Enumerated(ctx))
  {
    var u := FirstUnconditional(ctx.configured);
    if GetMaptimeDataSourceOrNull(ctx).None? {
      var n := if u.Some? then u.value + 1 else |ctx.configured|;
      var p := ConfiguredPrefix(ctx, n);
      assert forall i :: 0 <= i < n - 1 ==> p[i] == GetFinalDataSource(ctx, ctx.configured[i], i);
      if u.None? {
        assert forall i :: 0 <= i < n ==> p[i].IsConditional();
        var m := MatchedDataSource(ctx);
        if m.Some? && ctx.targetKind == Enumerable {
          assert m.value == ctx.wrapEnumerable(ctx.matchedSource.value, 0);
        }
      }
    }
  }

  lemma {:induction false} ValidOnlyButLastConditional(s: seq<DataSource>)
    requires ButLastConditional(s)
    ensures ButLastConditional(ValidOnly(s))
  {
    if s != [] {
      ValidOnlyButLastConditional(s[1..]);
      var rest := ValidOnly(s[1..]);
      if s[0].isValid && |rest| > 0 {
        assert |s| > 1;
        assert s[0].IsConditional();
        assert forall i :: 1 <= i < |s| - 1 ==> s[1..][i - 1] == s[i];
      }
    }
  }

  /**
   * The set `FindFor` returns can always be folded into a population
   * statement: its sources are never empty-handed on a null condition.
   */
  lemma FoundSourcesFoldWithoutError(ctx: MemberContext, fallback: Option<Expr>, targetAccess: Expr)
    requires WrapKeepsConditions(ctx) && ctx.initial.IsConditional()
    requires |FoundSources(ctx)| > 0
    ensures PopulationFrom(FoundSources(ctx), 0, fallback, targetAccess).Ok?
  {
    EnumeratedButLastConditional(ctx);
    ValidOnlyButLastConditional(Enumerated(ctx));
    var f := FoundSources(ctx);
    var valid := ValidOnly(Enumerated(ctx));
    if f != valid {
      assert forall i :: 1 <= i < |f| - 1 ==> f[i] == valid[i - 1];
    }
    PopulationNeverFails(f, 0, fallback, targetAccess);
  }
}
