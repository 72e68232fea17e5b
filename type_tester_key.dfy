/**
 * The base of the mapper-cache keys that depend on the runtime types of
 * source members: when a mapping's data sources test the source members'
 * types, the key carries the conjunction of those tests, and another key
 * matches it only when the tests hold of that key's mapping data.
 */
module TypeTesting {
  import opened Ir
  import opened DataSourceSets

  /** What the key reads of a mapping data. */
  datatype MappingData = MappingData(
    isPartOfDerivedTypeMapping: bool,
    dataSourcesByTargetMember: seq<DataSourceSet>)   // the values of DataSourcesByTargetMember, in order

  /** The non-null source-member type tests of the data-source sets, in order (`Select` then `WhereNotNull`). */
  function TypeTests(sets: seq<DataSourceSet>): (r: seq<Expr>)
    ensures |r| <= |sets|
    ensures forall t :: t in r <==> exists i :: 0 <= i < |sets| && sets[i].sourceMemberTypeTest == Some(t)
    ensures r == [] <==> forall i :: 0 <= i < |sets| ==> sets[i].sourceMemberTypeTest.None?
  {
    if sets == [] then []
    else
      var rest := TypeTests(sets[1..]);
      assert forall i :: 1 <= i < |sets| ==> sets[i] == sets[1..][i - 1];
      match sets[0].sourceMemberTypeTest
      case Some(t) => [t] + rest
      case None => rest
  }

  /** All the collected tests hold exactly when every data-source set's own type test, where it has one, holds. */
  lemma TypeTestsHold(sets: seq<DataSourceSet>, holds: Expr -> bool)
    ensures (forall i :: 0 <= i < |TypeTests(sets)| ==> Holds(TypeTests(sets)[i], holds)) <==>
      forall j :: 0 <= j < |sets| && sets[j].sourceMemberTypeTest.Some? ==> Holds(sets[j].sourceMemberTypeTest.value, holds)
  {
    var tests := TypeTests(sets);
    if forall i :: 0 <= i < |tests| ==> Holds(tests[i], holds) {
      forall j | 0 <= j < |sets| && sets[j].sourceMemberTypeTest.Some?
        ensures Holds(sets[j].sourceMemberTypeTest.value, holds)
      {
        var t := sets[j].sourceMemberTypeTest.value;
        assert t in tests;
      }
    }
    if forall j :: 0 <= j < |sets| && sets[j].sourceMemberTypeTest.Some? ==> Holds(sets[j].sourceMemberTypeTest.value, holds) {
      forall i | 0 <= i < |tests|
        ensures Holds(tests[i], holds)
      {
        assert tests[i] in tests;
      }
    }
  }

  class SourceMemberTypeDependentKey {
    var sourceMemberTypeTester: Option<Expr>   // the compiled tester, as the test it was compiled from
    var hasTypeTester: bool
    var mappingData: MappingData
    /** The tests the installed tester conjoins; empty while there is none. */
    ghost var requiredTests: seq<Expr>

    ghost predicate Valid()
      reads this
    {
      && (hasTypeTester <==> sourceMemberTypeTester.Some?)
      && (hasTypeTester <==> requiredTests != [])
      && (hasTypeTester ==> sourceMemberTypeTester == Some(Conjunction(requiredTests)))
    }

    constructor(mappingData: MappingData)
      ensures Valid() && !hasTypeTester && this.mappingData == mappingData
    {
      this.mappingData := mappingData;
      sourceMemberTypeTester := None;
      hasTypeTester := false;
      requiredTests := [];
    }

    /**
     * `AddSourceMemberTypeTesterIfRequired`: a missing argument means the
     * key's own mapping data; a derived-type mapping, or data sources without
     * a type test, leave the key as it was; otherwise the tester becomes the
     * conjunction of every non-null type test.
     */
    method AddSourceMemberTypeTesterIfRequired(argument: Option<MappingData>)
      requires Valid()
      modifies this
      ensures Valid()
      ensures mappingData == old(mappingData)
      ensures var md := if argument.Some? then argument.value else old(mappingData);
        var tests := TypeTests(md.dataSourcesByTargetMember);
        if md.isPartOfDerivedTypeMapping || tests == [] then
          sourceMemberTypeTester == old(sourceMemberTypeTester) && hasTypeTester == old(hasTypeTester) &&
          requiredTests == old(requiredTests)
        else
          hasTypeTester && requiredTests == tests && sourceMemberTypeTester == Some(Conjunction(tests))
    {
      var md := mappingData;
      if argument.Some? {
        md := argument.value;
      }
      if md.isPartOfDerivedTypeMapping {
        return;
      }
      var typeTests := TypeTests(md.dataSourcesByTargetMember);
      if typeTests == [] {
        return;
      }
      var typeTest := Conjunction(typeTests);
      sourceMemberTypeTester := Some(typeTest);
      hasTypeTester := true;
      requiredTests := typeTests;
    }

    /**
     * `SourceHasRequiredTypes`: `holdsForOther` gives the value of each
     * atomic type test against the other key's mapping data. With no tester
     * every key matches; with one, exactly those of whose mapping data every
     * required test holds.
     */
    predicate SourceHasRequiredTypes(holdsForOther: Expr -> bool)
      requires Valid()
      reads this
      ensures SourceHasRequiredTypes(holdsForOther) <==>
        forall i :: 0 <= i < |requiredTests| ==> Holds(requiredTests[i], holdsForOther)
    {
      if hasTypeTester then
        ConjunctionHolds(requiredTests, holdsForOther);
        Holds(sourceMemberTypeTester.value, holdsForOther)
      else
        true
    }
  }
}
