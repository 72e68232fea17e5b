/**
 * The dictionary data source: a map-time source for string-keyed
 * dictionaries. It decides when it applies, which key names a target member
 * answers to, and what the procedure it generates does at run time
 * (AgileMapper/DataSources/DictionaryDataSource.cs).
 */
module DictionarySources {
  import opened Ir
  import opened DataSourceFinding

  /** What the dictionary source sees of one target member and its collaborators. */
  datatype DictionaryContext = DictionaryContext(
    sourceType: Type,
    targetKind: TargetKind,
    targetType: Type,
    elementType: Type,                          // the target member's element type, when enumerable
    memberChain: seq<string>,                   // the target member path, root first
    canConvert: (Type, Type) -> bool,           // ValueConverters.CanConvert
    alternateNames: string -> seq<string>,      // NamingSettings.GetAlternateNamesFor
    joinedNames: seq<string> -> seq<string>)    // NamingSettings.GetJoinedNamesFor

  /** `DictionaryHasUseableTypes`: a string key, and a value type the target can use. */
  predicate DictionaryHasUseableTypes(ctx: DictionaryContext)
    requires ctx.sourceType.DictionaryOf?
  {
    var keyType := ctx.sourceType.key;
    var valueType := ctx.sourceType.value;
    if keyType != StringType then false
    else if ctx.targetKind == Enumerable then
      valueType == ObjectType || valueType == ctx.elementType || IsEnumerable(valueType)
    else ctx.canConvert(valueType, ctx.targetType)
  }

  /** `IsFor`: the factory applies to `Dictionary<string, TValue>` sources with a usable value type. */
  function IsFor(ctx: DictionaryContext): (r: bool)
    ensures r <==>
      && ctx.sourceType.DictionaryOf?
      && ctx.sourceType.key == StringType
      && var v := ctx.sourceType.value;
         if ctx.targetKind == Enumerable then v == ObjectType || v == ctx.elementType || IsEnumerable(v)
         else ctx.canConvert(v, ctx.targetType)
  {
    ctx.sourceType.DictionaryOf? && DictionaryHasUseableTypes(ctx)
  }

  // ---------------------------------------------------------------------------
  // Candidate key names

  /** Every combination taking one entry from each list, the first list varying slowest. */
  function CartesianProduct(lists: seq<seq<string>>): seq<seq<string>> {
    if lists == [] then [[]] else PrependEach(lists[0], CartesianProduct(lists[1..]))
  }

  function PrependEach(heads: seq<string>, tails: seq<seq<string>>): (r: seq<seq<string>>)
    ensures |r| == |heads| * |tails|
    ensures forall c :: c in r <==> exists h, t :: h in heads && t in tails && c == [h] + t
  {
    if heads == [] then []
    else
      var r := seq(|tails|, j requires 0 <= j < |tails| => [heads[0]] + tails[j]) + PrependEach(heads[1..], tails);
      assert forall c :: c in r <==> exists h, t :: h in heads && t in tails && c == [h] + t by {
        forall c ensures c in r <==> exists h, t :: h in heads && t in tails && c == [h] + t {
          if c in r {
            if c in PrependEach(heads[1..], tails) {
              var h, t :| h in heads[1..] && t in tails && c == [h] + t;
              assert h in heads;
            } else {
              var j :| 0 <= j < |tails| && c == [heads[0]] + tails[j];
              assert tails[j] in tails;
            }
          } else {
            forall h, t | h in heads && t in tails ensures c != [h] + t {
              if h == heads[0] {
                var j :| 0 <= j < |tails| && tails[j] == t;
                assert seq(|tails|, j requires 0 <= j < |tails| => [heads[0]] + tails[j])[j] == [h] + t;
              } else {
                assert h in heads[1..];
              }
            }
          }
        }
      }
      r
  }

  /** A combination is in the product exactly when it picks, position by position, an entry of each list. */
  lemma {:induction false} CartesianProductMembers(lists: seq<seq<string>>, c: seq<string>)
    ensures c in CartesianProduct(lists) <==> |c| == |lists| && forall i :: 0 <= i < |c| ==> c[i] in lists[i]
  {
    if lists != [] {
      if |c| == |lists| && forall i :: 0 <= i < |c| ==> c[i] in lists[i] {
        var t := c[1..];
        assert forall i :: 0 <= i < |t| ==> t[i] == c[i + 1] && lists[1..][i] == lists[i + 1];
        CartesianProductMembers(lists[1..], t);
        assert c == [c[0]] + t;
      }
      if c in CartesianProduct(lists) {
        var h, t :| h in lists[0] && t in CartesianProduct(lists[1..]) && c == [h] + t;
        CartesianProductMembers(lists[1..], t);
        assert forall i :: 1 <= i < |c| ==> c[i] == t[i - 1] && lists[i] == lists[1..][i - 1];
      }
    }
  }

  /** The product has as many combinations as the product of the lists' lengths. */
  lemma {:induction false} CartesianProductSize(lists: seq<seq<string>>)
    ensures |CartesianProduct(lists)| == Product(lists)
  {
    if lists != [] {
      CartesianProductSize(lists[1..]);
    }
  }

  function Product(lists: seq<seq<string>>): nat {
    if lists == [] then 1 else |lists[0]| * Product(lists[1..])
  }

  function Flatten(lists: seq<seq<string>>): seq<string> {
    if lists == [] then [] else lists[0] + Flatten(lists[1..])
  }

  function JoinEach(joined: seq<string> -> seq<string>, combos: seq<seq<string>>): seq<seq<string>> {
    seq(|combos|, i requires 0 <= i < |combos| => joined(combos[i]))
  }

  /** The alternates of every segment after the root. */
  function SegmentAlternates(ctx: DictionaryContext): seq<seq<string>>
    requires |ctx.memberChain| > 0
  {
    seq(|ctx.memberChain| - 1, i requires 0 <= i < |ctx.memberChain| - 1 => ctx.alternateNames(ctx.memberChain[i + 1]))
  }

  /**
   * `GetPotentialNames`: the product of the segments' alternates; for a
   * one-segment member its alternates flattened, otherwise each combination's
   * joined names.
   */
  function GetPotentialNames(ctx: DictionaryContext): seq<string>
    requires |ctx.memberChain| > 0
  {
    var alternateNames := CartesianProduct(SegmentAlternates(ctx));
    if |ctx.memberChain| == 2 then Flatten(alternateNames)
    else Flatten(JoinEach(ctx.joinedNames, alternateNames))
  }

  /** A member one level below the root answers to exactly its own alternate names, in order. */
  lemma MemberNamesAreAlternates(ctx: DictionaryContext)
    requires |ctx.memberChain| == 2
    ensures GetPotentialNames(ctx) == ctx.alternateNames(ctx.memberChain[1])
  {
    var alts := ctx.alternateNames(ctx.memberChain[1]);
    assert SegmentAlternates(ctx) == [alts];
    assert CartesianProduct([alts][1..]) == [[]];
    FlattenSingletons(alts);
  }

  lemma {:induction false} FlattenSingletons(names: seq<string>)
    ensures Flatten(PrependEach(names, [[]])) == names
  {
    if names != [] {
      var rest := PrependEach(names[1..], [[]]);
      assert [names[0]] + [] == [names[0]];
      assert seq(1, j requires 0 <= j < 1 => [names[0]] + [[]][j]) == [[names[0]]];
      assert PrependEach(names, [[]]) == [[names[0]]] + rest;
      assert ([[names[0]]] + rest)[1..] == rest;
      FlattenSingletons(names[1..]);
    }
  }

  /** Deeper members answer to exactly the joined names of the combinations of segment alternates. */
  lemma {:induction false} DeepMemberNames(ctx: DictionaryContext, name: string)
    requires |ctx.memberChain| > 2
    ensures name in GetPotentialNames(ctx) <==>
      exists c :: c in CartesianProduct(SegmentAlternates(ctx)) && name in ctx.joinedNames(c)
  {
    var combos := CartesianProduct(SegmentAlternates(ctx));
    var joined := JoinEach(ctx.joinedNames, combos);
    if name in GetPotentialNames(ctx) {
      var i := FlattenMember(joined, name);
      assert combos[i] in combos;
    }
    if exists c :: c in combos && name in ctx.joinedNames(c) {
      var c :| c in combos && name in ctx.joinedNames(c);
      var i :| 0 <= i < |combos| && combos[i] == c;
      FlattenContains(joined, i, name);
    }
  }

  lemma {:induction false} FlattenMember(lists: seq<seq<string>>, name: string) returns (i: nat)
    requires name in Flatten(lists)
    ensures i < |lists| && name in lists[i]
  {
    if name in lists[0] {
      i := 0;
    } else {
      var j := FlattenMember(lists[1..], name);
      i := j + 1;
    }
  }

  lemma {:induction false} FlattenContains(lists: seq<seq<string>>, i: nat, name: string)
    requires i < |lists| && name in lists[i]
    ensures name in Flatten(lists)
  {
    if i > 0 {
      FlattenContains(lists[1..], i - 1, name);
    }
  }

  // ---------------------------------------------------------------------------
  // Run-time lookup

  /** Upper-casing of ASCII letters: the case-insensitive comparer's folding. */
  function Fold(c: char): char {
    if 'a' <= c <= 'z' then (c as int - 32) as char else c
  }

  predicate EqualsIgnoreCase(a: string, b: string) {
    |a| == |b| && forall i :: 0 <= i < |a| ==> Fold(a[i]) == Fold(b[i])
  }

  predicate MatchesSome(key: string, candidates: seq<string>) {
    exists c :: c in candidates && EqualsIgnoreCase(key, c)
  }

  /** A source dictionary: its keys in enumeration order and the value of each. */
  datatype Dictionary<V> = Dictionary(keys: seq<string>, values: map<string, V>)

  ghost predicate ValidDictionary<V>(d: Dictionary<V>) {
    (forall i, j :: 0 <= i < j < |d.keys| ==> d.keys[i] != d.keys[j]) &&
    (forall k :: k in d.values <==> k in d.keys)
  }

  /** `Keys.Intersect(names, CaseInsensitiveStringComparer).FirstOrDefault()`: the first key matching a name. */
  function MatchingKey(keys: seq<string>, candidates: seq<string>): (r: Option<string>)
    ensures r.Some? ==> r.value in keys
  {
    if keys == [] then None
    else if MatchesSome(keys[0], candidates) then Some(keys[0])
    else MatchingKey(keys[1..], candidates)
  }

  /** The key found is the first key matching some candidate; none is found when no key matches. */
  lemma {:induction false} MatchingKeyFirst(keys: seq<string>, candidates: seq<string>)
    ensures var r := MatchingKey(keys, candidates);
      (r.None? <==> forall k :: k in keys ==> !MatchesSome(k, candidates)) &&
      (r.Some? ==> exists i :: 0 <= i < |keys| && keys[i] == r.value && MatchesSome(keys[i], candidates) &&
                     forall j :: 0 <= j < i ==> !MatchesSome(keys[j], candidates))
  {
    if keys != [] && !MatchesSome(keys[0], candidates) {
      MatchingKeyFirst(keys[1..], candidates);
      var r := MatchingKey(keys, candidates);
      if r.Some? {
        var i :| 0 <= i < |keys[1..]| && keys[1..][i] == r.value && MatchesSome(keys[1..][i], candidates) &&
                 forall j :: 0 <= j < i ==> !MatchesSome(keys[1..][j], candidates);
        assert keys[i + 1] == r.value;
      }
      assert forall k :: k in keys ==> k == keys[0] || k in keys[1..];
    }
  }

  /** The lookup as generated: the matching key, or the empty string when none matches. */
  function TryGetValueAsWritten<V>(d: Dictionary<V>, candidates: seq<string>): (r: Option<V>)
    ensures r.Some? ==> exists k :: k in d.values && d.values[k] == r.value
    ensures ValidDictionary(d) ==> (r.Some? <==> MatchingKey(d.keys, candidates).Some? || "" in d.keys)
  {
    var m := MatchingKey(d.keys, candidates);
    var key := if m.Some? then m.value else "";
    if key in d.values then Some(d.values[key]) else None
  }

  /** The lookup as intended: succeeds exactly when some key matches a candidate name. */
  function TryGetValue<V>(d: Dictionary<V>, candidates: seq<string>): Option<V>
    requires ValidDictionary(d)
  {
    var m := MatchingKey(d.keys, candidates);
    if m.Some? then Some(d.values[m.value]) else None
  }

  /** The intended lookup succeeds exactly when some key matches, with the first matching key's value. */
  lemma TryGetValueMeaning<V>(d: Dictionary<V>, candidates: seq<string>)
    requires ValidDictionary(d)
    ensures var r := TryGetValue(d, candidates);
      (r.Some? <==> exists k :: k in d.keys && MatchesSome(k, candidates)) &&
      (r.Some? ==> exists i :: 0 <= i < |d.keys| && MatchesSome(d.keys[i], candidates) && r.value == d.values[d.keys[i]] &&
                     forall j :: 0 <= j < i ==> !MatchesSome(d.keys[j], candidates))
  {
    MatchingKeyFirst(d.keys, candidates);
  }

  /** The two lookups agree except when no key matches and the dictionary has an empty-string key. */
  lemma LookupsAgreeUnlessEmptyKey<V>(d: Dictionary<V>, candidates: seq<string>)
    requires ValidDictionary(d)
    ensures MatchingKey(d.keys, candidates).Some? || "" !in d.keys ==>
      TryGetValueAsWritten(d, candidates) == TryGetValue(d, candidates)
  {
    MatchingKeyFirst(d.keys, candidates);
  }

  /** Counterexample: with an empty-string key, a member whose name matches no key still gets a value. */
  lemma EmptyKeyAnswersUnmatchedLookup(v: int)
    ensures var d := Dictionary([""], map["" := v]);
      ValidDictionary(d) && TryGetValueAsWritten(d, ["Name"]) == Some(v) && TryGetValue(d, ["Name"]).None?
  {
    var d := Dictionary([""], map["" := v]);
    assert !EqualsIgnoreCase("", "Name");
    assert !MatchesSome("", ["Name"]);
  }

  /** Keys are compared ignoring case: "name" answers to a member named "Name". */
  lemma CaseInsensitiveLookup(v: int)
    ensures TryGetValue(Dictionary(["name"], map["name" := v]), ["Name"]) == Some(v)
  {
    assert EqualsIgnoreCase("name", "Name") by {
      assert Fold('n') == 'N';
    }
    assert MatchesSome("name", ["Name"]);
  }

  // ---------------------------------------------------------------------------
  // Indexed probing for enumerable members

  function Digit(n: nat): char
    requires n < 10
  {
    "0123456789"[n]
  }

  /** The counter's conversion to a string: decimal digits. */
  function NatToString(n: nat): (s: string)
    ensures |s| >= 1
    ensures forall i :: 0 <= i < |s| ==> '0' <= s[i] <= '9'
  {
    if n < 10 then [Digit(n)] else NatToString(n / 10) + [Digit(n % 10)]
  }

  function Pow10(k: nat): (r: nat)
    ensures r >= 1
  {
    if k == 0 then 1 else 10 * Pow10(k - 1)
  }

  lemma {:induction false} Pow10Monotone(a: nat, b: nat)
    requires a <= b
    ensures Pow10(a) <= Pow10(b)
    decreases b
  {
    if a < b {
      Pow10Monotone(a, b - 1);
    }
  }

  /** A number is below ten to the power of its digit count. */
  lemma {:induction false} NatToStringBound(n: nat)
    ensures n < Pow10(|NatToString(n)|)
  {
    if n >= 10 {
      NatToStringBound(n / 10);
      var k := |NatToString(n / 10)|;
      assert |NatToString(n)| == k + 1;
      assert n / 10 + 1 <= Pow10(k);
      assert n < 10 * (n / 10 + 1);
    }
  }

  /** `name + "[" + i + "]"` */
  function IndexedName(name: string, i: nat): string {
    name + "[" + NatToString(i) + "]"
  }

  function IndexedNames(names: seq<string>, i: nat): (r: seq<string>)
    ensures |r| == |names|
    ensures forall j :: 0 <= j < |names| ==> r[j] == IndexedName(names[j], i)
  {
    seq(|names|, j requires 0 <= j < |names| => IndexedName(names[j], i))
  }

  /** The probe for counter value i. */
  function IndexedLookup<V>(d: Dictionary<V>, names: seq<string>, i: nat): Option<V>
    requires ValidDictionary(d)
  {
    TryGetValue(d, IndexedNames(names, i))
  }

  function MaxLength(keys: seq<string>): (r: nat)
    ensures forall k :: k in keys ==> |k| <= r
  {
    if keys == [] then 0
    else
      var rest := MaxLength(keys[1..]);
      if |keys[0]| > rest then |keys[0]| else rest
  }

  /** A probe can only succeed below a bound fixed by the longest key. */
  lemma ProbeBound<V>(d: Dictionary<V>, names: seq<string>, i: nat)
    requires ValidDictionary(d)
    requires IndexedLookup(d, names, i).Some?
    ensures i < Pow10(MaxLength(d.keys))
  {
    TryGetValueMeaning(d, IndexedNames(names, i));
    var k :| k in d.keys && MatchesSome(k, IndexedNames(names, i));
    var c :| c in IndexedNames(names, i) && EqualsIgnoreCase(k, c);
    var j :| 0 <= j < |names| && c == IndexedName(names[j], i);
    assert |NatToString(i)| <= |k|;
    NatToStringBound(i);
    Pow10Monotone(|NatToString(i)|, MaxLength(d.keys));
  }

  /** The values of probes 0 .. |s| - 1, in order: each probe found the corresponding value. */
  ghost predicate Collected<V>(d: Dictionary<V>, names: seq<string>, s: seq<V>)
    requires ValidDictionary(d)
    decreases |s|
  {
    s == [] || (Collected(d, names, s[..|s| - 1]) && IndexedLookup(d, names, |s| - 1) == Some(s[|s| - 1]))
  }

  lemma {:induction false} CollectedMeaning<V>(d: Dictionary<V>, names: seq<string>, s: seq<V>)
    requires ValidDictionary(d)
    ensures Collected(d, names, s) <==> forall j :: 0 <= j < |s| ==> IndexedLookup(d, names, j) == Some(s[j])
    decreases |s|
  {
    if s != [] {
      var front := s[..|s| - 1];
      CollectedMeaning(d, names, front);
      assert forall j :: 0 <= j < |front| ==> front[j] == s[j];
    }
  }

  /**
   * The loop is reached only after the outer lookup, as written, missed; the
   * dictionary then has no empty-string key, so each probe, as written,
   * answers exactly as the intended lookup does.
   */
  lemma ProbesAgreeAfterOuterMiss<V>(d: Dictionary<V>, outer: seq<string>, names: seq<string>, i: nat)
    requires ValidDictionary(d)
    requires TryGetValueAsWritten(d, outer).None?
    ensures "" !in d.keys
    ensures TryGetValueAsWritten(d, IndexedNames(names, i)) == IndexedLookup(d, names, i)
  {
    EmptyKeyAlwaysAnswers(d, outer);
    AsWrittenProbe(d, names, i);
  }

  /** With an empty-string key, the lookup as written always succeeds. */
  lemma EmptyKeyAlwaysAnswers<V>(d: Dictionary<V>, candidates: seq<string>)
    requires ValidDictionary(d)
    ensures "" in d.keys ==> TryGetValueAsWritten(d, candidates).Some?
  {
  }

  /** Without an empty-string key, a probe as written answers as the intended probe does. */
  lemma AsWrittenProbe<V>(d: Dictionary<V>, names: seq<string>, i: nat)
    requires ValidDictionary(d) && "" !in d.keys
    ensures TryGetValueAsWritten(d, IndexedNames(names, i)) == IndexedLookup(d, names, i)
  {
    LookupsAgreeUnlessEmptyKey(d, IndexedNames(names, i));
  }

  lemma CollectedStep<V>(d: Dictionary<V>, names: seq<string>, s: seq<V>, v: V)
    requires ValidDictionary(d)
    requires Collected(d, names, s) && IndexedLookup(d, names, |s|) == Some(v)
    ensures Collected(d, names, s + [v])
  {
    assert (s + [v])[..|s|] == s;
  }

  /** One probe as generated: `TryGetValue` on the first key matching some `name[i]`, or on `""`. */
  method TryGetIndexedValue<V>(d: Dictionary<V>, names: seq<string>, i: nat) returns (found: Option<V>)
    requires ValidDictionary(d) && "" !in d.keys
    ensures found == IndexedLookup(d, names, i)
  {
    found := TryGetValueAsWritten(d, IndexedNames(names, i));
    AsWrittenProbe(d, names, i);
  }

  /**
   * The loop of `GetEnumerablePopulation`, with the lookup as generated:
   * probe `name[0]`, `name[1]`, ... and collect values until the first miss.
   * It runs after the outer lookup missed, so there is no empty-string key.
   */
  method CollectIndexedValues<V>(d: Dictionary<V>, names: seq<string>) returns (sourceList: seq<V>)
    requires ValidDictionary(d) && "" !in d.keys
    ensures forall j :: 0 <= j < |sourceList| ==> IndexedLookup(d, names, j) == Some(sourceList[j])
    ensures IndexedLookup(d, names, |sourceList|).None?
  {
    sourceList := [];
    var i := 0;
    while true
      invariant i == |sourceList|
      invariant Collected(d, names, sourceList)
      decreases Pow10(MaxLength(d.keys)) - i
    {
      var found := TryGetIndexedValue(d, names, i);
      if found.None? {
        break;
      }
      ProbeBound(d, names, i);
      CollectedStep(d, names, sourceList, found.value);
      sourceList := sourceList + [found.value];
      i := i + 1;
    }
    CollectedMeaning(d, names, sourceList);
  }

  /** The values collected are determined: two runs of the probe agree. */
  lemma {:induction false} IndexedValuesUnique<V>(d: Dictionary<V>, names: seq<string>, a: seq<V>, b: seq<V>)
    requires ValidDictionary(d)
    requires forall j :: 0 <= j < |a| ==> IndexedLookup(d, names, j) == Some(a[j])
    requires IndexedLookup(d, names, |a|).None?
    requires forall j :: 0 <= j < |b| ==> IndexedLookup(d, names, j) == Some(b[j])
    requires IndexedLookup(d, names, |b|).None?
    ensures a == b
  {
    assert |a| == |b|;
  }

  /** "Items[0]" and "Items[1]" present, "Items[2]" absent: exactly those two values, in index order. */
  lemma TwoIndexedEntries(x: int, y: int, values: seq<int>)
    requires var d := Dictionary(["Items[0]", "Items[1]"], map["Items[0]" := x, "Items[1]" := y]);
      ValidDictionary(d) &&
      (forall j :: 0 <= j < |values| ==> IndexedLookup(d, ["Items"], j) == Some(values[j])) &&
      IndexedLookup(d, ["Items"], |values|).None?
    ensures values == [x, y]
  {
    var d := Dictionary(["Items[0]", "Items[1]"], map["Items[0]" := x, "Items[1]" := y]);
    TwoIndexedLookups(x, y);
    IndexedValuesUnique(d, ["Items"], values, [x, y]);
  }

  lemma TwoIndexedLookups(x: int, y: int)
    ensures var d := Dictionary(["Items[0]", "Items[1]"], map["Items[0]" := x, "Items[1]" := y]);
      ValidDictionary(d) &&
      IndexedLookup(d, ["Items"], 0) == Some(x) &&
      IndexedLookup(d, ["Items"], 1) == Some(y) &&
      IndexedLookup(d, ["Items"], 2).None?
  {
    var d := Dictionary(["Items[0]", "Items[1]"], map["Items[0]" := x, "Items[1]" := y]);
    var names := ["Items"];
    assert NatToString(0) == "0" && NatToString(1) == "1" && NatToString(2) == "2";
    assert IndexedName("Items", 0) == "Items[0]";
    assert IndexedName("Items", 1) == "Items[1]";
    assert IndexedName("Items", 2) == "Items[2]";
    assert IndexedNames(names, 0) == ["Items[0]"];
    assert IndexedNames(names, 1) == ["Items[1]"];
    assert IndexedNames(names, 2) == ["Items[2]"];
    assert EqualsIgnoreCase("Items[0]", "Items[0]");
    assert EqualsIgnoreCase("Items[1]", "Items[1]");
    assert !EqualsIgnoreCase("Items[0]", "Items[1]") by { assert Fold("Items[0]"[6]) != Fold("Items[1]"[6]); }
    assert !EqualsIgnoreCase("Items[0]", "Items[2]") by { assert Fold("Items[0]"[6]) != Fold("Items[2]"[6]); }
    assert !EqualsIgnoreCase("Items[1]", "Items[2]") by { assert Fold("Items[1]"[6]) != Fold("Items[2]"[6]); }
    assert !MatchesSome("Items[0]", ["Items[1]"]);
    assert !MatchesSome("Items[0]", ["Items[2]"]);
    assert !MatchesSome("Items[1]", ["Items[2]"]);
    assert MatchesSome("Items[0]", ["Items[0]"]);
    assert MatchesSome("Items[1]", ["Items[1]"]);
    assert d.keys[1..] == ["Items[1]"];
    assert d.keys[1..][1..] == [];
  }

  // ---------------------------------------------------------------------------
  // The value the generated procedure produces

  /**
   * The run-time outcome of `GetValueParsing`: a converted value, a nested
   * map call on one value, a map call on the collected list (itself
   * coalesced with the fallback), or the rule set's fallback value.
   */
  datatype DictionaryValue<V> = Converted(value: V) | Mapped(value: V) | MappedListOrFallback(values: seq<V>) | Fallback

  /**
   * The meaning of `GetValueParsing` at run time, given the collected indexed
   * values. Which values are collected is stated by `RunValueParsing` and
   * `CollectIndexedValues`; the lookup itself by `TryGetValueAsWritten`.
   */
  function ValueParsing<V>(ctx: DictionaryContext, d: Dictionary<V>, names: seq<string>, indexed: seq<V>): (r: DictionaryValue<V>)
    ensures TryGetValueAsWritten(d, names).Some? && ctx.targetKind == Simple ==> r == Converted(TryGetValueAsWritten(d, names).value)
    ensures TryGetValueAsWritten(d, names).Some? && ctx.targetKind != Simple ==> r == Mapped(TryGetValueAsWritten(d, names).value)
    ensures TryGetValueAsWritten(d, names).None? && ctx.targetKind == Simple ==> r == Fallback
    ensures TryGetValueAsWritten(d, names).None? && ctx.targetKind != Simple ==> r == MappedListOrFallback(indexed)
  {
    match TryGetValueAsWritten(d, names)
    case Some(v) => if ctx.targetKind == Simple then Converted(v) else Mapped(v)
    case None => if ctx.targetKind == Simple then Fallback else MappedListOrFallback(indexed)
  }

  /** The generated procedure run against a dictionary: lookup, then the probing loop on a miss. */
  method RunValueParsing<V>(ctx: DictionaryContext, d: Dictionary<V>) returns (r: DictionaryValue<V>)
    requires ValidDictionary(d) && |ctx.memberChain| > 0
    ensures var names := GetPotentialNames(ctx);
      r.MappedListOrFallback? ==>
        TryGetValueAsWritten(d, names).None? && ctx.targetKind != Simple &&
        (forall j :: 0 <= j < |r.values| ==> IndexedLookup(d, names, j) == Some(r.values[j])) &&
        IndexedLookup(d, names, |r.values|).None?
    ensures var names := GetPotentialNames(ctx);
      !r.MappedListOrFallback? ==> r == ValueParsing(ctx, d, names, [])
  {
    var names := GetPotentialNames(ctx);
    var found := TryGetValueAsWritten(d, names);
    if found.None? && ctx.targetKind != Simple {
      ProbesAgreeAfterOuterMiss(d, names, names, 0);
      var sourceList := CollectIndexedValues(d, names);
      return MappedListOrFallback(sourceList);
    }
    r := ValueParsing(ctx, d, names, []);
  }
}
