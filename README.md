# AgileMapper mapping-plan compiler, modelled in Dafny

AgileMapper compiles one mapping plan per source type, target type and rule
set (create, merge, overwrite), then caches it. This project models the core
of that compiler:

- **Finding data sources** (`data_source_finder.dfy`, module `DataSourceFinding`).
  For each target member, the candidate data sources are tried in this order:
  - a map-time source, such as a dictionary;
  - the user-configured sources, up to the first unconditional one;
  - a nested complex-type mapping, or the best-matching source member followed by the rule set's fallback.

  Invalid sources are then dropped. For simple members, the rule set's initial source goes first.
- **Data-source sets** (`data_source_set.dfy`, module `DataSourceSets`).
  - The constructor derives the `None`, `HasValue`, `Variables` and `SourceMemberTypeTest` flags.
  - `GetPopulationExpression` folds the sources from last to first into one `if … else …` population statement.
  - `GetFallbackValueOrNull` picks that statement's fallback value.
- **Dictionary sources** (`dictionary_source.dfy`, module `DictionarySources`). This covers:
  - when a `Dictionary<string, V>` source applies, and the key names tried for a target member;
  - what the generated `TryGetValue` lookup does at run time: case-insensitive, first matching key;
  - the indexed probing loop (`name[0]`, `name[1]`, …) that collects the elements of an enumerable target.
- **Null guards for nested accesses** (`nested_access_finder.dfy`, module `NestedAccess`).
  `NestedAccessFinder` is an expression visitor, modelled as a class whose fields the visit methods update. It collects the nullable member accesses that need a null check. It skips accesses already compared with `null` or tested with `HasValue`, and the mapping-data object's own root members.
- **Construction and population of complex types** (`construction_plan.dfy`, module `ConstructionPlan`). These are the pieces `ComplexTypeMappingLambdaFactory` assembles:
  - the new-object construction: a cascade of configured factories and the greediest usable constructor;
  - the short-circuit returns;
  - the object resolution `target = target ?? (created = new …)`;
  - the member populations with their callbacks.
- **Plan cache and cache keys** (`plan_cache.dfy`, module `PlanCache`; `object_mapper_factory.dfy`, module `MapperFactory`).
  - Get-or-add memoisation keyed by `"{source} -> {target}: {rule set} Ctor"` and `"… ObjectMapper"`.
  - The factory dispatches to the enumerable or complex-type lambda factory.
- **Type-tester keys** (`type_tester_key.dfy`, module `TypeTesting`). A cache key can carry the conjunction of its data sources' source-member type tests; another key matches it only when those tests hold.

`ir.dfy` (module `Ir`) holds the expression tree the compiler builds and the small pieces of meaning the proofs need:
- `Holds`: the truth of a conjunction;
- `Selected`: which branch a conditional picks;
- `Assigned`: what a statement assigns to a member;
- `Eval`: evaluation of assignments, coalesces and variables.

## How the collaborators are modelled

Collaborators outside the modelled files are parameters of the model: arrow-typed fields of a context datatype, or arrow-typed parameters. They include:
- the value converters, naming settings and source-member matcher;
- the user-configuration store and the rule set's initial, fallback and short-circuit policies;
- the enumerable lambda factory;
- `Expression.ToString`, which is the `render` parameter.

Some lemmas state a requirement on a collaborator. For example, `WrapKeepsConditions` requires that wrapping a source for an enumerable target keeps its condition. The readings the model gives to framework helpers are listed under "## Left out".

Two behaviours of the code are worth spelling out:
- **Dictionary fallback for non-simple targets.** The code (`DictionaryDataSource.cs:162-165`) coalesces the result of the map call on the collected list with the rule set's fallback value. So the fallback replaces only a null map result; an empty collected list is still mapped. `DictionaryValue.MappedListOrFallback` models exactly that.
- **Construction cascade.** In the code (`ComplexTypeMappingLambdaFactory.cs:154, 163-168`) the greediest constructor is inserted at the head of the list, and the head's expression seeds the `Aggregate`, so the head's own condition is never tested. When every factory is conditional, the constructor is the default. When no constructor is usable, the last configured factory taken is the default, and its condition is dropped; the first configured factory's condition is tested first. `HeadConditionNotTested` states this for any number of conditional factories.

## Model

| member | source | states |
|---|---|---|
| DataSourceSets.NewDataSourceSet | AgileMapper/DataSources/DataSourceSet.cs:15-36 | Proved against the constructor's loop invariants: `None` exactly when there are no sources; `HasValue` exactly when some source is valid; `Variables` is every source's variables concatenated in order; `SourceMemberTypeTest` is `LastTypeTest` |
| DataSourceSets.LastTypeTest | AgileMapper/DataSources/DataSourceSet.cs:31-34 | null exactly when no source has a type test; otherwise the test of a source after which no source has one (a later test overrides an earlier one) |
| DataSourceSets.GetFallbackValueOrNull | AgileMapper/DataSources/DataSourceSet.cs:93-110 | a `Coalesce` last value yields its right operand; otherwise there is no fallback exactly when the last value renders like the target-member access; otherwise the fallback is the last value itself |
| DataSourceSets.GetPopulationExpression | AgileMapper/DataSources/DataSourceSet.cs:50-91 | the reverse loop yields the last-to-first fold `PopulationFrom` of the sources with that fallback; an empty set fails as `Last()` does |
| DataSourceSets.PopulationFrom | AgileMapper/DataSources/DataSourceSet.cs:57-88 | the fold from the source at position k to the last; its meaning is stated by `PopulationMeaning`, and when it cannot fail by `PopulationNeverFails` |
| DataSourceSets.PopulationMeaning | AgileMapper/DataSources/DataSourceSet.cs:57-88 | when the fold succeeds, the statement assigns the target exactly the value of the first source whose guard holds, else the fallback when the last source's guard holds, else nothing |
| DataSourceSets.PopulationNeverFails | AgileMapper/DataSources/DataSourceSet.cs:78-87 | when every source but the last is conditional, `IfThenElse` never receives a null test |
| DataSourceSets.SingleSourceWithoutFallback | AgileMapper/DataSources/DataSourceSet.cs:57-66 | a single source without a fallback produces no population statement (null), which happens only for a non-coalesce value rendered like the target access |
| DataSourceSets.FirstSourceOutermost | AgileMapper/DataSources/DataSourceSet.cs:78-87 | a conditional first source guards its own assignment at the top of the statement |
| DataSourceFinding.GetMaptimeDataSourceOrNull | AgileMapper/DataSources/DataSourceFinder.cs:93-103 | none for complex targets; otherwise none exactly when no map-time factory applies, and else the source created by the first factory that does |
| DataSourceFinding.FirstMapTimeSource | AgileMapper/DataSources/DataSourceFinder.cs:100-102 | `FirstOrDefault(IsFor)?.Create`: none exactly when no factory applies; else the first applicable factory's source |
| DataSourceFinding.GetFinalDataSource | AgileMapper/DataSources/DataSourceFinder.cs:162-173 | enumerable targets get the found source wrapped with its index; other targets get it unchanged |
| DataSourceFinding.GetSourceMemberDataSources | AgileMapper/DataSources/DataSourceFinder.cs:120-160 | with no match, or a match duplicating a configured source: just the fallback, and only after earlier configured sources (index > 0); otherwise the match, followed by the fallback exactly when the match is conditional |
| DataSourceFinding.FirstUnconditional | AgileMapper/DataSources/DataSourceFinder.cs:60-70 | the index of the first unconditional configured source, all before it conditional; none when all are conditional |
| DataSourceFinding.ConfiguredPrefix | AgileMapper/DataSources/DataSourceFinder.cs:60-69 | the first n configured sources, each passed through `GetFinalDataSource` with its running index |
| DataSourceFinding.EnumerateDataSources | AgileMapper/DataSources/DataSourceFinder.cs:42-91 | the generator's loop with its early exits and running index yields exactly `Enumerated` |
| DataSourceFinding.Enumerated | AgileMapper/DataSources/DataSourceFinder.cs:42-91 | the sequence the generator yields; `EnumerateDataSources` is proved to produce it, and `MapTimeSourceWins`, `StopsAtUnconditional`, `ComplexTargetEndsWithNestedMapping` and `EnumeratedButLastConditional` state its shape |
| DataSourceFinding.ValidOnly | AgileMapper/DataSources/DataSourceFinder.cs:22-24 | keeps exactly the valid sources and nothing else |
| DataSourceFinding.ValidOnlyAppend | AgileMapper/DataSources/DataSourceFinder.cs:22-24 | `Where(IsValid)` keeps order: filtering a concatenation concatenates the filtered parts |
| DataSourceFinding.ValidOnlySingleton | AgileMapper/DataSources/DataSourceFinder.cs:22-24 | a single source is kept exactly when it is valid |
| DataSourceFinding.FindFor | AgileMapper/DataSources/DataSourceFinder.cs:20-40 | the set holds the valid enumerated sources, with the rule set's initial source prepended for a simple target when it is valid and something else is; `None` and `HasValue` follow from them |
| DataSourceFinding.FoundSources | AgileMapper/DataSources/DataSourceFinder.cs:20-39 | the sources `FindFor` puts in the set; `FoundSourcesValid`, `InitialSourcePrepended` and `FoundSourcesFoldWithoutError` state what they are |
| DataSourceFinding.FoundSourcesValid | AgileMapper/DataSources/DataSourceFinder.cs:22-39 | every found source is valid, so the set has a value exactly when it is not empty |
| DataSourceFinding.InitialSourcePrepended | AgileMapper/DataSources/DataSourceFinder.cs:26-37 | the initial source is added exactly when the target is simple, some other source is valid and the initial source is valid |
| DataSourceFinding.MapTimeSourceWins | AgileMapper/DataSources/DataSourceFinder.cs:46-52 | an applicable map-time factory pre-empts every other source: its source is the only one enumerated |
| DataSourceFinding.StopsAtUnconditional | AgileMapper/DataSources/DataSourceFinder.cs:60-67 | enumeration stops right after the first unconditional configured source |
| DataSourceFinding.ComplexTargetEndsWithNestedMapping | AgileMapper/DataSources/DataSourceFinder.cs:55-79 | for a complex target whose configured sources are all conditional, the enumeration is exactly those sources, each wrapped with its index, then the nested complex-type mapping at the index after them; no source-member sources follow |
| DataSourceFinding.MemberTargetEndsWithSourceMemberSources | AgileMapper/DataSources/DataSourceFinder.cs:55-90 | for any other target without a map-time source, whose configured sources are all conditional, the enumeration is exactly those sources, then the source-member sources at the index after them |
| DataSourceFinding.EnumeratedButLastConditional | AgileMapper/DataSources/DataSourceFinder.cs:42-91 | only the last enumerated source can be unconditional |
| DataSourceFinding.ValidOnlyButLastConditional | AgileMapper/DataSources/DataSourceFinder.cs:22-24 | dropping invalid sources keeps "only the last may be unconditional" |
| DataSourceFinding.FoundSourcesFoldWithoutError | AgileMapper/DataSources/DataSourceFinder.cs:20-39 | with a conditional initial source, the found sources always fold into a population statement without a null test |
| DictionarySources.IsFor | AgileMapper/DataSources/DictionaryDataSource.cs:13-40 | applies exactly when the source is `Dictionary<string, V>` and, for an enumerable target, V is `object`, the element type or enumerable, or, for any other target, V converts to the target type |
| DictionarySources.DictionaryHasUseableTypes | AgileMapper/DataSources/DictionaryDataSource.cs:20-40 | the key and value conditions of `IsFor`, whose contract states them as an if-and-only-if |
| DictionarySources.PrependEach | AgileMapper/DataSources/DictionaryDataSource.cs:94-99 | every head joined to every tail, and nothing else; size is the product |
| DictionarySources.CartesianProductMembers | AgileMapper/DataSources/DictionaryDataSource.cs:94-99 | a combination is in the product exactly when it picks one alternate from each member in the chain, in order |
| DictionarySources.CartesianProductSize | AgileMapper/DataSources/DictionaryDataSource.cs:94-99 | the product has as many combinations as the product of the alternates' counts |
| DictionarySources.MemberNamesAreAlternates | AgileMapper/DataSources/DictionaryDataSource.cs:101-102 | for a top-level member, the potential names are exactly that member's alternate names |
| DictionarySources.GetPotentialNames | AgileMapper/DataSources/DictionaryDataSource.cs:92-106 | the key names tried for a member; `MemberNamesAreAlternates` and `DeepMemberNames` state exactly which names these are |
| DictionarySources.DeepMemberNames | AgileMapper/DataSources/DictionaryDataSource.cs:101-105 | for a nested member, a name is a potential name exactly when it is a joined name of some combination of the members' alternates |
| DictionarySources.MatchingKey | AgileMapper/DataSources/DictionaryDataSource.cs:113-119 | `Keys.Intersect(names).FirstOrDefault()` returns a key of the dictionary, when it returns one |
| DictionarySources.MatchingKeyFirst | AgileMapper/DataSources/DictionaryDataSource.cs:113-119 | none exactly when no key matches a name case-insensitively; otherwise the first key in enumeration order that does |
| DictionarySources.TryGetValueMeaning | AgileMapper/DataSources/DictionaryDataSource.cs:108-130 | the intended lookup succeeds exactly when some key matches a potential name, and yields the value of the first such key |
| DictionarySources.TryGetValueAsWritten | AgileMapper/DataSources/DictionaryDataSource.cs:108-130 | the lookup as generated answers only with a value of the dictionary, and succeeds exactly when some key matches a potential name or the dictionary has a `""` key |
| DictionarySources.LookupsAgreeUnlessEmptyKey | AgileMapper/DataSources/DictionaryDataSource.cs:119-127 | the lookup as written (`?? string.Empty`) agrees with the intended one whenever a key matches or the dictionary has no `""` key |
| DictionarySources.EmptyKeyAnswersUnmatchedLookup | AgileMapper/DataSources/DictionaryDataSource.cs:119-127 | as written, the dictionary `{"": v}` answers a lookup for `Name` with v; the intended lookup misses |
| DictionarySources.CaseInsensitiveLookup | AgileMapper/DataSources/DictionaryDataSource.cs:113-117 | the key `name` answers the potential name `Name` |
| DictionarySources.NatToString | AgileMapper/DataSources/DictionaryDataSource.cs:180 | the counter's string conversion is a non-empty run of decimal digits |
| DictionarySources.IndexedNames | AgileMapper/DataSources/DictionaryDataSource.cs:177-197 | one probe name `name[i]` per potential name, in order |
| DictionarySources.ProbeBound | AgileMapper/DataSources/DictionaryDataSource.cs:199-211 | a probe can hit only while the index's decimal form fits in the longest key, which bounds the loop |
| DictionarySources.CollectIndexedValues | AgileMapper/DataSources/DictionaryDataSource.cs:177-211 | run after the outer lookup missed, the generated probing loop collects, in order, the values of `name[0]`, `name[1]`, … and stops at the first index no key answers |
| DictionarySources.TryGetIndexedValue | AgileMapper/DataSources/DictionaryDataSource.cs:199-206 | one generated probe `TryGetValue(name[i])`, which answers as the intended lookup of the indexed names |
| DictionarySources.IndexedValuesUnique | AgileMapper/DataSources/DictionaryDataSource.cs:199-211 | that collected list is unique: any two lists with this property are equal |
| DictionarySources.TwoIndexedEntries | AgileMapper/DataSources/DictionaryDataSource.cs:177-211 | `{"Items[0]": x, "Items[1]": y}` collects exactly `[x, y]` for the member `Items` |
| DictionarySources.ProbesAgreeAfterOuterMiss | AgileMapper/DataSources/DictionaryDataSource.cs:108-130 | after the generated outer lookup has missed, the dictionary has no `""` key, so every generated probe `name[i]` answers as the intended lookup does |
| DictionarySources.ValueParsing | AgileMapper/DataSources/DictionaryDataSource.cs:75-166 | with the generated lookup: a hit is converted (simple target) or mapped (other targets); a miss gives the rule set's fallback (simple target) or the mapped probed list coalesced with the fallback |
| DictionarySources.RunValueParsing | AgileMapper/DataSources/DictionaryDataSource.cs:75-223 | running the generated procedure: the generated lookup, and on its miss for a non-simple target the probing loop, whose list holds exactly the probed values up to the first missing index |
| NestedAccess.Reversed | AgileMapper/Members/NestedAccessFinder.cs:37 | `Values.Reverse()`: same length, elements in reverse order |
| NestedAccess.IsNotRootMember | AgileMapper/Members/NestedAccessFinder.cs:78-101 | which member accesses are not the mapping-data object's own; `RootAccessorsNotGuarded` and `ParentNeverGuarded` state its consequences |
| NestedAccess.IsNotRootObject | AgileMapper/Members/NestedAccessFinder.cs:123-127 | any node that is not a member access, or a non-root member access; used by `AddStringMemberAccessSubjectIfAppropriate` |
| NestedAccess.ShouldAddNullCheck | AgileMapper/Members/NestedAccessFinder.cs:137-146 | the five conditions for recording an access; `FindResultEligible` and `FindResultDistinct` state what they guarantee of the result |
| NestedAccess.Scan | AgileMapper/Members/NestedAccessFinder.cs:47-113 | the visit of one expression tree as a function of the collections; `ScanExtends` and `NestedAccessFinder.Visit` connect it to the visitor |
| NestedAccess.AddMemberAccessExtends | AgileMapper/Members/NestedAccessFinder.cs:129-146 | recording an access keeps the path dictionary well formed (one entry per path, each path the access's rendering) and records only eligible accesses |
| NestedAccess.ScanExtends | AgileMapper/Members/NestedAccessFinder.cs:47-113 | a visit only adds to the collections, keeps them well formed, and every access it records is eligible |
| NestedAccess.MemberReadExtends | AgileMapper/Members/NestedAccessFinder.cs:60-76 | the same for a member access, whose subject is visited after the access itself |
| NestedAccess.CallExtends | AgileMapper/Members/NestedAccessFinder.cs:103-113 | the same for a method call |
| NestedAccess.ScanPairExtends | AgileMapper/Members/NestedAccessFinder.cs:47-58 | the same for visiting the two operands of a binary node one after the other |
| NestedAccess.ScanAllExtends | AgileMapper/Members/NestedAccessFinder.cs:47-113 | the same for visiting a list of children in order |
| NestedAccess.FindResultDistinct | AgileMapper/Members/NestedAccessFinder.cs:129-145 | no two accesses returned render the same (the path dictionary never holds a path twice) |
| NestedAccess.FindResultEligible | AgileMapper/Members/NestedAccessFinder.cs:137-146 | every access returned is nullable and rooted in the mapping-data object; it is a non-root member access, or a call neither on the mapping-data object nor declared by `IMappingData`; a string access only when registered as a subject |
| NestedAccess.RootAccessorsNotGuarded | AgileMapper/Members/NestedAccessFinder.cs:85-100 | the mapping-data object's `Source` and `EnumerableIndex` are never returned, nor its `Target` unless target null-checking is on |
| NestedAccess.ParentNeverGuarded | AgileMapper/Members/NestedAccessFinder.cs:80-83 | a `Parent` access is never returned: when it is rooted it is excluded here, and when it is not rooted `ShouldAddNullCheck` rejects it |
| NestedAccess.NotNullComparisonMarks | AgileMapper/Members/NestedAccessFinder.cs:47-55 | after `x != null` is visited, x counts as null-checked and no later visit records an access rendered like x |
| NestedAccess.HasValueMarks | AgileMapper/Members/NestedAccessFinder.cs:64-69 | after `y.HasValue` on a nullable y, y counts as null-checked and that visit records nothing rendered like y |
| NestedAccess.InnerAccessesFirst | AgileMapper/Members/NestedAccessFinder.cs:27-45 | for `data.Target.Customer.Address` the accesses come out innermost first: `[Target, Customer, Address]` with target null-checking, `[Customer, Address]` without |
| NestedAccess.NestedAccessFinder.constructor | AgileMapper/Members/NestedAccessFinder.cs:19-25 | a new finder keeps the mapping-data object and starts with empty collections |
| NestedAccess.NestedAccessFinder.FindIn | AgileMapper/Members/NestedAccessFinder.cs:27-45 | returns the recorded accesses in reverse order of recording (`FindResult`) and leaves the collections cleared |
| NestedAccess.NestedAccessFinder.Visit | AgileMapper/Members/NestedAccessFinder.cs:47-113 | visiting updates the collections exactly as `Scan` describes |
| NestedAccess.NestedAccessFinder.VisitAll | AgileMapper/Members/NestedAccessFinder.cs:47-113 | visiting children in order updates the collections as `ScanAll` describes |
| NestedAccess.NestedAccessFinder.VisitBinary | AgileMapper/Members/NestedAccessFinder.cs:47-58 | marks the left operand of `… != null` as checked when it would otherwise be guarded, then visits both operands |
| NestedAccess.NestedAccessFinder.VisitMember | AgileMapper/Members/NestedAccessFinder.cs:60-76 | for a non-root access: marks a nullable `HasValue` subject, registers a string subject, and records the access when eligible; then visits the subject |
| NestedAccess.NestedAccessFinder.VisitMethodCall | AgileMapper/Members/NestedAccessFinder.cs:103-113 | for a call neither on the mapping-data object nor declared by `IMappingData`: registers a string subject and records the call when eligible; then visits subject and arguments |
| NestedAccess.NestedAccessFinder.AddStringMemberAccessSubjectIfAppropriate | AgileMapper/Members/NestedAccessFinder.cs:115-121 | adds a non-null, non-root string subject to the string subjects, and changes nothing else |
| NestedAccess.NestedAccessFinder.AddMemberAccessIfAppropriate | AgileMapper/Members/NestedAccessFinder.cs:129-135 | records the access under its rendering exactly when `ShouldAddNullCheck` allows it |
| ConstructionPlan.NewConstructorData | AgileMapper/ObjectPopulation/ComplexTypeMappingLambdaFactory.cs:212-222 | constructible exactly when every parameter's data sources have a value; the parameter count; an unconditional `new` with one argument per parameter exactly when constructible |
| ConstructionPlan.ConstructorDatas | AgileMapper/ObjectPopulation/ComplexTypeMappingLambdaFactory.cs:135-147 | one `ConstructorData` per public constructor, in order |
| ConstructionPlan.Greediest | AgileMapper/ObjectPopulation/ComplexTypeMappingLambdaFactory.cs:148-150 | none exactly when no constructor is usable; otherwise a usable one with the most parameters, the first such on ties (`OrderByDescending` is stable) |
| ConstructionPlan.TakenCount | AgileMapper/ObjectPopulation/ComplexTypeMappingLambdaFactory.cs:118-131 | the loop takes every factory up to and including the first unconditional one, or all when all are conditional |
| ConstructionPlan.InsertedAtFront | AgileMapper/ObjectPopulation/ComplexTypeMappingLambdaFactory.cs:118-124 | after inserting the first n factories at the front, position j holds factory n-1-j |
| ConstructionPlan.Constructions | AgileMapper/ObjectPopulation/ComplexTypeMappingLambdaFactory.cs:110-156 | every construction after the head carries a condition |
| ConstructionPlan.NotConstructableIff | AgileMapper/ObjectPopulation/ComplexTypeMappingLambdaFactory.cs:19-20 | not constructable exactly when no factory is configured and no constructor is usable |
| ConstructionPlan.CascadeSelects | AgileMapper/ObjectPopulation/ComplexTypeMappingLambdaFactory.cs:163-168 | the `Aggregate` cascade evaluates to the last construction whose condition holds, or to the head when none does |
| ConstructionPlan.CascadeIgnoresHeadCondition | AgileMapper/ObjectPopulation/ComplexTypeMappingLambdaFactory.cs:163-168 | the `Aggregate` is seeded with the head's expression only, so two lists differing only in the head's condition give the same cascade |
| ConstructionPlan.Cascade | AgileMapper/ObjectPopulation/ComplexTypeMappingLambdaFactory.cs:163-168 | the `Aggregate` of conditionals over the constructions; `CascadeSelects` states which construction it evaluates to |
| ConstructionPlan.NewObjectCreation | AgileMapper/ObjectPopulation/ComplexTypeMappingLambdaFactory.cs:99-170 | the construction expression, or none; `NotConstructableIff`, `FirstConfiguredFactoryTestedFirst`, `DefaultConstruction` and `BuildNewObjectCreation` state what it is |
| ConstructionPlan.FirstConfiguredFactoryTestedFirst | AgileMapper/ObjectPopulation/ComplexTypeMappingLambdaFactory.cs:118-168 | when the first configured factory's condition holds, its object is created, whatever the other conditions |
| ConstructionPlan.DefaultConstruction | AgileMapper/ObjectPopulation/ComplexTypeMappingLambdaFactory.cs:133-168 | when no tested condition holds: the greediest constructor when all factories are conditional and one is usable, otherwise the last factory taken |
| ConstructionPlan.HeadConditionNotTested | AgileMapper/ObjectPopulation/ComplexTypeMappingLambdaFactory.cs:118-168 | with every factory conditional and no usable constructor, the last factory's condition is dropped: the result is the cascade built as if that factory were unconditional; a single conditional factory is used unconditionally |
| ConstructionPlan.BuildNewObjectCreation | AgileMapper/ObjectPopulation/ComplexTypeMappingLambdaFactory.cs:110-168 | the loop with `Insert(0, …)`, its flag and its `break` builds exactly `NewObjectCreation` |
| ConstructionPlan.CtorKey | AgileMapper/ObjectPopulation/ComplexTypeMappingLambdaFactory.cs:101-106 | the construction key ends in `" Ctor"` |
| ConstructionPlan.GetNewObjectCreation | AgileMapper/ObjectPopulation/ComplexTypeMappingLambdaFactory.cs:99-170 | a cached construction is returned with the cache unchanged; otherwise the construction is built once and stored under the key |
| ConstructionPlan.ObjectResolutionKeepsExistingTarget | AgileMapper/ObjectPopulation/ComplexTypeMappingLambdaFactory.cs:90-97 | an existing target is kept and nothing changes; otherwise the new object is assigned to the created-object and target variables |
| ConstructionPlan.GetObjectResolution | AgileMapper/ObjectPopulation/ComplexTypeMappingLambdaFactory.cs:90-97 | `target = target ?? (created = new …)`; `ObjectResolutionKeepsExistingTarget` states what it evaluates to |
| ConstructionPlan.IfThens | AgileMapper/ObjectPopulation/ComplexTypeMappingLambdaFactory.cs:70 | one `if (condition) return null;` per condition, in order |
| ConstructionPlan.GetStrategyShortCircuitReturns | AgileMapper/ObjectPopulation/ComplexTypeMappingLambdaFactory.cs:30-76 | empty without a matching source value; the conditions on the source object itself when that is the value, and the `Expression.Block` error `EmptyBlock` exactly when there are none; otherwise a block declaring `matching<Type>`, assigning the value to it and testing the conditions on it |
| ConstructionPlan.GetShortCircuitReturns | AgileMapper/ObjectPopulation/ComplexTypeMappingLambdaFactory.cs:22-88 | the strategy block, then `if (tryGet) return instance;`; fails exactly when building the strategy block fails |
| ConstructionPlan.GuardedBlockReturns | AgileMapper/ObjectPopulation/ComplexTypeMappingLambdaFactory.cs:61-73 | a block of non-returning statements followed by the guarded returns returns exactly when some condition holds |
| ConstructionPlan.StrategyReturnsIffConditionHolds | AgileMapper/ObjectPopulation/ComplexTypeMappingLambdaFactory.cs:30-76 | building the block fails exactly for the source object with no conditions; a built block returns null exactly when a short-circuit condition on the tested value holds; it never returns without a matching value |
| ConstructionPlan.GetPopulationWithCallbacks | AgileMapper/ObjectPopulation/ComplexTypeMappingLambdaFactory.cs:186-205 | the bare population exactly when both callbacks are empty; otherwise the block pre-callback, population, post-callback |
| ConstructionPlan.CallbacksKeepAssignment | AgileMapper/ObjectPopulation/ComplexTypeMappingLambdaFactory.cs:198-204 | callbacks that do not assign the target leave what the population assigns unchanged |
| ConstructionPlan.GetObjectPopulation | AgileMapper/ObjectPopulation/ComplexTypeMappingLambdaFactory.cs:172-184 | the object-registration call comes first |
| ConstructionPlan.SuccessfulPopulationsMembers | AgileMapper/ObjectPopulation/ComplexTypeMappingLambdaFactory.cs:177-179 | exactly the successful populations appear, each with its callbacks |
| ConstructionPlan.SuccessfulPopulationsAppend | AgileMapper/ObjectPopulation/ComplexTypeMappingLambdaFactory.cs:177-179 | populations keep their order: a later one comes after the earlier ones, and only if successful |
| ConstructionPlan.ObjectPopulationLength | AgileMapper/ObjectPopulation/ComplexTypeMappingLambdaFactory.cs:172-184 | one statement per successful population after the registration call |
| PlanCache.SuffixesExclusive | AgileMapper/ObjectPopulation/ObjectMapperFactory.cs:11 | no key ends in both `" Ctor"` and `" ObjectMapper"` |
| PlanCache.Cache.GetOrAdd | AgileMapper/ObjectPopulation/ObjectMapperFactory.cs:16-23 | a present key returns its entry and leaves the cache unchanged; otherwise the factory runs once and its value is stored; entries keep the kind their key's suffix names |
| MapperFactory.MapperKey | AgileMapper/ObjectPopulation/ObjectMapperFactory.cs:9-14 | the mapper key ends in `" ObjectMapper"` and shares the construction key's stem |
| MapperFactory.MapperKeyNotCtorKey | AgileMapper/ObjectPopulation/ObjectMapperFactory.cs:9-14 | a mapper key never equals a construction key, for any two mappings |
| MapperFactory.MappingLambda | AgileMapper/ObjectPopulation/ObjectMapperFactory.cs:18-20 | enumerable targets use the enumerable lambda factory; all others use the complex-type one |
| MapperFactory.CreateFor | AgileMapper/ObjectPopulation/ObjectMapperFactory.cs:7-26 | a cached mapper is returned with the cache unchanged; otherwise the mapper is built from the dispatched lambda and stored; construction entries are never touched |
| TypeTesting.TypeTests | AgileMapper/ObjectPopulation/SourceMemberTypeDependentKeyBase.cs:30-36 | the non-null type tests of the data-source sets, and only those; empty exactly when no set has one |
| TypeTesting.TypeTestsHold | AgileMapper/ObjectPopulation/SourceMemberTypeDependentKeyBase.cs:30-43 | all collected tests hold exactly when every set's own type test, where it has one, holds |
| Ir.ConjunctionHolds | AgileMapper/ObjectPopulation/SourceMemberTypeDependentKeyBase.cs:43 | `AndTogether` holds exactly when every test does |
| TypeTesting.SourceMemberTypeDependentKey.constructor | AgileMapper/ObjectPopulation/SourceMemberTypeDependentKeyBase.cs:9-16 | a new key has no type tester |
| TypeTesting.SourceMemberTypeDependentKey.AddSourceMemberTypeTesterIfRequired | AgileMapper/ObjectPopulation/SourceMemberTypeDependentKeyBase.cs:18-48 | a missing argument means the key's own mapping data; a derived-type mapping, or no type tests, leaves the key unchanged; otherwise the tester is the conjunction of every non-null test and `_hasTypeTester` becomes true |
| TypeTesting.SourceMemberTypeDependentKey.SourceHasRequiredTypes | AgileMapper/ObjectPopulation/SourceMemberTypeDependentKeyBase.cs:50-51 | true when no tester is installed; otherwise true exactly when every required type test holds of the other key's mapping data |

## Left out

- Concurrency: the `lock` in `NestedAccessFinder.FindIn` (`NestedAccessFinder.cs:31`) and any single-flight behaviour of the mapper context's cache. The cache is a sequential map.
- Reflection and compilation:
  - `GetConstructors`, `GetGenericArguments` and `MakeGenericMethod`: constructors, parameter data-source sets and type arguments are given as data;
  - `Expression.Lambda(...).Compile()` (`SourceMemberTypeDependentKeyBase.cs:44-46`): the tester is kept as the test expression it is compiled from.
- Expression rendering: `Expression.ToString` is the uninterpreted `render` parameter. Textual equality is modelled only through it.
- Collaborators not part of this model, given as parameters: `ReverseChain`/`GetValueExpression` (`DataSourceSet.cs:48`), `SourceMemberMatcher`, `ValueConverters`, `NamingSettings`, the user-configuration store, the rule sets' policies, `GetCallbackOrEmpty`, `GetTryGetCall`, `MemberPopulationFactory`, `EnumerableMappingLambdaFactory`, and the base class `ObjectMappingLambdaFactoryBase`, which assembles the full mapping lambda. `CreateFor` receives the complex-type lambda factory's `Create` as a parameter.
- `CaseInsensitiveStringComparer` is not part of this model. Case-insensitive comparison is ASCII letter folding, which preserves length; the probing-loop bound relies on that.
- `ComplexTypeMappingLambdaFactory.GetReturnValue` (`ComplexTypeMappingLambdaFactory.cs:207-208`) only returns the instance variable. `GetExistingObjectShortCircuit` is modelled only as the statement it builds, inside `GetShortCircuitReturns`.
- `configuredFactory.HasConfiguredCondition` and `GetConditionOrNull` are taken to agree: a factory is conditional exactly when it has a condition.
- `Ir.Eval` evaluates only variables, assignments and coalesces. Other nodes stand for themselves, which is all `ObjectResolutionKeepsExistingTarget` needs.
- Enumeration order of .NET dictionaries: `_memberAccessesByPath.Values` and `DataSourcesByTargetMember.Values` are modelled as insertion-ordered sequences. The source relies on that order too.
- Integer width: the probing counter `i` is a 32-bit `int` in the generated code. The model's counter is unbounded; `ProbeBound` shows that the intended loop stops long before overflow.
- `DictionarySources.CollectIndexedValues` requires that the dictionary has no `""` key. The generated loop runs only after the generated outer lookup missed, and `ProbesAgreeAfterOuterMiss` shows that such a miss rules out a `""` key. `RunValueParsing` calls it only there.
- `DataSourceSets.GetPopulationExpression`: `Expression.IfThenElse` throwing on a null test is the error `NullCondition`, and `Last()` on an empty list is `NoElements`. The exceptions themselves are not modelled.
- `DataSourceFinding.FoundSourcesFoldWithoutError` assumes the rule set's initial source is conditional. A valid unconditional initial source placed before other sources would give `IfThenElse` a null test; that case is the error `NullCondition` of `PopulationFrom`.
- .NET reference equality on `Expression` nodes is modelled as structural equality. This covers the `!=` comparisons and `List.Contains` in `NestedAccessFinder.cs`, and `matchingSourceMemberValue == omc.SourceObject` in `ComplexTypeMappingLambdaFactory.cs:50`. The outcome is the same: the finder deduplicates accesses by their rendered path, and the two short-circuit branches differ only in whether a variable is introduced.
- Readings given to framework helpers that are not part of this model:
  - `IsRootedIn` is `Ir.RootedIn`: the expression is the mapping-data object, or a chain of member reads and calls starting at it;
  - `GetMemberPopulation` and `GetTargetMemberPopulation` are a plain `Assign` of the value to the target member;
  - `AddCondition` wraps a conditional source's population in `IfThen`;
  - `AndTogether` builds a left-nested `And` of the tests;
  - the probing counter's string conversion is `NatToString`, its decimal form;
  - `CanBeNull` holds of every model type except `void`, `bool`, `int` and other structs; `IsNullableType` holds of `Nullable<T>` only; `IsEnumerable` holds of list and dictionary types, and not of `string`.
- `ConstructionPlan.GetObjectPopulation`: its own contract states only that the registration call comes first. Contents and order are stated by `SuccessfulPopulationsMembers`, `SuccessfulPopulationsAppend` and `ObjectPopulationLength`.

## Findings

| source | as written | input that shows it | evidently intended | confidence | as-written member | corrected member |
|---|---|---|---|---|---|---|
| AgileMapper/DataSources/DictionaryDataSource.cs:119-127 | when no key matches a potential name, `FirstOrDefault() ?? string.Empty` makes `TryGetValue` look up the key `""` | a `Dictionary<string, int>` holding only `{"": 5}`, mapped to a member `Name`: the lookup succeeds with 5 | a lookup with no matching key fails | not executed; high | DictionarySources.EmptyKeyAnswersUnmatchedLookup | DictionarySources.TryGetValueMeaning |
