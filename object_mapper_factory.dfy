/**
 * The object-mapper factory: one compiled mapper per source signature,
 * target signature and rule set, built on first request and then served
 * from the mapper context's cache.
 */
module MapperFactory {
  import opened Ir
  import opened PlanCache
  import opened ConstructionPlan

  /** `"{source} -> {target}: {rule set} ObjectMapper"`: the construction key's stem with the other suffix. */
  function MapperKey(ctx: ObjectMappingContext): (key: string)
    ensures EndsWith(key, MapperSuffix)
    ensures key[..|key| - |MapperSuffix|] == CtorKey(ctx)[..|CtorKey(ctx)| - |CtorSuffix|]
  {
    ctx.sourceSignature + " -> " + ctx.targetSignature + ": " + ctx.ruleSetName + MapperSuffix
  }

  /** A mapper key never names a construction entry, whatever the two mappings. */
  lemma MapperKeyNotCtorKey(ctx: ObjectMappingContext, other: ObjectMappingContext)
    ensures MapperKey(ctx) != CtorKey(other)
  {
    SuffixesExclusive(MapperKey(ctx));
  }

  /** The lambda a miss builds: the enumerable factory's for an enumerable target, the complex-type factory's otherwise. */
  function MappingLambda(
    ctx: ObjectMappingContext,
    enumerableFactory: ObjectMappingContext -> Expr,
    complexTypeFactory: ObjectMappingContext -> Expr): (lambda: Expr)
    ensures ctx.targetIsEnumerable ==> lambda == enumerableFactory(ctx)
    ensures !ctx.targetIsEnumerable ==> lambda == complexTypeFactory(ctx)
  {
    if ctx.targetIsEnumerable then enumerableFactory(ctx) else complexTypeFactory(ctx)
  }

  /**
   * `CreateFor`: get-or-add under the mapper key. A hit returns the cached
   * mapper and changes nothing; a miss builds the mapper from the lambda
   * factory the target calls for and stores it. Construction entries are
   * never touched.
   */
  method CreateFor(
    cache: Cache,
    ctx: ObjectMappingContext,
    enumerableFactory: ObjectMappingContext -> Expr,
    complexTypeFactory: ObjectMappingContext -> Expr) returns (mapper: ObjectMapper)
    requires cache.Valid()
    modifies cache
    ensures cache.Valid()
    ensures MapperKey(ctx) in old(cache.entries) ==>
      old(cache.entries)[MapperKey(ctx)] == Mapper(mapper) && cache.entries == old(cache.entries)
    ensures MapperKey(ctx) !in old(cache.entries) ==>
      mapper == ObjectMapper(MappingLambda(ctx, enumerableFactory, complexTypeFactory)) &&
      cache.entries == old(cache.entries)[MapperKey(ctx) := Mapper(mapper)]
    ensures forall other: ObjectMappingContext :: CtorKey(other) in old(cache.entries) ==>
      CtorKey(other) in cache.entries && cache.entries[CtorKey(other)] == old(cache.entries)[CtorKey(other)]
  {
    var mapperKey := MapperKey(ctx);
    SuffixesExclusive(mapperKey);
    var value, _ := cache.GetOrAdd(mapperKey, k => Mapper(ObjectMapper(MappingLambda(ctx, enumerableFactory, complexTypeFactory))));
    mapper := value.mapper;
    forall other: ObjectMappingContext
      ensures CtorKey(other) != mapperKey
    {
      MapperKeyNotCtorKey(ctx, other);
    }
  }
}
