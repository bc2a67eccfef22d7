/** What a schema means, keyword by keyword of the raw document, and which documents its type takes. */
module SchemaKeywords {
  import opened Wrappers
  import opened JsonValues
  import opened MapBlocks
  import opened WireTypes
  import opened Acceptance

  /** The schema lists the name under `required`. */
  predicate Demands(schema: Json, name: string) {
    var required := Get(schema, "required");
    required.Some? && required.value.Arr? && Str(name) in required.value.items
  }

  lemma DemandedNames(schema: Json)
    ensures forall k :: k in RequiredNames(schema) <==> Demands(schema, k)
  {
  }

  /** A schema the ladder looks into: a nonempty object that is no unresolved reference. */
  predicate Resolved(schema: Json) { schema.Obj? && schema.members != [] && !HasKey(schema, "$ref") }

  predicate TypedAs(schema: Json, name: string) { Get(schema, "type") == Some(Str(name)) }

  /** The schema is a list: it says so, or it says no type and has `items`. */
  predicate SaysList(schema: Json) {
    TypedAs(schema, "array")
    || (HasKey(schema, "items") && !(Get(schema, "type").Some? && Get(schema, "type").value.Str?))
  }

  /** Neither a list nor a scalar: what is left is told by its property list. */
  predicate SaysStructure(schema: Json) {
    && Resolved(schema) && !SaysList(schema)
    && !TypedAs(schema, "string") && !TypedAs(schema, "integer") && !TypedAs(schema, "number")
    && !TypedAs(schema, "boolean")
  }

  predicate ListsProperties(schema: Json, ps: seq<Member>) {
    ps != [] && Get(schema, "properties") == Some(Obj(ps))
  }

  /** What the items of a list are, where nothing says anything else. */
  function ItemsOf(schema: Json): Json { if Get(schema, "items").Some? then Get(schema, "items").value else Null }

  lemma UnresolvedIsAny(schema: Json, allOptional: bool)
    requires !Resolved(schema)
    ensures TypeOf(schema, allOptional) == WAny
  {
  }

  lemma ListKeyword(schema: Json, allOptional: bool)
    requires Resolved(schema) && SaysList(schema)
    ensures TypeOf(schema, allOptional) == WList(TypeOf(ItemsOf(schema), allOptional))
  {
    ListIsList(schema);
    NodeMeaning(schema, allOptional);
    hide TypeOf, Classify, Agreeing;
  }

  lemma ListIsList(schema: Json)
    requires Resolved(schema) && SaysList(schema)
    ensures Classify(schema) == ListNode(ItemsOf(schema))
  {
    hide Get, IsMapBlock;
  }

  /** A scalar keyword takes exactly the JSON values of its kind, an integer also serving as a number. */
  lemma ScalarKeywords(schema: Json, v: Json, allOptional: bool)
    requires Resolved(schema)
    ensures TypedAs(schema, "string") ==> (Accepts(TypeOf(schema, allOptional), v) <==> v.Str?)
    ensures TypedAs(schema, "integer") ==> (Accepts(TypeOf(schema, allOptional), v) <==> v.Int?)
    ensures TypedAs(schema, "number") ==> (Accepts(TypeOf(schema, allOptional), v) <==> v.Real? || v.Int?)
    ensures TypedAs(schema, "boolean") ==> (Accepts(TypeOf(schema, allOptional), v) <==> v.Bool?)
    ensures TypedAs(schema, "integer") ==> TypeOf(schema, allOptional) == WScalar(IntScalar)
    ensures TypedAs(schema, "number") ==> TypeOf(schema, allOptional) == WScalar(FloatScalar)
  {
    NodeMeaning(schema, allOptional);
    ScalarNode(schema);
    hide TypeOf, Classify, Agreeing;
  }

  lemma ScalarNode(schema: Json)
    requires Resolved(schema)
    ensures TypedAs(schema, "string") ==> Classify(schema) == WireTypes.ScalarNode(StrScalar)
    ensures TypedAs(schema, "integer") ==> Classify(schema) == WireTypes.ScalarNode(IntScalar)
    ensures TypedAs(schema, "number") ==> Classify(schema) == WireTypes.ScalarNode(FloatScalar)
    ensures TypedAs(schema, "boolean") ==> Classify(schema) == WireTypes.ScalarNode(BoolScalar)
  {
    hide Get, IsMapBlock;
  }

  lemma StructureNode(schema: Json, ps: seq<Member>)
    requires SaysStructure(schema) && ListsProperties(schema, ps)
    ensures Classify(schema) ==
      if forall m <- ps :: IsMapKey(m.key) then MapNode(Values(ps)) else RecordNode(ps, RequiredNames(schema))
  {
    hide Get, IsMapKey;
  }

  /** Property names that are all data make a mapping to the unified example. */
  lemma DataKeysMakeMapping(schema: Json, ps: seq<Member>, allOptional: bool)
    requires SaysStructure(schema) && ListsProperties(schema, ps) && forall m <- ps :: IsMapKey(m.key)
    ensures TypeOf(schema, allOptional) == WDict(TypeOf(Unify(Values(ps)), allOptional))
  {
    StructureNode(schema, ps);
    NodeMeaning(schema, allOptional);
    hide TypeOf, Classify, Agreeing, IsMapKey, Unify;
  }

  /**
   * Any other property list makes a record of the names that are not data, each of its own schema's type,
   * and required exactly where the schema demands it and not everything is optional.
   */
  lemma OtherKeysMakeRecord(schema: Json, ps: seq<Member>, allOptional: bool)
    requires SaysStructure(schema) && ListsProperties(schema, ps) && exists m <- ps :: !IsMapKey(m.key)
    ensures var t := TypeOf(schema, allOptional);
      && t.WRecord?
      && (forall k :: k in t.fields <==> k in KeySet(ps) && !IsMapKey(k))
      && (forall k <- t.fields :: t.fields[k].wireType == TypeOf(At(ps, k), allOptional))
      && (forall k <- t.fields :: t.fields[k].required <==> !allOptional && Demands(schema, k))
  {
    StructureNode(schema, ps);
    NodeMeaning(schema, allOptional);
    DemandedNames(schema);
    hide TypeOf, Classify, Agreeing, IsMapKey, Demands, RequiredNames;
  }

  /** A document without a field its request schema demands is refused. */
  lemma DemandedIsRequired(schema: Json, ps: seq<Member>, k: string, v: Json)
    requires SaysStructure(schema) && ListsProperties(schema, ps) && k in KeySet(ps) && !IsMapKey(k)
    requires Demands(schema, k) && v.Obj? && k !in KeySet(v.members)
    ensures !Accepts(TypeOf(schema, false), v) && TypeOf(schema, true).WRecord?
  {
    hide TypeOf, IsMapKey, Demands, Get, Accepts;
    assert ps[IndexOf(ps, k)] in ps && !IsMapKey(ps[IndexOf(ps, k)].key);
    OtherKeysMakeRecord(schema, ps, false);
    OtherKeysMakeRecord(schema, ps, true);
    MissingIsRefused(TypeOf(schema, false), k, v);
  }

  lemma MissingIsRefused(t: WireType, k: string, v: Json)
    requires t.WRecord? && k in t.fields && t.fields[k].required && v.Obj? && k !in KeySet(v.members)
    ensures !Accepts(t, v)
  {
  }

  lemma RecordDemands(schema: Json)
    requires Classify(schema).RecordNode?
    ensures forall k :: k in Classify(schema).required <==> Demands(schema, k)
  {
    DemandedNames(schema);
    hide Get, IsMapBlock, Demands, RequiredNames;
  }

  /** Without property names, `additionalProperties` says what a mapping maps to. */
  lemma WithoutProperties(schema: Json, allOptional: bool)
    requires SaysStructure(schema) && forall ps :: !ListsProperties(schema, ps)
    ensures var extra := Get(schema, "additionalProperties");
      TypeOf(schema, allOptional) ==
        if extra.Some? && extra.value.Obj? && extra.value.members != [] then WDict(TypeOf(extra.value, allOptional))
        else if TypedAs(schema, "object") || extra.Some? || Get(schema, "properties") == Some(Obj([])) then WDict(WAny)
        else WAny
  {
    NoPropertiesNode(schema);
    NodeMeaning(schema, allOptional);
    hide TypeOf, Classify, Agreeing, Get;
  }

  lemma NoPropertiesNode(schema: Json)
    requires SaysStructure(schema) && forall ps :: !ListsProperties(schema, ps)
    ensures var extra, node := Get(schema, "additionalProperties"), Classify(schema);
      if extra.Some? && extra.value.Obj? && extra.value.members != [] then node == DictNode(extra.value)
      else if TypedAs(schema, "object") || extra.Some? || Get(schema, "properties") == Some(Obj([])) then node.OpenNode?
      else node.Opaque?
  {
    var properties := Get(schema, "properties");
    if properties.Some? && properties.value.Obj? {
      assert !ListsProperties(schema, properties.value.members);
    }
    hide Get, IsMapBlock;
  }
}
