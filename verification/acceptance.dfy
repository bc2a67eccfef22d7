/**
 * Which documents a schema documents, which documents an emitted type accepts on the wire, and the proof
 * that compiling a schema to a type never rejects a document the schema documents.
 */
module Acceptance {
  import opened Wrappers
  import opened JsonValues
  import opened MapBlocks
  import opened WireTypes

  predicate ScalarFits(scalar: Scalar, v: Json) {
    match scalar
    case StrScalar => v.Str?
    case IntScalar => v.Int?
    case FloatScalar => v.Real? || v.Int?
    case BoolScalar => v.Bool?
  }

  /**
   * What a type accepts on the wire, fields found under their wire names only: extra keys are allowed, a
   * field that is not required may be missing or null, and an integer serves as a float.
   */
  predicate Accepts(t: WireType, v: Json)
    decreases v
  {
    match t
    case WAny => true
    case WScalar(scalar) => ScalarFits(scalar, v)
    case WList(item) => v.Arr? && forall x <- v.items :: Accepts(item, x)
    case WDict(value) => v.Obj? && forall m <- v.members :: Accepts(value, m.value)
    case WRecord(fields) =>
      && v.Obj?
      && (forall m <- v.members :: m.key in fields ==>
            Accepts(fields[m.key].wireType, m.value) || (!fields[m.key].required && m.value.Null?))
      && (forall k <- fields.Keys :: fields[k].required ==> k in KeySet(v.members))
  }

  /**
   * The documents a schema documents: an object uses documented names only, apart from data-shaped
   * keys; each value under a data-keyed block has the shape of one of the block's examples.
   */
  ghost predicate Fits(schema: Json, v: Json)
    decreases Depth(schema)
  {
    ChildDepth(schema);
    match Classify(schema)
    case Opaque => true
    case ListNode(item) => v.Arr? && forall x <- v.items :: Fits(item, x)
    case ScalarNode(scalar) => ScalarFits(scalar, v)
    case MapNode(values) =>
      v.Obj? && forall m <- v.members :: IsMapKey(m.key) && exists e <- values :: Fits(e, m.value)
    case RecordNode(properties, required) =>
      && v.Obj?
      && (forall m <- v.members :: IsMapKey(m.key) ||
            (m.key in KeySet(properties) && Fits(At(properties, m.key), m.value)))
      && (forall k <- required :: k in KeySet(v.members))
    case DictNode(value) => v.Obj? && forall m <- v.members :: Fits(value, m.value)
    case OpenNode(documentedEmpty) => v.Obj? && (documentedEmpty ==> v.members == [])
  }

  /** A schema that documents an object with its own list of properties. */
  predicate ObjectLike(schema: Json) {
    Classify(schema).MapNode? || Classify(schema).RecordNode? || Classify(schema).OpenNode?
  }

  /** Wherever examples are merged, they agree on shared properties and each documents an object. */
  ghost predicate Faithful(schema: Json)
    decreases Depth(schema)
  {
    ChildDepth(schema);
    match Classify(schema)
    case ListNode(item) => Faithful(item)
    case MapNode(values) =>
      && BlockAgrees(values)
      && (Merges(values) ==> forall v <- values :: ObjectLike(v))
      && Faithful(Unify(values))
    case RecordNode(properties, _) => forall k <- FieldKeys(properties) :: Faithful(At(properties, k))
    case DictNode(value) => Faithful(value)
    case _ => true
  }

  /** Fitting does not depend on the key order of the schema. */
  lemma {:induction false} FitsByMarker(s: Json, t: Json, v: Json)
    requires MarkerOf(s) == MarkerOf(t) && ValidJson(s) && ValidJson(t) && Fits(s, v)
    ensures Fits(t, v)
    decreases Depth(s)
  {
    ClassifyByMarker(s, t);
    ChildDepth(s);
    ChildDepth(t);
    ChildValid(s);
    ChildValid(t);
    hide MarkerOf, Classify, ValidJson, IsMapKey, Unify;
    match Classify(s)
    case ListNode(item) =>
      forall x | x in v.items ensures Fits(Classify(t).item, x) {
        FitsByMarker(item, Classify(t).item, x);
      }
    case DictNode(value) =>
      forall m | m in v.members ensures Fits(Classify(t).value, m.value) {
        FitsByMarker(value, Classify(t).value, m.value);
      }
    case MapNode(values) =>
      forall m | m in v.members ensures exists e <- Classify(t).values :: Fits(e, m.value) {
        var e :| e in values && Fits(e, m.value);
        var e' := Counterpart(values, Classify(t).values, e);
        FitsByMarker(e, e', m.value);
      }
    case RecordNode(ps, required) =>
      var qs := Classify(t).properties;
      forall m | m in v.members && !IsMapKey(m.key)
        ensures m.key in KeySet(qs) && Fits(At(qs, m.key), m.value)
      {
        FitsByMarker(At(ps, m.key), At(qs, m.key), m.value);
      }
    case _ =>
  }

  lemma ObjectLikeByMarker(s: Json, t: Json)
    requires MarkerOf(s) == MarkerOf(t) && ValidJson(s) && ValidJson(t)
    ensures ObjectLike(s) == ObjectLike(t)
  {
    hide MarkerOf, Classify, ValidJson, Markers;
    ClassifyByMarker(s, t);
    ClassifyByMarker(t, s);
  }

  /** How the emitter reads the schema a merge synthesizes. */
  lemma ClassifyObjectSchema(ps: seq<Member>)
    ensures Classify(ObjectSchema(ps)) ==
      if ps == [] then OpenNode(true)
      else if IsMapBlock(ps) then MapNode(Values(ps))
      else RecordNode(ps, {})
  {
    hide IsMapBlock;
    var schema := ObjectSchema(ps);
    assert UniqueKeys(schema.members) && schema.members[0].key == "type";
    AtIndex(schema.members, 0);
    ObjectSchemaProperties(ps);
    assert Declared(schema) == Some("object");
    assert KeySet(schema.members) == {"type", "properties"} by {
      assert schema.members[1].key == "properties";
    }
  }

  /** What a synthesized record schema means. */
  lemma RecordSchemaMeans(ps: seq<Member>, allOptional: bool)
    requires ps != [] && !IsMapBlock(ps)
    ensures var t := TypeOf(ObjectSchema(ps), allOptional);
      && t.WRecord? && t.fields.Keys == FieldKeys(ps)
      && (forall k <- FieldKeys(ps) :: t.fields[k] == WireField(TypeOf(At(ps, k), allOptional), false))
      && (Agreeing(ObjectSchema(ps)) <==> forall k <- FieldKeys(ps) :: Agreeing(At(ps, k)))
  {
    ClassifyObjectSchema(ps);
    NodeMeaning(ObjectSchema(ps), allOptional);
    hide TypeOf, Classify, ObjectSchema, IsMapKey, IsMapBlock, Agreeing, FieldKeys;
  }

  /** What a synthesized map schema means. */
  lemma MapSchemaMeans(ps: seq<Member>, allOptional: bool)
    requires IsMapBlock(ps)
    ensures TypeOf(ObjectSchema(ps), allOptional) == WDict(TypeOf(Unify(Values(ps)), allOptional))
    ensures Agreeing(ObjectSchema(ps)) <==> BlockAgrees(Values(ps)) && Agreeing(Unify(Values(ps)))
  {
    ClassifyObjectSchema(ps);
    NodeMeaning(ObjectSchema(ps), allOptional);
    hide TypeOf, Classify, ObjectSchema, IsMapKey, Unify, Agreeing, BlockAgrees;
  }

  /** A document that fits a property list: names from the list, apart from data-shaped ones. */
  ghost predicate FitsBlock(ps: seq<Member>, v: Json) {
    && v.Obj? && (ps == [] ==> v.members == [])
    && (if IsMapBlock(ps) then
          forall m <- v.members :: IsMapKey(m.key) && exists x <- Values(ps) :: Fits(x, m.value)
        else
          forall m <- v.members :: IsMapKey(m.key) || (m.key in KeySet(ps) && Fits(At(ps, m.key), m.value)))
  }

  /** What an object-like example's own property list says about a document that fits it. */
  lemma FitsOwnProperties(e: Json, v: Json)
    requires ObjectLike(e) && HasProperties(e) && Fits(e, v)
    ensures FitsBlock(Properties(e), v)
  {
    hide IsMapBlock, IsMapKey, Get;
  }

  lemma BlockFits(ps: seq<Member>, v: Json)
    requires FitsBlock(ps, v)
    ensures Fits(ObjectSchema(ps), v)
  {
    ClassifyObjectSchema(ps);
    ChildDepth(ObjectSchema(ps));
    hide IsMapBlock, IsMapKey, ObjectSchema, Classify;
  }

  /** A longer list that documents every shared name at least as widely fits whatever the shorter one fits. */
  lemma WiderBlock(ps: seq<Member>, qs: seq<Member>, v: Json)
    requires UniqueKeys(ps) && UniqueKeys(qs) && KeySet(ps) <= KeySet(qs) && FitsBlock(ps, v)
    requires forall k <- KeySet(ps), x :: Fits(At(ps, k), x) ==> Fits(At(qs, k), x)
    requires qs == [] ==> ps == []
    ensures FitsBlock(qs, v)
  {
    IsMapBlockKeys(ps);
    IsMapBlockKeys(qs);
    hide IsMapBlock, IsMapKey, Fits;
    if IsMapBlock(qs) && IsMapBlock(ps) {
      forall m | m in v.members ensures exists x <- Values(qs) :: Fits(x, m.value) {
        var x :| x in Values(ps) && Fits(x, m.value);
        ValuesAt(ps, x);
        var k :| k in KeySet(ps) && At(ps, k) == x;
        ValuesAt(qs, At(qs, k));
      }
    }
  }

  /** A document that fits one of the merged examples fits the merge. */
  lemma FitsMerged(examples: seq<Json>, e: Json, v: Json)
    requires forall x <- examples :: ValidJson(x) && HasProperties(x)
    requires SharedAgree(examples) && e in examples && ObjectLike(e) && Fits(e, v)
    ensures Fits(ObjectSchema(SortMembers(Merged(examples))), v)
  {
    hide MarkerOf, Classify, IsMapKey, ValidJson, Get, ObjectSchema, Fits, FitsBlock, ObjectLike, SharedAgree;
    var ps, sorted := Properties(e), SortMembers(Merged(examples));
    forall x | x in examples ensures UniqueKeys(Properties(x)) { PropertiesValid(x); }
    MergedShape(examples);
    SortShape(Merged(examples));
    hide HasProperties, Merged, SortMembers;
    FitsOwnProperties(e, v);
    forall k, x | k in KeySet(ps) && Fits(At(ps, k), x) ensures Fits(At(sorted, k), x) {
      FitsMergedProperty(examples, e, k, x);
    }
    if ps != [] { assert ps[0].key in KeySet(ps); }
    WiderBlock(ps, sorted, v);
    BlockFits(sorted, v);
  }

  lemma FitsMergedProperty(examples: seq<Json>, e: Json, k: string, x: Json)
    requires forall x <- examples :: ValidJson(x) && HasProperties(x)
    requires SharedAgree(examples) && e in examples
    requires k in KeySet(Properties(e)) && Fits(At(Properties(e), k), x)
    ensures k in KeySet(SortMembers(Merged(examples))) && Fits(At(SortMembers(Merged(examples)), k), x)
  {
    hide MarkerOf, Classify, IsMapKey, Get, Fits;
    forall x | x in examples ensures UniqueKeys(Properties(x)) { PropertiesValid(x); }
    MergedMarker(examples, e, k);
    var source := MergedSource(examples, k);
    MergedShape(examples);
    SortShape(Merged(examples));
    var sorted := SortMembers(Merged(examples));
    var i := IndexOf(sorted, k);
    assert sorted[i] in sorted;
    var s :| s in examples && sorted[i] in Properties(s);
    PropertiesValid(s);
    PropertiesValid(e);
    assert Properties(e)[IndexOf(Properties(e), k)] in Properties(e);
    FitsByMarker(At(Properties(e), k), At(sorted, k), x);
  }

  /** A document that fits some example of a map block fits the block's unified schema. */
  lemma FitsUnified(values: seq<Json>, e: Json, v: Json)
    requires forall x <- values :: ValidJson(x)
    requires BlockAgrees(values) && (Merges(values) ==> forall x <- values :: ObjectLike(x))
    requires e in values && Fits(e, v)
    ensures Fits(Unify(values), v)
  {
    hide MarkerOf, Classify, Get, ObjectLike, Fits, SharedAgree, Merged, SortMembers, HasProperties;
    DistinctCovers(values);
    var d := Distinct(values);
    var e' := Counterpart(values, d, e);
    FitsByMarker(e, e', v);
    if |d| == 1 {
      assert e' == d[0];
    } else if Merges(values) {
      SharedAgreeDistinct(values);
      ObjectLikeByMarker(e, e');
      FitsMerged(d, e', v);
    } else {
      AnythingFits(v);
    }
  }

  lemma AnythingFits(v: Json)
    ensures Fits(ANYTHING, v)
  {
  }

  /** The type of a schema accepts every document the schema documents. */
  lemma {:induction false} DocumentedIsAccepted(schema: Json, v: Json, allOptional: bool)
    requires ValidJson(schema) && Faithful(schema) && Fits(schema, v)
    ensures Accepts(TypeOf(schema, allOptional), v)
    decreases Depth(schema)
  {
    ChildDepth(schema);
    ChildValid(schema);
    hide Classify, ValidJson, IsMapKey, Get, Unify;
    match Classify(schema)
    case ListNode(item) =>
      forall x | x in v.items ensures Accepts(TypeOf(item, allOptional), x) {
        DocumentedIsAccepted(item, x, allOptional);
      }
    case DictNode(value) =>
      forall m | m in v.members ensures Accepts(TypeOf(value, allOptional), m.value) {
        DocumentedIsAccepted(value, m.value, allOptional);
      }
    case MapNode(values) =>
      forall m | m in v.members ensures Accepts(TypeOf(Unify(values), allOptional), m.value) {
        var e :| e in values && Fits(e, m.value);
        FitsUnified(values, e, m.value);
        DocumentedIsAccepted(Unify(values), m.value, allOptional);
      }
    case RecordNode(properties, required) =>
      forall m | m in v.members && m.key in FieldKeys(properties)
        ensures Accepts(TypeOf(At(properties, m.key), allOptional), m.value)
      {
        DocumentedIsAccepted(At(properties, m.key), m.value, allOptional);
      }
    case _ =>
  }

  /** Faithful schemas are in particular agreeing, so the emitter's cache is exact on them. */
  lemma {:induction false} FaithfulIsAgreeing(schema: Json)
    requires Faithful(schema)
    ensures Agreeing(schema)
    decreases Depth(schema)
  {
    ChildDepth(schema);
    hide Classify, IsMapKey, Unify;
    match Classify(schema)
    case ListNode(item) => FaithfulIsAgreeing(item);
    case MapNode(values) => FaithfulIsAgreeing(Unify(values));
    case RecordNode(properties, _) =>
      forall k | k in FieldKeys(properties) ensures Agreeing(At(properties, k)) {
        FaithfulIsAgreeing(At(properties, k));
      }
    case DictNode(value) => FaithfulIsAgreeing(value);
    case _ =>
  }
}
