/**
 * When one cache key has one type: schemas whose merged examples may differ in spelling but not in what
 * their shared properties mean.
 */
module Settling {
  import opened JsonValues
  import opened MapBlocks
  import opened WireTypes
  import opened Acceptance

  ghost predicate Documents(x: Json, k: string) { HasProperties(x) && k in KeySet(Properties(x)) }

  /** No example documents another name. */
  ghost predicate OnlyName(values: seq<Json>, k: string) {
    forall x, j :: x in values && Documents(x, j) ==> j == k
  }

  /** What is said of this name decides what the merge means: it is a field, or the only name there is. */
  ghost predicate Decides(values: seq<Json>, k: string) { !IsMapKey(k) || OnlyName(values, k) }

  /** The examples of a block merge to a record, or to a mapping with one key. */
  ghost predicate MergesByKey(values: seq<Json>) {
    Merges(values) && exists x, k :: x in values && Documents(x, k) && Decides(values, k)
  }

  lemma DocumentedDepth(schema: Json, x: Json, k: string)
    requires Classify(schema).MapNode? && x in Classify(schema).values && Documents(x, k)
    ensures Depth(At(Properties(x), k)) < Depth(schema)
  {
    ChildDepth(schema);
    var ps := Properties(x);
    assert ps[IndexOf(ps, k)] in ps;
    PropertyDepth(x, ps[IndexOf(ps, k)]);
  }

  /**
   * The schema means one type however its keys are ordered: wherever examples are merged to a record or to
   * a mapping with one key, every spelling of what decides its type is settled and means what the merged
   * one means; wherever they are merged to a mapping with more, they agree on shared properties.
   */
  ghost predicate Settled(schema: Json, allOptional: bool)
    decreases Depth(schema)
  {
    ChildDepth(schema);
    match Classify(schema)
    case ListNode(item) => Settled(item, allOptional)
    case MapNode(values) =>
      if MergesByKey(values) then
        forall x, k :: x in values && Documents(x, k) && Decides(values, k) ==>
          (DocumentedDepth(schema, x, k); Settled(At(Properties(x), k), allOptional))
          && SameMeaning(values, x, k, allOptional)
      else BlockAgrees(values) && Settled(Unify(values), allOptional)
    case RecordNode(properties, _) =>
      forall k <- FieldKeys(properties) :: Settled(At(properties, k), allOptional)
    case DictNode(value) => Settled(value, allOptional)
    case _ => true
  }

  /** An example's spelling of a field means what the merged spelling means. */
  ghost predicate SameMeaning(values: seq<Json>, x: Json, k: string, allOptional: bool)
    requires Documents(x, k)
  {
    Documents(Unify(values), k) ==>
      TypeOf(At(Properties(x), k), allOptional) == TypeOf(At(Properties(Unify(values)), k), allOptional)
  }

  // ----- what such a merge looks like -----

  /** The names of a block that decide what it means: the fields of a record, or all names of a mapping. */
  function Deciding(ps: seq<Member>): set<string> { if IsMapBlock(ps) then KeySet(ps) else FieldKeys(ps) }

  /** A record block, or a mapping block with one key. */
  predicate ByKey(ps: seq<Member>) { ps != [] && UniqueKeys(ps) && (IsMapBlock(ps) ==> |ps| == 1) }

  lemma UnifiedShape(values: seq<Json>)
    requires Merges(values) && forall x <- values :: ValidJson(x)
    ensures var u := Unify(values);
      && HasProperties(u) && UniqueKeys(Properties(u)) && u == ObjectSchema(Properties(u))
      && (forall x <- Distinct(values) :: KeySet(Properties(x)) <= KeySet(Properties(u)))
      && (forall m <- Properties(u) :: exists x <- Distinct(values) :: m in Properties(x))
  {
    hide MarkerOf, Get, ValidJson, Merged, SortMembers, SetDefaults;
    DistinctCovers(values);
    var d := Distinct(values);
    MergedShape(d);
    SortShape(Merged(d));
    ObjectSchemaProperties(SortMembers(Merged(d)));
  }

  lemma CoversDocumented(values: seq<Json>, keys: set<string>, x: Json, k: string)
    requires Merges(values) && x in values && Documents(x, k)
    requires forall y <- Distinct(values) :: KeySet(Properties(y)) <= keys
    ensures k in keys
  {
    hide MarkerOf, Get;
    DistinctCovers(values);
    var y := Counterpart(values, Distinct(values), x);
    MarkerHasProperties(x, y);
  }

  /** The merge documents exactly what the examples document, each name as some example spells it. */
  lemma MergedBlock(values: seq<Json>)
    requires MergesByKey(values) && forall x <- values :: ValidJson(x)
    ensures var u := Unify(values);
      && HasProperties(u) && ByKey(Properties(u)) && u == ObjectSchema(Properties(u))
      && (forall x, k :: x in values && Documents(x, k) ==> k in KeySet(Properties(u)))
      && (forall k <- KeySet(Properties(u)) ::
            exists x <- values :: Documents(x, k) && At(Properties(x), k) == At(Properties(u), k))
      && forall k <- KeySet(Properties(u)) :: Decides(values, k) <==> k in Deciding(Properties(u))
  {
    hide MarkerOf, Get, IsMapKey, Unify, ValidJson, ObjectSchema, IsMapBlock;
    UnifiedShape(values);
    DistinctCovers(values);
    var ps := Properties(Unify(values));
    forall x, k | x in values && Documents(x, k) ensures k in KeySet(ps) {
      CoversDocumented(values, KeySet(ps), x, k);
    }
    forall k | k in KeySet(ps) ensures exists x <- values :: Documents(x, k) && At(Properties(x), k) == At(ps, k) {
      SourceOf(Distinct(values), ps, k);
    }
    DecidingNames(values, ps);
  }

  lemma DecidingNames(values: seq<Json>, ps: seq<Member>)
    requires MergesByKey(values) && UniqueKeys(ps)
    requires forall x, k :: x in values && Documents(x, k) ==> k in KeySet(ps)
    requires forall k <- KeySet(ps) :: exists x <- values :: Documents(x, k)
    ensures ByKey(ps) && forall k <- KeySet(ps) :: Decides(values, k) <==> k in Deciding(ps)
  {
    hide IsMapKey, IsMapBlock, Merges, Documents, Get;
    IsMapBlockKeys(ps);
    var x, k :| x in values && Documents(x, k) && Decides(values, k);
    if IsMapBlock(ps) {
      forall j | j in KeySet(ps) ensures j == k {
        var y :| y in values && Documents(y, j);
      }
      OneName(ps, k);
    } else {
      var j :| j in KeySet(ps) && !IsMapKey(j);
      var y :| y in values && Documents(y, j);
      forall k | k in KeySet(ps) && IsMapKey(k) ensures !OnlyName(values, k) { assert j != k; }
    }
  }

  lemma OneName(ps: seq<Member>, k: string)
    requires UniqueKeys(ps) && k in KeySet(ps) && forall j <- KeySet(ps) :: j == k
    ensures |ps| == 1 && KeySet(ps) == {k}
  {
    forall i | 0 <= i < |ps| ensures ps[i].key == k { assert ps[i].key in KeySet(ps); }
    var i := IndexOf(ps, k);
    SamePlace(ps, 0, i);
    SamePlace(ps, |ps| - 1, i);
  }

  lemma SamePlace(ps: seq<Member>, i: nat, j: nat)
    requires UniqueKeys(ps) && i < |ps| && j < |ps| && ps[i].key == ps[j].key
    ensures i == j
  {
  }

  lemma SourceOf(d: seq<Json>, sorted: seq<Member>, k: string)
    requires (forall s <- d :: HasProperties(s) && ValidJson(s)) && UniqueKeys(sorted) && k in KeySet(sorted)
    requires forall m <- sorted :: exists s <- d :: m in Properties(s)
    ensures exists x <- d :: Documents(x, k) && At(Properties(x), k) == At(sorted, k)
  {
    hide MarkerOf, Get;
    var i := IndexOf(sorted, k);
    assert sorted[i] in sorted;
    var x :| x in d && sorted[i] in Properties(x);
    PropertiesValid(x);
    AtMember(Properties(x), sorted[i]);
    AtMember(sorted, sorted[i]);
    assert Documents(x, k);
  }

  /** A mapping block with one key means the mapping to what that key's schema means. */
  lemma OneKeyMeans(ps: seq<Member>, allOptional: bool)
    requires |ps| == 1 && IsMapBlock(ps)
    ensures KeySet(ps) == {ps[0].key} && At(ps, ps[0].key) == ps[0].value
    ensures TypeOf(ObjectSchema(ps), allOptional) == WDict(TypeOf(ps[0].value, allOptional))
    ensures Settled(ObjectSchema(ps), allOptional) <==> Settled(ps[0].value, allOptional)
  {
    assert KeySet(ps) == {ps[0].key} by { assert ps[0].key in KeySet(ps); }
    ClassifyObjectSchema(ps);
    assert Values(ps) == [ps[0].value];
    UnifyOne(ps[0].value);
    MapSchemaMeans(ps, allOptional);
    hide TypeOf, Settled, Classify, ObjectSchema, Unify, IsMapBlock, MarkerOf, Distinct, Agreeing;
    SettledOtherMapIff(ObjectSchema(ps), allOptional);
  }

  lemma UnifyOne(s: Json)
    ensures Unify([s]) == s && !Merges([s])
  {
    hide MarkerOf;
    assert [s][..0] == [] && Distinct([]) == [] && Distinct([s]) == [s];
  }

  /** Blocks with the same names mean the same exactly when they do under the names that decide. */
  lemma SameBlocksIff(ps: seq<Member>, qs: seq<Member>, allOptional: bool)
    requires ByKey(ps) && ByKey(qs) && KeySet(ps) == KeySet(qs)
    ensures Deciding(ps) == Deciding(qs) && Deciding(ps) <= KeySet(ps)
    ensures TypeOf(ObjectSchema(ps), allOptional) == TypeOf(ObjectSchema(qs), allOptional) <==>
      forall k <- Deciding(ps) :: TypeOf(At(ps, k), allOptional) == TypeOf(At(qs, k), allOptional)
  {
    hide TypeOf, ObjectSchema, IsMapKey, IsMapBlock, Agreeing, Settled;
    IsMapBlockByKeys(ps, qs);
    if IsMapBlock(ps) {
      OneKeyMeans(ps, allOptional);
      OneKeyMeans(qs, allOptional);
    } else {
      RecordSchemaMeans(ps, allOptional);
      RecordSchemaMeans(qs, allOptional);
      SameFields(TypeOf(ObjectSchema(ps), allOptional).fields, TypeOf(ObjectSchema(qs), allOptional).fields);
    }
  }

  lemma SameFields(a: map<string, WireField>, b: map<string, WireField>)
    requires a.Keys == b.Keys
    ensures a == b <==> forall k <- a.Keys :: a[k] == b[k]
  {
  }

  /** A block is settled exactly when it is under the names that decide. */
  lemma SettledBlockIff(ps: seq<Member>, allOptional: bool)
    requires ByKey(ps)
    ensures Deciding(ps) <= KeySet(ps)
    ensures Settled(ObjectSchema(ps), allOptional) <==> forall k <- Deciding(ps) :: Settled(At(ps, k), allOptional)
  {
    hide TypeOf, ObjectSchema, IsMapKey, IsMapBlock, Agreeing, Settled, Classify;
    if IsMapBlock(ps) {
      OneKeyMeans(ps, allOptional);
    } else {
      ClassifyObjectSchema(ps);
      SettledRecordIff(ObjectSchema(ps), allOptional);
    }
  }

  // ----- a settled schema means one type -----

  lemma SettledRecordIff(schema: Json, allOptional: bool)
    requires Classify(schema).RecordNode?
    ensures FieldKeys(Classify(schema).properties) <= KeySet(Classify(schema).properties)
    ensures Settled(schema, allOptional) <==>
      forall k <- FieldKeys(Classify(schema).properties) :: Settled(At(Classify(schema).properties, k), allOptional)
  {
    ChildDepth(schema);
    hide Classify, IsMapKey;
  }

  lemma SettledMergeIff(schema: Json, allOptional: bool)
    requires Classify(schema).MapNode? && MergesByKey(Classify(schema).values)
    ensures Settled(schema, allOptional) <==>
      forall x, k :: x in Classify(schema).values && Documents(x, k) && Decides(Classify(schema).values, k) ==>
        Settled(At(Properties(x), k), allOptional) && SameMeaning(Classify(schema).values, x, k, allOptional)
  {
    ChildDepth(schema);
    forall x, k | x in Classify(schema).values && Documents(x, k) ensures Depth(At(Properties(x), k)) < Depth(schema) {
      DocumentedDepth(schema, x, k);
    }
    hide Classify, IsMapKey, SameMeaning, Unify;
  }

  lemma SettledOtherMapIff(schema: Json, allOptional: bool)
    requires Classify(schema).MapNode? && !MergesByKey(Classify(schema).values)
    ensures Settled(schema, allOptional) <==>
      BlockAgrees(Classify(schema).values) && Settled(Unify(Classify(schema).values), allOptional)
  {
    ChildDepth(schema);
    hide Classify, IsMapKey, SameMeaning, Unify;
  }

  lemma RecordTypeOf(schema: Json, allOptional: bool)
    requires Classify(schema).RecordNode?
    ensures var ps, t := Classify(schema).properties, TypeOf(schema, allOptional);
      && t.WRecord? && t.fields.Keys == FieldKeys(ps)
      && forall k <- FieldKeys(ps) ::
        t.fields[k] == WireField(TypeOf(At(ps, k), allOptional), !allOptional && k in Classify(schema).required)
  {
    NodeMeaning(schema, allOptional);
    hide Classify, TypeOf, Agreeing, IsMapKey;
  }

  lemma MapTypeOf(schema: Json, allOptional: bool)
    requires Classify(schema).MapNode?
    ensures TypeOf(schema, allOptional) == WDict(TypeOf(Unify(Classify(schema).values), allOptional))
  {
    NodeMeaning(schema, allOptional);
    hide Classify, TypeOf, Agreeing, IsMapKey, Unify;
  }

  lemma DocumentsByMarker(x: Json, y: Json, k: string)
    requires MarkerOf(x) == MarkerOf(y) && Documents(x, k)
    ensures Documents(y, k) && MarkerOf(At(Properties(x), k)) == MarkerOf(At(Properties(y), k))
  {
    hide MarkerOf, Get;
    MarkerHasProperties(x, y);
  }

  lemma DecidesByMarkers(xs: seq<Json>, ys: seq<Json>, k: string)
    requires Markers(xs) == Markers(ys) && Decides(xs, k)
    ensures Decides(ys, k)
  {
    hide MarkerOf, Documents;
    if IsMapKey(k) {
      forall y, j | y in ys && Documents(y, j) ensures j == k {
        var x := Counterpart(ys, xs, y);
        DocumentsByMarker(y, x, j);
      }
    }
  }

  lemma MergesByKeyByMarkers(xs: seq<Json>, ys: seq<Json>)
    requires Markers(xs) == Markers(ys) && MergesByKey(xs)
    ensures MergesByKey(ys)
  {
    hide MarkerOf, Merges, Documents, Decides;
    MergesByMarkers(xs, ys);
    var x, k :| x in xs && Documents(x, k) && Decides(xs, k);
    var y := Counterpart(xs, ys, x);
    DocumentsByMarker(x, y, k);
    DecidesByMarkers(xs, ys, k);
  }

  lemma ValueAtValid(x: Json, k: string)
    requires ValidJson(x) && Documents(x, k)
    ensures ValidJson(At(Properties(x), k))
  {
    PropertiesValid(x);
    var ps := Properties(x);
    assert ps[IndexOf(ps, k)] in ps;
  }

  /** A settled schema means one type whatever order its keys come in, and stays settled. */
  lemma {:induction false} SettledByMarker(s: Json, t: Json, allOptional: bool)
    requires MarkerOf(s) == MarkerOf(t) && ValidJson(s) && ValidJson(t) && Settled(s, allOptional)
    ensures Settled(t, allOptional) && TypeOf(s, allOptional) == TypeOf(t, allOptional)
    decreases Depth(s), 1
  {
    hide MarkerOf, Classify, ValidJson, IsMapKey, TypeOf, Unify, Markers, FieldKeys, SameProperties, Agreeing,
      MergesByKey, SameMeaning, Documents, BlockAgrees;
    ClassifyByMarker(s, t);
    NodeMeaning(s, allOptional);
    NodeMeaning(t, allOptional);
    ChildDepth(s);
    ChildDepth(t);
    ChildValid(s);
    ChildValid(t);
    match Classify(s)
    case ListNode(item) => SettledByMarker(item, Classify(t).item, allOptional);
    case DictNode(value) => SettledByMarker(value, Classify(t).value, allOptional);
    case MapNode(xs) => SettledMap(s, t, allOptional);
    case RecordNode(ps, _) => SettledRecord(s, t, allOptional);
    case _ =>
  }

  lemma {:induction false} SettledRecord(s: Json, t: Json, allOptional: bool)
    requires MarkerOf(s) == MarkerOf(t) && ValidJson(s) && ValidJson(t) && Settled(s, allOptional)
    requires Classify(s).RecordNode?
    ensures Settled(t, allOptional) && TypeOf(s, allOptional) == TypeOf(t, allOptional)
    decreases Depth(s), 0
  {
    hide MarkerOf, Classify, ValidJson, IsMapKey, TypeOf, FieldKeys, Depth, Settled;
    RecordParts(s, t);
    var ps, qs := Classify(s).properties, Classify(t).properties;
    SettledRecordIff(s, allOptional);
    SettledRecordIff(t, allOptional);
    forall k | k in FieldKeys(ps)
      ensures Settled(At(qs, k), allOptional) && TypeOf(At(ps, k), allOptional) == TypeOf(At(qs, k), allOptional)
    {
      SettledByMarker(At(ps, k), At(qs, k), allOptional);
    }
    RecordTypeOf(s, allOptional);
    RecordTypeOf(t, allOptional);
    assert TypeOf(s, allOptional).fields == TypeOf(t, allOptional).fields;
  }

  /** One spelling of a field in each of two lists of examples with the same markers. */
  lemma {:induction false} SettledField(s: Json, t: Json, y: Json, k: string, allOptional: bool)
    requires MarkerOf(s) == MarkerOf(t) && ValidJson(s) && ValidJson(t) && Settled(s, allOptional)
    requires Classify(s).MapNode? && Classify(t).MapNode? && Markers(Classify(s).values) == Markers(Classify(t).values)
    requires MergesByKey(Classify(s).values) && y in Classify(t).values && Documents(y, k)
    requires Decides(Classify(t).values, k)
    ensures Settled(At(Properties(y), k), allOptional)
    ensures Documents(Unify(Classify(s).values), k)
    ensures TypeOf(At(Properties(y), k), allOptional) ==
        TypeOf(At(Properties(Unify(Classify(s).values)), k), allOptional)
    decreases Depth(s), 0, 0
  {
    var xs, ys := Classify(s).values, Classify(t).values;
    ChildDepth(s);
    ChildValid(s);
    ChildValid(t);
    SettledMergeIff(s, allOptional);
    hide MarkerOf, Classify, ValidJson, IsMapKey, TypeOf, Unify, MergesByKey, Get, Settled, Decides, Deciding, ByKey;
    var x := Counterpart(ys, xs, y);
    DocumentsByMarker(y, x, k);
    DecidesByMarkers(ys, xs, k);
    DocumentedDepth(s, x, k);
    ValueAtValid(x, k);
    ValueAtValid(y, k);
    MergedBlock(xs);
    SettledByMarker(At(Properties(x), k), At(Properties(y), k), allOptional);
    assert SameMeaning(xs, x, k, allOptional);
  }

  lemma {:induction false} SettledMap(s: Json, t: Json, allOptional: bool)
    requires MarkerOf(s) == MarkerOf(t) && ValidJson(s) && ValidJson(t) && Settled(s, allOptional)
    requires Classify(s).MapNode?
    ensures Settled(t, allOptional) && TypeOf(s, allOptional) == TypeOf(t, allOptional)
    decreases Depth(s), 0, 3
  {
    hide MarkerOf, ValidJson, IsMapKey, TypeOf, Unify, MergesByKey, Documents, BlockAgrees, Classify, Settled;
    ClassifyByMarker(s, t);
    ChildDepth(s);
    ChildValid(s);
    ChildValid(t);
    var xs, ys := Classify(s).values, Classify(t).values;
    if MergesByKey(xs) {
      SettledMerge(s, t, allOptional);
    } else {
      if MergesByKey(ys) { MergesByKeyByMarkers(ys, xs); }
      SettledOtherMapIff(s, allOptional);
      SettledOtherMapIff(t, allOptional);
      UnifyByMarkers(xs, ys);
      SettledByMarker(Unify(xs), Unify(ys), allOptional);
      MapTypeOf(s, allOptional);
      MapTypeOf(t, allOptional);
    }
  }

  lemma MergedFieldsSame(xs: seq<Json>, ys: seq<Json>)
    requires Markers(xs) == Markers(ys) && MergesByKey(xs) && MergesByKey(ys)
    requires (forall x <- xs :: ValidJson(x)) && (forall y <- ys :: ValidJson(y))
    ensures HasProperties(Unify(xs)) && HasProperties(Unify(ys))
    ensures KeySet(Properties(Unify(xs))) <= KeySet(Properties(Unify(ys)))
  {
    hide MarkerOf, ValidJson, IsMapKey, Unify, MergesByKey, Get, ObjectSchema, IsMapBlock;
    MergedBlock(xs);
    MergedBlock(ys);
    var ps, qs := Properties(Unify(xs)), Properties(Unify(ys));
    forall k | k in KeySet(ps) ensures k in KeySet(qs) {
      var x :| x in xs && Documents(x, k) && At(Properties(x), k) == At(ps, k);
      var y := Counterpart(xs, ys, x);
      DocumentsByMarker(x, y, k);
    }
  }

  /** Every example's spelling of a field means what another list's merge says. */
  ghost predicate SpelledAs(ys: seq<Json>, u: Json, allOptional: bool) {
    forall y, k :: y in ys && Documents(y, k) && Decides(ys, k) ==>
      Documents(u, k) && TypeOf(At(Properties(y), k), allOptional) == TypeOf(At(Properties(u), k), allOptional)
  }

  /** Then the two merges mean the same. */
  lemma MergedSame(xs: seq<Json>, ys: seq<Json>, allOptional: bool)
    requires Markers(xs) == Markers(ys) && MergesByKey(xs) && MergesByKey(ys)
    requires (forall x <- xs :: ValidJson(x)) && (forall y <- ys :: ValidJson(y))
    requires SpelledAs(ys, Unify(xs), allOptional)
    ensures TypeOf(Unify(xs), allOptional) == TypeOf(Unify(ys), allOptional)
  {
    hide MarkerOf, ValidJson, IsMapKey, Unify, MergesByKey, ObjectSchema, IsMapBlock, TypeOf, Get, Markers, Decides,
      ByKey, Deciding;
    MergedFieldsSame(xs, ys);
    MergedFieldsSame(ys, xs);
    MergedBlock(xs);
    MergedBlock(ys);
    var ps, qs := Properties(Unify(xs)), Properties(Unify(ys));
    SameBlocksIff(ps, qs, allOptional);
    forall k | k in Deciding(ps) ensures TypeOf(At(ps, k), allOptional) == TypeOf(At(qs, k), allOptional) {
      var y :| y in ys && Documents(y, k) && At(Properties(y), k) == At(qs, k);
    }
  }

  lemma SameInMerge(ys: seq<Json>, u: Json, y: Json, k: string, allOptional: bool)
    requires SpelledAs(ys, u, allOptional) && y in ys && Documents(y, k) && Decides(ys, k)
    requires MergesByKey(ys) && forall x <- ys :: ValidJson(x)
    ensures SameMeaning(ys, y, k, allOptional)
  {
    hide MarkerOf, ValidJson, IsMapKey, Unify, MergesByKey, TypeOf, Get, ObjectSchema, IsMapBlock;
    MergedBlock(ys);
    if Documents(Unify(ys), k) {
      var x :| x in ys && Documents(x, k) && At(Properties(x), k) == At(Properties(Unify(ys)), k);
    }
  }

  lemma {:induction false} SettledFields(s: Json, t: Json, allOptional: bool)
    requires MarkerOf(s) == MarkerOf(t) && ValidJson(s) && ValidJson(t) && Settled(s, allOptional)
    requires Classify(s).MapNode? && Classify(t).MapNode? && Markers(Classify(s).values) == Markers(Classify(t).values)
    requires MergesByKey(Classify(s).values)
    ensures SpelledAs(Classify(t).values, Unify(Classify(s).values), allOptional)
    ensures forall y, k :: y in Classify(t).values && Documents(y, k) && Decides(Classify(t).values, k) ==>
      Settled(At(Properties(y), k), allOptional)
    decreases Depth(s), 0, 1
  {
    hide MarkerOf, ValidJson, IsMapKey, Unify, MergesByKey, Classify, Settled, TypeOf, Depth, Get, Markers;
    forall y, k | y in Classify(t).values && Documents(y, k) && Decides(Classify(t).values, k)
      ensures Settled(At(Properties(y), k), allOptional) && Documents(Unify(Classify(s).values), k)
      ensures TypeOf(At(Properties(y), k), allOptional)
        == TypeOf(At(Properties(Unify(Classify(s).values)), k), allOptional)
    {
      SettledField(s, t, y, k, allOptional);
    }
  }

  lemma {:induction false} SettledMerge(s: Json, t: Json, allOptional: bool)
    requires MarkerOf(s) == MarkerOf(t) && ValidJson(s) && ValidJson(t) && Settled(s, allOptional)
    requires Classify(s).MapNode? && Classify(t).MapNode? && Markers(Classify(s).values) == Markers(Classify(t).values)
    requires MergesByKey(Classify(s).values)
    ensures Settled(t, allOptional) && TypeOf(s, allOptional) == TypeOf(t, allOptional)
    decreases Depth(s), 0, 2
  {
    var xs, ys := Classify(s).values, Classify(t).values;
    ChildValid(s);
    ChildValid(t);
    hide MarkerOf, ValidJson, IsMapKey, Unify, MergesByKey, Classify, Settled, TypeOf, Depth, Get, Documents,
      SameMeaning, SpelledAs, Markers;
    MergesByKeyByMarkers(xs, ys);
    SettledFields(s, t, allOptional);
    forall y, k | y in ys && Documents(y, k) && Decides(ys, k) ensures SameMeaning(ys, y, k, allOptional) {
      SameInMerge(ys, Unify(xs), y, k, allOptional);
    }
    MergedSame(xs, ys, allOptional);
    SettledMergeIff(t, allOptional);
    MapTypeOf(s, allOptional);
    MapTypeOf(t, allOptional);
  }

  // ----- the emitter's recursion, and marker agreement -----

  /** The schema a settled block is unified to is settled. */
  lemma SettledUnify(schema: Json, allOptional: bool)
    requires Classify(schema).MapNode? && ValidJson(schema) && Settled(schema, allOptional)
    ensures Settled(Unify(Classify(schema).values), allOptional)
  {
    var values := Classify(schema).values;
    ChildValid(schema);
    hide MarkerOf, ValidJson, IsMapKey, Unify, Classify, Settled, TypeOf, Get, SameMeaning, MergesByKey;
    if MergesByKey(values) {
      SettledMergeIff(schema, allOptional);
      MergedIsSettled(values, allOptional);
    } else {
      SettledOtherMapIff(schema, allOptional);
    }
  }

  lemma MergedIsSettled(values: seq<Json>, allOptional: bool)
    requires MergesByKey(values) && forall x <- values :: ValidJson(x)
    requires forall x, k :: x in values && Documents(x, k) && Decides(values, k) ==>
        Settled(At(Properties(x), k), allOptional)
    ensures Settled(Unify(values), allOptional)
  {
    hide MarkerOf, ValidJson, IsMapKey, Unify, Settled, TypeOf, Get, MergesByKey, ObjectSchema, IsMapBlock, Decides,
      ByKey, Deciding;
    MergedBlock(values);
    var ps := Properties(Unify(values));
    SettledBlockIff(ps, allOptional);
    forall k | k in Deciding(ps) ensures Settled(At(ps, k), allOptional) {
      var x :| x in values && Documents(x, k) && At(Properties(x), k) == At(ps, k);
    }
  }

  ghost predicate PartsSettled(node: Node, allOptional: bool) {
    match node
    case ListNode(item) => Settled(item, allOptional)
    case MapNode(values) => Settled(Unify(values), allOptional)
    case RecordNode(properties, _) => forall k <- FieldKeys(properties) :: Settled(At(properties, k), allOptional)
    case DictNode(value) => Settled(value, allOptional)
    case _ => true
  }

  /** What the emitter goes on to from a settled schema is settled. */
  lemma SettledParts(schema: Json, allOptional: bool)
    requires ValidJson(schema) && Settled(schema, allOptional)
    ensures PartsSettled(Classify(schema), allOptional)
  {
    if Classify(schema).MapNode? {
      SettledUnify(schema, allOptional);
    } else {
      ChildDepth(schema);
      hide Classify, IsMapKey;
    }
  }

  /** Examples that agree on shared properties, key order aside, are settled in particular. */
  lemma {:induction false} AgreeingIsSettled(schema: Json, allOptional: bool)
    requires ValidJson(schema) && Agreeing(schema)
    ensures Settled(schema, allOptional)
    decreases Depth(schema)
  {
    ChildDepth(schema);
    ChildValid(schema);
    hide MarkerOf, Classify, ValidJson, IsMapKey, Unify, Settled, Get, MergesByKey, BlockAgrees, TypeOf;
    NodeMeaning(schema, allOptional);
    match Classify(schema)
    case ListNode(item) =>
      AgreeingIsSettled(item, allOptional);
      SettledOneIff(schema, allOptional);
    case DictNode(value) =>
      AgreeingIsSettled(value, allOptional);
      SettledOneIff(schema, allOptional);
    case RecordNode(properties, _) =>
      forall k | k in FieldKeys(properties) ensures Settled(At(properties, k), allOptional) {
        assert properties[IndexOf(properties, k)] in properties;
        AgreeingIsSettled(At(properties, k), allOptional);
      }
      SettledRecordIff(schema, allOptional);
    case MapNode(values) =>
      AgreeingIsSettled(Unify(values), allOptional);
      if MergesByKey(values) {
        AgreeingMerge(schema, values, allOptional);
      } else {
        SettledOtherMapIff(schema, allOptional);
      }
    case _ => SettledOneIff(schema, allOptional);
  }

  lemma SettledOneIff(schema: Json, allOptional: bool)
    ensures Classify(schema).ListNode? ==>
      (Settled(schema, allOptional) <==> Settled(Classify(schema).item, allOptional))
    ensures Classify(schema).DictNode? ==>
      (Settled(schema, allOptional) <==> Settled(Classify(schema).value, allOptional))
    ensures Classify(schema).Opaque? || Classify(schema).ScalarNode? || Classify(schema).OpenNode? ==>
      Settled(schema, allOptional)
  {
    ChildDepth(schema);
    hide Classify, IsMapKey;
  }

  lemma AgreeingMerge(schema: Json, values: seq<Json>, allOptional: bool)
    requires Classify(schema) == MapNode(values) && MergesByKey(values) && forall x <- values :: ValidJson(x)
    requires SharedAgree(values) && Settled(Unify(values), allOptional)
    ensures Settled(schema, allOptional)
  {
    hide MarkerOf, Classify, ValidJson, IsMapKey, Unify, Settled, Get, TypeOf, ObjectSchema, IsMapBlock, Decides,
      ByKey, Deciding, MergesByKey;
    MergedBlock(values);
    var ps := Properties(Unify(values));
    SettledBlockIff(ps, allOptional);
    forall x, k | x in values && Documents(x, k) && Decides(values, k)
      ensures Settled(At(Properties(x), k), allOptional) && SameMeaning(values, x, k, allOptional)
    {
      var y :| y in values && Documents(y, k) && At(Properties(y), k) == At(ps, k);
      ValueAtValid(x, k);
      ValueAtValid(y, k);
      SettledByMarker(At(ps, k), At(Properties(x), k), allOptional);
    }
    SettledMergeIff(schema, allOptional);
  }
}
