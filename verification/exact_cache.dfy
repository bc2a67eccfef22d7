/** The condition under which one cache key has one type, exactly. */
module ExactCache {
  import opened JsonValues
  import opened MapBlocks
  import opened WireTypes
  import opened Acceptance
  import opened Settling

  /** Every name the examples document is data, and there are several: their merge is a mapping again. */
  ghost predicate MergesToMapping(values: seq<Json>) {
    && (forall x, k :: x in values && Documents(x, k) ==> IsMapKey(k))
    && exists x, k :: x in values && Documents(x, k) && !OnlyName(values, k)
  }

  /** No merge the emitter reaches is a mapping with two keys or more. */
  ghost predicate Flat(schema: Json)
    decreases Depth(schema)
  {
    ChildDepth(schema);
    match Classify(schema)
    case ListNode(item) => Flat(item)
    case MapNode(values) =>
      if Merges(values) then
        !MergesToMapping(values) && forall x, k :: x in values && Documents(x, k) && Decides(values, k) ==>
          (DocumentedDepth(schema, x, k); Flat(At(Properties(x), k)))
      else Flat(Unify(values))
    case RecordNode(properties, _) => forall k <- FieldKeys(properties) :: Flat(At(properties, k))
    case DictNode(value) => Flat(value)
    case _ => true
  }

  /** Every schema with the same cache marker means the same type. */
  ghost predicate OneType(schema: Json, allOptional: bool) {
    forall t :: SameKey(schema, t) ==> TypeOf(t, allOptional) == TypeOf(schema, allOptional)
  }

  ghost predicate SameKey(s: Json, t: Json) { ValidJson(t) && MarkerOf(t) == MarkerOf(s) }

  // ----- schemas that differ in key order only -----

  /** A member replaced by one of its own marker. */
  lemma Replaced(s: Json, key: string, value: Json)
    requires ValidJson(s) && HasKey(s, key) && SameKey(At(s.members, key), value)
    ensures var t := Obj(SetMember(s.members, key, value));
      SameKey(s, t) && HasKey(t, key) && At(t.members, key) == value
  {
    var ms := s.members;
    SetMemberSpec(ms, key, value);
    var rs := SetMember(ms, key, value);
    hide MarkerOf, KeySet;
    forall k | k in KeySet(rs) ensures MarkerOf(At(rs, k)) == MarkerOf(At(ms, k)) {}
    MarkerFromMembers(Obj(rs), s);
    forall m | m in rs ensures ValidJson(m.value) {
      if m !in ms { assert m == Member(key, value); }
    }
  }

  lemma ValidMember(s: Json, key: string)
    requires ValidJson(s) && HasKey(s, key)
    ensures ValidJson(At(s.members, key))
  {
    assert s.members[IndexOf(s.members, key)] in s.members;
  }

  /** A `properties` block replaced by one of its own marker. */
  lemma WithProperties(s: Json, qs: seq<Member>) returns (t: Json)
    requires ValidJson(s) && HasProperties(s) && SameKey(Obj(Properties(s)), Obj(qs))
    ensures SameKey(s, t) && HasProperties(t) && Properties(t) == qs
  {
    hide MarkerOf, ValidJson;
    t := Obj(SetMember(s.members, "properties", Obj(qs)));
    Replaced(s, "properties", Obj(qs));
  }

  /** One property replaced by a value of its own marker. */
  lemma WithProperty(s: Json, k: string, value: Json) returns (t: Json)
    requires ValidJson(s) && Documents(s, k) && SameKey(At(Properties(s), k), value)
    ensures SameKey(s, t) && Documents(t, k) && At(Properties(t), k) == value
    ensures Properties(t) == SetMember(Properties(s), k, value)
  {
    hide MarkerOf;
    ValidMember(s, "properties");
    Replaced(Obj(Properties(s)), k, value);
    hide ValidJson;
    t := WithProperties(s, SetMember(Properties(s), k, value));
  }

  /** The block with one of its members, replaced by a value of its own marker, at the front. */
  lemma ToFront(ps: seq<Member>, i: nat, z: Json) returns (qs: seq<Member>)
    requires ValidJson(Obj(ps)) && i < |ps| && SameKey(ps[i].value, z)
    ensures SameKey(Obj(ps), Obj(qs)) && qs != [] && qs[0].value == z && |qs| == |ps|
  {
    qs := [Member(ps[i].key, z)] + (ps[..i] + ps[i + 1..]);
    FrontIndex(ps, qs, i, z);
    assert UniqueKeys(ps) && ValidJson(z) && forall m <- ps :: ValidJson(m.value);
    hide MarkerOf, ValidJson;
    FrontKeys(ps, qs, i, z);
    forall k | k in KeySet(qs) ensures MarkerOf(At(qs, k)) == MarkerOf(At(ps, k)) {
      var j := IndexOf(qs, k);
      var j' := if j == 0 then i else if j <= i then j - 1 else j;
      AtIndex(qs, j);
      AtIndex(ps, j');
    }
    MarkerFromMembers(Obj(qs), Obj(ps));
    FrontValid(ps, qs, i, z);
  }

  lemma FrontValid(ps: seq<Member>, qs: seq<Member>, i: nat, z: Json)
    requires (forall m <- ps :: ValidJson(m.value)) && ValidJson(z) && i < |ps|
    requires |qs| == |ps| && qs[0] == Member(ps[i].key, z) && UniqueKeys(qs)
    requires forall j :: 0 < j < |qs| ==> qs[j] == ps[if j <= i then j - 1 else j]
    ensures ValidJson(Obj(qs))
  {
    forall m | m in qs ensures ValidJson(m.value) {
      var j :| 0 <= j < |qs| && qs[j] == m;
      if j > 0 { assert m in ps; }
    }
  }

  lemma FrontIndex(ps: seq<Member>, qs: seq<Member>, i: nat, z: Json)
    requires i < |ps| && qs == [Member(ps[i].key, z)] + (ps[..i] + ps[i + 1..])
    ensures |qs| == |ps| && qs[0] == Member(ps[i].key, z)
    ensures forall j :: 0 < j < |qs| ==> qs[j] == ps[if j <= i then j - 1 else j]
  {
  }

  lemma FrontKeys(ps: seq<Member>, qs: seq<Member>, i: nat, z: Json)
    requires UniqueKeys(ps) && i < |ps| && |qs| == |ps| && qs[0] == Member(ps[i].key, z)
    requires forall j :: 0 < j < |qs| ==> qs[j] == ps[if j <= i then j - 1 else j]
    ensures UniqueKeys(qs) && KeySet(qs) == KeySet(ps)
  {
    forall k | k in KeySet(ps) ensures k in KeySet(qs) {
      var j := IndexOf(ps, k);
      assert qs[if j == i then 0 else if j < i then j + 1 else j].key == k;
    }
    forall k | k in KeySet(qs) ensures k in KeySet(ps) {
      var j := IndexOf(qs, k);
      assert ps[if j == 0 then i else if j <= i then j - 1 else j].key == k;
    }
  }

  // ----- where such a schema is classified -----

  /** Which part of the schema a node's part is. */
  lemma PartOf(s: Json)
    ensures Classify(s).ListNode? ==> Classify(s).item == if Get(s, "items").Some? then Get(s, "items").value else Null
    ensures Classify(s).DictNode? ==>
      Get(s, "additionalProperties").Some? && Classify(s).value == Get(s, "additionalProperties").value
    ensures Classify(s).RecordNode? ==> HasProperties(s) && Classify(s).properties == Properties(s)
    ensures Classify(s).MapNode? ==>
      HasProperties(s) && Classify(s).values == Values(Properties(s)) && Properties(s) != []
  {
    hide Get, IsMapBlock, RequiredNames, Declared, ScalarNamed;
  }

  lemma NullIsSettled(allOptional: bool)
    ensures Settled(Null, allOptional)
  {
  }

  lemma {:induction false} ListVariant(s: Json, allOptional: bool) returns (t: Json)
    requires ValidJson(s) && Flat(s) && !Settled(s, allOptional) && Classify(s).ListNode?
    ensures SameKey(s, t) && TypeOf(t, allOptional) != TypeOf(s, allOptional)
    decreases Depth(s), 0
  {
    ChildDepth(s);
    ChildValid(s);
    PartOf(s);
    SettledOneIff(s, allOptional);
    NullIsSettled(allOptional);
    hide Classify, Settled, TypeOf, MarkerOf, ValidJson, Depth;
    var x := Variant(Classify(s).item, allOptional);
    Replaced(s, "items", x);
    t := Obj(SetMember(s.members, "items", x));
    ClassifyByMarker(s, t);
    PartOf(t);
    NullMarker(x, Classify(s).item);
    NodeMeaning(s, allOptional);
    NodeMeaning(t, allOptional);
  }

  lemma NullMarker(x: Json, y: Json)
    requires MarkerOf(x) == MarkerOf(y)
    ensures x == Null <==> y == Null
  {
  }

  lemma {:induction false} DictVariant(s: Json, allOptional: bool) returns (t: Json)
    requires ValidJson(s) && Flat(s) && !Settled(s, allOptional) && Classify(s).DictNode?
    ensures SameKey(s, t) && TypeOf(t, allOptional) != TypeOf(s, allOptional)
    decreases Depth(s), 0
  {
    ChildDepth(s);
    ChildValid(s);
    PartOf(s);
    SettledOneIff(s, allOptional);
    hide Classify, Settled, TypeOf, MarkerOf, ValidJson, Depth;
    var x := Variant(Classify(s).value, allOptional);
    Replaced(s, "additionalProperties", x);
    t := Obj(SetMember(s.members, "additionalProperties", x));
    ClassifyByMarker(s, t);
    PartOf(t);
    NullMarker(x, Classify(s).value);
    NodeMeaning(s, allOptional);
    NodeMeaning(t, allOptional);
  }

  lemma {:induction false} RecordVariant(s: Json, allOptional: bool) returns (t: Json)
    requires ValidJson(s) && Flat(s) && !Settled(s, allOptional) && Classify(s).RecordNode?
    ensures SameKey(s, t) && TypeOf(t, allOptional) != TypeOf(s, allOptional)
    decreases Depth(s), 0
  {
    var ps := Classify(s).properties;
    FlatRecord(s);
    ChildDepth(s);
    ChildValid(s);
    PartOf(s);
    SettledRecordIff(s, allOptional);
    hide Classify, Settled, TypeOf, MarkerOf, ValidJson, Depth, IsMapKey, Flat, Get;
    var k :| k in FieldKeys(ps) && !Settled(At(ps, k), allOptional);
    assert ps[IndexOf(ps, k)] in ps;
    var x := Variant(At(ps, k), allOptional);
    t := WithProperty(s, k, x);
    ClassifyByMarker(s, t);
    PartOf(t);
    RecordTypeOf(s, allOptional);
    RecordTypeOf(t, allOptional);
    assert TypeOf(s, allOptional).fields[k].wireType != TypeOf(t, allOptional).fields[k].wireType;
  }

  lemma FlatRecord(s: Json)
    requires Flat(s) && Classify(s).RecordNode?
    ensures forall k <- FieldKeys(Classify(s).properties) :: Flat(At(Classify(s).properties, k))
  {
    ChildDepth(s);
    hide Classify, IsMapKey;
  }

  lemma FlatMap(s: Json)
    requires Flat(s) && Classify(s).MapNode?
    ensures var values := Classify(s).values;
      && (Merges(values) ==> !MergesToMapping(values))
      && (Merges(values) ==> forall x, k :: x in values && Documents(x, k) && Decides(values, k) ==>
            Flat(At(Properties(x), k)))
      && (!Merges(values) ==> Flat(Unify(values)))
  {
    ChildDepth(s);
    forall x, k | x in Classify(s).values && Documents(x, k) ensures Depth(At(Properties(x), k)) < Depth(s) {
      DocumentedDepth(s, x, k);
    }
    hide Classify, IsMapKey, Unify;
  }

  lemma ByKeyIfDocumented(values: seq<Json>, x: Json, k: string)
    requires Merges(values) && !MergesToMapping(values) && x in values && Documents(x, k)
    ensures MergesByKey(values)
  {
    hide IsMapKey, Merges, Documents;
    if y, j :| y in values && Documents(y, j) && !IsMapKey(j) {
      assert Decides(values, j);
    } else {
      assert OnlyName(values, k) && Decides(values, k);
    }
  }

  /** A merge of examples that document nothing is settled, so any other is by key. */
  lemma FlatMergesByKey(s: Json, allOptional: bool)
    requires ValidJson(s) && Flat(s) && Classify(s).MapNode? && Merges(Classify(s).values) && !Settled(s, allOptional)
    ensures MergesByKey(Classify(s).values)
  {
    var values := Classify(s).values;
    FlatMap(s);
    ChildValid(s);
    hide Flat, Settled, Classify, MarkerOf, IsMapKey, Merges, Get, Unify, ValidJson, MergesByKey, MergesToMapping;
    if x, k :| x in values && Documents(x, k) {
      ByKeyIfDocumented(values, x, k);
    } else {
      NothingDocumented(values, allOptional);
      SettledOtherMapIff(s, allOptional);
    }
  }

  lemma NothingDocumented(values: seq<Json>, allOptional: bool)
    requires Merges(values) && (forall x <- values :: ValidJson(x))
    requires forall x, k :: x in values ==> !Documents(x, k)
    ensures !MergesByKey(values) && BlockAgrees(values) && Settled(Unify(values), allOptional)
  {
    hide Settled, MarkerOf, Merges, Unify, ValidJson, ObjectSchema, Documents, Decides;
    NothingMerged(values);
    EmptyBlockSettled(allOptional);
    forall x | x in values && HasProperties(x) ensures Properties(x) == [] {
      if Properties(x) != [] { DocumentsMember(x, Properties(x)[0]); }
    }
    NothingShared(values);
  }

  lemma NothingShared(values: seq<Json>)
    requires forall x <- values :: HasProperties(x) ==> Properties(x) == []
    ensures SharedAgree(values)
  {
    hide HasProperties, Properties, MarkerOf;
    assert KeySet([]) == {};
  }

  lemma NothingMerged(values: seq<Json>)
    requires Merges(values) && (forall x <- values :: ValidJson(x))
    requires forall x, k :: x in values ==> !Documents(x, k)
    ensures Unify(values) == ObjectSchema([])
  {
    hide MarkerOf, Unify, ValidJson, ObjectSchema, Markers, Get, Documents;
    UnifiedShape(values);
    DistinctCovers(values);
    hide Merges, Distinct, UniqueKeys, HasProperties;
    var ps := Properties(Unify(values));
    if ps != [] {
      assert ps[0] in ps;
      var x :| x in Distinct(values) && ps[0] in Properties(x);
      DocumentsMember(x, ps[0]);
    }
  }

  lemma DocumentsMember(x: Json, m: Member)
    requires HasProperties(x) && m in Properties(x)
    ensures Documents(x, m.key)
  {
    hide HasProperties;
    var i :| 0 <= i < |Properties(x)| && Properties(x)[i] == m;
  }

  lemma EmptyBlockSettled(allOptional: bool)
    ensures Settled(ObjectSchema([]), allOptional)
  {
    ClassifyObjectSchema([]);
    hide Settled, Classify, ObjectSchema;
    SettledOneIff(ObjectSchema([]), allOptional);
  }

  // ----- map blocks -----

  /** The first example's spelling of a field is the merged one. */
  lemma FirstWins(ys: seq<Json>, k: string)
    requires MergesByKey(ys) && (forall y <- ys :: ValidJson(y)) && ys != [] && Documents(ys[0], k)
    ensures Documents(Unify(ys), k) && At(Properties(Unify(ys)), k) == At(Properties(ys[0]), k)
  {
    hide MarkerOf, Get, IsMapKey;
    DistinctCovers(ys);
    var d := Distinct(ys);
    MergedShape(d);
    SortShape(Merged(d));
    var sorted := SortMembers(Merged(d));
    ObjectSchemaProperties(sorted);
    assert d[0] == ys[0] && d[0] in d && k in KeySet(sorted);
    var i := IndexOf(sorted, k);
    assert sorted[i] in sorted && sorted[i] in Merged(d);
    PropertiesValid(ys[0]);
    AtMember(Properties(ys[0]), sorted[i]);
    AtMember(sorted, sorted[i]);
  }

  /** A map block with a chosen example first. */
  lemma WithExampleFirst(s: Json, x: Json, z: Json) returns (t: Json)
    requires ValidJson(s) && Classify(s).MapNode? && x in Classify(s).values && SameKey(x, z)
    ensures SameKey(s, t) && Classify(t).MapNode? && Classify(t).values != [] && Classify(t).values[0] == z
    ensures Markers(Classify(t).values) == Markers(Classify(s).values)
  {
    PartOf(s);
    var ps := Properties(s);
    var i :| 0 <= i < |ps| && ps[i].value == x;
    hide Classify, MarkerOf, Get, IsMapBlock, Markers, HasProperties;
    BlockValid(s);
    var qs := ToFront(ps, i, z);
    t := WithProperties(s, qs);
    ClassifyByMarker(s, t);
    PartOf(t);
    assert Values(qs)[0] == z;
  }

  lemma BlockValid(s: Json)
    requires ValidJson(s) && HasProperties(s)
    ensures ValidJson(Obj(Properties(s)))
  {
    GetValid(s, "properties");
  }

  lemma {:induction false} MapVariant(s: Json, allOptional: bool) returns (t: Json)
    requires ValidJson(s) && Flat(s) && !Settled(s, allOptional) && Classify(s).MapNode?
    ensures SameKey(s, t) && TypeOf(t, allOptional) != TypeOf(s, allOptional)
    decreases Depth(s), 2
  {
    var values := Classify(s).values;
    FlatMap(s);
    ChildDepth(s);
    ChildValid(s);
    hide Classify, Settled, TypeOf, MarkerOf, ValidJson, Depth, IsMapKey, Flat, Get, Unify, Merges, Documents;
    if Merges(values) {
      var z, k;
      t, z, k := MergeVariant(s, allOptional);
    } else {
      t := SingleVariant(s, allOptional);
    }
  }

  lemma {:induction false} SingleVariant(s: Json, allOptional: bool) returns (t: Json)
    requires ValidJson(s) && !Settled(s, allOptional) && Classify(s).MapNode? && !Merges(Classify(s).values)
    requires Flat(Unify(Classify(s).values)) && Depth(Unify(Classify(s).values)) < Depth(s)
    ensures SameKey(s, t) && TypeOf(t, allOptional) != TypeOf(s, allOptional)
    decreases Depth(s), 1
  {
    var values := Classify(s).values;
    SettledOtherMapIff(s, allOptional);
    ChildValid(s);
    SingleUnify(values, allOptional);
    hide Classify, Settled, TypeOf, ValidJson, Depth, IsMapKey, Flat, Get, Unify, Merges, Documents;
    var x := Variant(Unify(values), allOptional);
    t := WithExampleFirst(s, Unify(values), x);
    SingleMarker(values, Classify(t).values, x);
    MapTypeOf(s, allOptional);
    MapTypeOf(t, allOptional);
  }

  /** Unmerged examples that are not settled are all of one marker. */
  lemma SingleUnify(values: seq<Json>, allOptional: bool)
    requires !Merges(values) && values != [] && !Settled(Unify(values), allOptional)
    ensures |Distinct(values)| == 1 && Unify(values) in values
  {
    DistinctCovers(values);
    AnythingSettled(allOptional);
    hide Settled, MarkerOf, HasProperties;
  }

  lemma AnythingSettled(allOptional: bool)
    ensures Settled(ANYTHING, allOptional)
  {
  }

  lemma SingleMarker(values: seq<Json>, ys: seq<Json>, x: Json)
    requires Markers(ys) == Markers(values) && |Distinct(values)| == 1 && ys != [] && ys[0] == x
    ensures Unify(ys) == x
  {
    hide MarkerOf;
    DistinctCovers(values);
    DistinctCovers(ys);
  }

  /** A spelling of a field by some example, in the block's order or with a variant of it, of another type. */
  lemma {:induction false} MergeVariant(s: Json, allOptional: bool) returns (t: Json, z: Json, k: string)
    requires ValidJson(s) && Flat(s) && !Settled(s, allOptional) && Classify(s).MapNode? && Merges(Classify(s).values)
    ensures SameKey(s, t) && TypeOf(t, allOptional) != TypeOf(s, allOptional)
    decreases Depth(s), 1
  {
    var values := Classify(s).values;
    FlatMap(s);
    FlatMergesByKey(s, allOptional);
    ChildValid(s);
    SettledMergeIff(s, allOptional);
    hide Classify, Settled, TypeOf, MarkerOf, ValidJson, Depth, IsMapKey, Flat, Get, Unify, Merges, Decides;
    var x;
    x, k :| x in values && Documents(x, k) && Decides(values, k)
      && !(Settled(At(Properties(x), k), allOptional) && SameMeaning(values, x, k, allOptional));
    z := x;
    if SameMeaning(values, x, k, allOptional) {
      DocumentedDepth(s, x, k);
      ValueAtValid(x, k);
      var c := Variant(At(Properties(x), k), allOptional);
      z := WithProperty(x, k, c);
    }
    MergedBlock(values);
    t := WithExampleFirst(s, x, z);
    FirstDiffers(s, t, k, allOptional);
  }

  lemma FirstDiffers(s: Json, t: Json, k: string, allOptional: bool)
    requires ValidJson(s) && ValidJson(t) && Classify(s).MapNode? && Classify(t).MapNode?
    requires Markers(Classify(t).values) == Markers(Classify(s).values) && MergesByKey(Classify(s).values)
    requires Classify(t).values != [] && Documents(Classify(t).values[0], k) && Decides(Classify(s).values, k)
    requires Documents(Unify(Classify(s).values), k)
    requires TypeOf(At(Properties(Classify(t).values[0]), k), allOptional)
      != TypeOf(At(Properties(Unify(Classify(s).values)), k), allOptional)
    ensures TypeOf(t, allOptional) != TypeOf(s, allOptional)
  {
    var xs, ys := Classify(s).values, Classify(t).values;
    ChildValid(s);
    ChildValid(t);
    hide Classify, TypeOf, MarkerOf, ValidJson, IsMapKey, Get, Unify, MergesByKey, Decides, Markers;
    MergesByKeyByMarkers(xs, ys);
    FirstWins(ys, k);
    MergesDiffer(xs, ys, k, allOptional);
    MapTypeOf(s, allOptional);
    MapTypeOf(t, allOptional);
  }

  lemma MergesDiffer(xs: seq<Json>, ys: seq<Json>, k: string, allOptional: bool)
    requires Markers(xs) == Markers(ys) && MergesByKey(xs) && MergesByKey(ys)
    requires (forall x <- xs :: ValidJson(x)) && (forall y <- ys :: ValidJson(y))
    requires Decides(xs, k) && Documents(Unify(xs), k) && Documents(Unify(ys), k)
    requires TypeOf(At(Properties(Unify(ys)), k), allOptional) != TypeOf(At(Properties(Unify(xs)), k), allOptional)
    ensures TypeOf(Unify(xs), allOptional) != TypeOf(Unify(ys), allOptional)
  {
    hide TypeOf, MarkerOf, ValidJson, IsMapKey, Get, Unify, MergesByKey, Decides, Deciding, ByKey, ObjectSchema,
      Markers;
    MergedFieldsSame(xs, ys);
    MergedFieldsSame(ys, xs);
    MergedBlock(xs);
    MergedBlock(ys);
    SameBlocksIff(Properties(Unify(xs)), Properties(Unify(ys)), allOptional);
  }

  /** A flat schema that is not settled has a twin of the same cache key and another type. */
  lemma {:induction false} Variant(s: Json, allOptional: bool) returns (t: Json)
    requires ValidJson(s) && Flat(s) && !Settled(s, allOptional)
    ensures SameKey(s, t) && TypeOf(t, allOptional) != TypeOf(s, allOptional)
    decreases Depth(s), 3
  {
    SettledOneIff(s, allOptional);
    hide Settled, TypeOf, MarkerOf, ValidJson, Flat, Classify;
    match Classify(s)
    case ListNode(_) => t := ListVariant(s, allOptional);
    case DictNode(_) => t := DictVariant(s, allOptional);
    case RecordNode(_, _) => t := RecordVariant(s, allOptional);
    case MapNode(_) => t := MapVariant(s, allOptional);
    case _ => t := s;
  }

  /**
   * One cache key has one type exactly when the schema is settled, where no merge is a mapping with two
   * keys or more: every spelling of what decides a merge's type is settled and means what the others mean.
   */
  lemma OneTypeIffSettled(s: Json, allOptional: bool)
    requires ValidJson(s) && Flat(s)
    ensures OneType(s, allOptional) <==> Settled(s, allOptional)
  {
    hide Settled, TypeOf, MarkerOf, ValidJson, Flat;
    if Settled(s, allOptional) {
      SettledHasOneType(s, allOptional);
    } else {
      var t := Variant(s, allOptional);
    }
  }

  /** In one direction it takes no flatness: a settled schema's cache key has one type. */
  lemma SettledHasOneType(s: Json, allOptional: bool)
    requires ValidJson(s) && Settled(s, allOptional)
    ensures OneType(s, allOptional)
  {
    hide Settled, TypeOf, MarkerOf, ValidJson;
    forall t | SameKey(s, t) ensures TypeOf(t, allOptional) == TypeOf(s, allOptional) {
      SettledByMarker(s, t, allOptional);
    }
  }
}
