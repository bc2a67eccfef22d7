/**
 * What emitted models accept: a document an emitted type accepts on the wire validates through the class
 * table exactly when what its fields read under other names fits them; so for a model's own evidence.
 */
module Validation {
  import opened Wrappers
  import opened JsonValues
  import opened MapBlocks
  import opened WireTypes
  import opened Acceptance
  import opened Inference
  import opened ClassTable
  import opened Naming
  import opened Folding
  import opened Aliases
  import opened Coercion
  import opened AliasTable

  lemma FieldType(cs: seq<ClassSpec>, c: ClassSpec, i: nat)
    requires c.RecordClass? && UniqueWireNames(c.fields) && i < |c.fields|
    ensures var w := UnfoldClass(cs, c);
      && w.WRecord? && w.fields.Keys == ClassTable.WireNames(c.fields) && c.fields[i].wireName in w.fields
      && w.fields[c.fields[i].wireName] == WireField(Unfold(cs, c.fields[i].typeExpr), c.fields[i].required)
  {
    var k := c.fields[i].wireName;
    assert k in ClassTable.WireNames(c.fields);
    assert FieldIndex(c.fields, k) == i;
  }

  lemma UnfoldsTo(cs: seq<ClassSpec>, name: string)
    requires cs != []
    ensures var last, earlier := cs[|cs| - 1], cs[..|cs| - 1];
      && (last.name != name ==> Unfold(cs, ClassRef(name)) == Unfold(earlier, ClassRef(name)))
      && (last.name == name ==> Unfold(cs, ClassRef(name)) == UnfoldClass(earlier, last))
      && (last.RootClass? ==> UnfoldClass(earlier, last) == Unfold(earlier, last.rootType))
  {
  }

  predicate UniqueWireNames(fields: seq<FieldSpec>) {
    forall i, j :: 0 <= i < j < |fields| ==> fields[i].wireName != fields[j].wireName
  }

  /** Every record of the table has one field per wire name. */
  ghost predicate WireNamesOk(cs: seq<ClassSpec>) {
    forall c <- cs :: c.RecordClass? ==> UniqueWireNames(c.fields)
  }

  lemma TableWireNames(cs: seq<ClassSpec>)
    requires TableOk(cs)
    ensures WireNamesOk(cs)
  {
    forall c | c in cs && c.RecordClass? ensures UniqueWireNames(c.fields) {
      var i :| 0 <= i < |cs| && cs[i] == c;
      assert ClassOk(cs[i], ClassNames(cs[..i]));
    }
  }

  // ----- what a document accepted on the wire still has to meet -----

  /**
   * At every record the document reaches under its own wire names: a field that reads some other key, by
   * its folded alias or its Python name, accepts what it finds there, and one that reads nothing is not
   * required.
   */
  predicate ReadsFit(lax: Lax, cs: seq<ClassSpec>, e: TypeExpr, v: Json)
    decreases |cs|, e
  {
    match e
    case ListType(item) => v.Arr? ==> forall x <- v.items :: ReadsFit(lax, cs, item, x)
    case DictType(value) => v.Obj? ==> forall m <- v.members :: ReadsFit(lax, cs, value, m.value)
    case ClassRef(name) =>
      if cs == [] then true
      else
        var last, earlier := cs[|cs| - 1], cs[..|cs| - 1];
        if last.name != name then ReadsFit(lax, earlier, e, v) else ReadsFitClass(lax, earlier, last, v)
    case _ => true
  }

  predicate ReadsFitClass(lax: Lax, cs: seq<ClassSpec>, c: ClassSpec, v: Json)
    decreases |cs|, c
  {
    match c
    case RootClass(_, rootType) => ReadsFit(lax, cs, rootType, v)
    case RecordClass(_, fields) =>
      v.Obj? ==> forall i :: 0 <= i < |fields| ==> FieldReadsFit(lax, cs, fields[i], v.members)
  }

  predicate FieldReadsFit(lax: Lax, cs: seq<ClassSpec>, f: FieldSpec, ms: seq<Member>)
    decreases |cs|, f
  {
    var key := SourceKey(f, KeySet(ms));
    if key.None? then !f.required
    else if key.value != f.wireName then ValidatesField(lax, cs, f, At(ms, key.value))
    else (!f.required && At(ms, key.value).Null?) || ReadsFit(lax, cs, f.typeExpr, At(ms, key.value))
  }

  /** The field reads its own wire name, or nothing where that is missing. */
  predicate OwnName(f: FieldSpec, keys: set<string>) {
    SourceKey(f, keys) == if f.wireName in keys then Some(f.wireName) else None
  }

  /** At every record the document reaches, every field reads its own wire name. */
  predicate OwnNames(cs: seq<ClassSpec>, e: TypeExpr, v: Json)
    decreases |cs|, e
  {
    match e
    case ListType(item) => v.Arr? ==> forall x <- v.items :: OwnNames(cs, item, x)
    case DictType(value) => v.Obj? ==> forall m <- v.members :: OwnNames(cs, value, m.value)
    case ClassRef(name) =>
      if cs == [] then true
      else
        var last, earlier := cs[|cs| - 1], cs[..|cs| - 1];
        if last.name != name then OwnNames(earlier, e, v) else OwnNamesClass(earlier, last, v)
    case _ => true
  }

  predicate OwnNamesClass(cs: seq<ClassSpec>, c: ClassSpec, v: Json)
    decreases |cs|, c
  {
    match c
    case RootClass(_, rootType) => OwnNames(cs, rootType, v)
    case RecordClass(_, fields) =>
      v.Obj? ==> forall i :: 0 <= i < |fields| ==> FieldOwnNames(cs, fields[i], v.members)
  }

  predicate FieldOwnNames(cs: seq<ClassSpec>, f: FieldSpec, ms: seq<Member>)
    decreases |cs|, f
  {
    && OwnName(f, KeySet(ms))
    && (f.wireName in KeySet(ms) ==>
          (!f.required && At(ms, f.wireName).Null?) || OwnNames(cs, f.typeExpr, At(ms, f.wireName)))
  }

  /** A document the wire type accepts validates exactly when what its fields misread fits. */
  lemma {:induction false} AcceptedValidatesIff(lax: Lax, numbersToStr: bool, cs: seq<ClassSpec>, e: TypeExpr, v: Json)
    requires WireNamesOk(cs) && ValidJson(v) && Accepts(Unfold(cs, e), v)
    ensures Validates(lax, numbersToStr, cs, e, v) <==> ReadsFit(lax, cs, e, v)
    decreases |cs|, e
  {
    match e
    case ListType(item) =>
      forall x | x in v.items ensures Validates(lax, numbersToStr, cs, item, x) <==> ReadsFit(lax, cs, item, x) {
        AcceptedValidatesIff(lax, numbersToStr, cs, item, x);
      }
    case DictType(value) =>
      forall m | m in v.members
        ensures Validates(lax, numbersToStr, cs, value, m.value) <==> ReadsFit(lax, cs, value, m.value)
      {
        AcceptedValidatesIff(lax, numbersToStr, cs, value, m.value);
      }
    case ClassRef(name) =>
      if cs != [] {
        var last, earlier := cs[|cs| - 1], cs[..|cs| - 1];
        UnfoldsTo(cs, name);
        assert WireNamesOk(earlier) by { assert forall c <- earlier :: c in cs; }
        if last.name != name {
          AcceptedValidatesIff(lax, numbersToStr, earlier, e, v);
        } else if last.RootClass? {
          AcceptedValidatesIff(lax, false, earlier, last.rootType, v);
        } else {
          assert last in cs;
          AcceptedRecordIff(lax, earlier, last, v);
        }
      }
    case _ =>
  }

  lemma {:induction false} AcceptedRecordIff(lax: Lax, cs: seq<ClassSpec>, c: ClassSpec, v: Json)
    requires WireNamesOk(cs) && c.RecordClass? && UniqueWireNames(c.fields)
    requires ValidJson(v) && Accepts(UnfoldClass(cs, c), v)
    ensures ValidatesClass(lax, cs, c, v) <==> ReadsFitClass(lax, cs, c, v)
    decreases |cs|, c, 0
  {
    assert UnfoldClass(cs, c).WRecord? && v.Obj?;
    hide Unfold, UnfoldClass, Validates, ReadsFit, SourceKey;
    var ms, fields := v.members, c.fields;
    forall i | 0 <= i < |fields|
      ensures var key := SourceKey(fields[i], KeySet(ms));
        (if key.None? then !fields[i].required else ValidatesField(lax, cs, fields[i], At(ms, key.value)))
        <==> FieldReadsFit(lax, cs, fields[i], ms)
    {
      var key := SourceKey(fields[i], KeySet(ms));
      if key == Some(fields[i].wireName) && (fields[i].required || !At(ms, key.value).Null?) {
        AcceptedField(cs, c, i, v);
        AcceptedValidatesIff(lax, true, cs, fields[i].typeExpr, At(ms, key.value));
      }
    }
  }

  /** What an accepted document has under a field's wire name. */
  lemma AcceptedField(cs: seq<ClassSpec>, c: ClassSpec, i: nat, v: Json)
    requires c.RecordClass? && UniqueWireNames(c.fields) && i < |c.fields|
    requires ValidJson(v) && v.Obj? && Accepts(UnfoldClass(cs, c), v)
    ensures var f, ms := c.fields[i], v.members;
      && (f.required ==> f.wireName in KeySet(ms))
      && (f.wireName in KeySet(ms) ==>
            && ValidJson(At(ms, f.wireName))
            && ((!f.required && At(ms, f.wireName).Null?) || Accepts(Unfold(cs, f.typeExpr), At(ms, f.wireName))))
  {
    FieldType(cs, c, i);
    hide Unfold, UnfoldClass;
    var k, ms := c.fields[i].wireName, v.members;
    if k in KeySet(ms) { assert ms[IndexOf(ms, k)] in ms; }
  }

  /** A document accepted on the wire fits what its fields read, if each reads its own wire name. */
  lemma {:induction false} OwnNamesFit(lax: Lax, cs: seq<ClassSpec>, e: TypeExpr, v: Json)
    requires WireNamesOk(cs) && ValidJson(v) && Accepts(Unfold(cs, e), v) && OwnNames(cs, e, v)
    ensures ReadsFit(lax, cs, e, v)
    decreases |cs|, e
  {
    match e
    case ListType(item) =>
      forall x | x in v.items ensures ReadsFit(lax, cs, item, x) { OwnNamesFit(lax, cs, item, x); }
    case DictType(value) =>
      forall m | m in v.members ensures ReadsFit(lax, cs, value, m.value) { OwnNamesFit(lax, cs, value, m.value); }
    case ClassRef(name) =>
      if cs != [] {
        var last, earlier := cs[|cs| - 1], cs[..|cs| - 1];
        UnfoldsTo(cs, name);
        assert WireNamesOk(earlier) by { assert forall c <- earlier :: c in cs; }
        if last.name != name {
          OwnNamesFit(lax, earlier, e, v);
        } else if last.RootClass? {
          OwnNamesFit(lax, earlier, last.rootType, v);
        } else {
          assert last in cs;
          OwnRecordFits(lax, earlier, last, v);
        }
      }
    case _ =>
  }

  lemma {:induction false} OwnRecordFits(lax: Lax, cs: seq<ClassSpec>, c: ClassSpec, v: Json)
    requires WireNamesOk(cs) && c.RecordClass? && UniqueWireNames(c.fields)
    requires ValidJson(v) && Accepts(UnfoldClass(cs, c), v) && OwnNamesClass(cs, c, v)
    ensures ReadsFitClass(lax, cs, c, v)
    decreases |cs|, c, 0
  {
    assert UnfoldClass(cs, c).WRecord? && v.Obj?;
    hide Unfold, UnfoldClass, OwnNames, ReadsFit, SourceKey;
    var ms, fields := v.members, c.fields;
    forall i | 0 <= i < |fields| ensures FieldReadsFit(lax, cs, fields[i], ms) {
      assert FieldOwnNames(cs, fields[i], ms);
      AcceptedField(cs, c, i, v);
      var k := fields[i].wireName;
      if k in KeySet(ms) && (fields[i].required || !At(ms, k).Null?) {
        OwnNamesFit(lax, cs, fields[i].typeExpr, At(ms, k));
      }
    }
  }

  /**
   * A document a schema documents validates against the model emitted for it exactly when what its fields
   * misread fits, and in particular when every field reads its own wire name.
   */
  lemma DocumentedValidatesIff(lax: Lax, cs: seq<ClassSpec>, e: TypeExpr, schema: Json, v: Json, allOptional: bool)
    requires TableOk(cs) && Unfold(cs, e) == TypeOf(schema, allOptional)
    requires ValidJson(schema) && Faithful(schema) && ValidJson(v) && Fits(schema, v)
    ensures Validates(lax, false, cs, e, v) <==> ReadsFit(lax, cs, e, v)
    ensures OwnNames(cs, e, v) ==> Validates(lax, false, cs, e, v)
  {
    hide TableOk, WireNamesOk, Unfold, TypeOf, Faithful, Fits, OwnNames, ReadsFit, Validates, Accepts;
    TableWireNames(cs);
    DocumentedIsAccepted(schema, v, allOptional);
    AcceptedValidatesIff(lax, false, cs, e, v);
    if OwnNames(cs, e, v) { OwnNamesFit(lax, cs, e, v); }
  }

  /** So does an inferred model the document it was inferred from. */
  lemma EvidenceValidatesIff(lax: Lax, cs: seq<ClassSpec>, e: TypeExpr, v: Json, allOptional: bool)
    requires TableOk(cs) && Unfold(cs, e) == TypeOf(InferSchema(v), allOptional)
    requires ValidJson(v) && ListsFit(v) && Agreeing(InferSchema(v))
    ensures Validates(lax, false, cs, e, v) <==> ReadsFit(lax, cs, e, v)
    ensures OwnNames(cs, e, v) ==> Validates(lax, false, cs, e, v)
  {
    hide TableOk, WireNamesOk, Unfold, TypeOf, InferSchema, ListsFit, Agreeing, OwnNames, ReadsFit, Validates, Accepts;
    TableWireNames(cs);
    EvidenceIsAccepted(v, allOptional);
    AcceptedValidatesIff(lax, false, cs, e, v);
    if OwnNames(cs, e, v) { OwnNamesFit(lax, cs, e, v); }
  }

  // ----- uniform evidence of plain names -----

  /** Every record the value reaches holds every field of its type, and none is named like data. */
  predicate Complete(t: WireType, v: Json)
    decreases v
  {
    match t
    case WList(item) => v.Arr? ==> forall x <- v.items :: Complete(item, x)
    case WDict(value) => v.Obj? ==> forall m <- v.members :: Complete(value, m.value)
    case WRecord(fields) =>
      v.Obj? ==>
        && fields.Keys <= KeySet(v.members)
        && (forall k <- fields.Keys :: !IsMapKey(k))
        && forall m <- v.members :: m.key in fields ==> Complete(fields[m.key].wireType, m.value)
    case _ => true
  }

  /** Every key of the document that is not data is plain, so that folding leaves it alone. */
  predicate PlainKeys(v: Json) {
    match v
    case Obj(members) => forall m <- members :: (IsMapKey(m.key) || IsPlain(m.key)) && PlainKeys(m.value)
    case Arr(items) => forall x <- items :: PlainKeys(x)
    case _ => true
  }

  /** A document of plain keys that holds every field of its type has each read under its own wire name. */
  lemma {:induction false} CompleteReadsOwn(cs: seq<ClassSpec>, e: TypeExpr, v: Json)
    requires TableOk(cs) && Complete(Unfold(cs, e), v) && PlainKeys(v)
    ensures OwnNames(cs, e, v)
    decreases |cs|, e
  {
    hide TableOk, IsMapKey, IsPlain;
    match e
    case ListType(item) =>
      if v.Arr? { forall x | x in v.items ensures OwnNames(cs, item, x) { CompleteReadsOwn(cs, item, x); } }
    case DictType(value) =>
      if v.Obj? {
        forall m | m in v.members ensures OwnNames(cs, value, m.value) { CompleteReadsOwn(cs, value, m.value); }
      }
    case ClassRef(name) =>
      if cs != [] {
        var last, earlier := cs[|cs| - 1], cs[..|cs| - 1];
        UnfoldsTo(cs, name);
        TablePrefix(cs, |cs| - 1);
        if last.name != name {
          CompleteReadsOwn(earlier, e, v);
        } else if last.RootClass? {
          CompleteReadsOwn(earlier, last.rootType, v);
        } else if v.Obj? {
          LastFieldsOk(cs);
          CompleteRecord(earlier, last, v);
        }
      }
    case _ =>
  }

  lemma LastFieldsOk(cs: seq<ClassSpec>)
    requires TableOk(cs) && cs != [] && cs[|cs| - 1].RecordClass?
    ensures FieldsOk(cs[|cs| - 1].fields)
  {
    hide FieldsOk;
    assert ClassOk(cs[|cs| - 1], ClassNames(cs[..|cs| - 1]));
  }

  lemma {:induction false} CompleteRecord(cs: seq<ClassSpec>, c: ClassSpec, v: Json)
    requires TableOk(cs) && c.RecordClass? && FieldsOk(c.fields)
    requires v.Obj? && Complete(UnfoldClass(cs, c), v) && PlainKeys(v)
    ensures OwnNamesClass(cs, c, v)
    decreases |cs|, c, 0
  {
    hide TableOk, IsMapKey, IsPlain, Alias, Unfold, UnfoldClass, OwnNames, LegalFieldName, IsFirstFree;
    var ms, fields := v.members, c.fields;
    FieldNamesSound(fields);
    assert UniqueWireNames(fields);
    hide FieldsOk, UniqueWireNames;
    forall i | 0 <= i < |fields| ensures FieldOwnNames(cs, fields[i], ms) {
      FieldType(cs, c, i);
      var k := fields[i].wireName;
      var m := ms[IndexOf(ms, k)];
      assert m in ms && m.key == k && At(ms, k) == m.value;
      AliasOfLegal(fields[i]);
      CompleteReadsOwn(cs, fields[i].typeExpr, At(ms, k));
    }
  }

  /** Where nothing merges, the unified schema is of every example's marker, or says nothing. */
  lemma UnmergedUnify(values: seq<Json>, s: Json)
    requires s in values && !Merges(values)
    ensures Unify(values) == ANYTHING || MarkerOf(Unify(values)) == MarkerOf(s)
  {
    hide MarkerOf, Merged, SortMembers, HasProperties;
    DistinctCovers(values);
    var s' := Counterpart(values, Distinct(values), s);
  }

  lemma AnythingIsAny(allOptional: bool)
    ensures TypeOf(ANYTHING, allOptional) == WAny
  {
  }

  /** Homogeneous lists and uniform maps: the document holds every field its own inferred type has. */
  lemma {:induction false} UniformIsComplete(v: Json, allOptional: bool)
    requires ValidJson(v) && Homogeneous(v) && UniformMaps(v)
    ensures Complete(TypeOf(InferSchema(v), allOptional), v)
  {
    match v
    case Obj(members) =>
      forall m | m in members ensures Complete(TypeOf(InferSchema(m.value), allOptional), m.value) {
        UniformIsComplete(m.value, allOptional);
      }
      UniformObject(v, allOptional);
    case Arr(items) =>
      hide TypeOf, Homogeneous, UniformMaps;
      ListTypeOf(items, allOptional);
      forall x | x in items ensures Complete(TypeOf(InferSchema(items[0]), allOptional), x) {
        ElementUniform(v, x);
        UniformIsComplete(x, allOptional);
      }
    case Bool(_) => ScalarComplete(v, "boolean", allOptional);
    case Int(_) => ScalarComplete(v, "integer", allOptional);
    case Real(_) => ScalarComplete(v, "number", allOptional);
    case Str(_) => ScalarComplete(v, "string", allOptional);
    case Null => AnythingIsAny(allOptional);
  }

  lemma ElementUniform(v: Json, x: Json)
    requires ValidJson(v) && Homogeneous(v) && UniformMaps(v) && v.Arr? && x in v.items
    ensures ValidJson(x) && Homogeneous(x) && UniformMaps(x) && InferSchema(x) == InferSchema(v.items[0])
  {
  }

  lemma ScalarComplete(v: Json, name: string, allOptional: bool)
    requires !v.Obj? && !v.Arr? && ScalarNamed(name).Some?
    ensures Complete(TypeOf(TypeSchema(name), allOptional), v)
  {
    ClassifyTypeSchema(name);
    ChildDepth(TypeSchema(name));
  }

  lemma ListTypeOf(items: seq<Json>, allOptional: bool)
    ensures TypeOf(InferSchema(Arr(items)), allOptional)
      == WList(TypeOf(if items == [] then ANYTHING else InferSchema(items[0]), allOptional))
  {
    var item := if items == [] then ANYTHING else InferSchema(items[0]);
    ClassifyListSchema(item);
    NodeMeaning(ListSchema(item), allOptional);
    hide TypeOf, Classify;
  }

  lemma UniformObject(v: Json, allOptional: bool)
    requires ValidJson(v) && v.Obj? && UniformMaps(v)
    requires forall m <- v.members :: Complete(TypeOf(InferSchema(m.value), allOptional), m.value)
    ensures Complete(TypeOf(InferSchema(v), allOptional), v)
  {
    var members := v.members;
    InferredProperties(members);
    var ps := SortMembers(InferMembers(members));
    IsMapBlockKeys(ps);
    IsMapBlockKeys(members);
    UniformParts(v);
    assert InferSchema(v) == ObjectSchema(ps);
    hide TypeOf, InferSchema, ObjectSchema, SortMembers, InferMembers, IsMapKey, IsMapBlock, Unify, Complete,
      UniformMaps, ValidJson;
    if IsMapBlock(ps) {
      forall m | m in members ensures Complete(TypeOf(Unify(Values(ps)), allOptional), m.value) {
        UniformValue(members, ps, m, allOptional);
      }
      MapComplete(ps, v, allOptional);
    } else {
      RecordComplete(ps, v, allOptional);
    }
  }

  lemma UniformParts(v: Json)
    requires ValidJson(v) && v.Obj? && UniformMaps(v)
    ensures UniqueKeys(v.members) && forall m <- v.members :: ValidJson(m.value) && UniformMaps(m.value)
    ensures IsMapBlock(v.members) ==>
      || (exists m <- v.members :: !m.value.Obj?)
      || (forall m <- v.members :: InferSchema(m.value) == InferSchema(v.members[0].value))
  {
    hide IsMapBlock, InferSchema;
  }

  lemma MapComplete(ps: seq<Member>, v: Json, allOptional: bool)
    requires v.Obj? && IsMapBlock(ps)
    requires forall m <- v.members :: Complete(TypeOf(Unify(Values(ps)), allOptional), m.value)
    ensures Complete(TypeOf(ObjectSchema(ps), allOptional), v)
  {
    hide TypeOf, ObjectSchema, IsMapBlock, Unify, Agreeing, BlockAgrees;
    MapSchemaMeans(ps, allOptional);
  }

  lemma RecordComplete(ps: seq<Member>, v: Json, allOptional: bool)
    requires v.Obj? && UniqueKeys(ps) && KeySet(ps) == KeySet(v.members) && !IsMapBlock(ps)
    requires forall m <- v.members :: Member(m.key, InferSchema(m.value)) in ps
    requires forall m <- v.members :: Complete(TypeOf(InferSchema(m.value), allOptional), m.value)
    ensures Complete(TypeOf(ObjectSchema(ps), allOptional), v)
  {
    hide TypeOf, Classify, ObjectSchema, IsMapKey, IsMapBlock, InferSchema, Agreeing;
    if ps == [] {
      ClassifyObjectSchema(ps);
      NodeMeaning(ObjectSchema(ps), allOptional);
      forall m | m in v.members ensures Complete(WAny, m.value) { AnyComplete(m.value); }
    } else {
      RecordSchemaMeans(ps, allOptional);
      forall m | m in v.members && m.key in FieldKeys(ps)
        ensures Complete(TypeOf(At(ps, m.key), allOptional), m.value)
      {
        AtMember(ps, Member(m.key, InferSchema(m.value)));
      }
    }
  }

  lemma UniformValue(members: seq<Member>, ps: seq<Member>, m: Member, allOptional: bool)
    requires m in members && (forall x <- members :: ValidJson(x.value) && UniformMaps(x.value))
    requires Complete(TypeOf(InferSchema(m.value), allOptional), m.value)
    requires forall p <- ps :: exists x <- members :: p == Member(x.key, InferSchema(x.value))
    requires forall x <- members :: Member(x.key, InferSchema(x.value)) in ps
    requires (exists x <- members :: !x.value.Obj?)
      || (forall x <- members :: InferSchema(x.value) == InferSchema(members[0].value))
    ensures Complete(TypeOf(Unify(Values(ps)), allOptional), m.value)
  {
    hide TypeOf, InferSchema, Classify, HasProperties, UniformMaps, Agreeing, Complete, Unify, ValidJson, MarkerOf;
    UniformBlock(members, ps);
    NothingMerges(Values(ps));
    var s := InferSchema(m.value);
    var i :| 0 <= i < |ps| && ps[i] == Member(m.key, s);
    assert Values(ps)[i] == s;
    UnmergedUnify(Values(ps), s);
    if Unify(Values(ps)) == ANYTHING {
      AnythingIsAny(allOptional);
      AnyComplete(m.value);
    } else {
      UniformMapsAgree(m.value);
      InferValid(m.value);
      forall x | x in Values(ps) ensures ValidJson(x) {
        var j :| 0 <= j < |Values(ps)| && Values(ps)[j] == x;
        assert ps[j] in ps;
        var y :| y in members && ps[j] == Member(y.key, InferSchema(y.value));
        InferValid(y.value);
      }
      UnifyValid(Values(ps));
      TypeByMarker(s, Unify(Values(ps)), allOptional);
    }
  }

  lemma AnyComplete(v: Json)
    ensures Complete(WAny, v)
  {
  }

  /**
   * Homogeneous lists and uniform maps: the emitted model validates its own evidence exactly when what its
   * fields misread fits, and in particular when the keys that are not data are plain.
   */
  lemma UniformEvidenceValidatesIff(lax: Lax, cs: seq<ClassSpec>, e: TypeExpr, v: Json, allOptional: bool)
    requires TableOk(cs) && Unfold(cs, e) == TypeOf(InferSchema(v), allOptional)
    requires ValidJson(v) && Homogeneous(v) && UniformMaps(v)
    ensures Validates(lax, false, cs, e, v) <==> ReadsFit(lax, cs, e, v)
    ensures PlainKeys(v) ==> Validates(lax, false, cs, e, v)
  {
    hide TableOk, WireNamesOk, Unfold, TypeOf, InferSchema, OwnNames, ReadsFit, Validates, Accepts, Homogeneous,
      UniformMaps, Complete, PlainKeys;
    TableWireNames(cs);
    UniformEvidenceIsAccepted(v, allOptional);
    AcceptedValidatesIff(lax, false, cs, e, v);
    if PlainKeys(v) {
      UniformIsComplete(v, allOptional);
      CompleteReadsOwn(cs, e, v);
      OwnNamesFit(lax, cs, e, v);
    }
  }
}
