/** Schemas inferred from example payloads, and why the emitted model accepts the payload itself. */
module Inference {
  import opened Wrappers
  import opened JsonValues
  import opened MapBlocks
  import opened WireTypes
  import opened Acceptance

  function TypeSchema(name: string): Json {
    Obj([Member("type", Str(name))])
  }

  function ListSchema(item: Json): Json {
    Obj([Member("type", Str("array")), Member("items", item)])
  }

  /** The shape of an example payload. */
  function InferSchema(v: Json): Json {
    match v
    case Obj(members) => ObjectSchema(SortMembers(InferMembers(members)))
    case Arr(items) => ListSchema(if items == [] then ANYTHING else InferSchema(items[0]))
    case Bool(_) => TypeSchema("boolean")
    case Int(_) => TypeSchema("integer")
    case Real(_) => TypeSchema("number")
    case Str(_) => TypeSchema("string")
    case Null => ANYTHING
  }

  function InferMembers(ms: seq<Member>): seq<Member> {
    seq(|ms|, i requires 0 <= i < |ms| => Member(ms[i].key, InferSchema(ms[i].value)))
  }

  // ----- how the emitter reads inferred schemas -----

  lemma ClassifyTypeSchema(name: string)
    requires ScalarNamed(name).Some?
    ensures Classify(TypeSchema(name)) == ScalarNode(ScalarNamed(name).value)
  {
    var s := TypeSchema(name);
    AtIndex(s.members, 0);
    assert KeySet(s.members) == {"type"} by { assert s.members[0].key == "type"; }
    assert Declared(s) == Some(name);
  }

  lemma ClassifyListSchema(item: Json)
    ensures Classify(ListSchema(item)) == ListNode(item)
  {
    var s := ListSchema(item);
    assert UniqueKeys(s.members) && s.members[0].key == "type" && s.members[1].key == "items";
    AtIndex(s.members, 0);
    AtIndex(s.members, 1);
    assert KeySet(s.members) == {"type", "items"};
    assert Declared(s) == Some("array");
    assert Get(s, "items") == if item == Null then None else Some(item);
  }

  /** The inferred property list: one property per key, holding what that key's value infers. */
  lemma InferredProperties(ms: seq<Member>)
    requires UniqueKeys(ms)
    ensures var ps := SortMembers(InferMembers(ms));
      && UniqueKeys(ps) && KeySet(ps) == KeySet(ms)
      && (forall p <- ps :: exists m <- ms :: p == Member(m.key, InferSchema(m.value)))
      && (forall m <- ms :: Member(m.key, InferSchema(m.value)) in ps)
  {
    hide InferSchema;
    var inferred := InferMembers(ms);
    SortShape(inferred);
    assert KeySet(inferred) == KeySet(ms) by {
      forall k | k in KeySet(ms) ensures k in KeySet(inferred) {
        assert inferred[IndexOf(ms, k)].key == k;
      }
      forall k | k in KeySet(inferred) ensures k in KeySet(ms) {
        assert ms[IndexOf(inferred, k)].key == k;
      }
    }
    forall p | p in SortMembers(inferred)
      ensures exists m <- ms :: p == Member(m.key, InferSchema(m.value))
    {
      var i :| 0 <= i < |inferred| && inferred[i] == p;
      assert ms[i] in ms;
    }
    forall m | m in ms ensures Member(m.key, InferSchema(m.value)) in SortMembers(inferred) {
      var i :| 0 <= i < |ms| && ms[i] == m;
      assert inferred[i] in inferred;
    }
  }

  lemma {:induction false} InferValid(v: Json)
    requires ValidJson(v)
    ensures ValidJson(InferSchema(v))
  {
    match v
    case Obj(members) =>
      InferredProperties(members);
      var ps := SortMembers(InferMembers(members));
      forall p | p in ps ensures ValidJson(p.value) {
        var m :| m in members && p == Member(m.key, InferSchema(m.value));
        InferValid(m.value);
      }
      assert UniqueKeys(ObjectSchema(ps).members);
    case Arr(items) =>
      if items != [] { InferValid(items[0]); }
      assert UniqueKeys(InferSchema(v).members);
    case _ =>
  }

  // ----- an example fits what it infers -----

  /** Every list element has the shape its list's first element infers. */
  ghost predicate ListsFit(v: Json) {
    match v
    case Obj(members) => forall m <- members :: ListsFit(m.value)
    case Arr(items) => forall x <- items :: ListsFit(x) && Fits(InferSchema(items[0]), x)
    case _ => true
  }

  /** Lists are homogeneous: all elements infer the same schema. */
  predicate Homogeneous(v: Json) {
    match v
    case Obj(members) => forall m <- members :: Homogeneous(m.value)
    case Arr(items) => forall x <- items :: Homogeneous(x) && InferSchema(x) == InferSchema(items[0])
    case _ => true
  }

  lemma {:induction false} ExampleFits(v: Json)
    requires ValidJson(v) && ListsFit(v)
    ensures Fits(InferSchema(v), v)
  {
    match v
    case Obj(members) =>
      InferredProperties(members);
      var ps := SortMembers(InferMembers(members));
      ClassifyObjectSchema(ps);
      ChildDepth(ObjectSchema(ps));
      hide Classify, ObjectSchema, SortMembers, InferMembers, IsMapKey;
      forall m | m in members
        ensures m.key in KeySet(ps) && Fits(At(ps, m.key), m.value)
      {
        ExampleFits(m.value);
        AtMember(ps, Member(m.key, InferSchema(m.value)));
      }
      ExampleFitsProperties(members, ps, v);
    case Arr(items) =>
      var item := if items == [] then ANYTHING else InferSchema(items[0]);
      ClassifyListSchema(item);
      ChildDepth(ListSchema(item));
    case Bool(_) => ClassifyTypeSchema("boolean");
    case Int(_) => ClassifyTypeSchema("integer");
    case Real(_) => ClassifyTypeSchema("number");
    case Str(_) => ClassifyTypeSchema("string");
    case Null => AnythingFits(v);
  }

  /** Record, map and empty blocks alike: fitting key by key is fitting the whole. */
  lemma ExampleFitsProperties(members: seq<Member>, ps: seq<Member>, v: Json)
    requires v == Obj(members) && KeySet(ps) == KeySet(members)
    requires UniqueKeys(ps)
    requires forall m <- members :: m.key in KeySet(ps) && Fits(At(ps, m.key), m.value)
    ensures Fits(ObjectSchema(ps), v)
  {
    ClassifyObjectSchema(ps);
    ChildDepth(ObjectSchema(ps));
    IsMapBlockKeys(ps);
    IsMapBlockKeys(members);
    hide Classify, ObjectSchema, IsMapKey, IsMapBlock;
    if IsMapBlock(ps) {
      forall m | m in members ensures IsMapKey(m.key) && exists e <- Values(ps) :: Fits(e, m.value) {
        ValuesAt(ps, At(ps, m.key));
      }
    }
  }

  lemma {:induction false} HomogeneousListsFit(v: Json)
    requires ValidJson(v) && Homogeneous(v)
    ensures ListsFit(v)
  {
    match v
    case Obj(members) =>
      forall m | m in members ensures ListsFit(m.value) { HomogeneousListsFit(m.value); }
    case Arr(items) =>
      forall x | x in items ensures ListsFit(x) && Fits(InferSchema(items[0]), x) {
        HomogeneousListsFit(x);
        ExampleFits(x);
      }
    case _ =>
  }

  // ----- inferred schemas merge object examples only -----

  /** The schemas inference and unification produce between them. */
  ghost predicate Inferred(s: Json)
    decreases Depth(s)
  {
    ChildDepth(s);
    match Classify(s)
    case ListNode(item) => !HasProperties(s) && Inferred(item)
    case MapNode(values) => forall v <- values :: Inferred(v)
    case RecordNode(properties, _) => forall p <- properties :: Inferred(p.value)
    case DictNode(_) => false
    case OpenNode(documentedEmpty) => true
    case _ => !HasProperties(s)
  }

  lemma NoProperties(s: Json)
    requires s == ANYTHING || (exists n :: s == TypeSchema(n)) || (exists i :: s == ListSchema(i))
    ensures !HasProperties(s)
  {
    forall i | s.Obj? && 0 <= i < |s.members| ensures s.members[i].key in {"type", "items"} {}
  }

  lemma InferredObjectSchema(ps: seq<Member>)
    requires forall p <- ps :: Inferred(p.value)
    ensures Inferred(ObjectSchema(ps))
  {
    ClassifyObjectSchema(ps);
    ChildDepth(ObjectSchema(ps));
    hide Classify, ObjectSchema, IsMapBlock;
    forall v | v in Values(ps) ensures Inferred(v) {
      var i :| 0 <= i < |Values(ps)| && Values(ps)[i] == v;
      assert ps[i] in ps;
    }
  }

  lemma {:induction false} InferIsInferred(v: Json)
    requires ValidJson(v)
    ensures Inferred(InferSchema(v))
  {
    match v
    case Obj(members) =>
      InferredProperties(members);
      var ps := SortMembers(InferMembers(members));
      forall p | p in ps ensures Inferred(p.value) {
        var m :| m in members && p == Member(m.key, InferSchema(m.value));
        InferIsInferred(m.value);
      }
      InferredObjectSchema(ps);
    case Arr(items) =>
      var item := if items == [] then ANYTHING else InferSchema(items[0]);
      if items != [] { InferIsInferred(items[0]); } else { AnythingInferred(); }
      NoProperties(ListSchema(item));
      ClassifyListSchema(item);
      ChildDepth(ListSchema(item));
    case Bool(_) => ScalarInferred("boolean");
    case Int(_) => ScalarInferred("integer");
    case Real(_) => ScalarInferred("number");
    case Str(_) => ScalarInferred("string");
    case Null => AnythingInferred();
  }

  lemma ScalarInferred(name: string)
    requires ScalarNamed(name).Some?
    ensures Inferred(TypeSchema(name))
  {
    ClassifyTypeSchema(name);
    NoProperties(TypeSchema(name));
  }

  lemma AnythingInferred()
    ensures Inferred(ANYTHING)
  {
    NoProperties(ANYTHING);
  }

  lemma UnifyInferred(values: seq<Json>)
    requires forall v <- values :: Inferred(v) && ValidJson(v)
    ensures Inferred(Unify(values))
  {
    hide Classify, Merged, SortMembers, Get, IsMapKey, ValidJson;
    DistinctMembers(values);
    AnythingInferred();
    var d := Distinct(values);
    if |d| >= 2 && forall s <- d :: HasProperties(s) {
      MergedShape(d);
      SortShape(Merged(d));
      forall p | p in SortMembers(Merged(d)) ensures Inferred(p.value) {
        var s :| s in d && p in Properties(s);
        InferredProperty(s, p);
      }
      InferredObjectSchema(SortMembers(Merged(d)));
    }
  }

  lemma InferredProperty(s: Json, p: Member)
    requires ValidJson(s) && Inferred(s) && HasProperties(s) && p in Properties(s)
    ensures Inferred(p.value)
  {
    ChildDepth(s);
    hide Get, IsMapKey, ValidJson;
    var ps := Properties(s);
    var i :| 0 <= i < |ps| && ps[i] == p;
    assert Values(ps)[i] == p.value;
  }

  lemma InferredObjectLike(s: Json)
    requires Inferred(s) && HasProperties(s)
    ensures ObjectLike(s)
  {
  }

  /** On inferred schemas, agreeing examples are all it takes for merging to be faithful. */
  lemma {:induction false} AgreeingIsFaithful(s: Json)
    requires ValidJson(s) && Inferred(s) && Agreeing(s)
    ensures Faithful(s)
    decreases Depth(s)
  {
    ChildDepth(s);
    ChildValid(s);
    hide Classify, ValidJson, IsMapKey, Get, Unify, Merged, SharedAgree, HasProperties;
    match Classify(s)
    case ListNode(item) => AgreeingIsFaithful(item);
    case MapNode(values) =>
      UnifyInferred(values);
      AgreeingIsFaithful(Unify(values));
      if Merges(values) {
        forall v | v in values ensures ObjectLike(v) {
          DistinctCovers(values);
          var v' := Counterpart(values, Distinct(values), v);
          InferredObjectLike(v');
          ObjectLikeByMarker(v, v');
        }
      }
    case RecordNode(properties, _) =>
      forall k | k in FieldKeys(properties) ensures Faithful(At(properties, k)) {
        AgreeingIsFaithful(At(properties, k));
      }
    case _ =>
  }

  /**
   * The type inferred from an example accepts the example, required or optional, provided its lists
   * are homogeneous and, in the inferred schema, map blocks that are merged agree on shared properties.
   */
  lemma EvidenceIsAccepted(v: Json, allOptional: bool)
    requires ValidJson(v) && ListsFit(v) && Agreeing(InferSchema(v))
    ensures Accepts(TypeOf(InferSchema(v), allOptional), v)
  {
    InferValid(v);
    InferIsInferred(v);
    AgreeingIsFaithful(InferSchema(v));
    ExampleFits(v);
    DocumentedIsAccepted(InferSchema(v), v, allOptional);
  }

  /** The homogeneity the documentation assumes is more than enough. */
  lemma HomogeneousEvidenceIsAccepted(v: Json, allOptional: bool)
    requires ValidJson(v) && Homogeneous(v) && Agreeing(InferSchema(v))
    ensures Accepts(TypeOf(InferSchema(v), allOptional), v)
  {
    HomogeneousListsFit(v);
    EvidenceIsAccepted(v, allOptional);
  }

  /** Data-keyed objects have values that all infer one schema, or are not all objects. */
  predicate UniformMaps(v: Json) {
    match v
    case Obj(members) =>
      && (forall m <- members :: UniformMaps(m.value))
      && (IsMapBlock(members) ==>
            || (exists m <- members :: !m.value.Obj?)
            || (forall m <- members :: InferSchema(m.value) == InferSchema(members[0].value)))
    case Arr(items) => forall x <- items :: UniformMaps(x)
    case _ => true
  }

  lemma NonObjectHasNoProperties(v: Json)
    requires !v.Obj?
    ensures !HasProperties(InferSchema(v))
  {
    NoProperties(InferSchema(v));
  }

  lemma {:induction false} DistinctDiffer(schemas: seq<Json>)
    ensures forall i, j :: 0 <= i < j < |Distinct(schemas)| ==> Distinct(schemas)[i] != Distinct(schemas)[j]
  {
    if schemas != [] {
      var init, last := Distinct(schemas[..|schemas| - 1]), schemas[|schemas| - 1];
      DistinctDiffer(schemas[..|schemas| - 1]);
      assert !Seen(init, last) ==> forall i :: 0 <= i < |init| ==> init[i] != last by {
        assert forall i :: 0 <= i < |init| ==> init[i] in init;
      }
    }
  }

  /** Equal examples, or one that lists no properties: nothing is merged. */
  lemma NothingMerges(schemas: seq<Json>)
    requires schemas != []
    requires (forall s <- schemas :: s == schemas[0]) || (exists s <- schemas :: !HasProperties(s))
    ensures !Merges(schemas) && (Unify(schemas) in schemas || Unify(schemas) == ANYTHING)
  {
    hide MarkerOf, HasProperties, Merged, SortMembers;
    DistinctCovers(schemas);
    var d := Distinct(schemas);
    if Merges(schemas) {
      if s :| s in schemas && !HasProperties(s) {
        var s' := Counterpart(schemas, d, s);
        MarkerHasProperties(s, s');
      } else {
        assert d[0] in schemas && d[1] in schemas;
        DistinctDiffer(schemas);
      }
    }
  }

  lemma {:induction false} UniformMapsAgree(v: Json)
    requires ValidJson(v) && UniformMaps(v)
    ensures Agreeing(InferSchema(v))
  {
    match v
    case Obj(members) =>
      InferredProperties(members);
      var ps := SortMembers(InferMembers(members));
      forall p | p in ps ensures Agreeing(p.value) {
        var m :| m in members && p == Member(m.key, InferSchema(m.value));
        UniformMapsAgree(m.value);
      }
      ClassifyObjectSchema(ps);
      ChildDepth(ObjectSchema(ps));
      IsMapBlockKeys(ps);
      IsMapBlockKeys(members);
      hide Classify, ObjectSchema, IsMapKey, IsMapBlock, SortMembers, InferMembers;
      if IsMapBlock(ps) {
        UniformBlock(members, ps);
        NothingMerges(Values(ps));
        UniformUnified(ps);
      } else {
        assert forall k <- KeySet(ps) :: ps[IndexOf(ps, k)] in ps;
      }
    case Arr(items) =>
      var item := if items == [] then ANYTHING else InferSchema(items[0]);
      if items != [] { UniformMapsAgree(items[0]); }
      ClassifyListSchema(item);
      ChildDepth(ListSchema(item));
    case Bool(_) => ClassifyTypeSchema("boolean");
    case Int(_) => ClassifyTypeSchema("integer");
    case Real(_) => ClassifyTypeSchema("number");
    case Str(_) => ClassifyTypeSchema("string");
    case Null =>
  }

  lemma UniformUnified(ps: seq<Member>)
    requires forall p <- ps :: Agreeing(p.value)
    requires Unify(Values(ps)) in Values(ps) || Unify(Values(ps)) == ANYTHING
    ensures Agreeing(Unify(Values(ps)))
  {
    if Unify(Values(ps)) in Values(ps) {
      var i :| 0 <= i < |Values(ps)| && Values(ps)[i] == Unify(Values(ps));
      assert ps[i] in ps;
    }
  }

  lemma UniformBlock(members: seq<Member>, ps: seq<Member>)
    requires members != []
    requires (forall p <- ps :: exists m <- members :: p == Member(m.key, InferSchema(m.value)))
    requires (forall m <- members :: Member(m.key, InferSchema(m.value)) in ps)
    requires (exists m <- members :: !m.value.Obj?)
      || (forall m <- members :: InferSchema(m.value) == InferSchema(members[0].value))
    ensures Values(ps) != []
    ensures (forall s <- Values(ps) :: s == Values(ps)[0]) || (exists s <- Values(ps) :: !HasProperties(s))
  {
    hide InferSchema, HasProperties;
    assert members[0] in members;
    assert ps != [] && ps[0] in ps;
    if m :| m in members && !m.value.Obj? {
      var i :| 0 <= i < |ps| && ps[i] == Member(m.key, InferSchema(m.value));
      NonObjectHasNoProperties(m.value);
      assert Values(ps)[i] in Values(ps);
    } else {
      forall s | s in Values(ps) ensures s == InferSchema(members[0].value) {
        var i :| 0 <= i < |Values(ps)| && Values(ps)[i] == s;
        assert ps[i] in ps;
      }
    }
  }

  /** Homogeneous lists and uniform data-keyed maps: the emitted type accepts its own evidence. */
  lemma UniformEvidenceIsAccepted(v: Json, allOptional: bool)
    requires ValidJson(v) && Homogeneous(v) && UniformMaps(v)
    ensures Accepts(TypeOf(InferSchema(v), allOptional), v)
  {
    UniformMapsAgree(v);
    HomogeneousEvidenceIsAccepted(v, allOptional);
  }
}
