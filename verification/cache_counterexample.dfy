/**
 * The cache key ignores key order while the merge does not: without agreeing examples the cache cannot
 * be exact.
 */
module CacheCounterexample {
  import opened Wrappers
  import opened Text
  import opened JsonValues
  import opened MapBlocks
  import opened WireTypes
  import opened Acceptance
  import opened Inference
  import opened ClassTable
  import opened EmissionBounds
  import opened Emitter
  import opened ModelCounterexamples

  /** An example value documenting one property `p` of the given type. */
  function Example(typeName: string): Json {
    ObjectSchema([Member("p", TypeSchema(typeName))])
  }

  /** A record whose field `x` is a map block with two examples, in the given order. */
  function TwoExamples(first: string, firstType: string, second: string, secondType: string): Json {
    ObjectSchema([Member("x", ObjectSchema([Member(first, Example(firstType)), Member(second, Example(secondType))]))])
  }

  const A: Json := TwoExamples("<a>", "string", "<b>", "integer")
  const B: Json := TwoExamples("<b>", "integer", "<a>", "string")

  lemma ExampleProperties(typeName: string)
    ensures HasProperties(Example(typeName)) && ValidJson(Example(typeName))
    ensures Properties(Example(typeName)) == [Member("p", TypeSchema(typeName))]
  {
    ObjectSchemaProperties([Member("p", TypeSchema(typeName))]);
    assert ValidJson(TypeSchema(typeName));
    assert ValidJson(Obj([Member("p", TypeSchema(typeName))]));
    assert UniqueKeys(Example(typeName).members);
  }

  lemma ExampleMarkersDiffer(s: string, t: string)
    requires s != t
    ensures MarkerOf(Example(s)) != MarkerOf(Example(t))
  {
    ExampleProperties(s);
    ExampleProperties(t);
    if MarkerOf(Example(s)) == MarkerOf(Example(t)) {
      MarkerHasProperties(Example(s), Example(t));
      var ps, qs := Properties(Example(s)), Properties(Example(t));
      AtIndex(ps, 0);
      AtIndex(qs, 0);
      MarkerGet(TypeSchema(s), TypeSchema(t), "type");
      AtIndex(TypeSchema(s).members, 0);
      AtIndex(TypeSchema(t).members, 0);
    }
  }

  /** Two examples that disagree on `p`: the first one's spelling survives the merge. */
  lemma UnifyTwo(s: string, t: string)
    requires s != t
    ensures Unify([Example(s), Example(t)]) == Example(s)
  {
    ExampleProperties(s);
    ExampleProperties(t);
    ExampleMarkersDiffer(s, t);
    ExampleIs(s);
    hide MarkerOf, Example, HasProperties, Distinct, Merged, SortMembers;
    DistinctTwo(Example(s), Example(t));
    MergedTwo(Example(s), Example(t), Member("p", TypeSchema(s)), Member("p", TypeSchema(t)));
  }

  lemma MergedTwo(x: Json, y: Json, p: Member, q: Member)
    requires HasProperties(x) && Properties(x) == [p] && HasProperties(y) && Properties(y) == [q]
    requires p.key == q.key
    ensures SortMembers(Merged([x, y])) == [p]
  {
    hide HasProperties, SetDefaults;
    DefaultsOfOne([], p);
    DefaultKept(p, q);
    assert [x, y][..1] == [x] && [x][..0] == [];
    assert Merged([x]) == [p];
    assert Merged([x, y]) == [p];
    assert SortMembers([p]) == [p];
  }

  lemma DefaultKept(p: Member, q: Member)
    requires p.key == q.key
    ensures SetDefaults([p], [q]) == [p]
  {
    assert [q][..0] == [] && SetDefaults([p], []) == [p];
    assert p.key in KeySet([p]) by { assert [p][0].key == p.key; }
  }

  lemma ExampleIs(s: string)
    ensures Example(s) == ObjectSchema([Member("p", TypeSchema(s))])
  {
  }

  lemma NamesAreData()
    ensures IsMapKey("<a>") && IsMapKey("<b>") && !IsMapKey("p") && !IsMapKey("x")
  {
    assert 'p' in "p" && 'x' in "x";
    SplitWithout("p", '.');
    SplitWithout("x", '.');
  }

  lemma TypeOfOneField(k: string, field: Json)
    requires !IsMapKey(k)
    ensures TypeOf(ObjectSchema([Member(k, field)]), true)
      == WRecord(map[k := WireField(TypeOf(field, true), false)])
  {
    var ps := [Member(k, field)];
    ClassifyObjectSchema(ps);
    assert ps[0] in ps;
    assert !IsMapBlock(ps);
    NodeMeaning(ObjectSchema(ps), true);
    assert KeySet(ps) == {k} by { assert ps[0].key == k; }
    AtIndex(ps, 0);
    hide IsMapKey, ObjectSchema, Classify;
    assert FieldKeys(ps) == {k};
  }

  lemma TypeOfExample(typeName: string)
    requires ScalarNamed(typeName).Some?
    ensures TypeOf(Example(typeName), true)
      == WRecord(map["p" := WireField(WScalar(ScalarNamed(typeName).value), false)])
  {
    NamesAreData();
    TypeOfOneField("p", TypeSchema(typeName));
    ClassifyTypeSchema(typeName);
    NodeMeaning(TypeSchema(typeName), true);
  }

  lemma TypeOfTwo(a: string, s: string, b: string, t: string)
    requires IsMapKey(a) && IsMapKey(b) && s != t
    ensures TypeOf(TwoExamples(a, s, b, t), true)
      == WRecord(map["x" := WireField(WDict(TypeOf(Example(s), true)), false)])
  {
    NamesAreData();
    var ps := [Member(a, Example(s)), Member(b, Example(t))];
    hide IsMapKey, Example;
    TypeOfOneField("x", ObjectSchema(ps));
    ClassifyObjectSchema(ps);
    NodeMeaning(ObjectSchema(ps), true);
    assert Values(ps) == [Example(s), Example(t)];
    UnifyTwo(s, t);
  }

  lemma SwapKeepsMarker(a: string, x: Json, b: string, y: Json)
    requires a != b
    ensures MarkerOf(Obj([Member(a, x), Member(b, y)])) == MarkerOf(Obj([Member(b, y), Member(a, x)]))
  {
    var ms, ns := [Member(a, x), Member(b, y)], [Member(b, y), Member(a, x)];
    AtIndex(ms, 0);
    AtIndex(ms, 1);
    AtIndex(ns, 0);
    AtIndex(ns, 1);
    assert KeySet(ms) == {a, b} && KeySet(ns) == {a, b} by {
      assert ms[0].key == a && ms[1].key == b && ns[0].key == b && ns[1].key == a;
    }
    MarkerFromMembers(Obj(ms), Obj(ns));
  }

  lemma OneFieldMarker(k: string, x: Json, y: Json)
    requires MarkerOf(x) == MarkerOf(y)
    ensures MarkerOf(ObjectSchema([Member(k, x)])) == MarkerOf(ObjectSchema([Member(k, y)]))
  {
    var ms, ns := [Member(k, x)], [Member(k, y)];
    AtIndex(ms, 0);
    AtIndex(ns, 0);
    assert KeySet(ms) == {k} && KeySet(ns) == {k} by { assert ms[0].key == k && ns[0].key == k; }
    MarkerFromMembers(Obj(ms), Obj(ns));
    ObjectSchemaMarker(ms, ns);
  }

  /** `A` and `B` have one cache key and two different types. */
  lemma CacheCannotServeBoth()
    ensures MarkerOf(A) == MarkerOf(B)
    ensures TypeOf(A, true) != TypeOf(B, true)
  {
    NamesAreData();
    assert "<a>" != "<b>" by { assert "<a>"[1] != "<b>"[1]; }
    SwapKeepsMarker("<a>", Example("string"), "<b>", Example("integer"));
    ObjectSchemaMarker([Member("<a>", Example("string")), Member("<b>", Example("integer"))],
                       [Member("<b>", Example("integer")), Member("<a>", Example("string"))]);
    OneFieldMarker("x",
      ObjectSchema([Member("<a>", Example("string")), Member("<b>", Example("integer"))]),
      ObjectSchema([Member("<b>", Example("integer")), Member("<a>", Example("string"))]));
    TypesDiffer();
  }

  lemma TypesDiffer()
    ensures TypeOf(A, true) != TypeOf(B, true)
  {
    NamesAreData();
    hide IsMapKey;
    TypeOfTwo("<a>", "string", "<b>", "integer");
    TypeOfTwo("<b>", "integer", "<a>", "string");
    TypeOfExample("string");
    TypeOfExample("integer");
    var s := map["p" := WireField(WScalar(StrScalar), false)];
    var i := map["p" := WireField(WScalar(IntScalar), false)];
    assert s["p"] != i["p"];
    var a := map["x" := WireField(WDict(TypeOf(Example("string"), true)), false)];
    var b := map["x" := WireField(WDict(TypeOf(Example("integer"), true)), false)];
    assert a["x"] != b["x"];
  }

  lemma BothRecords()
    ensures ValidJson(A) && ValidJson(B) && Classify(A).RecordNode? && Classify(B).RecordNode?
  {
    NamesAreData();
    RecordOfOne("x", ObjectSchema([Member("<a>", Example("string")), Member("<b>", Example("integer"))]));
    RecordOfOne("x", ObjectSchema([Member("<b>", Example("integer")), Member("<a>", Example("string"))]));
    assert "<a>" != "<b>" by { assert "<a>"[1] != "<b>"[1]; }
    hide IsMapKey;
    PairValid("<a>", "string", "<b>", "integer");
    PairValid("<b>", "integer", "<a>", "string");
  }

  lemma RecordOfOne(k: string, field: Json)
    requires !IsMapKey(k)
    ensures Classify(ObjectSchema([Member(k, field)])).RecordNode?
  {
    var ps := [Member(k, field)];
    assert ps[0] in ps && !IsMapBlock(ps);
    ClassifyObjectSchema(ps);
  }

  lemma PairValid(a: string, s: string, b: string, t: string)
    requires a != b
    ensures ValidJson(TwoExamples(a, s, b, t))
  {
    ExampleProperties(s);
    ExampleProperties(t);
    hide Example;
    var pair := [Member(a, Example(s)), Member(b, Example(t))];
    SchemaValid(pair);
    SchemaValid([Member("x", ObjectSchema(pair))]);
  }

  lemma SchemaValid(ps: seq<Member>)
    requires UniqueKeys(ps) && forall p <- ps :: ValidJson(p.value)
    ensures ValidJson(ObjectSchema(ps))
  {
    assert ValidJson(Obj(ps)) && ValidJson(Str("object"));
    assert UniqueKeys(ObjectSchema(ps).members);
  }

  // ----- emission of either schema succeeds on a new emitter -----

  lemma OneFieldBounds(k: string, field: Json)
    requires !IsMapKey(k)
    ensures var s := ObjectSchema([Member(k, field)]);
      Records(s) == 1 + Records(field) && (Crowded(s) ==> Crowded(field))
  {
    var ps := [Member(k, field)];
    var s := ObjectSchema(ps);
    assert ps[0] in ps && ps[..0] == [];
    ClassifyObjectSchema(ps);
    assert !IsMapBlock(ps);
    PartBounds(s);
    assert RecordsIn(ps, Depth(s)) == Records(field);
    hide IsMapKey, ObjectSchema, Classify;
    assert KeySet(ps) == {k} by { assert ps[0].key == k; }
    assert FieldKeys(ps) == {k};
    ChildDepth(s);
  }

  lemma LeafBounds(typeName: string)
    requires ScalarNamed(typeName).Some?
    ensures Records(TypeSchema(typeName)) == 0 && !Crowded(TypeSchema(typeName))
  {
    ClassifyTypeSchema(typeName);
    ChildDepth(TypeSchema(typeName));
    hide Classify;
  }

  lemma TwoExamplesBounds(a: string, s: string, b: string, t: string)
    requires IsMapKey(a) && IsMapKey(b) && s != t && ScalarNamed(s).Some?
    ensures Records(TwoExamples(a, s, b, t)) == 2 && !Crowded(TwoExamples(a, s, b, t))
  {
    NamesAreData();
    hide IsMapKey, Records, Crowded;
    LeafBounds(s);
    OneFieldBounds("p", TypeSchema(s));
    assert Example(s) == ObjectSchema([Member("p", TypeSchema(s))]);
    hide Example;
    var ps := [Member(a, Example(s)), Member(b, Example(t))];
    MapBounds(ps, s, t);
    OneFieldBounds("x", ObjectSchema(ps));
  }

  lemma MapBounds(ps: seq<Member>, s: string, t: string)
    requires |ps| == 2 && ps[0].value == Example(s) && ps[1].value == Example(t) && s != t && IsMapBlock(ps)
    ensures Records(ObjectSchema(ps)) == Records(Example(s)) && Crowded(ObjectSchema(ps)) == Crowded(Example(s))
  {
    ClassifyObjectSchema(ps);
    assert Values(ps) == [Example(s), Example(t)];
    UnifyTwo(s, t);
    ChildDepth(ObjectSchema(ps));
    hide Classify, ObjectSchema, IsMapKey, IsMapBlock, Example, Unify;
  }

  /**
   * Emitted one after the other on one new emitter, both succeed, the second gets the first one's class,
   * and so the two answers are not both right.
   */
  method EmitBoth() returns (first: Result<TypeExpr, GenError>, second: Result<TypeExpr, GenError>, cs: seq<ClassSpec>)
    ensures first.Success? && second == first
    ensures !(Unfold(cs, first.value) == TypeOf(A, true) && Unfold(cs, second.value) == TypeOf(B, true))
  {
    BothRecords();
    CacheCannotServeBoth();
    NamesAreData();
    TwoExamplesBounds("<a>", "string", "<b>", "integer");
    hide A, B, MarkerOf, TypeOf, Unfold, Classify, ValidJson, Records, Crowded;
    var emitter := new ModelEmitter();
    first := emitter.Emit(A, "root", true, Some("Root"));
    second := emitter.Emit(B, "root", true, Some("Root"));
    cs := emitter.classes;
  }
}
