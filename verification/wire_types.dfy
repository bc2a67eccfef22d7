/**
 * What a schema means on the wire: the cache-free, purely recursive reading of a schema as a type,
 * independent of class names, class tables and emission order.
 */
module WireTypes {
  import opened Wrappers
  import opened JsonValues
  import opened MapBlocks

  datatype Scalar = StrScalar | IntScalar | FloatScalar | BoolScalar

  datatype WireType =
    | WAny
    | WScalar(scalar: Scalar)
    | WList(item: WireType)
    | WDict(value: WireType)
    | WRecord(fields: map<string, WireField>)

  datatype WireField = WireField(wireType: WireType, required: bool)

  // ----- the emitter's decision ladder -----

  datatype Node =
    | Opaque
    | ListNode(item: Json)
    | ScalarNode(scalar: Scalar)
    | MapNode(values: seq<Json>)
    | RecordNode(properties: seq<Member>, required: set<string>)
    | DictNode(value: Json)
    | OpenNode(documentedEmpty: bool)

  function ScalarNamed(name: string): Option<Scalar> {
    match name
    case "string" => Some(StrScalar)
    case "integer" => Some(IntScalar)
    case "number" => Some(FloatScalar)
    case "boolean" => Some(BoolScalar)
    case _ => None
  }

  /** `schema.get("type")`, when it is a string. */
  function Declared(schema: Json): Option<string> {
    match Get(schema, "type")
    case Some(Str(name)) => Some(name)
    case _ => None
  }

  function RequiredNames(schema: Json): set<string> {
    match Get(schema, "required")
    case Some(Arr(names)) => set n | n in names && n.Str? :: n.s
    case _ => {}
  }

  function Values(ms: seq<Member>): seq<Json> {
    seq(|ms|, i requires 0 <= i < |ms| => ms[i].value)
  }

  function Classify(schema: Json): Node {
    if !schema.Obj? || schema.members == [] || HasKey(schema, "$ref") then Opaque
    else
      var declared := Declared(schema);
      var scalar := if declared.Some? then ScalarNamed(declared.value) else None;
      var additional := Get(schema, "additionalProperties");
      if declared == Some("array") || (declared.None? && HasKey(schema, "items")) then
        ListNode(if Get(schema, "items").Some? then Get(schema, "items").value else Null)
      else if scalar.Some? then ScalarNode(scalar.value)
      else if HasProperties(schema) && Properties(schema) != [] then
        if IsMapBlock(Properties(schema)) then MapNode(Values(Properties(schema)))
        else RecordNode(Properties(schema), RequiredNames(schema))
      else if additional.Some? && additional.value.Obj? && additional.value.members != [] then
        DictNode(additional.value)
      else if declared == Some("object") || additional.Some? || HasProperties(schema) then
        OpenNode(HasProperties(schema))
      else Opaque
  }

  lemma ValuesAt(ms: seq<Member>, v: Json)
    requires UniqueKeys(ms)
    ensures v in Values(ms) <==> exists k <- KeySet(ms) :: At(ms, k) == v
  {
    if v in Values(ms) {
      var i :| 0 <= i < |Values(ms)| && Values(ms)[i] == v;
      AtIndex(ms, i);
    }
    if k :| k in KeySet(ms) && At(ms, k) == v {
      assert Values(ms)[IndexOf(ms, k)] == v;
    }
  }

  /** Every schema the emitter goes on to is strictly shallower, the unified one included. */
  lemma ChildDepth(schema: Json)
    ensures match Classify(schema)
      case ListNode(item) => Depth(item) < Depth(schema)
      case MapNode(values) =>
        (forall v <- values :: Depth(v) < Depth(schema)) && Depth(Unify(values)) < Depth(schema)
      case RecordNode(properties, _) => forall m <- properties :: Depth(m.value) < Depth(schema)
      case DictNode(value) => Depth(value) < Depth(schema)
      case _ => true
  {
    match Classify(schema)
    case ListNode(item) =>
      if Get(schema, "items").Some? { AtDepth(schema.members, "items"); }
    case MapNode(values) =>
      var ps := Properties(schema);
      forall v | v in values ensures Depth(v) + 2 <= Depth(schema) {
        var i :| 0 <= i < |values| && values[i] == v;
        PropertyDepth(schema, ps[i]);
      }
      assert values[0] in values;
      UnifyDepth(values, Depth(schema) - 1);
    case RecordNode(properties, _) =>
      forall m | m in properties ensures Depth(m.value) < Depth(schema) {
        PropertyDepth(schema, m);
      }
    case DictNode(value) =>
      AtDepth(schema.members, "additionalProperties");
    case _ =>
  }

  lemma ChildValid(schema: Json)
    requires ValidJson(schema)
    ensures match Classify(schema)
      case ListNode(item) => ValidJson(item)
      case MapNode(values) => (forall v <- values :: ValidJson(v)) && ValidJson(Unify(values))
      case RecordNode(properties, _) =>
        UniqueKeys(properties) && forall m <- properties :: ValidJson(m.value)
      case DictNode(value) => ValidJson(value)
      case _ => true
  {
    match Classify(schema)
    case ListNode(item) =>
      if Get(schema, "items").Some? { GetValid(schema, "items"); }
    case MapNode(values) =>
      PropertiesValid(schema);
      forall v | v in values ensures ValidJson(v) {
        var i :| 0 <= i < |values| && values[i] == v;
        assert Properties(schema)[i] in Properties(schema);
      }
      UnifyValid(values);
    case RecordNode(properties, _) =>
      PropertiesValid(schema);
    case DictNode(value) =>
      GetValid(schema, "additionalProperties");
    case _ =>
  }

  // ----- the cache-free type of a schema -----

  /** Names a record keeps as fields: map-shaped names of a mixed block are absorbed as extras. */
  function FieldKeys(properties: seq<Member>): set<string> {
    set k | k in KeySet(properties) && !IsMapKey(k)
  }

  function TypeOf(schema: Json, allOptional: bool): WireType
    decreases Depth(schema)
  {
    ChildDepth(schema);
    match Classify(schema)
    case Opaque => WAny
    case ListNode(item) => WList(TypeOf(item, allOptional))
    case ScalarNode(scalar) => WScalar(scalar)
    case MapNode(values) => WDict(TypeOf(Unify(values), allOptional))
    case RecordNode(properties, required) =>
      WRecord(map k | k in FieldKeys(properties) ::
        WireField(TypeOf(At(properties, k), allOptional), !allOptional && k in required))
    case DictNode(value) => WDict(TypeOf(value, allOptional))
    case OpenNode(_) => WDict(WAny)
  }

  // ----- when key order cannot change a type -----

  /** Every map block the emitter reaches has examples that agree on the properties they share. */
  ghost predicate Agreeing(schema: Json)
    decreases Depth(schema)
  {
    ChildDepth(schema);
    match Classify(schema)
    case ListNode(item) => Agreeing(item)
    case MapNode(values) => BlockAgrees(values) && Agreeing(Unify(values))
    case RecordNode(properties, _) =>
      forall k <- FieldKeys(properties) :: Agreeing(At(properties, k))
    case DictNode(value) => Agreeing(value)
    case _ => true
  }

  /** Two schema nodes that differ in key order only. */
  ghost predicate SameNode(a: Node, b: Node) {
    match (a, b)
    case (ListNode(x), ListNode(y)) => MarkerOf(x) == MarkerOf(y)
    case (MapNode(xs), MapNode(ys)) => Markers(xs) == Markers(ys)
    case (RecordNode(ps, r), RecordNode(qs, r')) => SameProperties(ps, qs) && r == r'
    case (DictNode(x), DictNode(y)) => MarkerOf(x) == MarkerOf(y)
    case (_, _) => a == b
  }

  ghost predicate SameProperties(ps: seq<Member>, qs: seq<Member>) {
    KeySet(ps) == KeySet(qs) && forall k <- KeySet(ps) :: MarkerOf(At(ps, k)) == MarkerOf(At(qs, k))
  }

  lemma SameValues(ps: seq<Member>, qs: seq<Member>)
    requires UniqueKeys(ps) && UniqueKeys(qs) && SameProperties(ps, qs)
    ensures Markers(Values(ps)) <= Markers(Values(qs))
  {
    hide MarkerOf;
    forall m | m in Markers(Values(ps)) ensures m in Markers(Values(qs)) {
      var v :| v in Values(ps) && MarkerOf(v) == m;
      ValuesAt(ps, v);
      var k :| k in KeySet(ps) && At(ps, k) == v;
      ValuesAt(qs, At(qs, k));
    }
  }

  lemma RequiredByMarker(s: Json, t: Json)
    requires MarkerOf(s) == MarkerOf(t)
    ensures RequiredNames(s) <= RequiredNames(t)
  {
    MarkerGet(s, t, "required");
    match Get(s, "required")
    case Some(Arr(names)) =>
      MarkerItems(Get(s, "required").value, Get(t, "required").value);
      var others := Get(t, "required").value.items;
      forall n | n in RequiredNames(s) ensures n in RequiredNames(t) {
        var i :| 0 <= i < |names| && names[i] == Str(n);
        assert MarkerOf(others[i]) == MStr(n);
        assert others[i] in others;
      }
    case _ =>
  }

  lemma DeclaredByMarker(s: Json, t: Json)
    requires MarkerOf(s) == MarkerOf(t)
    ensures Declared(s) == Declared(t)
  {
    MarkerGet(s, t, "type");
  }

  lemma IsMapBlockByKeys(ps: seq<Member>, qs: seq<Member>)
    requires KeySet(ps) == KeySet(qs)
    ensures (ps == []) == (qs == []) && IsMapBlock(ps) == IsMapBlock(qs)
  {
    IsMapBlockKeys(ps);
    IsMapBlockKeys(qs);
  }

  lemma IsMapBlockKeys(ps: seq<Member>)
    ensures ps == [] <==> KeySet(ps) == {}
    ensures IsMapBlock(ps) <==> KeySet(ps) != {} && forall k <- KeySet(ps) :: IsMapKey(k)
  {
    hide IsMapKey;
    if ps != [] { assert ps[0].key in KeySet(ps); }
    forall m | m in ps ensures m.key in KeySet(ps) {
      var i :| 0 <= i < |ps| && ps[i] == m;
    }
    forall k | k in KeySet(ps) ensures exists m <- ps :: m.key == k {
      assert ps[IndexOf(ps, k)] in ps;
    }
  }

  lemma EmptyByMarker(s: Json, t: Json)
    requires s.Obj? && t.Obj? && MarkerOf(s) == MarkerOf(t)
    ensures s.members == [] <==> t.members == []
  {
    MarkerMembers(s, t);
    IsMapBlockKeys(s.members);
    IsMapBlockKeys(t.members);
  }

  lemma ObjByMarker(s: Json, t: Json)
    requires MarkerOf(s) == MarkerOf(t)
    ensures s.Obj? == t.Obj?
    ensures s.Obj? ==> (s.members == [] <==> t.members == [])
  {
    if s.Obj? { EmptyByMarker(s, t); }
  }

  lemma PropertiesByMarker(s: Json, t: Json)
    requires MarkerOf(s) == MarkerOf(t) && ValidJson(s) && ValidJson(t) && HasProperties(s)
    ensures HasProperties(t) && SameProperties(Properties(s), Properties(t))
    ensures (Properties(s) == []) == (Properties(t) == [])
    ensures IsMapBlock(Properties(s)) == IsMapBlock(Properties(t))
    ensures Markers(Values(Properties(s))) == Markers(Values(Properties(t)))
  {
    hide MarkerOf, Get, ValidJson, IsMapBlock, Markers;
    MarkerHasProperties(s, t);
    PropertiesValid(s);
    PropertiesValid(t);
    IsMapBlockByKeys(Properties(s), Properties(t));
    SameValues(Properties(s), Properties(t));
    SameValues(Properties(t), Properties(s));
  }

  /** The ladder takes the same branch on schemas that differ in key order only. */
  lemma ClassifyByMarker(s: Json, t: Json)
    requires MarkerOf(s) == MarkerOf(t) && ValidJson(s) && ValidJson(t)
    ensures SameNode(Classify(s), Classify(t))
  {
    hide MarkerOf, Get, ValidJson, IsMapBlock, Declared, RequiredNames, HasProperties, Properties,
      HasKey, Markers, ScalarNamed, Values, SameProperties;
    ObjByMarker(s, t);
    DeclaredByMarker(s, t);
    MarkerGet(s, t, "$ref");
    MarkerGet(s, t, "items");
    MarkerGet(s, t, "additionalProperties");
    MarkerHasProperties(s, t);
    RequiredByMarker(s, t);
    RequiredByMarker(t, s);
    if HasProperties(s) { PropertiesByMarker(s, t); }
    if Get(s, "additionalProperties").Some? {
      ObjByMarker(Get(s, "additionalProperties").value, Get(t, "additionalProperties").value);
    }
  }

  /** The type and the agreement of a schema, one level down. */
  ghost predicate NodeMeans(node: Node, wireType: WireType, agreeing: bool, allOptional: bool) {
    match node
    case Opaque => wireType == WAny && agreeing
    case ListNode(item) => wireType == WList(TypeOf(item, allOptional)) && agreeing == Agreeing(item)
    case ScalarNode(scalar) => wireType == WScalar(scalar) && agreeing
    case MapNode(values) =>
      && wireType == WDict(TypeOf(Unify(values), allOptional))
      && agreeing == (BlockAgrees(values) && Agreeing(Unify(values)))
    case RecordNode(properties, required) =>
      && wireType.WRecord? && wireType.fields.Keys == FieldKeys(properties)
      && (forall k <- FieldKeys(properties) :: wireType.fields[k] ==
            WireField(TypeOf(At(properties, k), allOptional), !allOptional && k in required))
      && agreeing == forall k <- FieldKeys(properties) :: Agreeing(At(properties, k))
    case DictNode(value) => wireType == WDict(TypeOf(value, allOptional)) && agreeing == Agreeing(value)
    case OpenNode(_) => wireType == WDict(WAny) && agreeing
  }

  lemma NodeMeaning(schema: Json, allOptional: bool)
    ensures NodeMeans(Classify(schema), TypeOf(schema, allOptional), Agreeing(schema), allOptional)
  {
    ChildDepth(schema);
    hide Classify, IsMapKey, Unify;
  }

  /** A schema whose map blocks agree has one type, whatever order its keys come in. */
  lemma {:induction false} TypeByMarker(s: Json, t: Json, allOptional: bool)
    requires MarkerOf(s) == MarkerOf(t) && ValidJson(s) && ValidJson(t) && Agreeing(s)
    ensures Agreeing(t) && TypeOf(s, allOptional) == TypeOf(t, allOptional)
    decreases Depth(s), 1
  {
    hide MarkerOf, Classify, ValidJson, IsMapKey, TypeOf, Agreeing, BlockAgrees, Unify, Markers, FieldKeys,
      SameProperties;
    ClassifyByMarker(s, t);
    NodeMeaning(s, allOptional);
    NodeMeaning(t, allOptional);
    ChildDepth(s);
    ChildValid(s);
    ChildValid(t);
    match Classify(s)
    case ListNode(item) => TypeByMarker(item, Classify(t).item, allOptional);
    case DictNode(value) => TypeByMarker(value, Classify(t).value, allOptional);
    case MapNode(values) =>
      UnifyByMarkers(values, Classify(t).values);
      TypeByMarker(Unify(values), Unify(Classify(t).values), allOptional);
    case RecordNode(ps, required) => RecordByMarker(s, t, allOptional);
    case _ =>
  }

  lemma {:induction false} RecordByMarker(s: Json, t: Json, allOptional: bool)
    requires MarkerOf(s) == MarkerOf(t) && ValidJson(s) && ValidJson(t) && Agreeing(s)
    requires Classify(s).RecordNode?
    ensures Agreeing(t) && TypeOf(s, allOptional) == TypeOf(t, allOptional)
    decreases Depth(s), 0
  {
    hide MarkerOf, Classify, ValidJson, IsMapKey, TypeOf, Agreeing, FieldKeys, Depth;
    RecordParts(s, t);
    var ps, qs := Classify(s).properties, Classify(t).properties;
    NodeMeaning(s, allOptional);
    NodeMeaning(t, allOptional);
    forall k | k in FieldKeys(ps)
      ensures Agreeing(At(qs, k)) && TypeOf(At(ps, k), allOptional) == TypeOf(At(qs, k), allOptional)
    {
      TypeByMarker(At(ps, k), At(qs, k), allOptional);
    }
    assert TypeOf(s, allOptional).fields == TypeOf(t, allOptional).fields;
  }

  /** The parts of two records that differ in key order only: one marker under every kept name. */
  lemma RecordParts(s: Json, t: Json)
    requires MarkerOf(s) == MarkerOf(t) && ValidJson(s) && ValidJson(t) && Classify(s).RecordNode?
    ensures Classify(t).RecordNode? && Classify(t).required == Classify(s).required
    ensures FieldKeys(Classify(t).properties) == FieldKeys(Classify(s).properties)
    ensures FieldKeys(Classify(s).properties) <= KeySet(Classify(s).properties)
    ensures FieldKeys(Classify(s).properties) <= KeySet(Classify(t).properties)
    ensures forall k <- FieldKeys(Classify(s).properties) ::
      var x, y := At(Classify(s).properties, k), At(Classify(t).properties, k);
      MarkerOf(x) == MarkerOf(y) && ValidJson(x) && ValidJson(y) && Depth(x) < Depth(s)
  {
    hide MarkerOf, Classify, ValidJson, IsMapKey, Depth;
    ClassifyByMarker(s, t);
    ChildDepth(s);
    ChildValid(s);
    ChildValid(t);
    var ps, qs := Classify(s).properties, Classify(t).properties;
    assert FieldKeys(ps) == FieldKeys(qs);
    forall k | k in FieldKeys(ps)
      ensures ValidJson(At(ps, k)) && ValidJson(At(qs, k)) && Depth(At(ps, k)) < Depth(s)
    {
      assert ps[IndexOf(ps, k)] in ps && qs[IndexOf(qs, k)] in qs;
    }
  }
}
