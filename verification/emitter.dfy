/** The stateful compiler from schemas to type expressions and an ordered class table. */
module Emitter {
  import opened Wrappers
  import opened Text
  import opened JsonValues
  import opened MapBlocks
  import opened WireTypes
  import opened SchemaKeywords
  import opened Settling
  import opened Naming
  import opened ClassTable
  import opened EmissionBounds

  /** The cache key: the schema up to key order, the flag, and the pinned class name. */
  datatype Shape = Shape(marker: Marker, allOptional: bool, className: Option<string>)

  /** The generator's fatal error: a class or a field whose every spelling is taken. */
  datatype GenError = ClassNameExhausted(base: string) | FieldNameExhausted(base: string)

  /**
   * Why emission may fail: some record keeps a thousand properties, or the classes there are and those
   * the schema needs use up the spellings of one name.
   */
  ghost predicate Explained(error: GenError, schema: Json, before: nat, needed: nat) {
    match error
    case FieldNameExhausted(_) => Crowded(schema)
    case ClassNameExhausted(_) => before + needed + 4 >= LAST_SUFFIX
  }

  /** The constructor of expression that belongs to a node of the schema. */
  predicate ExprMatches(node: Node, e: TypeExpr) {
    match node
    case Opaque => e.AnyType?
    case ScalarNode(scalar) => e == ScalarType(scalar)
    case ListNode(_) => e.ListType?
    case RecordNode(_, _) => e.ClassRef?
    case MapNode(_) => e.DictType?
    case DictNode(_) => e.DictType?
    case OpenNode(_) => e == DictType(AnyType)
  }

  /** Every cached class means what its shape means, for schemas that are settled. */
  ghost predicate CacheOk(classes: seq<ClassSpec>, byShape: map<Shape, string>) {
    && (forall shape <- byShape :: byShape[shape] in ClassNames(classes))
    && (forall shape, s :: shape in byShape && Describes(shape, s) ==>
          Unfold(classes, ClassRef(byShape[shape])) == TypeOf(s, shape.allOptional))
  }

  ghost predicate Describes(shape: Shape, s: Json) {
    ValidJson(s) && Settled(s, shape.allOptional) && MarkerOf(s) == shape.marker
  }

  lemma CacheStable(cs: seq<ClassSpec>, cs': seq<ClassSpec>, byShape: map<Shape, string>)
    requires CacheOk(cs, byShape) && cs <= cs' && TableOk(cs')
    ensures CacheOk(cs', byShape)
  {
    hide Describes, TableOk, Unfold;
    NamesGrow(cs, cs');
    forall shape | shape in byShape
      ensures Unfold(cs', ClassRef(byShape[shape])) == Unfold(cs, ClassRef(byShape[shape]))
    {
      UnfoldStable(cs, cs', ClassRef(byShape[shape]));
    }
  }

  /** A class that means what one schema of a shape means serves every settled schema of that shape. */
  lemma CacheInsert(cs: seq<ClassSpec>, byShape: map<Shape, string>, s: Json, shape: Shape, name: string)
    requires CacheOk(cs, byShape) && name in ClassNames(cs)
    requires ValidJson(s) && shape.marker == MarkerOf(s)
    requires Settled(s, shape.allOptional) ==> Unfold(cs, ClassRef(name)) == TypeOf(s, shape.allOptional)
    ensures CacheOk(cs, byShape[shape := name])
  {
    hide Unfold, TypeOf, Settled, MarkerOf, ValidJson;
    forall t | Describes(shape, t) ensures Unfold(cs, ClassRef(name)) == TypeOf(t, shape.allOptional) {
      SettledByMarker(t, s, shape.allOptional);
    }
  }

  lemma CacheHit(cs: seq<ClassSpec>, byShape: map<Shape, string>, s: Json, shape: Shape)
    requires CacheOk(cs, byShape) && shape in byShape && ValidJson(s) && MarkerOf(s) == shape.marker
    ensures byShape[shape] in ClassNames(cs)
    ensures Settled(s, shape.allOptional) ==> Unfold(cs, ClassRef(byShape[shape])) == TypeOf(s, shape.allOptional)
  {
    assert Settled(s, shape.allOptional) ==> Describes(shape, s);
  }

  /** The fields collected so far mean what the properties read so far mean. */
  ghost predicate FieldsMean(cs: seq<ClassSpec>, fields: seq<FieldSpec>, properties: seq<Member>,
                             allOptional: bool, required: set<string>) {
    forall i :: 0 <= i < |fields| ==> FieldMeans(cs, fields[i], properties, allOptional, required)
  }

  ghost predicate FieldMeans(cs: seq<ClassSpec>, f: FieldSpec, properties: seq<Member>,
                             allOptional: bool, required: set<string>) {
    && f.wireName in KeySet(properties)
    && Refs(f.typeExpr) <= ClassNames(cs)
    && f.required == (!allOptional && f.wireName in required)
    && (Settled(At(properties, f.wireName), allOptional) ==>
          Unfold(cs, f.typeExpr) == TypeOf(At(properties, f.wireName), allOptional))
  }

  /** A field is required exactly where the schema demands its wire name and not everything is optional. */
  predicate FieldsDemanded(fields: seq<FieldSpec>, schema: Json, allOptional: bool) {
    forall f <- fields :: f.required <==> !allOptional && Demands(schema, f.wireName)
  }

  /** The names a record keeps, in the order the block has them. */
  function KeptNames(properties: seq<Member>): seq<string> {
    if properties == [] then []
    else
      var init, last := KeptNames(properties[..|properties| - 1]), properties[|properties| - 1].key;
      if IsMapKey(last) then init else init + [last]
  }

  function WireOrder(fields: seq<FieldSpec>): seq<string> {
    seq(|fields|, i requires 0 <= i < |fields| => fields[i].wireName)
  }

  /** What a container holds, and how a record in it is named after the container. */
  datatype Part = Part(schema: Json, suffix: string)

  function Inner(node: Node): Option<Part> {
    match node
    case ListNode(item) => Some(Part(item, "_item"))
    case MapNode(values) => Some(Part(Unify(values), "_value"))
    case DictNode(value) => Some(Part(value, "_value"))
    case _ => None
  }

  /** The class made last is the record's: its fields in the block's order, its name the first free spelling. */
  ghost predicate LastIsRecord(classes: seq<ClassSpec>, schema: Json, properties: seq<Member>, allOptional: bool,
                               hint: string) {
    && classes != [] && classes[|classes| - 1].RecordClass?
    && WireOrder(classes[|classes| - 1].fields) == KeptNames(properties)
    && FieldsDemanded(classes[|classes| - 1].fields, schema, allOptional)
    && LastIsFresh(classes, hint)
  }

  ghost predicate LastIsFresh(classes: seq<ClassSpec>, hint: string) {
    classes != [] && IsFirstFree(classes[|classes| - 1].name, PythonClassName(hint),
                                 MODULE_SYMBOLS + ClassNames(classes[..|classes| - 1]))
  }

  lemma DemandedFields(cs: seq<ClassSpec>, fields: seq<FieldSpec>, schema: Json, allOptional: bool)
    requires Classify(schema).RecordNode?
    requires FieldsMean(cs, fields, Classify(schema).properties, allOptional, Classify(schema).required)
    ensures FieldsDemanded(fields, schema, allOptional)
  {
    RecordDemands(schema);
    hide Classify, Demands, KeySet, At, Unfold, TypeOf, Settled, Refs, ClassNames;
    forall f | f in fields ensures f.required <==> !allOptional && Demands(schema, f.wireName) {
      var i :| 0 <= i < |fields| && fields[i] == f;
      assert FieldMeans(cs, fields[i], Classify(schema).properties, allOptional, Classify(schema).required);
    }
  }

  lemma RecordIsLast(cs: seq<ClassSpec>, schema: Json, properties: seq<Member>, allOptional: bool, hint: string,
                     fields: seq<FieldSpec>)
    requires cs != [] && cs[|cs| - 1] == RecordClass(cs[|cs| - 1].name, fields)
    requires WireOrder(fields) == KeptNames(properties) && FieldsDemanded(fields, schema, allOptional)
    requires LastIsFresh(cs, hint)
    ensures LastIsRecord(cs, schema, properties, allOptional, hint)
  {
  }

  lemma FieldsMeanStable(cs: seq<ClassSpec>, cs': seq<ClassSpec>, fields: seq<FieldSpec>,
                         properties: seq<Member>, allOptional: bool, required: set<string>)
    requires FieldsMean(cs, fields, properties, allOptional, required) && cs <= cs' && TableOk(cs')
    ensures FieldsMean(cs', fields, properties, allOptional, required)
  {
    hide Unfold, TypeOf, Settled, TableOk, ClassNames, Refs;
    NamesGrow(cs, cs');
    forall i | 0 <= i < |fields|
      ensures FieldMeans(cs', fields[i], properties, allOptional, required)
    {
      assert FieldMeans(cs, fields[i], properties, allOptional, required);
      UnfoldStable(cs, cs', fields[i].typeExpr);
    }
  }

  lemma AppendMeans(cs: seq<ClassSpec>, fields: seq<FieldSpec>, f: FieldSpec,
                    properties: seq<Member>, allOptional: bool, required: set<string>)
    requires FieldsMean(cs, fields, properties, allOptional, required)
    requires FieldMeans(cs, f, properties, allOptional, required)
    ensures FieldsMean(cs, fields + [f], properties, allOptional, required)
  {
    hide FieldMeans;
  }

  /** A new record class is well formed over the table its fields were emitted into. */
  lemma RecordClassOk(cs: seq<ClassSpec>, c: ClassSpec, hint: string, properties: seq<Member>,
                      allOptional: bool, required: set<string>)
    requires c.RecordClass? && c.fields != [] && FieldsOk(c.fields)
    requires FieldsMean(cs, c.fields, properties, allOptional, required)
    requires IsFirstFree(c.name, PythonClassName(hint), MODULE_SYMBOLS + ClassNames(cs))
    ensures ClassOk(c, ClassNames(cs))
  {
    hide Unfold, TypeOf, Settled, IsFirstFree, PythonClassName, FieldsOk, LegalClassName;
    FreshClassLegal(c.name, hint, MODULE_SYMBOLS + ClassNames(cs));
    forall n | n in ClassRefs(c) ensures n in ClassNames(cs) {
      var i :| 0 <= i < |c.fields| && n in Refs(c.fields[i].typeExpr);
      assert FieldMeans(cs, c.fields[i], properties, allOptional, required);
    }
  }

  lemma NoFieldsYet(cs: seq<ClassSpec>, properties: seq<Member>, allOptional: bool, required: set<string>)
    ensures KeptNames(properties[..0]) == [] && WireOrder([]) == []
    ensures FieldsOk([]) && WireNames([]) == {} && PythonNames([]) == {} && FieldKeys(properties[..0]) == {}
    ensures FieldsMean(cs, [], properties, allOptional, required)
  {
  }

  lemma UnfoldLast(cs: seq<ClassSpec>, c: ClassSpec)
    ensures Unfold(cs + [c], ClassRef(c.name)) == UnfoldClass(cs, c)
  {
    assert (cs + [c])[..|cs|] == cs;
  }

  /** A record class with one meaning-preserving field per property means the record. */
  lemma RecordMeans(cs: seq<ClassSpec>, c: ClassSpec, schema: Json, properties: seq<Member>,
                    allOptional: bool, required: set<string>)
    requires Classify(schema) == RecordNode(properties, required) && ValidJson(schema) && Settled(schema, allOptional)
    requires c.RecordClass? && WireNames(c.fields) == FieldKeys(properties)
    requires FieldsMean(cs, c.fields, properties, allOptional, required)
    ensures Unfold(cs + [c], ClassRef(c.name)) == TypeOf(schema, allOptional)
  {
    hide Classify, FieldKeys, Settled, TypeOf, Unfold, UnfoldClass, ValidJson, WireNames, Refs, ClassNames;
    RecordTypeOf(schema, allOptional);
    SettledParts(schema, allOptional);
    UnfoldLast(cs, c);
    UnfoldRecord(cs, c);
    forall k | k in WireNames(c.fields)
      ensures UnfoldClass(cs, c).fields[k] == TypeOf(schema, allOptional).fields[k]
    {
      assert FieldMeans(cs, c.fields[FieldIndex(c.fields, k)], properties, allOptional, required);
    }
    assert UnfoldClass(cs, c).fields == TypeOf(schema, allOptional).fields;
  }

  lemma UnfoldRecord(cs: seq<ClassSpec>, c: ClassSpec)
    requires c.RecordClass?
    ensures var w := UnfoldClass(cs, c);
      && w.WRecord? && w.fields.Keys == WireNames(c.fields)
      && forall k <- WireNames(c.fields) ::
        var f := c.fields[FieldIndex(c.fields, k)]; w.fields[k] == WireField(Unfold(cs, f.typeExpr), f.required)
  {
  }

  /** What appending a record class and caching it under its shape establishes. */
  lemma DefinedRecord(cs: seq<ClassSpec>, byShape: map<Shape, string>, c: ClassSpec, schema: Json,
                      properties: seq<Member>, required: set<string>, shape: Shape)
    requires TableOk(cs) && CacheOk(cs, byShape) && ClassOk(c, ClassNames(cs))
    requires ValidJson(schema) && shape.marker == MarkerOf(schema)
    requires Classify(schema) == RecordNode(properties, required)
    requires c.RecordClass? && WireNames(c.fields) == FieldKeys(properties)
    requires FieldsMean(cs, c.fields, properties, shape.allOptional, required)
    ensures TableOk(cs + [c]) && ClassNames(cs + [c]) == ClassNames(cs) + {c.name}
    ensures CacheOk(cs + [c], byShape[shape := c.name])
    ensures Settled(schema, shape.allOptional) ==>
        Unfold(cs + [c], ClassRef(c.name)) == TypeOf(schema, shape.allOptional)
  {
    hide Classify, ValidJson, TableOk, CacheOk, ClassOk, ClassNames, FieldsMean, FieldKeys, TypeOf, Unfold,
      Settled, WireNames, MarkerOf;
    TableAppend(cs, c);
    ClassNamesAppend(cs, c);
    CacheStable(cs, cs + [c], byShape);
    if Settled(schema, shape.allOptional) {
      RecordMeans(cs, c, schema, properties, shape.allOptional, required);
    }
    CacheInsert(cs + [c], byShape, schema, shape, c.name);
  }

  /** An expression for a part of a schema, in the table at hand. */
  ghost predicate PartMeans(cs: seq<ClassSpec>, e: TypeExpr, part: Json, allOptional: bool) {
    Refs(e) <= ClassNames(cs) && (Settled(part, allOptional) ==> Unfold(cs, e) == TypeOf(part, allOptional))
  }

  /** An expression for a schema: of the right kind, over the table's classes, with the right meaning. */
  ghost predicate ExprMeans(cs: seq<ClassSpec>, e: TypeExpr, schema: Json, allOptional: bool) {
    ExprMatches(Classify(schema), e) && PartMeans(cs, e, schema, allOptional)
  }

  lemma LeafMeans(cs: seq<ClassSpec>, schema: Json, allOptional: bool)
    ensures Classify(schema).Opaque? ==> ExprMeans(cs, AnyType, schema, allOptional)
    ensures Classify(schema).ScalarNode? ==> ExprMeans(cs, ScalarType(Classify(schema).scalar), schema, allOptional)
    ensures Classify(schema).OpenNode? ==> ExprMeans(cs, DictType(AnyType), schema, allOptional)
  {
    NodeMeaning(schema, allOptional);
    hide Classify, TypeOf, Settled, ValidJson;
    assert Unfold(cs, AnyType) == WAny && Refs(AnyType) == {};
  }

  lemma ListMeans(cs: seq<ClassSpec>, schema: Json, allOptional: bool, e: TypeExpr)
    requires ValidJson(schema) && Classify(schema).ListNode? && PartMeans(cs, e, Classify(schema).item, allOptional)
    ensures ExprMeans(cs, ListType(e), schema, allOptional)
  {
    if Settled(schema, allOptional) { SettledParts(schema, allOptional); }
    NodeMeaning(schema, allOptional);
    hide Classify, TypeOf, Settled, ValidJson;
  }

  lemma DictOf(cs: seq<ClassSpec>, e: TypeExpr)
    ensures Unfold(cs, DictType(e)) == WDict(Unfold(cs, e)) && Refs(DictType(e)) == Refs(e)
  {
  }

  lemma MapMeans(cs: seq<ClassSpec>, schema: Json, allOptional: bool, e: TypeExpr)
    requires ValidJson(schema) && Classify(schema).MapNode? &&
        PartMeans(cs, e, Unify(Classify(schema).values), allOptional)
    ensures ExprMeans(cs, DictType(e), schema, allOptional)
  {
    hide Classify, TypeOf, Unify, Settled, ValidJson, Unfold, Refs, ClassNames;
    DictOf(cs, e);
    if Settled(schema, allOptional) { SettledParts(schema, allOptional); }
    MapTypeOf(schema, allOptional);
  }

  lemma DictMeans(cs: seq<ClassSpec>, schema: Json, allOptional: bool, e: TypeExpr)
    requires ValidJson(schema) && Classify(schema).DictNode? && PartMeans(cs, e, Classify(schema).value, allOptional)
    ensures ExprMeans(cs, DictType(e), schema, allOptional)
  {
    hide Classify, TypeOf, Settled, ValidJson, Unfold, Refs, ClassNames, Unify;
    DictOf(cs, e);
    if Settled(schema, allOptional) { SettledParts(schema, allOptional); }
    NodeMeaning(schema, allOptional);
  }

  lemma RecordExprMeans(cs: seq<ClassSpec>, schema: Json, allOptional: bool, e: TypeExpr)
    requires Classify(schema).RecordNode? && e.ClassRef? && e.name in ClassNames(cs)
    requires Settled(schema, allOptional) ==> Unfold(cs, e) == TypeOf(schema, allOptional)
    ensures ExprMeans(cs, e, schema, allOptional)
  {
    hide Classify, TypeOf, Settled, Unfold, ClassNames;
  }

  // ----- counting classes and names while a record is emitted -----

  /** After `i` properties: the classes made are those records under them can need, and one name is taken for each. */
  ghost predicate WithinBounds(schema: Json, properties: seq<Member>, i: nat, before: nat, now: nat, taken: set<string>)
  {
    && i <= |properties| && (forall m <- properties :: Depth(m.value) < Depth(schema))
    && (assert forall m <- properties[..i] :: m in properties;
        now <= before + RecordsIn(properties[..i], Depth(schema)))
    && |taken| <= |FieldKeys(properties[..i])|
  }

  lemma StartBounds(schema: Json, properties: seq<Member>, before: nat)
    requires Classify(schema).RecordNode? && Classify(schema).properties == properties
    ensures WithinBounds(schema, properties, 0, before, before, {})
  {
    PartBounds(schema);
  }

  lemma DroppedBounds(schema: Json, properties: seq<Member>, i: nat, before: nat, now: nat, taken: set<string>)
    requires WithinBounds(schema, properties, i, before, now, taken) && i < |properties|
    requires UniqueKeys(properties) && IsMapKey(properties[i].key)
    ensures WithinBounds(schema, properties, i + 1, before, now, taken)
  {
    hide IsMapKey, Depth, Records, RecordsIn;
    NextRecords(properties, Depth(schema), i);
    NextProperty(properties, i);
  }

  /** What emitting a kept property may have done. */
  lemma FieldBounds(schema: Json, properties: seq<Member>, i: nat, before: nat, now: nat, after: nat,
                    taken: set<string>, r: Result<TypeExpr, GenError>)
    requires Classify(schema).RecordNode? && Classify(schema).properties == properties
    requires WithinBounds(schema, properties, i, before, now, taken) && i < |properties|
    requires !IsMapKey(properties[i].key) && after <= now + Records(properties[i].value)
    requires r.Failure? ==> Explained(r.error, properties[i].value, now, Records(properties[i].value))
    ensures after <= before + Records(schema)
    ensures r.Failure? ==> Explained(r.error, schema, before, Records(schema))
  {
    hide IsMapKey, Depth, Records, RecordsIn, Crowded, Classify;
    PartBounds(schema);
    NextRecords(properties, Depth(schema), i);
    assert properties[i] in properties;
  }

  lemma TakenBounds(schema: Json, properties: seq<Member>, i: nat, before: nat, now: nat, taken: set<string>,
                    base: string)
    requires Classify(schema).RecordNode? && Classify(schema).properties == properties && UniqueKeys(properties)
    requires WithinBounds(schema, properties, i, before, now, taken) && i < |properties|
    requires !IsMapKey(properties[i].key) && Exhausted(base, taken)
    ensures Explained(FieldNameExhausted(base), schema, before, Records(schema))
  {
    hide IsMapKey, Depth, Records, RecordsIn, Crowded, Classify, FieldKeys, Exhausted;
    PartBounds(schema);
    TakenIsCrowded(properties, i, base, taken);
  }

  lemma KeptBounds(schema: Json, properties: seq<Member>, i: nat, before: nat, now: nat, after: nat,
                   taken: set<string>, name: string)
    requires WithinBounds(schema, properties, i, before, now, taken) && i < |properties| && UniqueKeys(properties)
    requires !IsMapKey(properties[i].key) && after <= now + Records(properties[i].value)
    ensures WithinBounds(schema, properties, i + 1, before, after, taken + {name})
  {
    hide IsMapKey, Depth, Records, RecordsIn;
    NextRecords(properties, Depth(schema), i);
    NextProperty(properties, i);
  }

  lemma EndBounds(schema: Json, properties: seq<Member>, before: nat, now: nat, taken: set<string>)
    requires Classify(schema).RecordNode? && Classify(schema).properties == properties
    requires WithinBounds(schema, properties, |properties|, before, now, taken)
    ensures now + 1 <= before + Records(schema)
  {
    hide IsMapKey, Depth, Records, RecordsIn, Classify;
    assert properties[..|properties|] == properties;
    PartBounds(schema);
  }

  lemma RecordRunsOut(schema: Json, before: nat, cs: seq<ClassSpec>, base: string)
    requires |cs| + 1 <= before + Records(schema) && Exhausted(base, MODULE_SYMBOLS + ClassNames(cs))
    ensures Explained(ClassNameExhausted(base), schema, before, Records(schema))
  {
    hide Exhausted, ClassNames;
    NamesRunOut(cs, base);
  }

  class ModelEmitter {
    var classes: seq<ClassSpec>
    var names: set<string>
    var byShape: map<Shape, string>

    /** Names handed out are exactly the class names; the table is well formed; the cache is exact. */
    ghost predicate Valid()
      reads this
    {
      && names == MODULE_SYMBOLS + ClassNames(classes)
      && TableOk(classes)
      && CacheOk(classes, byShape)
    }

    constructor ()
      ensures Valid()
      ensures classes == [] && byShape == map[]
    {
      classes, names, byShape := [], MODULE_SYMBOLS, map[];
    }

    /** Nothing already emitted is lost: the table and the cache only ever grow. */
    twostate predicate Extended()
      reads this
    {
      && old(classes) <= classes
      && old(byShape).Keys <= byShape.Keys
      && forall shape <- old(byShape) :: byShape[shape] == old(byShape)[shape]
    }

    method {:induction false} Emit(schema: Json, nameHint: string, allOptional: bool, className: Option<string>)
      returns (r: Result<TypeExpr, GenError>)
      requires Valid() && ValidJson(schema)
      modifies this
      decreases Depth(schema), 1
      ensures Valid() && Extended()
      ensures r.Success? ==> ExprMeans(classes, r.value, schema, allOptional)
      ensures Classify(schema).Opaque? || Classify(schema).ScalarNode? ==> r.Success? && unchanged(this)
      ensures Classify(schema).RecordNode? ==>
        var shape := Shape(MarkerOf(schema), allOptional, className);
        && (shape in old(byShape) ==> r == Success(ClassRef(old(byShape)[shape])) && unchanged(this))
        && (r.Success? ==> shape in byShape && r.value == ClassRef(byShape[shape]))
        && (r.Success? && shape !in old(byShape) ==>
              && LastIsRecord(classes, schema, Classify(schema).properties, allOptional,
                   if className == None || className == Some("") then nameHint else className.value)
              && r.value == ClassRef(classes[|classes| - 1].name))
      ensures var part := Inner(Classify(schema));
        r.Success? && part.Some? && Classify(part.value.schema).RecordNode?
          && Shape(MarkerOf(part.value.schema), allOptional, None) !in old(byShape) ==>
        LastIsRecord(classes, part.value.schema, Classify(part.value.schema).properties, allOptional,
                     nameHint + part.value.suffix)
      ensures |classes| <= |old(classes)| + Records(schema)
      ensures r.Failure? ==> Explained(r.error, schema, |old(classes)|, Records(schema))
      ensures r.Failure? && r.error.ClassNameExhausted? ==> Exhausted(r.error.base, names)
    {
      hide Classify, MarkerOf, ValidJson, TableOk, CacheOk, IsMapKey, ClassNames, Unify, Exhausted, TypeOf,
        Settled, BlockAgrees, FieldKeys, Unfold, Refs, ExprMatches, Records, RecordsIn, Crowded, LastIsRecord;
      ChildDepth(schema);
      PartBounds(schema);
      ChildValid(schema);
      LeafMeans(classes, schema, allOptional);
      match Classify(schema) {
        case Opaque =>
          r := Success(AnyType);
        case ListNode(itemSchema) =>
          var item := Emit(itemSchema, nameHint + "_item", allOptional, None);
          if item.Failure? { return item; }
          ListMeans(classes, schema, allOptional, item.value);
          r := Success(ListType(item.value));
        case ScalarNode(scalar) =>
          r := Success(ScalarType(scalar));
        case MapNode(values) =>
          var unified := UnifyMapValues(values);
          var value := Emit(unified, nameHint + "_value", allOptional, None);
          if value.Failure? { return value; }
          MapMeans(classes, schema, allOptional, value.value);
          r := Success(DictType(value.value));
        case RecordNode(properties, required) =>
          r := EmitRecord(schema, properties, required, nameHint, allOptional, className);
          if r.Success? { RecordExprMeans(classes, schema, allOptional, r.value); }
        case DictNode(additional) =>
          var value := Emit(additional, nameHint + "_value", allOptional, None);
          if value.Failure? { return value; }
          DictMeans(classes, schema, allOptional, value.value);
          r := Success(DictType(value.value));
        case OpenNode(_) =>
          r := Success(DictType(AnyType));
      }
    }

    method EmitRecord(schema: Json, properties: seq<Member>, required: set<string>, nameHint: string,
                      allOptional: bool, className: Option<string>)
      returns (r: Result<TypeExpr, GenError>)
      requires Valid() && ValidJson(schema) && Classify(schema) == RecordNode(properties, required)
      modifies this
      decreases Depth(schema), 0
      ensures Valid() && Extended()
      ensures r.Success? ==> r.value.ClassRef? && r.value.name in ClassNames(classes)
      ensures r.Success? && Settled(schema, allOptional) ==> Unfold(classes, r.value) == TypeOf(schema, allOptional)
      ensures var shape := Shape(MarkerOf(schema), allOptional, className);
        && (shape in old(byShape) ==> r == Success(ClassRef(old(byShape)[shape])) && unchanged(this))
        && (r.Success? ==> shape in byShape && r.value == ClassRef(byShape[shape]))
      ensures r.Success? && Shape(MarkerOf(schema), allOptional, className) !in old(byShape) ==>
        && LastIsRecord(classes, schema, properties, allOptional,
             if className == None || className == Some("") then nameHint else className.value)
        && r.value == ClassRef(classes[|classes| - 1].name)
      ensures |classes| <= |old(classes)| + Records(schema)
      ensures r.Failure? ==> Explained(r.error, schema, |old(classes)|, Records(schema))
      ensures r.Failure? && r.error.ClassNameExhausted? ==> Exhausted(r.error.base, names)
    {
      hide Classify, ValidJson, TableOk, CacheOk, IsMapKey, ClassNames, Exhausted, IsFirstFree, FieldsOk,
        FieldsMean, FieldKeys, TypeOf, Unfold, Settled, PythonClassName, PythonFieldName, UniqueKeys,
        WireNames, PythonNames, Candidate, Records, Crowded, WithinBounds, Explained, MarkerOf, KeySet, At, IndexOf,
        FieldsDemanded, KeptNames, WireOrder, LastIsRecord, LastIsFresh;
      var shape := Shape(MarkerOf(schema), allOptional, className);
      if shape in byShape {
        CacheHit(classes, byShape, schema, shape);
        return Success(ClassRef(byShape[shape]));
      }
      ChildDepth(schema);
      ChildValid(schema);
      NoFieldsYet(classes, properties, allOptional, required);
      StartBounds(schema, properties, |classes|);
      var fields: seq<FieldSpec> := [];
      var taken: set<string> := {};
      for i := 0 to |properties|
        invariant Valid() && Extended()
        invariant taken == PythonNames(fields)
        invariant FieldsOk(fields)
        invariant WireNames(fields) == FieldKeys(properties[..i]) && WireOrder(fields) == KeptNames(properties[..i])
        invariant FieldsMean(classes, fields, properties, allOptional, required)
        invariant WithinBounds(schema, properties, i, |old(classes)|, |classes|, taken)
      {
        var wireName := properties[i].key;
        NextProperty(properties, i);
        if !IsMapKey(wireName) {
          ghost var before := classes;
          var typeExpr := Emit(properties[i].value, wireName, allOptional, None);
          FieldBounds(schema, properties, i, |old(classes)|, |before|, |classes|, taken, typeExpr);
          if typeExpr.Failure? { return typeExpr; }
          FieldsMeanStable(before, classes, fields, properties, allOptional, required);
          var pythonName, taken' := Dedupe(PythonFieldName(wireName), taken);
          if pythonName.None? {
            TakenBounds(schema, properties, i, |old(classes)|, |before|, taken, PythonFieldName(wireName));
            return Failure(FieldNameExhausted(PythonFieldName(wireName)));
          }
          KeptBounds(schema, properties, i, |old(classes)|, |before|, |classes|, taken, pythonName.value);
          taken := taken';
          var field := FieldSpec(pythonName.value, wireName, typeExpr.value, !allOptional && wireName in required);
          AppendField(fields, field);
          assert FieldMeans(classes, field, properties, allOptional, required);
          AppendMeans(classes, fields, field, properties, allOptional, required);
          fields := fields + [field];
        } else {
          DroppedBounds(schema, properties, i, |old(classes)|, |classes|, taken);
        }
      }
      EndBounds(schema, properties, |old(classes)|, |classes|, taken);
      assert properties[..|properties|] == properties;
      SomeFieldKept(schema, properties);
      NoFieldsYet(classes, properties, allOptional, required);
      DemandedFields(classes, fields, schema, allOptional);
      r := DefineRecord(schema, properties, required, ClassHint(className, nameHint), shape, fields);
      if r.Failure? { RecordRunsOut(schema, |old(classes)|, classes, r.error.base); }
      else { RecordIsLast(classes, schema, properties, allOptional, ClassHint(className, nameHint), fields); }
    }

    /** Name the record's class, append it to the table and remember it under its shape. */
    method DefineRecord(schema: Json, properties: seq<Member>, required: set<string>, hint: string,
                        shape: Shape, fields: seq<FieldSpec>)
      returns (r: Result<TypeExpr, GenError>)
      requires Valid() && ValidJson(schema) && Classify(schema) == RecordNode(properties, required)
      requires shape.marker == MarkerOf(schema)
      requires fields != [] && FieldsOk(fields) && WireNames(fields) == FieldKeys(properties)
      requires FieldsMean(classes, fields, properties, shape.allOptional, required)
      modifies this
      ensures Valid()
      ensures r.Success? ==>
        && r.value.ClassRef?
        && classes == old(classes) + [RecordClass(r.value.name, fields)]
        && byShape == old(byShape)[shape := r.value.name]
        && r.value.name in ClassNames(classes)
        && LastIsFresh(classes, hint)
      ensures r.Success? && Settled(schema, shape.allOptional) ==>
          Unfold(classes, r.value) == TypeOf(schema, shape.allOptional)
      ensures r.Failure? ==>
        r.error == ClassNameExhausted(PythonClassName(hint)) && Exhausted(r.error.base, names) && unchanged(this)
    {
      hide Classify, ValidJson, TableOk, CacheOk, IsMapKey, ClassNames, Exhausted, IsFirstFree, FieldsOk,
        FieldsMean, FieldKeys, TypeOf, Unfold, Settled, PythonClassName, WireNames, MarkerOf, ClassOk;
      var base := PythonClassName(hint);
      var name, names' := Dedupe(base, names);
      if name.None? { return Failure(ClassNameExhausted(base)); }
      var c := RecordClass(name.value, fields);
      RecordClassOk(classes, c, hint, properties, shape.allOptional, required);
      DefinedRecord(classes, byShape, c, schema, properties, required, shape);
      classes := classes + [c];
      names := names';
      byShape := byShape[shape := name.value];
      assert classes[..|classes| - 1] == old(classes);
      r := Success(ClassRef(name.value));
    }

    /** The pinned class name where there is one, else the hint. */
    static function ClassHint(className: Option<string>, nameHint: string): string {
      if className.Some? && className.value != "" then className.value else nameHint
    }

    /** Define one more class under a name just handed out. */
    method Append(c: ClassSpec, names': set<string>)
      requires Valid() && ClassOk(c, ClassNames(classes)) && names' == names + {c.name}
      modifies this`classes, this`names
      ensures Valid() && classes == old(classes) + [c]
    {
      TableAppend(classes, c);
      ClassNamesAppend(classes, c);
      CacheStable(classes, classes + [c], byShape);
      classes := classes + [c];
      names := names';
    }

    /**
     * A named model for a whole payload, or none when the schema reduces to a scalar or to anything.
     * The tests are made on the rendered text, as the source makes them.
     */
    method EmitRoot(schema: Json, baseName: string, childHint: string, allOptional: bool)
      returns (r: Result<Option<string>, GenError>)
      requires Valid() && ValidJson(schema)
      modifies this
      ensures Valid() && Extended()
      ensures Classify(schema).Opaque? || Classify(schema).ScalarNode? ==>
        r == Success(None) && unchanged(this)
      ensures r.Success? && r.value.None? ==> Classify(schema).Opaque? || Classify(schema).ScalarNode?
      ensures r.Success? && r.value.Some? ==> r.value.value in ClassNames(classes)
      ensures r.Success? && r.value.Some? && Settled(schema, allOptional) ==>
        Unfold(classes, ClassRef(r.value.value)) == TypeOf(schema, allOptional)
      ensures var shape := Shape(MarkerOf(schema), allOptional, Some(baseName));
        r.Success? && Classify(schema).RecordNode? && shape !in old(byShape) ==>
        && LastIsRecord(classes, schema, Classify(schema).properties, allOptional,
             if baseName == "" then childHint else baseName)
        && r.value == Some(classes[|classes| - 1].name)
      ensures r.Success? && r.value.Some? && !Classify(schema).RecordNode? ==>
        && LastIsFresh(classes, baseName)
        && classes[|classes| - 1].RootClass? && r.value == Some(classes[|classes| - 1].name)
      ensures |classes| <= |old(classes)| + Records(schema) + 1
      ensures r.Failure? ==> Explained(r.error, schema, |old(classes)|, Records(schema) + 1)
      ensures r.Failure? && r.error.ClassNameExhausted? ==> Exhausted(r.error.base, names)
    {
      hide Classify, MarkerOf, ValidJson, TableOk, CacheOk, IsMapKey, ClassNames, Exhausted, IsFirstFree,
        TypeOf, Settled, PythonClassName, Render, LegalClassName, Records, Crowded, LastIsRecord;
      var emitted := Emit(schema, childHint, allOptional, Some(baseName));
      if emitted.Failure? { return Failure(emitted.error); }
      var expr := emitted.value;
      RefsLegal(expr);
      RenderTellsApart(expr);
      var text := Render(expr);
      if text == "Any" || text in SCALAR_NAMES {
        return Success(None);
      }
      if IsIdentifier(text) {
        return Success(Some(text));
      }
      var base := PythonClassName(baseName);
      var name, names' := Dedupe(base, names);
      if name.None? {
        NamesRunOut(classes, base);
        return Failure(ClassNameExhausted(base));
      }
      FreshClassLegal(name.value, baseName, names);
      var c := RootClass(name.value, expr);
      UnfoldLast(classes, c);
      ClassNamesAppend(classes, c);
      Append(c, names');
      r := Success(Some(name.value));
    }

    lemma RefsLegal(e: TypeExpr)
      requires Valid() && Refs(e) <= ClassNames(classes)
      ensures forall n <- Refs(e) :: LegalClassName(n) && n !in MODULE_SYMBOLS
    {
      forall n | n in Refs(e) ensures LegalClassName(n) && n !in MODULE_SYMBOLS {
        var i :| 0 <= i < |classes| && classes[i].name == n;
        assert ClassOk(classes[i], ClassNames(classes[..i]));
      }
    }
  }

  lemma NextProperty(properties: seq<Member>, i: nat)
    requires UniqueKeys(properties) && i < |properties|
    ensures FieldKeys(properties[..i + 1]) ==
      FieldKeys(properties[..i]) + if IsMapKey(properties[i].key) then {} else {properties[i].key}
    ensures properties[i].key !in FieldKeys(properties[..i])
    ensures properties[i].key in KeySet(properties) && At(properties, properties[i].key) == properties[i].value
    ensures properties[i] in properties
    ensures KeptNames(properties[..i + 1]) ==
      KeptNames(properties[..i]) + if IsMapKey(properties[i].key) then [] else [properties[i].key]
  {
    hide IsMapKey;
    assert properties[..i + 1] == properties[..i] + [properties[i]];
    KeySetAppend(properties[..i], properties[i]);
    AtIndex(properties, i);
  }

  lemma AppendField(fields: seq<FieldSpec>, f: FieldSpec)
    requires FieldsOk(fields) && f.wireName !in WireNames(fields)
    requires IsFirstFree(f.pythonName, PythonFieldName(f.wireName), PythonNames(fields))
    ensures FieldsOk(fields + [f])
    ensures WireNames(fields + [f]) == WireNames(fields) + {f.wireName}
    ensures WireOrder(fields + [f]) == WireOrder(fields) + [f.wireName]
    ensures PythonNames(fields + [f]) == PythonNames(fields) + {f.pythonName}
  {
    hide IsFirstFree, PythonFieldName;
    var fields' := fields + [f];
    forall i | 0 <= i < |fields'|
      ensures IsFirstFree(fields'[i].pythonName, PythonFieldName(fields'[i].wireName), PythonNames(fields'[..i]))
    {
      assert fields'[..i] == if i < |fields| then fields[..i] else fields;
    }
    forall i | 0 <= i < |fields|
      ensures fields[i].wireName in WireNames(fields') && fields[i].pythonName in PythonNames(fields')
    {
      assert fields'[i] == fields[i];
    }
    assert fields'[|fields|] == f;
  }

  /** The degenerate record without fields cannot arise: some name of a record is not data. */
  lemma SomeFieldKept(schema: Json, properties: seq<Member>)
    requires Classify(schema).RecordNode? && Classify(schema).properties == properties
    ensures FieldKeys(properties) != {}
  {
    IsMapBlockKeys(properties);
    hide IsMapKey, IsMapBlock;
    assert !IsMapBlock(properties);
    var k :| k in KeySet(properties) && !IsMapKey(k);
    assert k in FieldKeys(properties);
  }
}
