/** Concrete payloads that emitted models change, refuse, or file under another name. */
module ModelCounterexamples {
  import opened Wrappers
  import opened Text
  import opened JsonValues
  import opened MapBlocks
  import opened Naming
  import opened WireTypes
  import opened Acceptance
  import opened Inference
  import opened ClassTable
  import opened Folding
  import opened Aliases
  import opened Coercion
  import opened AliasTable

  // ----- coerced and refused -----

  function TextField(pythonName: string, wireName: string, required: bool): FieldSpec {
    FieldSpec(pythonName, wireName, ScalarType(StrScalar), required)
  }

  /** A model with one text field. */
  function TextModel(pythonName: string, wireName: string, required: bool): seq<ClassSpec> {
    [RecordClass("Text", [TextField(pythonName, wireName, required)])]
  }

  lemma OneMember(key: string, value: Json)
    ensures KeySet([Member(key, value)]) == {key} && At([Member(key, value)], key) == value
    ensures UniqueKeys([Member(key, value)])
  {
    assert [Member(key, value)][0].key == key;
  }

  lemma TextAlias(pythonName: string, wireName: string, required: bool)
    ensures Alias(TextField(pythonName, wireName, required)) == wireName <==>
      pythonName == wireName || IsPlain(wireName)
  {
    hide AsciiFold, IsPlain;
    FoldFixesIff(wireName);
  }

  /** What the one-field model makes of a payload with one member. */
  lemma OneUnderText(lax: Lax, pythonName: string, wireName: string, required: bool, key: string, value: Json)
    requires ValidJson(value)
    ensures var cs, f, v := TextModel(pythonName, wireName, required), TextField(pythonName, wireName, required),
        Obj([Member(key, value)]);
      && (Validates(lax, false, cs, ClassRef("Text"), v) <==>
            if key == Alias(f) || key == pythonName then ValidatesField(lax, [], f, value) else !required)
      && (Survives(lax, false, cs, ClassRef("Text"), v) <==>
            if key == Alias(f) then NativeField(lax, [], f, value) else key != pythonName && !required)
  {
    var cs, f, ms := TextModel(pythonName, wireName, required), TextField(pythonName, wireName, required),
      [Member(key, value)];
    OneMember(key, value);
    assert cs[..0] == [] && ValidJson(Obj(ms));
    LoadDumpIffNative(lax, false, cs, ClassRef("Text"), Obj(ms));
    RecordUnfolds(lax, false, cs, "Text", Obj(ms));
    hide Alias, Validates, Native, Survives, ValidatesField, NativeField, KeySet, At;
    OneFieldReads(lax, f, key, ms);
  }

  lemma OneFieldReads(lax: Lax, f: FieldSpec, key: string, ms: seq<Member>)
    requires KeySet(ms) == {key}
    ensures ValidatesFields(lax, [], [f], ms) <==>
      if key == Alias(f) || key == f.pythonName then ValidatesField(lax, [], f, At(ms, key)) else !f.required
    ensures NativeFields(lax, [], [f], ms) <==>
      if key == Alias(f) then NativeField(lax, [], f, At(ms, key)) else key != f.pythonName && !f.required
  {
    hide Alias, ValidatesField, NativeField, KeySet, At;
    var fields := [f];
    assert !Overridden(fields, 0) && fields[0] == f;
    assert NotShadowed(fields, {key}) <==> (key == Alias(f) || key != f.pythonName) by {
      assert f in fields;
    }
    hide NotShadowed, Overridden;
  }

  /** A text field takes numbers and texts, and only a text is of its own kind. */
  lemma TextTakes(lax: Lax, f: FieldSpec, x: string)
    requires f.typeExpr == ScalarType(StrScalar)
    ensures ValidatesField(lax, [], f, Int(1)) && !NativeField(lax, [], f, Int(1))
    ensures ValidatesField(lax, [], f, Str(x)) && NativeField(lax, [], f, Str(x))
  {
  }

  /** A number under the alias of a text field is accepted, and comes back as text. */
  lemma NumberBecomesText(lax: Lax, pythonName: string, wireName: string)
    ensures var cs, v := TextModel(pythonName, wireName, false),
        Obj([Member(Alias(TextField(pythonName, wireName, false)), Int(1))]);
      Validates(lax, false, cs, ClassRef("Text"), v) && !Survives(lax, false, cs, ClassRef("Text"), v)
  {
    TextTakes(lax, TextField(pythonName, wireName, false), "");
    hide Alias, Validates, Survives, ValidatesField, NativeField;
    OneUnderText(lax, pythonName, wireName, false, Alias(TextField(pythonName, wireName, false)), Int(1));
  }

  /** Under the wire name of a renamed field it comes back as it was exactly when folding changes that name. */
  lemma NumberComesBackIff(lax: Lax, pythonName: string, wireName: string)
    ensures var cs, v := TextModel(pythonName, wireName, false), Obj([Member(wireName, Int(1))]);
      && Validates(lax, false, cs, ClassRef("Text"), v)
      && (Survives(lax, false, cs, ClassRef("Text"), v) <==> pythonName != wireName && !IsPlain(wireName))
  {
    TextAlias(pythonName, wireName, false);
    TextTakes(lax, TextField(pythonName, wireName, false), "");
    hide Alias, Validates, Survives, IsPlain, ValidatesField, NativeField;
    OneUnderText(lax, pythonName, wireName, false, wireName, Int(1));
  }

  /** A text under a required field's wire name is documented, and refused where folding changes that name. */
  lemma RequiredIsFoundIff(lax: Lax, pythonName: string, wireName: string, x: string)
    ensures var cs, v := TextModel(pythonName, wireName, true), Obj([Member(wireName, Str(x))]);
      && Accepts(Unfold(cs, ClassRef("Text")), v)
      && (Validates(lax, false, cs, ClassRef("Text"), v) <==> pythonName == wireName || IsPlain(wireName))
  {
    TextAlias(pythonName, wireName, true);
    OneMember(wireName, Str(x));
    TextUnfolds(pythonName, wireName, true);
    TextTakes(lax, TextField(pythonName, wireName, true), x);
    hide Alias, Validates, Survives, IsPlain, Unfold, ValidatesField, NativeField;
    OneUnderText(lax, pythonName, wireName, true, wireName, Str(x));
  }

  lemma TextUnfolds(pythonName: string, wireName: string, required: bool)
    ensures Unfold(TextModel(pythonName, wireName, required), ClassRef("Text"))
      == WRecord(map[wireName := WireField(WScalar(StrScalar), required)])
  {
    var cs := TextModel(pythonName, wireName, required);
    var fields := cs[0].fields;
    assert cs[..0] == [] && fields[0].wireName == wireName;
    assert ClassTable.WireNames(fields) == {wireName};
    var w := UnfoldClass([], cs[0]);
    assert FieldIndex(fields, wireName) == 0;
    assert Unfold([], ScalarType(StrScalar)) == WScalar(StrScalar);
    assert w.fields.Keys == {wireName} && wireName in w.fields;
    assert w.fields == map[wireName := w.fields[wireName]] && w.fields[wireName] ==
        WireField(WScalar(StrScalar), required);
  }

  /** A list where the model is a record is refused. */
  lemma ListIsRefused(lax: Lax, pythonName: string, wireName: string, required: bool)
    ensures !Validates(lax, false, TextModel(pythonName, wireName, required), ClassRef("Text"), Arr([Int(1)]))
  {
    RecordUnfolds(lax, false, TextModel(pythonName, wireName, required), "Text", Arr([Int(1)]));
  }

  // ----- filed under another name -----

  lemma SelfIsEscaped()
    ensures PythonFieldName("self") == "self_"
  {
    hide SnakeCase;
    SelfIsSnake();
    SelfIsNoKeyword();
    hide IsKeyword, IsPydanticAttribute;
    assert "self" != "" && !IsDigit("self"[0]);
  }

  lemma SelfIsNoKeyword()
    ensures !IsKeyword("self") && !IsPydanticAttribute("self")
  {
    assert |"self"| == 4 && "self"[0] == 's';
  }

  /** A payload that spells the echo field by its Python name comes back under the alias instead. */
  lemma EchoUnderPythonName(lax: Lax)
    ensures var cs := [RecordClass("Echo", [FieldSpec(PythonFieldName("self"), "self", AnyType, false)])];
      var v := Obj([Member("self_", Int(1))]);
      Validates(lax, false, cs, ClassRef("Echo"), v) && !Survives(lax, false, cs, ClassRef("Echo"), v)
  {
    SelfIsEscaped();
    hide PythonFieldName;
    var f := FieldSpec("self_", "self", AnyType, false);
    var cs, ms := [RecordClass("Echo", [f])], [Member("self_", Int(1))];
    OneMember("self_", Int(1));
    SelfAlias(f);
    assert cs[..0] == [];
    LoadDumpIffNative(lax, false, cs, ClassRef("Echo"), Obj(ms));
    RecordUnfolds(lax, false, cs, "Echo", Obj(ms));
    hide Alias, Validates, Native, Survives, KeySet, At;
    OneFieldReads(lax, f, "self_", ms);
  }

  lemma SelfAlias(f: FieldSpec)
    requires f.pythonName == "self_" && f.wireName == "self"
    ensures Alias(f) == "self"
  {
    hide AsciiFold;
    SnakeIsPlain("self");
    PlainIsFixed("self");
  }

  // ----- evidence that is refused -----

  const FLAG := Member("self", TypeSchema("boolean"))
  const COUNT := Member("self_", TypeSchema("integer"))

  /** Two instances of a map: one documents `self`, the other `self_`. */
  const EVIDENCE := Obj([Member("<a>", Obj([Member("self", Bool(true))])),
      Member("<b>", Obj([Member("self_", Int(5))]))])

  /** The class emitted for their merge, where `self` is filed under the Python name `self_`. */
  const MERGED_FIELDS := [FieldSpec("self_", "self", ScalarType(BoolScalar), false),
                          FieldSpec("self__2", "self_", ScalarType(IntScalar), false)]

  const MERGED_TABLE := [RecordClass("Value", MERGED_FIELDS)]

  lemma OneProperty(key: string, value: Json)
    ensures InferSchema(Obj([Member(key, value)])) == ObjectSchema([Member(key, InferSchema(value))])
  {
    var ms := [Member(key, value)];
    assert InferMembers(ms) == [Member(key, InferSchema(value))];
    hide InferSchema, InferMembers;
    assert SortMembers([Member(key, InferSchema(value))]) == [Member(key, InferSchema(value))];
    hide SortMembers;
    InferObject(ms);
  }

  lemma InferObject(ms: seq<Member>)
    ensures InferSchema(Obj(ms)) == ObjectSchema(SortMembers(InferMembers(ms)))
  {
  }

  lemma SortTwo(a: Member, b: Member)
    requires Less(a.key, b.key)
    ensures SortMembers([a, b]) == [a, b]
  {
    hide Less;
    assert [a, b][1..] == [b] && SortMembers([b]) == [b];
  }

  lemma TwoProperties(a: Member, b: Member)
    requires Less(a.key, b.key)
    ensures InferSchema(Obj([a, b]))
      == ObjectSchema([Member(a.key, InferSchema(a.value)), Member(b.key, InferSchema(b.value))])
  {
    hide Less, InferSchema, SortMembers;
    var x, y := Member(a.key, InferSchema(a.value)), Member(b.key, InferSchema(b.value));
    assert InferMembers([a, b]) == [x, y];
    SortTwo(x, y);
    InferObject([a, b]);
  }

  /** Two examples that share no property merge to both their properties. */
  lemma UnifyDisjoint(p: Member, q: Member)
    requires Less(p.key, q.key)
    ensures Unify([ObjectSchema([p]), ObjectSchema([q])]) == ObjectSchema([p, q])
    ensures BlockAgrees([ObjectSchema([p]), ObjectSchema([q])])
  {
    var x, y := ObjectSchema([p]), ObjectSchema([q]);
    LessTrichotomy(p.key, q.key);
    hide Less, ObjectSchema;
    OneMember(p.key, p.value);
    OneMember(q.key, q.value);
    ObjectSchemaProperties([p]);
    ObjectSchemaProperties([q]);
    assert MarkerOf(x) != MarkerOf(y) by {
      if MarkerOf(x) == MarkerOf(y) { PropertiesByMarkers(x, y); }
    }
    hide MarkerOf, HasProperties, SortMembers;
    DistinctTwo(x, y);
    MergedDisjoint(x, y, p, q);
    SortTwo(p, q);
    DisjointAgree(x, y, p, q);
  }

  lemma PropertiesByMarkers(x: Json, y: Json)
    requires HasProperties(x) && MarkerOf(x) == MarkerOf(y)
    ensures HasProperties(y) && KeySet(Properties(x)) == KeySet(Properties(y))
  {
    hide MarkerOf;
    MarkerGet(x, y, "properties");
    MarkerMembers(Get(x, "properties").value, Get(y, "properties").value);
  }

  lemma DistinctTwo(x: Json, y: Json)
    requires MarkerOf(x) != MarkerOf(y)
    ensures Distinct([x, y]) == [x, y]
  {
    hide MarkerOf;
    assert [x, y][..1] == [x] && [x][..0] == [];
    assert Distinct([x]) == [x];
  }

  lemma MergedDisjoint(x: Json, y: Json, p: Member, q: Member)
    requires HasProperties(x) && Properties(x) == [p] && HasProperties(y) && Properties(y) == [q] && p.key != q.key
    ensures Merged([x, y]) == [p, q]
  {
    hide HasProperties, SetDefaults;
    DefaultsOfOne([], p);
    DefaultsOfOne([p], q);
    OneMember(p.key, p.value);
    assert [x, y][..1] == [x] && [x][..0] == [] && [p] + [q] == [p, q];
    assert Merged([x]) == [p];
    assert Merged([x, y]) == [p, q];
  }

  lemma DefaultsOfOne(acc: seq<Member>, m: Member)
    requires m.key !in KeySet(acc)
    ensures SetDefaults(acc, [m]) == acc + [m]
  {
    assert [m][..0] == [];
    assert SetDefaults(acc, []) == acc;
  }

  lemma DisjointAgree(x: Json, y: Json, p: Member, q: Member)
    requires HasProperties(x) && Properties(x) == [p] && HasProperties(y) && Properties(y) == [q] && p.key != q.key
    requires Distinct([x, y]) == [x, y]
    ensures BlockAgrees([x, y])
  {
    hide MarkerOf, HasProperties;
    OneMember(p.key, p.value);
    OneMember(q.key, q.value);
  }

  lemma NamesHere()
    ensures IsMapKey("<a>") && IsMapKey("<b>") && !IsMapKey("self") && !IsMapKey("self_")
    ensures Less("<a>", "<b>") && Less("self", "self_")
  {
    LetterName("self");
    LetterName("self_");
    hide Split;
    assert "<a>"[1..] == "a>" && "<b>"[1..] == "b>";
    assert "self" + "_" == "self_";
    LessByPrefix("self", "_");
  }

  /** A name that starts with a letter, has no dot and ends in no bracket or newline is a field name. */
  lemma LetterName(name: string)
    requires name != "" && IsLower(name[0]) && '.' !in name && name[|name| - 1] != '>' && name[|name| - 1] != '\n'
    ensures !IsMapKey(name)
  {
    assert name[0] in name;
    SplitWithout(name, '.');
    hide Split;
  }

  lemma {:induction false} LessByPrefix(s: string, t: string)
    requires t != ""
    ensures Less(s, s + t)
  {
    if s == "" {
      assert s + t == t;
    } else {
      assert (s + t)[1..] == s[1..] + t;
      LessByPrefix(s[1..], t);
    }
  }

  lemma ScalarMeans(name: string)
    requires ScalarNamed(name).Some?
    ensures TypeOf(TypeSchema(name), true) == WScalar(ScalarNamed(name).value) && Agreeing(TypeSchema(name))
  {
    ClassifyTypeSchema(name);
    NodeMeaning(TypeSchema(name), true);
  }

  lemma RecordOfTwo(p: Member, q: Member)
    requires p.key != q.key && !IsMapKey(p.key) && !IsMapKey(q.key) && Agreeing(p.value) && Agreeing(q.value)
    ensures TypeOf(ObjectSchema([p, q]), true) == WRecord(map[
      p.key := WireField(TypeOf(p.value, true), false), q.key := WireField(TypeOf(q.value, true), false)])
    ensures Agreeing(ObjectSchema([p, q]))
  {
    var ps := [p, q];
    TwoFields(p, q);
    hide IsMapKey, IsMapBlock, ObjectSchema, TypeOf, Agreeing, FieldKeys;
    RecordSchemaMeans(ps, true);
    TwoKeyed(TypeOf(ObjectSchema(ps), true).fields, p.key, q.key);
  }

  lemma TwoKeyed(m: map<string, WireField>, a: string, b: string)
    requires m.Keys == {a, b} && a != b
    ensures m == map[a := m[a], b := m[b]]
  {
  }

  lemma TwoFields(p: Member, q: Member)
    requires p.key != q.key && !IsMapKey(p.key) && !IsMapKey(q.key)
    ensures FieldKeys([p, q]) == {p.key, q.key} && !IsMapBlock([p, q])
    ensures At([p, q], p.key) == p.value && At([p, q], q.key) == q.value
  {
    hide IsMapKey;
    var ps := [p, q];
    assert ps[0] in ps;
    AtIndex(ps, 0);
    AtIndex(ps, 1);
    assert KeySet(ps) == {p.key, q.key} by { assert ps[0].key == p.key && ps[1].key == q.key; }
  }

  lemma MapOfTwo(a: Member, b: Member)
    requires IsMapKey(a.key) && IsMapKey(b.key)
    requires BlockAgrees([a.value, b.value]) && Agreeing(Unify([a.value, b.value]))
    ensures TypeOf(ObjectSchema([a, b]), true) == WDict(TypeOf(Unify([a.value, b.value]), true))
    ensures Agreeing(ObjectSchema([a, b]))
  {
    hide IsMapKey, ObjectSchema, TypeOf, Agreeing, BlockAgrees, Unify;
    assert Values([a, b]) == [a.value, b.value];
    MapSchemaMeans([a, b], true);
  }

  function MergedType(): WireType {
    WRecord(map["self" := WireField(WScalar(BoolScalar), false), "self_" := WireField(WScalar(IntScalar), false)])
  }

  lemma EvidenceType()
    ensures TypeOf(InferSchema(EVIDENCE), true) == WDict(MergedType()) && Agreeing(InferSchema(EVIDENCE))
  {
    NamesHere();
    hide IsMapKey, Less;
    OneProperty("self", Bool(true));
    OneProperty("self_", Int(5));
    TwoProperties(EVIDENCE.members[0], EVIDENCE.members[1]);
    hide InferSchema, ObjectSchema, TypeOf, Agreeing, Unify, BlockAgrees;
    UnifyDisjoint(FLAG, COUNT);
    ScalarMeans("boolean");
    ScalarMeans("integer");
    RecordOfTwo(FLAG, COUNT);
    MapOfTwo(Member("<a>", ObjectSchema([FLAG])), Member("<b>", ObjectSchema([COUNT])));
  }

  lemma SameSnake(a: string, b: string)
    requires SnakeCase(a) == SnakeCase(b)
    ensures PythonFieldName(a) == PythonFieldName(b)
  {
    hide SnakeCase, IsKeyword, IsPydanticAttribute;
  }

  lemma MergedNames()
    ensures PythonFieldName("self") == "self_" && PythonFieldName("self_") == "self_"
    ensures Candidate("self_", 2) == "self__2"
  {
    hide PythonFieldName, SnakeCase;
    SelfIsEscaped();
    TrailingFolds("self", '_');
    assert "self" + "_" == "self_";
    SelfIsSnake();
    SameSnake("self_", "self");
    assert Decimal(2) == "2";
  }

  lemma SelfIsSnake()
    ensures SnakeCase("self") == "self"
  {
    hide SnakeCase;
    SnakeCaseFixesCanonical("self");
  }

  /** A last character that is no letter or digit leaves no trace in the sanitized name. */
  lemma TrailingFolds(name: string, c: char)
    requires Canonical(name) && name != "" && (forall x <- name :: IsAlnum(x)) && !IsAlnum(c)
    ensures SnakeCase(name + [c]) == name
  {
    hide SnakeCase;
    FoldTrailing(name, c);
    assert AllSnake(name + "_") && NoDoubled(name + "_");
    PassesFixCanonical(name + "_");
    StripTrailing(name);
    assert Lower(name) == name by { assert forall i :: 0 <= i < |name| ==> name[i] in name; }
    SnakeOf(name + [c], name + "_", name);
  }

  lemma SnakeOf(name: string, folded: string, stripped: string)
    requires FoldNonWord(name) == folded && BreakBeforeWord(folded) == folded && BreakCamel(folded) == folded
    requires CollapseUnderscores(folded) == folded && Strip(folded, '_') == stripped && Lower(stripped) == stripped
    ensures SnakeCase(name) == stripped
  {
  }

  lemma {:induction false} FoldTrailing(s: string, c: char)
    requires (forall x <- s :: IsAlnum(x)) && !IsAlnum(c)
    ensures FoldNonWord(s + [c]) == s + "_"
  {
    if s == "" {
      assert s + [c] == [c] && [c][1..] == "" && NonWordRun([c]) == 1;
    } else {
      assert (s + [c])[1..] == s[1..] + [c] && (s + [c])[0] == s[0] && s[0] in s;
      FoldTrailing(s[1..], c);
      assert [s[0]] + (s[1..] + "_") == s + "_";
    }
  }

  lemma StripTrailing(s: string)
    requires s != "" && s[0] != '_' && s[|s| - 1] != '_'
    ensures Strip(s + "_", '_') == s
  {
    var t := s + "_";
    assert t[..|s|] == s && t[|s|] == '_' && t[0] != '_';
    assert LStrip(t, '_') == t && RStrip(s, '_') == s;
    assert RStrip(t, '_') == RStrip(t[..|t| - 1], '_');
  }

  lemma MergedTableOk()
    ensures TableOk(MERGED_TABLE)
  {
    MergedNames();
    hide PythonFieldName, Decimal;
    assert LegalClassName("Value") by { ValueIsNoKeyword(); }
    assert PythonNames(MERGED_FIELDS[..0]) == {};
    assert FirstFreeAt("self_", "self_", {}, 1);
    assert PythonNames(MERGED_FIELDS[..1]) == {"self_"} by { assert MERGED_FIELDS[..1][0].pythonName == "self_"; }
    assert FirstFreeAt("self__2", "self_", {"self_"}, 2);
    hide FirstFreeAt, LegalClassName, Candidate;
    assert FieldsOk(MERGED_FIELDS);
    assert ClassNames(MERGED_TABLE[..0]) == {};
    assert ClassOk(MERGED_TABLE[0], {});
  }

  lemma ValueIsNoKeyword()
    ensures !IsKeyword("Value")
  {
    assert "Value"[0] == 'V';
  }

  lemma MergedUnfolds()
    ensures Unfold(MERGED_TABLE, DictType(ClassRef("Value"))) == WDict(MergedType())
  {
    var cs, fields := MERGED_TABLE, MERGED_FIELDS;
    assert cs[..0] == [];
    assert ClassTable.WireNames(fields) == {"self", "self_"} by {
      assert fields[0].wireName == "self" && fields[1].wireName == "self_";
    }
    assert Unfold(cs, ClassRef("Value")) == UnfoldClass([], cs[0]);
    var w := UnfoldClass([], cs[0]);
    assert FieldIndex(fields, "self") == 0 && FieldIndex(fields, "self_") == 1;
    assert w.fields == MergedType().fields;
  }

  lemma SecondInstanceRefused(lax: Lax)
    ensures !Validates(lax, false, MERGED_TABLE, ClassRef("Value"), Obj([Member("self_", Int(5))]))
  {
    var ms := [Member("self_", Int(5))];
    OneMember("self_", Int(5));
    SelfAlias(MERGED_FIELDS[0]);
    hide Alias;
    assert SourceKey(MERGED_FIELDS[0], {"self_"}) == Some("self_");
    FlagRefusesFive(lax, MERGED_FIELDS[0]);
    hide SourceKey, ValidatesField;
    FieldRefuses(lax, MERGED_TABLE, "Value", 0, "self_", ms);
  }

  lemma FlagRefusesFive(lax: Lax, f: FieldSpec)
    requires f.typeExpr == ScalarType(BoolScalar)
    ensures !ValidatesField(lax, [], f, Int(5))
  {
  }

  lemma FieldRefuses(lax: Lax, cs: seq<ClassSpec>, name: string, i: nat, key: string, ms: seq<Member>)
    requires |cs| == 1 && cs[0].name == name && cs[0].RecordClass? && i < |cs[0].fields| && key in KeySet(ms)
    requires SourceKey(cs[0].fields[i], KeySet(ms)) == Some(key)
    requires !ValidatesField(lax, [], cs[0].fields[i], At(ms, key))
    ensures !Validates(lax, false, cs, ClassRef(name), Obj(ms))
  {
    assert cs[..0] == [];
    RecordUnfolds(lax, false, cs, name, Obj(ms));
    hide Validates, ValidatesField;
  }

  /**
   * Evidence the merged type accepts on the wire and validation refuses: the second instance's `self_` is
   * read into the first instance's `self`, for which 5 is no boolean.
   */
  lemma ShadowedEvidenceIsRefused(lax: Lax)
    ensures TableOk(MERGED_TABLE) && Unfold(MERGED_TABLE, DictType(ClassRef("Value"))) ==
        TypeOf(InferSchema(EVIDENCE), true)
    ensures ValidJson(EVIDENCE) && ListsFit(EVIDENCE) && Agreeing(InferSchema(EVIDENCE))
    ensures Accepts(TypeOf(InferSchema(EVIDENCE), true), EVIDENCE)
    ensures !Validates(lax, false, MERGED_TABLE, DictType(ClassRef("Value")), EVIDENCE)
  {
    hide TableOk, Unfold, TypeOf, InferSchema, Agreeing, ListsFit, Accepts, Validates, EVIDENCE, MERGED_TABLE;
    EvidenceFits();
    MergedTableOk();
    MergedUnfolds();
    EvidenceType();
    EvidenceIsAccepted(EVIDENCE, true);
    EvidenceRefused(lax);
  }

  lemma EvidenceFits()
    ensures ValidJson(EVIDENCE) && ListsFit(EVIDENCE)
  {
    OneMember("self", Bool(true));
    OneMember("self_", Int(5));
    assert EVIDENCE.members[0].key != EVIDENCE.members[1].key;
  }

  lemma EvidenceRefused(lax: Lax)
    ensures !Validates(lax, false, MERGED_TABLE, DictType(ClassRef("Value")), EVIDENCE)
  {
    SecondInstanceRefused(lax);
    assert EVIDENCE.members[1] in EVIDENCE.members;
    hide MERGED_TABLE;
  }

  // ----- two names that fold alike -----

  /** Evidence with two keys that differ in a trailing space. */
  const SPACED := Obj([Member("foo", Int(5)), Member("foo ", Bool(true))])

  /** The class emitted for it: both fields have the alias `foo`. */
  const SPACED_FIELDS := [FieldSpec("foo", "foo", ScalarType(IntScalar), false),
                          FieldSpec("foo_2", "foo ", ScalarType(BoolScalar), false)]

  const SPACED_TABLE := [RecordClass("Pair", SPACED_FIELDS)]

  lemma SpacedNames()
    ensures PythonFieldName("foo") == "foo" && PythonFieldName("foo ") == "foo"
    ensures Candidate("foo", 2) == "foo_2"
    ensures !IsMapKey("foo") && !IsMapKey("foo ") && Less("foo", "foo ")
    ensures Alias(SPACED_FIELDS[0]) == "foo" && Alias(SPACED_FIELDS[1]) == "foo"
  {
    hide IsMapKey, Less, AsciiFold, PythonFieldName;
    SpacedIsNoData();
    SpacedIsFoo();
    assert Decimal(2) == "2";
    hide Alias;
    assert Alias(SPACED_FIELDS[1]) == "foo" by { SpacedAlias(SPACED_FIELDS[1]); }
    assert Alias(SPACED_FIELDS[0]) == "foo" by { KeptAlias(SPACED_FIELDS[0]); }
  }

  lemma KeptAlias(f: FieldSpec)
    requires f.pythonName == f.wireName
    ensures Alias(f) == f.wireName
  {
  }

  lemma SpacedAlias(f: FieldSpec)
    requires f.wireName == "foo " && f.pythonName == "foo_2"
    ensures Alias(f) == "foo"
  {
    hide AsciiFold;
    assert "foo" + " " == "foo " && |"foo "| != |"foo_2"|;
    TrailingSpaceFolds("foo");
  }

  lemma SpacedIsNoData()
    ensures !IsMapKey("foo") && !IsMapKey("foo ") && Less("foo", "foo ")
  {
    hide IsMapKey, Less;
    LetterName("foo");
    LetterName("foo ");
    assert "foo" + " " == "foo ";
    LessByPrefix("foo", " ");
  }

  lemma SpacedIsFoo()
    ensures PythonFieldName("foo") == "foo" && PythonFieldName("foo ") == "foo"
  {
    hide SnakeCase, PythonFieldName;
    FooIsSnake();
    FooIsFree();
    assert "foo" + [' '] == "foo ";
    TrailingFolds("foo", ' ');
    SameSnake("foo ", "foo");
  }

  lemma FooIsSnake()
    ensures SnakeCase("foo") == "foo" && Canonical("foo")
  {
    hide SnakeCase;
    SnakeCaseFixesCanonical("foo");
  }

  lemma FooIsFree()
    requires SnakeCase("foo") == "foo"
    ensures PythonFieldName("foo") == "foo"
  {
    hide SnakeCase;
    assert |"foo"| == 3 && "foo"[0] == 'f' && "foo"[1] == 'o';
    assert !IsKeyword("foo") && !IsPydanticAttribute("foo") by { FooIsNoKeyword(); }
    hide IsKeyword, IsPydanticAttribute;
  }

  lemma FooIsNoKeyword()
    ensures !IsKeyword("foo") && !IsPydanticAttribute("foo")
  {
    assert |"foo"| == 3 && "foo"[1] == 'o' && "foo"[2] == 'o';
  }

  lemma SpacedTableOk()
    ensures TableOk(SPACED_TABLE)
  {
    SpacedNames();
    hide PythonFieldName, Decimal, Alias, IsMapKey, Less;
    assert LegalClassName("Pair") by { PairIsNoKeyword(); }
    assert PythonNames(SPACED_FIELDS[..0]) == {};
    assert FirstFreeAt("foo", "foo", {}, 1);
    assert PythonNames(SPACED_FIELDS[..1]) == {"foo"} by { assert SPACED_FIELDS[..1][0].pythonName == "foo"; }
    assert FirstFreeAt("foo_2", "foo", {"foo"}, 2);
    hide FirstFreeAt, LegalClassName, Candidate;
    assert FieldsOk(SPACED_FIELDS);
    assert ClassNames(SPACED_TABLE[..0]) == {};
    assert ClassOk(SPACED_TABLE[0], {});
  }

  lemma PairIsNoKeyword()
    ensures !IsKeyword("Pair")
  {
    assert "Pair"[0] == 'P';
  }

  lemma SpacedType()
    ensures TypeOf(InferSchema(SPACED), true) == WRecord(map[
      "foo" := WireField(WScalar(IntScalar), false), "foo " := WireField(WScalar(BoolScalar), false)])
  {
    SpacedNames();
    hide IsMapKey, Less, Alias, PythonFieldName;
    TwoProperties(SPACED.members[0], SPACED.members[1]);
    assert InferSchema(Int(5)) == TypeSchema("integer") && InferSchema(Bool(true)) == TypeSchema("boolean");
    ScalarMeans("integer");
    ScalarMeans("boolean");
    hide InferSchema, TypeOf, Agreeing, ObjectSchema;
    RecordOfTwo(Member("foo", TypeSchema("integer")), Member("foo ", TypeSchema("boolean")));
  }

  lemma SpacedUnfolds()
    ensures Unfold(SPACED_TABLE, ClassRef("Pair")) == WRecord(map[
      "foo" := WireField(WScalar(IntScalar), false), "foo " := WireField(WScalar(BoolScalar), false)])
  {
    var cs, fields := SPACED_TABLE, SPACED_FIELDS;
    assert cs[..0] == [];
    assert ClassTable.WireNames(fields) == {"foo", "foo "} by {
      assert fields[0].wireName == "foo" && fields[1].wireName == "foo ";
    }
    assert Unfold(cs, ClassRef("Pair")) == UnfoldClass([], cs[0]);
    var w := UnfoldClass([], cs[0]);
    assert FieldIndex(fields, "foo") == 0 && FieldIndex(fields, "foo ") == 1;
    assert w.fields.Keys == {"foo", "foo "};
  }

  lemma SpacedUniform()
    ensures ValidJson(SPACED) && Homogeneous(SPACED) && UniformMaps(SPACED)
  {
    hide IsMapKey, IsMapBlock, Less;
    SpacedIsNoData();
    assert "foo" != "foo " by { assert |"foo"| != |"foo "|; }
    NotMapBlock(SPACED.members);
  }

  lemma NotMapBlock(ms: seq<Member>)
    requires ms != [] && !IsMapKey(ms[0].key)
    ensures !IsMapBlock(ms)
  {
    hide IsMapKey;
    assert ms[0] in ms;
  }

  /**
   * Evidence with homogeneous lists and uniform maps that its own model refuses: `foo ` is emitted with
   * the alias `foo`, so its boolean field reads the number.
   */
  lemma FoldedEvidenceIsRefused(lax: Lax)
    ensures TableOk(SPACED_TABLE) && Unfold(SPACED_TABLE, ClassRef("Pair")) == TypeOf(InferSchema(SPACED), true)
    ensures ValidJson(SPACED) && Homogeneous(SPACED) && UniformMaps(SPACED)
    ensures Accepts(TypeOf(InferSchema(SPACED), true), SPACED)
    ensures !Validates(lax, false, SPACED_TABLE, ClassRef("Pair"), SPACED)
  {
    hide TableOk, Unfold, TypeOf, InferSchema, Accepts, Validates, Homogeneous, UniformMaps, SPACED, SPACED_TABLE;
    SpacedTableOk();
    SpacedUnfolds();
    SpacedType();
    SpacedUniform();
    UniformEvidenceIsAccepted(SPACED, true);
    SpacedRefused(lax);
  }

  lemma SpacedRefused(lax: Lax)
    ensures !Validates(lax, false, SPACED_TABLE, ClassRef("Pair"), SPACED)
  {
    SpacedNames();
    hide IsMapKey, Less, PythonFieldName, Candidate, Alias;
    var ms := SPACED.members;
    assert "foo" != "foo " by { assert |"foo"| != |"foo "|; }
    AtIndex(ms, 0);
    assert SourceKey(SPACED_FIELDS[1], KeySet(ms)) == Some("foo");
    FlagRefusesFive(lax, SPACED_FIELDS[1]);
    hide SourceKey, ValidatesField;
    FieldRefuses(lax, SPACED_TABLE, "Pair", 1, "foo", ms);
  }
}
