/** Type expressions, the ordered class table, and what both mean on the wire. */
module ClassTable {
  import opened Text
  import opened Naming
  import opened WireTypes

  datatype TypeExpr =
    | AnyType
    | ScalarType(scalar: Scalar)
    | ListType(item: TypeExpr)
    | DictType(value: TypeExpr)
    | ClassRef(name: string)

  datatype FieldSpec = FieldSpec(pythonName: string, wireName: string, typeExpr: TypeExpr, required: bool)

  datatype ClassSpec =
    | RecordClass(name: string, fields: seq<FieldSpec>)
    | RootClass(name: string, rootType: TypeExpr)

  /** Imports a class must never shadow. */
  const MODULE_SYMBOLS: set<string> := {"Any", "Field", "RootModel", "GeneratedModel", "annotations"}

  function ScalarName(scalar: Scalar): string {
    match scalar
    case StrScalar => "str"
    case IntScalar => "int"
    case FloatScalar => "float"
    case BoolScalar => "bool"
  }

  const SCALAR_NAMES: set<string> := {"str", "int", "float", "bool"}

  /** The expression as the emitter spells it. */
  function Render(e: TypeExpr): string {
    match e
    case AnyType => "Any"
    case ScalarType(scalar) => ScalarName(scalar)
    case ListType(item) => "list[" + Render(item) + "]"
    case DictType(value) => "dict[str, " + Render(value) + "]"
    case ClassRef(name) => name
  }

  function Refs(e: TypeExpr): set<string> {
    match e
    case AnyType => {}
    case ScalarType(_) => {}
    case ListType(item) => Refs(item)
    case DictType(value) => Refs(value)
    case ClassRef(name) => {name}
  }

  /** What reading the emitted text back tells apart, given legally named classes. */
  lemma RenderTellsApart(e: TypeExpr)
    requires forall n <- Refs(e) :: LegalClassName(n) && n !in MODULE_SYMBOLS
    ensures Render(e) == "Any" <==> e.AnyType?
    ensures Render(e) in SCALAR_NAMES <==> e.ScalarType?
    ensures IsIdentifier(Render(e)) <==> e.AnyType? || e.ScalarType? || e.ClassRef?
    ensures e.ClassRef? ==> Render(e) == e.name
  {
    match e
    case ListType(item) => assert Render(e)[4] == '[' && Render(e)[4] in Render(e);
    case DictType(value) => assert Render(e)[4] == '[' && Render(e)[4] in Render(e);
    case ClassRef(name) =>
      assert name in Refs(e);
      hide IsKeyword;
      assert forall s <- SCALAR_NAMES :: IsLower(s[0]);
    case _ =>
  }

  predicate Wraps(text: string, head: string) {
    |text| > |head| && text[..|head|] == head && text[|text| - 1] == ']'
  }

  /** What a reader of Python makes of an annotation: generics by their brackets, any other word a class. */
  function ReadAnnotation(text: string): TypeExpr
    decreases |text|
  {
    if Wraps(text, "list[") then ListType(ReadAnnotation(text[5..|text| - 1]))
    else if Wraps(text, "dict[str, ") then DictType(ReadAnnotation(text[10..|text| - 1]))
    else
      match text
      case "Any" => AnyType
      case "str" => ScalarType(StrScalar)
      case "int" => ScalarType(IntScalar)
      case "float" => ScalarType(FloatScalar)
      case "bool" => ScalarType(BoolScalar)
      case _ => ClassRef(text)
  }

  /** The text of an expression says the expression: no two expressions are spelled alike. */
  lemma {:induction false} RenderReadsBack(e: TypeExpr)
    requires forall n <- Refs(e) :: LegalClassName(n) && n !in MODULE_SYMBOLS
    ensures ReadAnnotation(Render(e)) == e
  {
    hide LegalClassName;
    match e
    case ListType(item) =>
      RenderReadsBack(item);
      ReadList(Render(item));
    case DictType(value) =>
      RenderReadsBack(value);
      ReadDict(Render(value));
    case ClassRef(name) =>
      assert name in Refs(e);
      ReadClass(name);
    case _ =>
  }

  lemma {:induction false} ReadList(inner: string)
    ensures ReadAnnotation("list[" + inner + "]") == ListType(ReadAnnotation(inner))
  {
    var text := "list[" + inner + "]";
    assert text == "list[" + (inner + "]");
    assert text[5..|text| - 1] == inner;
  }

  lemma {:induction false} ReadDict(inner: string)
    ensures ReadAnnotation("dict[str, " + inner + "]") == DictType(ReadAnnotation(inner))
  {
    var text := "dict[str, " + inner + "]";
    assert text == "dict[str, " + (inner + "]");
    assert text[10..|text| - 1] == inner && text[0] == 'd';
  }

  lemma {:induction false} ReadClass(name: string)
    requires LegalClassName(name) && name !in MODULE_SYMBOLS
    ensures ReadAnnotation(name) == ClassRef(name)
  {
    hide IsKeyword;
    assert "str"[0] == 's' && "int"[0] == 'i' && "float"[0] == 'f' && "bool"[0] == 'b';
  }

  // ----- what a table means -----

  function ClassNames(cs: seq<ClassSpec>): set<string> {
    set i | 0 <= i < |cs| :: cs[i].name
  }

  function WireNames(fields: seq<FieldSpec>): set<string> {
    set i | 0 <= i < |fields| :: fields[i].wireName
  }

  function PythonNames(fields: seq<FieldSpec>): set<string> {
    set i | 0 <= i < |fields| :: fields[i].pythonName
  }

  function FieldIndex(fields: seq<FieldSpec>, wireName: string): (i: nat)
    requires wireName in WireNames(fields)
    ensures i < |fields| && fields[i].wireName == wireName
  {
    if fields[0].wireName == wireName then 0
    else
      assert wireName in WireNames(fields[1..]) by {
        var i :| 0 <= i < |fields| && fields[i].wireName == wireName;
        assert fields[1..][i - 1].wireName == wireName;
      }
      1 + FieldIndex(fields[1..], wireName)
  }

  /** Follow every class name through the table, latest definition first. */
  function Unfold(cs: seq<ClassSpec>, e: TypeExpr): WireType
    decreases |cs|, e
  {
    match e
    case AnyType => WAny
    case ScalarType(scalar) => WScalar(scalar)
    case ListType(item) => WList(Unfold(cs, item))
    case DictType(value) => WDict(Unfold(cs, value))
    case ClassRef(name) =>
      if cs == [] then WAny
      else
        var last, earlier := cs[|cs| - 1], cs[..|cs| - 1];
        if last.name == name then UnfoldClass(earlier, last) else Unfold(earlier, e)
  }

  function UnfoldClass(cs: seq<ClassSpec>, c: ClassSpec): WireType
    decreases |cs|, c
  {
    match c
    case RootClass(_, rootType) => Unfold(cs, rootType)
    case RecordClass(_, fields) =>
      WRecord(map k | k in WireNames(fields) ::
        var f := fields[FieldIndex(fields, k)]; WireField(Unfold(cs, f.typeExpr), f.required))
  }

  // ----- well-formed tables -----

  function ClassRefs(c: ClassSpec): set<string> {
    match c
    case RootClass(_, rootType) => Refs(rootType)
    case RecordClass(_, fields) => set i, n | 0 <= i < |fields| && n in Refs(fields[i].typeExpr) :: n
  }

  /** One field per wire name; each python name is the first free spelling of its wire name. */
  ghost predicate FieldsOk(fields: seq<FieldSpec>) {
    && (forall i, j :: 0 <= i < j < |fields| ==> fields[i].wireName != fields[j].wireName)
    && (forall i :: 0 <= i < |fields| ==>
          IsFirstFree(fields[i].pythonName, PythonFieldName(fields[i].wireName), PythonNames(fields[..i])))
  }

  ghost predicate ClassOk(c: ClassSpec, earlier: set<string>) {
    && LegalClassName(c.name) && c.name !in MODULE_SYMBOLS && c.name !in earlier
    && ClassRefs(c) <= earlier
    && (c.RecordClass? ==> c.fields != [] && FieldsOk(c.fields))
  }

  /** Every class is legally and freshly named and mentions classes defined strictly earlier only. */
  ghost predicate TableOk(cs: seq<ClassSpec>) {
    forall i :: 0 <= i < |cs| ==> ClassOk(cs[i], ClassNames(cs[..i]))
  }

  lemma ClassNamesAppend(cs: seq<ClassSpec>, c: ClassSpec)
    ensures ClassNames(cs + [c]) == ClassNames(cs) + {c.name}
  {
    forall n | n in ClassNames(cs) + {c.name} ensures n in ClassNames(cs + [c]) {
      if n in ClassNames(cs) {
        var i :| 0 <= i < |cs| && cs[i].name == n;
        assert (cs + [c])[i].name == n;
      } else {
        assert (cs + [c])[|cs|].name == n;
      }
    }
  }

  lemma TableAppend(cs: seq<ClassSpec>, c: ClassSpec)
    requires TableOk(cs) && ClassOk(c, ClassNames(cs))
    ensures TableOk(cs + [c])
  {
    hide ClassOk, ClassNames;
    var cs' := cs + [c];
    forall i | 0 <= i < |cs'| ensures ClassOk(cs'[i], ClassNames(cs'[..i])) {
      if i < |cs| {
        assert cs'[..i] == cs[..i];
      } else {
        assert cs'[..i] == cs;
      }
    }
  }

  /** The names of a well-formed table are pairwise distinct, and none is a module symbol or a scalar. */
  lemma TableNames(cs: seq<ClassSpec>)
    requires TableOk(cs)
    ensures forall i, j :: 0 <= i < j < |cs| ==> cs[i].name != cs[j].name
    ensures forall i :: 0 <= i < |cs| ==> cs[i].name !in MODULE_SYMBOLS && cs[i].name !in SCALAR_NAMES
    ensures forall i, n :: 0 <= i < |cs| && n in ClassRefs(cs[i]) ==>
      exists j :: 0 <= j < i && cs[j].name == n
  {
    hide IsKeyword;
    forall i, j | 0 <= i < j < |cs| ensures cs[i].name != cs[j].name {
      assert cs[..j][i].name in ClassNames(cs[..j]);
    }
    forall i, n | 0 <= i < |cs| && n in ClassRefs(cs[i]) ensures exists j :: 0 <= j < i && cs[j].name == n {
      assert ClassOk(cs[i], ClassNames(cs[..i]));
      var j :| 0 <= j < |cs[..i]| && cs[..i][j].name == n;
      assert cs[j].name == n;
    }
    forall i | 0 <= i < |cs| ensures cs[i].name !in SCALAR_NAMES {
      assert ClassOk(cs[i], ClassNames(cs[..i]));
    }
  }

  lemma {:induction false} UnfoldAppend(cs: seq<ClassSpec>, c: ClassSpec, e: TypeExpr)
    requires c.name !in Refs(e)
    ensures Unfold(cs + [c], e) == Unfold(cs, e)
  {
    match e
    case ListType(item) => UnfoldAppend(cs, c, item);
    case DictType(value) => UnfoldAppend(cs, c, value);
    case ClassRef(name) => assert (cs + [c])[..|cs|] == cs;
    case _ =>
  }

  /** What an expression means does not change as the table grows. */
  lemma {:induction false} UnfoldStable(cs: seq<ClassSpec>, cs': seq<ClassSpec>, e: TypeExpr)
    requires cs <= cs' && TableOk(cs') && Refs(e) <= ClassNames(cs)
    ensures Unfold(cs', e) == Unfold(cs, e)
    decreases |cs'|
  {
    if |cs| < |cs'| {
      var init, last := cs'[..|cs'| - 1], cs'[|cs'| - 1];
      assert cs' == init + [last] && cs <= init;
      TablePrefix(cs', |cs'| - 1);
      UnfoldStable(cs, init, e);
      NamesGrow(cs, init);
      assert ClassOk(last, ClassNames(init));
      UnfoldAppend(init, last, e);
    } else {
      assert cs == cs';
    }
  }

  lemma TablePrefix(cs: seq<ClassSpec>, n: nat)
    requires TableOk(cs) && n <= |cs|
    ensures TableOk(cs[..n])
  {
    hide ClassOk;
    assert forall i :: 0 <= i < n ==> cs[..n][i] == cs[i] && cs[..n][..i] == cs[..i];
  }

  lemma NamesGrow(cs: seq<ClassSpec>, cs': seq<ClassSpec>)
    requires cs <= cs'
    ensures ClassNames(cs) <= ClassNames(cs')
  {
    forall n | n in ClassNames(cs) ensures n in ClassNames(cs') {
      var i :| 0 <= i < |cs| && cs[i].name == n;
      assert cs'[i].name == n;
    }
  }

  // ----- the alias table of a record -----

  /** Python field names are legal, pairwise distinct, and avoid everything a model reserves. */
  lemma FieldNamesSound(fields: seq<FieldSpec>)
    requires FieldsOk(fields)
    ensures forall i :: 0 <= i < |fields| ==> LegalFieldName(fields[i].pythonName)
    ensures forall i, j :: 0 <= i < j < |fields| ==> fields[i].pythonName != fields[j].pythonName
  {
    hide LegalFieldName, IsFirstFree;
    forall i | 0 <= i < |fields|
      ensures LegalFieldName(fields[i].pythonName)
      ensures fields[i].pythonName !in PythonNames(fields[..i])
    {
      FreshFieldLegal(fields[i].pythonName, fields[i].wireName, PythonNames(fields[..i]));
    }
    forall i, j | 0 <= i < j < |fields| ensures fields[i].pythonName != fields[j].pythonName {
      assert fields[..j][i].pythonName in PythonNames(fields[..j]);
    }
  }
}
