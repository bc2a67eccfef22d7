/**
 * The signature one tool prints and the other parses back: parameter naming, rendering, and the line
 * scanner that recovers the parameter names from the generated source.
 */
module Signature {
  import opened Wrappers
  import opened Text
  import opened Naming
  import opened Folding
  import WireTypes
  import ClassTable

  /** Names a binding's signature and body already occupy. */
  const BINDING_RESERVED: set<string> := {
    "client", "body", "params", "expected", "ne_pk", "self", "path", "query", "raw", "Any", "Mapping",
    "OrchClient", "RequestBody", "dict", "list", "tuple", "str", "int", "float", "bool"
  }

  /** One declared query parameter, as the spec spells it. */
  datatype Declaration = Declaration(name: string, typeName: string, required: bool)

  /** A path placeholder: its Python spelling and its wire spelling. */
  datatype PathParam = PathParam(pythonName: string, wireName: string)

  datatype QueryParam = QueryParam(pythonName: string, wireName: string, typeExpr: string, required: bool)

  function QueryType(typeName: string): string {
    match typeName
    case "string" => "str"
    case "integer" => "int"
    case "number" => "float"
    case "boolean" => "bool"
    case _ => "Any"
  }

  // ----- naming the parameters -----

  /** Nonempty names, first occurrences only, in declaration order. */
  function FirstNames(declared: seq<Declaration>): seq<string> {
    if declared == [] then []
    else
      var init, name := FirstNames(declared[..|declared| - 1]), declared[|declared| - 1].name;
      if name == "" || name in init then init else init + [name]
  }

  /** Parameter names are legal, pairwise distinct, and shadow nothing the binding uses. */
  ghost predicate NamesOk(names: seq<string>) {
    && (forall n <- names :: LegalFieldName(n) && n !in BINDING_RESERVED)
    && (forall i, j :: 0 <= i < j < |names| ==> names[i] != names[j])
  }

  function PythonNamesOf(queries: seq<QueryParam>): seq<string> {
    seq(|queries|, i requires 0 <= i < |queries| => queries[i].pythonName)
  }

  function WireNamesOf(queries: seq<QueryParam>): seq<string> {
    seq(|queries|, i requires 0 <= i < |queries| => queries[i].wireName)
  }

  /** Each name is the first free spelling of its wire name, given what is reserved and the names before it. */
  ghost predicate NamedInOrder(names: seq<string>, wireNames: seq<string>) {
    && |names| == |wireNames|
    && forall i :: 0 <= i < |names| ==>
         IsFirstFree(names[i], PythonFieldName(wireNames[i]), BINDING_RESERVED + Earlier(names, i))
  }

  function Earlier(names: seq<string>, i: nat): set<string>
    requires i <= |names|
  {
    set j | 0 <= j < i :: names[j]
  }

  lemma NamesAppend(names: seq<string>, wireNames: seq<string>, r: string, wireName: string)
    requires NamesOk(names) && NamedInOrder(names, wireNames)
    requires IsFirstFree(r, PythonFieldName(wireName), BINDING_RESERVED + Earlier(names, |names|))
    ensures NamesOk(names + [r]) && NamedInOrder(names + [r], wireNames + [wireName])
    ensures Earlier(names + [r], |names| + 1) == Earlier(names, |names|) + {r}
  {
    hide LegalFieldName, IsFirstFree, PythonFieldName;
    FreshFieldLegal(r, wireName, BINDING_RESERVED + Earlier(names, |names|));
    forall i | 0 <= i <= |names| ensures Earlier(names + [r], i) == Earlier(names, i) {
      assert forall j :: 0 <= j < i ==> (names + [r])[j] == names[j];
    }
    assert forall i :: 0 <= i < |names| ==> (names + [r])[i] == names[i];
  }

  /** Names run out only where nearly a thousand of them were declared. */
  lemma NameRunsOut(base: string, names: seq<string>)
    requires Exhausted(base, BINDING_RESERVED + Earlier(names, |names|))
    ensures |names| + |BINDING_RESERVED| >= LAST_SUFFIX
  {
    hide Exhausted;
    ExhaustedIsCrowded(base, BINDING_RESERVED + Earlier(names, |names|));
    EarlierCount(names, |names|);
  }

  lemma {:induction false} EarlierCount(names: seq<string>, i: nat)
    requires i <= |names|
    ensures |Earlier(names, i)| <= i
  {
    if i > 0 {
      EarlierCount(names, i - 1);
      assert Earlier(names, i) == Earlier(names, i - 1) + {names[i - 1]};
    }
  }

  /** The i-th declaration is the first of its name. */
  predicate FirstDeclared(declared: seq<Declaration>, i: nat) {
    i < |declared| && forall j :: 0 <= j < i ==> declared[j].name != declared[i].name
  }

  /** A query is typed and required as the first declaration of its wire name says. */
  predicate AsDeclared(q: QueryParam, declared: seq<Declaration>) {
    exists i :: 0 <= i < |declared| && FirstDeclared(declared, i) && SaysOf(declared[i], q)
  }

  predicate SaysOf(d: Declaration, q: QueryParam) {
    q.wireName == d.name && q.typeExpr == QueryType(d.typeName) && q.required == d.required
  }

  /** Declared query parameters, deduplicated by wire name; nothing when a name cannot be freed. */
  method QueryParams(declared: seq<Declaration>) returns (r: Option<seq<QueryParam>>)
    ensures r.Some? ==> NamesOk(PythonNamesOf(r.value)) && WireNamesOf(r.value) == FirstNames(declared)
    ensures r.Some? ==> NamedInOrder(PythonNamesOf(r.value), WireNamesOf(r.value))
    ensures r.Some? ==> forall q <- r.value :: AsDeclared(q, declared)
    ensures r.None? ==> |FirstNames(declared)| + |BINDING_RESERVED| >= LAST_SUFFIX
  {
    hide LegalFieldName, IsFirstFree, PythonFieldName, Exhausted, NamedInOrder, NamesOk, AsDeclared, Earlier,
      PythonNamesOf, WireNamesOf, FirstNames, QueryType;
    var out: seq<QueryParam> := [];
    var taken := BINDING_RESERVED;
    var seen: set<string> := {};
    NothingNamed();
    for i := 0 to |declared|
      invariant Collected(out, declared, i)
      invariant forall w :: w in seen <==> w in WireNamesOf(out)
      invariant taken == BINDING_RESERVED + Earlier(PythonNamesOf(out), |out|)
    {
      var d := declared[i];
      FirstNamesGrow(declared, i);
      FirstNamesStep(declared, i);
      if d.name != "" && d.name !in seen {
        seen := seen + {d.name};
        var name, taken' := Dedupe(PythonFieldName(d.name), taken);
        if name.None? {
          NameRunsOut(PythonFieldName(d.name), PythonNamesOf(out));
          return None;
        }
        var q := QueryParam(name.value, d.name, QueryType(d.typeName), d.required);
        QueryAdded(out, declared, i, q);
        out := out + [q];
        taken := taken';
      }
    }
    assert declared[..|declared|] == declared;
    return Some(out);
  }

  /** The parameters the first i declarations make. */
  ghost predicate Collected(out: seq<QueryParam>, declared: seq<Declaration>, i: nat)
    requires i <= |declared|
  {
    && NamesOk(PythonNamesOf(out)) && WireNamesOf(out) == FirstNames(declared[..i])
    && |PythonNamesOf(out)| == |out| == |WireNamesOf(out)|
    && NamedInOrder(PythonNamesOf(out), WireNamesOf(out))
    && forall q <- out :: AsDeclared(q, declared)
  }

  lemma {:induction false} FirstNamesStep(declared: seq<Declaration>, i: nat)
    requires i < |declared|
    ensures var before, name := FirstNames(declared[..i]), declared[i].name;
      FirstNames(declared[..i + 1]) == if name == "" || name in before then before else before + [name]
  {
    assert declared[..i + 1][..i] == declared[..i];
  }

  lemma QueryNamesAppend(out: seq<QueryParam>, q: QueryParam)
    ensures PythonNamesOf(out + [q]) == PythonNamesOf(out) + [q.pythonName]
    ensures WireNamesOf(out + [q]) == WireNamesOf(out) + [q.wireName]
  {
  }

  lemma {:induction false} QueryAdded(out: seq<QueryParam>, declared: seq<Declaration>, i: nat, q: QueryParam)
    requires i < |declared| && Collected(out, declared, i) && SaysOf(declared[i], q)
    requires declared[i].name != "" && declared[i].name !in WireNamesOf(out)
    requires IsFirstFree(q.pythonName, PythonFieldName(q.wireName),
        BINDING_RESERVED + Earlier(PythonNamesOf(out), |out|))
    ensures Collected(out + [q], declared, i + 1)
    ensures WireNamesOf(out + [q]) == WireNamesOf(out) + [q.wireName]
    ensures Earlier(PythonNamesOf(out + [q]), |out| + 1) == Earlier(PythonNamesOf(out), |out|) + {q.pythonName}
  {
    hide QueryType;
    QueryNamesAppend(out, q);
    NamesAppend(PythonNamesOf(out), WireNamesOf(out), q.pythonName, q.wireName);
    hide PythonNamesOf, WireNamesOf;
    hide LegalFieldName, IsFirstFree, PythonFieldName, NamedInOrder, NamesOk, AsDeclared, Earlier, FirstNames;
    FirstNamesStep(declared, i);
    NewlyDeclared(declared, i, q);
  }

  lemma NothingNamed()
    ensures NamesOk([]) && NamedInOrder([], []) && Earlier([], 0) == {}
    ensures PythonNamesOf([]) == [] && WireNamesOf([]) == [] && FirstNames([]) == []
    ensures PathNames([]) == [] && PathWireNames([]) == []
  {
  }

  lemma FirstNamesGrow(declared: seq<Declaration>, i: nat)
    requires i < |declared|
    ensures |FirstNames(declared[..i])| <= |FirstNames(declared)|
  {
    FirstNamesPrefix(declared, i);
  }

  lemma {:induction false} FirstNamesPrefix(declared: seq<Declaration>, i: nat)
    requires i <= |declared|
    ensures FirstNames(declared[..i]) <= FirstNames(declared)
  {
    if i == |declared| {
      assert declared[..i] == declared;
    } else {
      var init := declared[..|declared| - 1];
      FirstNamesPrefix(init, i);
      assert init[..i] == declared[..i];
    }
  }

  lemma NewlyDeclared(declared: seq<Declaration>, i: nat, q: QueryParam)
    requires i < |declared| && declared[i].name !in FirstNames(declared[..i]) && declared[i].name != ""
    requires SaysOf(declared[i], q)
    ensures AsDeclared(q, declared)
  {
    FirstNamesIff(declared[..i]);
    forall j | 0 <= j < i ensures declared[j].name != declared[i].name {
      assert declared[..i][j] == declared[j] && declared[..i][j] in declared[..i];
    }
    assert FirstDeclared(declared, i);
  }

  /** Every nonempty declared name is there, once, in the order of first declarations. */
  lemma {:induction false} FirstNamesIff(declared: seq<Declaration>)
    ensures forall w :: w in FirstNames(declared) <==> w != "" && exists d <- declared :: d.name == w
    ensures forall i, j :: 0 <= i < j < |FirstNames(declared)| ==>
      DeclaredBefore(declared, FirstNames(declared)[i], FirstNames(declared)[j])
  {
    if declared != [] {
      var n := |declared| - 1;
      var init, last, names := declared[..n], declared[n], FirstNames(declared);
      FirstNamesIff(init);
      assert declared == init + [last];
      forall i, j | 0 <= i < j < |names| ensures DeclaredBefore(declared, names[i], names[j]) {
        if j < |FirstNames(init)| {
          var k :| 0 <= k < |init| && Opens(init, k, names[i], names[j]);
          assert Opens(declared, k, names[i], names[j]);
        } else {
          assert names[i] == FirstNames(init)[i] && names[i] in FirstNames(init);
          var d :| d in init && d.name == names[i];
          var k :| 0 <= k < |init| && init[k] == d;
          forall m | 0 <= m <= k ensures declared[m].name != names[j] {
            assert declared[m] == init[m] && init[m] in init;
          }
          assert Opens(declared, k, names[i], names[j]);
        }
      }
    }
  }

  /** The k-th declaration names v, and no declaration up to it names w. */
  predicate Opens(declared: seq<Declaration>, k: nat, v: string, w: string) {
    k < |declared| && declared[k].name == v && forall m :: 0 <= m <= k ==> declared[m].name != w
  }

  /** v is declared before w is. */
  predicate DeclaredBefore(declared: seq<Declaration>, v: string, w: string) {
    exists k :: 0 <= k < |declared| && Opens(declared, k, v, w)
  }

  /** A query parameter is annotated as a model field of the same scalar type is, and with Any otherwise. */
  lemma QueryTypeIsFieldType(typeName: string)
    ensures QueryType(typeName) ==
      var scalar := WireTypes.ScalarNamed(typeName);
      if scalar.Some? then ClassTable.Render(ClassTable.ScalarType(scalar.value)) else "Any"
  {
  }

  /** Path placeholders in declaration order; nothing when a name cannot be freed. */
  method PathParams(placeholders: seq<string>) returns (r: Option<seq<PathParam>>)
    ensures r.Some? ==> NamesOk(PathNames(r.value)) && PathWireNames(r.value) == placeholders
    ensures r.Some? ==> NamedInOrder(PathNames(r.value), placeholders)
    ensures r.None? ==> |placeholders| + |BINDING_RESERVED| >= LAST_SUFFIX
  {
    hide LegalFieldName, IsFirstFree, PythonFieldName, Exhausted, NamesOk, NamedInOrder, PathNames, PathWireNames,
      Earlier;
    var out: seq<PathParam> := [];
    var taken := BINDING_RESERVED;
    NothingNamed();
    for i := 0 to |placeholders|
      invariant NamesOk(PathNames(out)) && PathWireNames(out) == placeholders[..i] && |PathNames(out)| == i == |out|
      invariant NamedInOrder(PathNames(out), placeholders[..i])
      invariant taken == BINDING_RESERVED + Earlier(PathNames(out), i)
    {
      var name, taken' := Dedupe(PythonFieldName(placeholders[i]), taken);
      if name.None? {
        NameRunsOut(PythonFieldName(placeholders[i]), PathNames(out));
        return None;
      }
      NamesAppend(PathNames(out), placeholders[..i], name.value, placeholders[i]);
      PathAdded(out, PathParam(name.value, placeholders[i]));
      assert placeholders[..i + 1] == placeholders[..i] + [placeholders[i]];
      out, taken := out + [PathParam(name.value, placeholders[i])], taken';
    }
    assert placeholders[..|placeholders|] == placeholders;
    return Some(out);
  }

  lemma PathAdded(out: seq<PathParam>, p: PathParam)
    ensures PathNames(out + [p]) == PathNames(out) + [p.pythonName]
    ensures PathWireNames(out + [p]) == PathWireNames(out) + [p.wireName]
  {
  }

  function PathWireNames(params: seq<PathParam>): seq<string> {
    seq(|params|, i requires 0 <= i < |params| => params[i].wireName)
  }

  // ----- printing -----

  /** Everything a binding's signature depends on. */
  datatype Binding = Binding(
    functionName: string,
    isAppliance: bool,
    pathParams: seq<PathParam>,
    hasBody: bool,
    bodyRequired: bool,
    queries: seq<QueryParam>,
    responseModel: Option<string>)

  function ArgLine(name: string, rest: string): string {
    "    " + name + ": " + rest
  }

  const BODY_LINE: string := ArgLine("body", "RequestBody,")

  function PathLines(params: seq<PathParam>): seq<string> {
    seq(|params|, i requires 0 <= i < |params| => ArgLine(params[i].pythonName, "str,"))
  }

  /** The required queries in order, then the optional ones in order. */
  function Select(queries: seq<QueryParam>, required: bool): seq<QueryParam> {
    if queries == [] then []
    else (if queries[0].required == required then [queries[0]] else []) + Select(queries[1..], required)
  }

  function QueryLines(queries: seq<QueryParam>): seq<string> {
    seq(|queries|, i requires 0 <= i < |queries| =>
      ArgLine(queries[i].pythonName, queries[i].typeExpr + if queries[i].required then "," else " | None = None,"))
  }

  function NePkLines(b: Binding): seq<string> {
    if b.isAppliance then [ArgLine("ne_pk", "str,")] else []
  }

  function BodyLines(b: Binding): seq<string> {
    if b.hasBody then [if b.bodyRequired then BODY_LINE else ArgLine("body", "RequestBody | None = None,")] else []
  }

  function ParamsLines(b: Binding): seq<string> {
    if b.isAppliance then [] else [ArgLine("params", "dict[str, Any] | None = None,")]
  }

  function PositionalLines(b: Binding): seq<string> {
    [ArgLine("client", "OrchClient,")] + (NePkLines(b) + (PathLines(b.pathParams) + BodyLines(b)))
  }

  function KeywordLines(b: Binding): seq<string> {
    QueryLines(Select(b.queries, true))
    + (QueryLines(Select(b.queries, false))
    + (ParamsLines(b)
    + [ArgLine("expected", "tuple[int, ...] = EXPECTED_STATUS,")]))
  }

  function ArgLines(b: Binding): seq<string> {
    PositionalLines(b) + (["    *,"] + KeywordLines(b))
  }

  function Header(functionName: string): string { "def " + functionName + "(" }

  function Footer(b: Binding): string {
    ") -> " + (if b.responseModel.Some? then b.responseModel.value + " | None" else "Any") + ":"
  }

  function RenderSignature(b: Binding): seq<string> {
    [Header(b.functionName)] + (ArgLines(b) + [Footer(b)])
  }

  function PathNames(params: seq<PathParam>): seq<string> {
    seq(|params|, i requires 0 <= i < |params| => params[i].pythonName)
  }

  /** Arguments before the star: client, nePk on an appliance, path parameters, body if any. */
  function PositionalNames(b: Binding): seq<string> {
    ["client"]
    + ((if b.isAppliance then ["ne_pk"] else [])
    + (PathNames(b.pathParams)
    + (if b.hasBody then ["body"] else [])))
  }

  /** Arguments after it: required queries, optional ones, params on the Orchestrator, expected. */
  function KeywordNames(b: Binding): seq<string> {
    PythonNamesOf(Select(b.queries, true))
    + (PythonNamesOf(Select(b.queries, false))
    + ((if b.isAppliance then [] else ["params"])
    + ["expected"]))
  }

  function ParameterNames(b: Binding): seq<string> {
    PositionalNames(b) + KeywordNames(b)
  }

  /** Parameters of a binding that have no default. */
  function Mandatory(b: Binding): set<string> {
    {"client"}
    + (if b.isAppliance then {"ne_pk"} else {})
    + (set p | p in b.pathParams :: p.pythonName)
    + (if b.hasBody && b.bodyRequired then {"body"} else {})
    + (set q | q in b.queries && q.required :: q.pythonName)
  }

  // ----- parsing -----

  function LTrim(s: string): string {
    if s != "" && IsSpace(s[0]) then LTrim(s[1..]) else s
  }

  function RTrim(s: string): string {
    if s != "" && IsSpace(s[|s| - 1]) then RTrim(s[..|s| - 1]) else s
  }

  /** `line.strip()`. */
  function Trim(s: string): string { RTrim(LTrim(s)) }

  predicate Closes(line: string) {
    Trim(line) != "" && Trim(line)[0] == ')'
  }

  predicate IsStar(line: string) {
    Trim(line) == "*," || Trim(line) == "*"
  }

  /** The text before the first colon, stripped of spaces and then of trailing commas. */
  function NameOn(line: string): string {
    RStrip(Trim(Split(Trim(line), ':')[0]), ',')
  }

  /** Names up to the closing line, the star and empty lines skipped. */
  function NamesIn(lines: seq<string>): seq<string> {
    if lines == [] || Closes(lines[0]) then []
    else (if IsStar(lines[0]) || NameOn(lines[0]) == "" then [] else [NameOn(lines[0])]) + NamesIn(lines[1..])
  }

  /** The parameter names read back off generated source, or nothing if the function is not there. */
  method BindingParameters(source: string, functionName: string) returns (r: Option<seq<string>>)
    ensures r == ParameterNamesRead(source, functionName)
  {
    hide Closes, IsStar, NameOn, Find, Header, SplitLines, Split, Trim;
    var marker := Header(functionName);
    var start := Find(source, marker, 0);
    if start == -1 { return None; }
    var lines := SplitLines(source[start + |marker|..]);
    var names: seq<string> := [];
    var i := 0;
    assert lines[0..] == lines;
    while i < |lines| && !Closes(lines[i])
      invariant 0 <= i <= |lines|
      invariant NamesIn(lines) == names + NamesIn(lines[i..])
    {
      assert lines[i..][0] == lines[i];
      assert lines[i..][1..] == lines[i + 1..];
      if !IsStar(lines[i]) && NameOn(lines[i]) != "" {
        names := names + [NameOn(lines[i])];
      }
      i := i + 1;
    }
    assert NamesIn(lines[i..]) == [] && names + [] == names;
    r := Some(names);
  }

  function ParameterNamesRead(source: string, functionName: string): Option<seq<string>> {
    var marker := Header(functionName);
    var start := Find(source, marker, 0);
    if start == -1 then None else Some(NamesIn(SplitLines(source[start + |marker|..])))
  }

  predicate BindingRequiresBody(source: string) {
    Contains(source, "\n" + BODY_LINE + "\n")
  }

  // ----- print then parse -----

  /** A name the scanner reads back whole. */
  predicate Readable(name: string) {
    name != "" && forall c <- name :: IsSnake(c)
  }

  lemma SnakeIsPlain(c: char)
    requires IsSnake(c)
    ensures !IsSpace(c) && c != ':' && c != ',' && c != '*' && c != ')' && !IsLineBreak(c)
  {
  }

  lemma {:induction false} LTrimSpaces(n: nat, s: string)
    requires s != "" && !IsSpace(s[0])
    ensures LTrim(seq(n, _ => ' ') + s) == s
  {
    if n == 0 {
      assert seq(n, _ => ' ') + s == s;
    } else {
      assert (seq(n, _ => ' ') + s)[1..] == seq(n - 1, _ => ' ') + s;
      LTrimSpaces(n - 1, s);
    }
  }

  /** An argument line gives its name back. */
  lemma ReadArgLine(name: string, rest: string)
    requires Readable(name) && rest != "" && !IsSpace(rest[|rest| - 1])
    ensures !Closes(ArgLine(name, rest)) && !IsStar(ArgLine(name, rest)) && NameOn(ArgLine(name, rest)) == name
  {
    assert name[0] in name && name[|name| - 1] in name;
    SnakeIsPlain(name[0]);
    SnakeIsPlain(name[|name| - 1]);
    var body := name + [':'] + (" " + rest);
    assert ArgLine(name, rest) == seq(4, _ => ' ') + body;
    LTrimSpaces(4, body);
    assert Trim(ArgLine(name, rest)) == body;
    assert ':' !in name by { forall c | c in name ensures c != ':' { SnakeIsPlain(c); } }
    SplitAt(name, " " + rest, ':');
    assert Trim(name) == name;
    assert body[0] == name[0];
  }

  lemma {:induction false} NamesInArgs(lines: seq<string>, names: seq<string>, rest: seq<string>)
    requires |lines| == |names|
    requires forall i :: 0 <= i < |lines| ==>
      !Closes(lines[i]) && !IsStar(lines[i]) && NameOn(lines[i]) == names[i] && names[i] != ""
    ensures NamesIn(lines + rest) == names + NamesIn(rest)
  {
    hide Closes, IsStar, NameOn;
    if lines == [] {
      assert lines + rest == rest;
    } else {
      assert (lines + rest)[1..] == lines[1..] + rest;
      NamesInArgs(lines[1..], names[1..], rest);
      assert names == [names[0]] + names[1..];
    }
  }

  /** Lines that read back as the given names. */
  predicate ReadsAs(lines: seq<string>, names: seq<string>) {
    && |lines| == |names|
    && forall i :: 0 <= i < |lines| ==>
         !Closes(lines[i]) && !IsStar(lines[i]) && NameOn(lines[i]) == names[i] && names[i] != ""
  }

  predicate KnownTypes(queries: seq<QueryParam>) {
    forall q <- queries :: q.typeExpr in ["str", "int", "float", "bool", "Any"]
  }

  /** What the generator guarantees of the names it puts into a signature. */
  predicate Printable(b: Binding) {
    && (forall p <- b.pathParams :: Readable(p.pythonName))
    && (forall q <- b.queries :: Readable(q.pythonName))
    && KnownTypes(b.queries)
    && Unbroken(b.functionName)
    && (b.responseModel.Some? ==> Unbroken(b.responseModel.value))
  }

  lemma {:induction false} SelectMembers(queries: seq<QueryParam>, required: bool)
    ensures forall q <- Select(queries, required) :: q in queries && q.required == required
  {
    if queries != [] { SelectMembers(queries[1..], required); }
  }

  lemma QueryLinesRead(queries: seq<QueryParam>)
    requires (forall q <- queries :: Readable(q.pythonName)) && KnownTypes(queries)
    ensures ReadsAs(QueryLines(queries), PythonNamesOf(queries))
  {
    forall i | 0 <= i < |queries|
      ensures var line := QueryLines(queries)[i];
        !Closes(line) && !IsStar(line) && NameOn(line) == queries[i].pythonName && queries[i].pythonName != ""
    {
      assert queries[i] in queries;
      var rest := queries[i].typeExpr + if queries[i].required then "," else " | None = None,";
      assert rest[|rest| - 1] == ',';
      ReadArgLine(queries[i].pythonName, rest);
    }
  }

  lemma PathLinesRead(params: seq<PathParam>)
    requires forall p <- params :: Readable(p.pythonName)
    ensures ReadsAs(PathLines(params), PathNames(params))
  {
    forall i | 0 <= i < |params|
      ensures var line := PathLines(params)[i];
        !Closes(line) && !IsStar(line) && NameOn(line) == params[i].pythonName && params[i].pythonName != ""
    {
      assert params[i] in params;
      ReadArgLine(params[i].pythonName, "str,");
    }
  }

  /** One fixed argument line. */
  lemma FixedLineReads(name: string, rest: string)
    requires Readable(name) && rest != "" && !IsSpace(rest[|rest| - 1])
    ensures ReadsAs([ArgLine(name, rest)], [name])
  {
    ReadArgLine(name, rest);
    hide Closes, IsStar, NameOn, ArgLine;
  }

  lemma ReadsAsConcat(a: seq<string>, m: seq<string>, b: seq<string>, n: seq<string>)
    requires ReadsAs(a, m) && ReadsAs(b, n)
    ensures ReadsAs(a + b, m + n)
  {
    hide Closes, IsStar, NameOn;
  }

  lemma NePkRead(b: Binding)
    ensures ReadsAs(NePkLines(b), if b.isAppliance then ["ne_pk"] else [])
  {
    FixedLineReads("ne_pk", "str,");
  }

  lemma BodyRead(b: Binding)
    ensures ReadsAs(BodyLines(b), if b.hasBody then ["body"] else [])
  {
    FixedLineReads("body", "RequestBody,");
    FixedLineReads("body", "RequestBody | None = None,");
  }

  lemma ParamsRead(b: Binding)
    ensures ReadsAs(ParamsLines(b), if b.isAppliance then [] else ["params"])
  {
    FixedLineReads("params", "dict[str, Any] | None = None,");
  }

  lemma PositionalRead(b: Binding)
    requires Printable(b)
    ensures ReadsAs(PositionalLines(b), PositionalNames(b))
  {
    FixedLineReads("client", "OrchClient,");
    NePkRead(b);
    BodyRead(b);
    PathLinesRead(b.pathParams);
    hide ReadsAs, PathLines, PathNames, NePkLines, BodyLines;
    var body := if b.hasBody then ["body"] else [];
    var nePk := if b.isAppliance then ["ne_pk"] else [];
    ReadsAsConcat(PathLines(b.pathParams), PathNames(b.pathParams), BodyLines(b), body);
    ReadsAsConcat(NePkLines(b), nePk, PathLines(b.pathParams) + BodyLines(b), PathNames(b.pathParams) + body);
    ReadsAsConcat([ArgLine("client", "OrchClient,")], ["client"],
                  NePkLines(b) + (PathLines(b.pathParams) + BodyLines(b)), nePk + (PathNames(b.pathParams) + body));
  }

  lemma KeywordRead(b: Binding)
    requires Printable(b)
    ensures ReadsAs(KeywordLines(b), KeywordNames(b))
  {
    ParamsRead(b);
    FixedLineReads("expected", "tuple[int, ...] = EXPECTED_STATUS,");
    var required, optional := Select(b.queries, true), Select(b.queries, false);
    SelectMembers(b.queries, true);
    SelectMembers(b.queries, false);
    QueryLinesRead(required);
    QueryLinesRead(optional);
    hide ReadsAs, QueryLines, PythonNamesOf, Select, ParamsLines;
    var params := if b.isAppliance then [] else ["params"];
    var expected := [ArgLine("expected", "tuple[int, ...] = EXPECTED_STATUS,")];
    ReadsAsConcat(ParamsLines(b), params, expected, ["expected"]);
    ReadsAsConcat(QueryLines(optional), PythonNamesOf(optional), ParamsLines(b) + expected, params + ["expected"]);
    ReadsAsConcat(QueryLines(required), PythonNamesOf(required),
                  QueryLines(optional) + (ParamsLines(b) + expected),
                      PythonNamesOf(optional) + (params + ["expected"]));
  }

  lemma ClosingLine(tail: string)
    ensures Closes(")" + tail)
  {
    var s := ")" + tail;
    assert LTrim(s) == s;
    RTrimStart(s);
  }

  lemma {:induction false} RTrimStart(s: string)
    requires s != "" && !IsSpace(s[0])
    ensures RTrim(s) != "" && RTrim(s)[0] == s[0]
  {
    if IsSpace(s[|s| - 1]) { RTrimStart(s[..|s| - 1]); }
  }

  lemma StarLine(rest: seq<string>)
    ensures NamesIn(["    *,"] + rest) == NamesIn(rest)
  {
    assert "    *," == seq(4, _ => ' ') + "*,";
    LTrimSpaces(4, "*,");
    assert Trim("    *,") == "*,";
    assert (["    *,"] + rest)[1..] == rest;
  }

  lemma EmptyLine(rest: seq<string>)
    ensures NamesIn([""] + rest) == NamesIn(rest)
  {
    assert Trim("") == "" && Split("", ':')[0] == "";
    assert ([""] + rest)[1..] == rest;
  }

  /** The scanner recovers exactly the parameter names from the argument lines of a signature. */
  lemma ArgLinesRead(b: Binding, after: seq<string>)
    requires Printable(b)
    ensures NamesIn([""] + (ArgLines(b) + ([Footer(b)] + after))) == ParameterNames(b)
  {
    var tail := [Footer(b)] + after;
    FooterCloses(b);
    assert NamesIn(tail) == [];
    PositionalRead(b);
    KeywordRead(b);
    hide NamesIn, PositionalLines, KeywordLines, Footer, PositionalNames, KeywordNames;
    var pos, key := PositionalLines(b), KeywordLines(b);
    NamesInArgs(key, KeywordNames(b), tail);
    StarLine(key + tail);
    NamesInArgs(pos, PositionalNames(b), ["    *,"] + (key + tail));
    EmptyLine(pos + (["    *,"] + (key + tail)));
    Regrouped(["    *,"], key, tail);
    Regrouped(pos, ["    *,"] + key, tail);
    assert KeywordNames(b) + [] == KeywordNames(b);
  }

  lemma FooterCloses(b: Binding)
    ensures Closes(Footer(b))
  {
    var tail := " -> " + (if b.responseModel.Some? then b.responseModel.value + " | None" else "Any") + ":";
    ClosingLine(tail);
    assert Footer(b) == ")" + tail;
  }

  // ----- the round trip through generated source -----

  predicate UnbrokenEach(lines: seq<string>) { forall l <- lines :: Unbroken(l) }

  lemma ArgLineUnbroken(name: string, rest: string)
    requires Readable(name) && Unbroken(rest)
    ensures Unbroken(ArgLine(name, rest))
  {
    forall c | c in name ensures !IsLineBreak(c) { SnakeIsPlain(c); }
  }

  lemma UnbrokenConcat(a: seq<string>, b: seq<string>)
    requires UnbrokenEach(a) && UnbrokenEach(b)
    ensures UnbrokenEach(a + b)
  {
    hide Unbroken;
  }

  lemma TypeRestUnbroken(typeExpr: string, required: bool)
    requires typeExpr in ["str", "int", "float", "bool", "Any"]
    ensures Unbroken(typeExpr + if required then "," else " | None = None,")
  {
    assert Unbroken(typeExpr) && Unbroken(",") && Unbroken(" | None = None,");
    hide IsLineBreak;
  }

  lemma QueryLinesUnbroken(queries: seq<QueryParam>)
    requires (forall q <- queries :: Readable(q.pythonName)) && KnownTypes(queries)
    ensures UnbrokenEach(QueryLines(queries))
  {
    hide Readable, Unbroken, ArgLine;
    forall i | 0 <= i < |queries| ensures Unbroken(QueryLines(queries)[i]) {
      var q := queries[i];
      assert q in queries;
      TypeRestUnbroken(q.typeExpr, q.required);
      ArgLineUnbroken(q.pythonName, q.typeExpr + if q.required then "," else " | None = None,");
    }
  }

  lemma PathLinesUnbroken(params: seq<PathParam>)
    requires forall p <- params :: Readable(p.pythonName)
    ensures UnbrokenEach(PathLines(params))
  {
    forall i | 0 <= i < |params| ensures Unbroken(PathLines(params)[i]) {
      assert params[i] in params;
      ArgLineUnbroken(params[i].pythonName, "str,");
    }
  }

  lemma PositionalUnbroken(b: Binding)
    requires Printable(b)
    ensures UnbrokenEach(PositionalLines(b))
  {
    PathLinesUnbroken(b.pathParams);
    ArgLineUnbroken("client", "OrchClient,");
    ArgLineUnbroken("ne_pk", "str,");
    ArgLineUnbroken("body", "RequestBody,");
    ArgLineUnbroken("body", "RequestBody | None = None,");
    hide Unbroken, ArgLine, PathLines;
    UnbrokenConcat(PathLines(b.pathParams), BodyLines(b));
    UnbrokenConcat(NePkLines(b), PathLines(b.pathParams) + BodyLines(b));
  }

  predicate PlainAscii(s: string) { forall c <- s :: ' ' <= c <= '~' }

  lemma PlainAsciiUnbroken(s: string)
    requires PlainAscii(s)
    ensures Unbroken(s)
  {
  }

  lemma ParamsLineUnbroken()
    ensures Unbroken(ArgLine("params", "dict[str, Any] | None = None,"))
  {
    hide Unbroken, ArgLine;
    PlainAsciiUnbroken("dict[str, Any] | None = None,");
    ArgLineUnbroken("params", "dict[str, Any] | None = None,");
  }

  lemma ExpectedLineUnbroken()
    ensures Unbroken(ArgLine("expected", "tuple[int, ...] = EXPECTED_STATUS,"))
  {
    hide Unbroken, ArgLine;
    PlainAsciiUnbroken("tuple[int, ...] = EXPECTED_STATUS,");
    ArgLineUnbroken("expected", "tuple[int, ...] = EXPECTED_STATUS,");
  }

  lemma KeywordUnbroken(b: Binding)
    requires Printable(b)
    ensures UnbrokenEach(KeywordLines(b))
  {
    SelectMembers(b.queries, true);
    SelectMembers(b.queries, false);
    QueryLinesUnbroken(Select(b.queries, true));
    QueryLinesUnbroken(Select(b.queries, false));
    ParamsLineUnbroken();
    ExpectedLineUnbroken();
    hide Unbroken, ArgLine, QueryLines, Select;
    UnbrokenConcat(QueryLines(Select(b.queries, false)),
                  ParamsLines(b) + [ArgLine("expected", "tuple[int, ...] = EXPECTED_STATUS,")]);
  }

  lemma ArgLinesUnbroken(b: Binding)
    requires Printable(b)
    ensures UnbrokenEach(ArgLines(b))
  {
    PositionalUnbroken(b);
    KeywordUnbroken(b);
    assert Unbroken("    *,");
    hide Unbroken, PositionalLines, KeywordLines;
    UnbrokenConcat(["    *,"], KeywordLines(b));
    UnbrokenConcat(PositionalLines(b), ["    *,"] + KeywordLines(b));
  }

  lemma FooterUnbroken(b: Binding)
    requires Printable(b)
    ensures Unbroken(Footer(b)) && Unbroken(Header(b.functionName))
  {
  }

  /**
   * Parsing the generated source gives back exactly the parameters it was rendered from, provided the
   * text before the signature does not already contain its header.
   */
  lemma SignatureRoundTrip(b: Binding, prefix: string, after: seq<string>)
    requires Printable(b)
    requires var source := prefix + Join("\n", RenderSignature(b) + after);
      forall i: nat :: i < |prefix| ==> !OccursAt(source, Header(b.functionName), i)
    ensures var source := prefix + Join("\n", RenderSignature(b) + after);
      ParameterNamesRead(source, b.functionName) == Some(ParameterNames(b))
  {
    hide ArgLines, Footer, Header, NamesIn, ParameterNames, Unbroken, Printable, Join, SplitLines, OccursAt,
      RenderSignature;
    var header, lines := Header(b.functionName), ArgLines(b) + [Footer(b)];
    var rest := if after == [] then [] else SplitLines(Join("\n", after));
    ArgLinesUnbroken(b);
    FooterUnbroken(b);
    FooterIsNotEmpty(b);
    UnbrokenConcat(ArgLines(b), [Footer(b)]);
    SplitLeadingLines(lines, after);
    ArgLinesRead(b, rest);
    SignatureText(b, after);
    Regrouped(ArgLines(b), [Footer(b)], rest);
    Regrouped(ArgLines(b), [Footer(b)], after);
    FoundHeader(prefix, header, Join("\n", lines + after));
  }

  lemma FooterIsNotEmpty(b: Binding)
    ensures Footer(b) != ""
  {
  }

  lemma FoundHeader(prefix: string, header: string, text: string)
    requires forall i: nat :: i < |prefix| ==> !OccursAt(prefix + (header + "\n" + text), header, i)
    ensures var source := prefix + (header + "\n" + text);
      && Find(source, header, 0) == |prefix|
      && SplitLines(source[|prefix| + |header|..]) == [""] + SplitLines(text)
  {
    var source := prefix + (header + "\n" + text);
    assert source[|prefix|..|prefix| + |header|] == header;
    assert OccursAt(source, header, |prefix|);
    assert source[|prefix| + |header|..] == "" + "\n" + text;
    SplitFirstLine("", text);
    hide SplitLines;
  }

  lemma SignatureText(b: Binding, after: seq<string>)
    ensures Join("\n", RenderSignature(b) + after)
      == Header(b.functionName) + "\n" + Join("\n", ArgLines(b) + ([Footer(b)] + after))
  {
    hide ArgLines, Footer, Header;
    var lines := ArgLines(b) + ([Footer(b)] + after);
    assert RenderSignature(b) + after == [Header(b.functionName)] + lines;
    JoinConcat("\n", [Header(b.functionName)], lines);
  }

  // ----- the body-required probe -----

  predicate OneLine(s: string) { '\n' !in s }

  predicate OneLineEach(lines: seq<string>) { forall l <- lines :: OneLine(l) }

  lemma UnbrokenIsOneLine(s: string)
    requires Unbroken(s)
    ensures OneLine(s)
  {
    assert IsLineBreak('\n');
  }

  lemma ArgLineInjective(m: string, r: string, n: string, t: string)
    requires Readable(m) && Readable(n) && ArgLine(m, r) == ArgLine(n, t)
    ensures m == n && r == t
  {
    forall c | c in m ensures c != ':' { SnakeIsPlain(c); }
    forall c | c in n ensures c != ':' { SnakeIsPlain(c); }
    var a := ArgLine(m, r);
    assert a[4..] == m + [':'] + (" " + r) && a[4..] == n + [':'] + (" " + t);
    SplitAt(m, " " + r, ':');
    SplitAt(n, " " + t, ':');
    assert Split(a[4..], ':')[0] == m && Split(a[4..], ':')[0] == n;
    assert r == a[4..][|m| + 2..] && t == a[4..][|n| + 2..];
  }

  lemma NotBodyLine(name: string, rest: string)
    requires Readable(name) && rest != "RequestBody,"
    ensures ArgLine(name, rest) != BODY_LINE
  {
    if ArgLine(name, rest) == BODY_LINE { ArgLineInjective(name, rest, "body", "RequestBody,"); }
  }

  predicate NoBodyLine(lines: seq<string>) { BODY_LINE !in lines }

  lemma QueryLinesNotBody(queries: seq<QueryParam>)
    requires (forall q <- queries :: Readable(q.pythonName)) && KnownTypes(queries)
    ensures NoBodyLine(QueryLines(queries))
  {
    hide ArgLine;
    forall i | 0 <= i < |queries| ensures QueryLines(queries)[i] != BODY_LINE {
      assert queries[i] in queries;
      var rest := queries[i].typeExpr + if queries[i].required then "," else " | None = None,";
      assert rest[0] != 'R';
      NotBodyLine(queries[i].pythonName, rest);
    }
  }

  lemma PathLinesNotBody(params: seq<PathParam>)
    requires forall p <- params :: Readable(p.pythonName)
    ensures NoBodyLine(PathLines(params))
  {
    hide ArgLine;
    forall i | 0 <= i < |params| ensures PathLines(params)[i] != BODY_LINE {
      assert params[i] in params;
      NotBodyLine(params[i].pythonName, "str,");
    }
  }

  /** Among the argument lines, the body line is there exactly when the body is required. */
  lemma BodyLineIffRequired(b: Binding)
    requires Printable(b)
    ensures BODY_LINE in ArgLines(b) <==> b.hasBody && b.bodyRequired
  {
    SelectMembers(b.queries, true);
    SelectMembers(b.queries, false);
    QueryLinesNotBody(Select(b.queries, true));
    QueryLinesNotBody(Select(b.queries, false));
    PathLinesNotBody(b.pathParams);
    NotBodyLine("client", "OrchClient,");
    NotBodyLine("ne_pk", "str,");
    NotBodyLine("body", "RequestBody | None = None,");
    NotBodyLine("params", "dict[str, Any] | None = None,");
    NotBodyLine("expected", "tuple[int, ...] = EXPECTED_STATUS,");
    assert "    *,"[4] != BODY_LINE[4];
    hide ArgLine, QueryLines, PathLines, Select;
    assert BODY_LINE in BodyLines(b) <==> b.hasBody && b.bodyRequired;
    assert BODY_LINE !in KeywordLines(b);
    assert BODY_LINE in PositionalLines(b) <==> BODY_LINE in BodyLines(b);
  }

  lemma FramesDiffer(b: Binding)
    ensures Header(b.functionName) != BODY_LINE && Footer(b) != BODY_LINE
  {
    assert Header(b.functionName)[0] == 'd' && Footer(b)[0] == ')' && BODY_LINE[0] == ' ';
  }

  lemma SignatureOneLine(b: Binding)
    requires Printable(b)
    ensures OneLineEach(ArgLines(b)) && OneLine(Header(b.functionName)) && OneLine(Footer(b)) && OneLine(BODY_LINE)
  {
    hide ArgLines, Footer, Header, ArgLine, Printable, Unbroken, OneLine;
    ArgLinesUnbroken(b);
    FooterUnbroken(b);
    PlainAsciiUnbroken("RequestBody,");
    BodyIsReadable();
    ArgLineUnbroken("body", "RequestBody,");
    forall l | l in ArgLines(b) ensures OneLine(l) { UnbrokenIsOneLine(l); }
    UnbrokenIsOneLine(Header(b.functionName));
    UnbrokenIsOneLine(Footer(b));
    UnbrokenIsOneLine(BODY_LINE);
  }

  lemma BodyIsReadable()
    ensures Readable("body")
  {
  }

  /** The probe finds a mandatory body exactly when the renderer was told there is one. */
  lemma RequiresBodyIffRendered(b: Binding, before: seq<string>, after: seq<string>)
    requires Printable(b) && OneLineEach(before) && OneLineEach(after)
    requires BODY_LINE !in before && BODY_LINE !in after
    ensures BindingRequiresBody(Join("\n", before + RenderSignature(b) + after)) <==> b.hasBody && b.bodyRequired
  {
    hide ArgLines, Footer, Header, ArgLine, Join, Printable, Contains, OneLine, BODY_LINE;
    SignatureOneLine(b);
    FramesDiffer(b);
    BodyLineIffRequired(b);
    FramedLine(before, Header(b.functionName), ArgLines(b), Footer(b), after, BODY_LINE);
  }

  /** In framed lines, a line that is no frame line is found exactly when it is among the framed ones. */
  lemma FramedLine(before: seq<string>, header: string, args: seq<string>, footer: string, after: seq<string>,
          line: string)
    requires OneLineEach(before) && OneLine(header) && OneLineEach(args) && OneLine(footer) && OneLineEach(after)
    requires OneLine(line) && line !in before && line !in after && line != header && line != footer
    ensures var lines := before + ([header] + (args + [footer])) + after;
      Contains(Join("\n", lines), "\n" + line + "\n") <==> line in args
  {
    var lines := before + ([header] + (args + [footer])) + after;
    FramedOneLine(before, header, args, footer, after);
    hide Join, Contains;
    assert forall l <- lines :: '\n' !in l;
    ContainsLine(lines, line);
    if line in args {
      var i :| 0 <= i < |args| && args[i] == line;
      assert lines[|before| + 1 + i] == line;
    }
  }

  lemma FramedOneLine(before: seq<string>, header: string, args: seq<string>, footer: string, after: seq<string>)
    requires OneLineEach(before) && OneLine(header) && OneLineEach(args) && OneLine(footer) && OneLineEach(after)
    ensures OneLineEach(before + ([header] + (args + [footer])) + after)
  {
    hide OneLine;
  }

  lemma NamesAreReadable(names: seq<string>)
    requires NamesOk(names)
    ensures forall n <- names :: Readable(n)
  {
    hide Reserved;
  }

  /** A binding whose parameters were named as the generator names them can be printed and read back. */
  lemma GeneratedIsPrintable(b: Binding, declared: seq<Declaration>)
    requires NamesOk(PathNames(b.pathParams)) && NamesOk(PythonNamesOf(b.queries))
    requires forall q <- b.queries :: AsDeclared(q, declared)
    requires Unbroken(b.functionName) && (b.responseModel.Some? ==> Unbroken(b.responseModel.value))
    ensures Printable(b)
  {
    NamesAreReadable(PathNames(b.pathParams));
    NamesAreReadable(PythonNamesOf(b.queries));
    hide NamesOk, Readable, Unbroken;
    forall p | p in b.pathParams ensures Readable(p.pythonName) {
      var i :| 0 <= i < |b.pathParams| && b.pathParams[i] == p;
      assert PathNames(b.pathParams)[i] in PathNames(b.pathParams);
    }
    forall q | q in b.queries ensures Readable(q.pythonName) {
      var i :| 0 <= i < |b.queries| && b.queries[i] == q;
      assert PythonNamesOf(b.queries)[i] in PythonNamesOf(b.queries);
    }
  }

  /** A signature takes a body exactly when the renderer was told so: no parameter is named `body`. */
  lemma BodyNamedIffHasBody(b: Binding)
    requires NamesOk(PathNames(b.pathParams)) && NamesOk(PythonNamesOf(b.queries))
    ensures "body" in ParameterNames(b) <==> b.hasBody
  {
    hide LegalFieldName;
    SelectMembers(b.queries, true);
    SelectMembers(b.queries, false);
    assert "body" in BINDING_RESERVED;
    SelectedNotReserved(b.queries, true);
    SelectedNotReserved(b.queries, false);
  }

  lemma SelectedNotReserved(queries: seq<QueryParam>, required: bool)
    requires NamesOk(PythonNamesOf(queries))
    ensures forall n <- PythonNamesOf(Select(queries, required)) :: n !in BINDING_RESERVED
  {
    hide LegalFieldName;
    SelectMembers(queries, required);
    var selected := Select(queries, required);
    forall i | 0 <= i < |selected| ensures selected[i].pythonName !in BINDING_RESERVED {
      assert selected[i] in selected;
      var j :| 0 <= j < |queries| && queries[j] == selected[i];
      assert PythonNamesOf(queries)[j] in PythonNamesOf(queries);
    }
  }
}
