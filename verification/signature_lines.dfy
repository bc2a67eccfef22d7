/** What the printed parameter lines say beyond the names: defaults, the star, and the annotations. */
module SignatureLines {
  import opened Text
  import opened Signature

  // ----- which parameters a call must supply -----

  /** A printed parameter with a default value; one without has to be supplied by every call. */
  predicate HasDefault(line: string) { '=' in line }

  /** The names whose printed lines give no default. */
  function Demanded(lines: seq<string>, names: seq<string>): set<string>
    requires |lines| == |names|
  {
    set i | 0 <= i < |lines| && !HasDefault(lines[i]) :: names[i]
  }

  lemma DemandedConcat(a: seq<string>, m: seq<string>, b: seq<string>, n: seq<string>)
    requires |a| == |m| && |b| == |n|
    ensures Demanded(a + b, m + n) == Demanded(a, m) + Demanded(b, n)
  {
    hide HasDefault;
    forall i | 0 <= i < |b| && !HasDefault(b[i]) ensures n[i] in Demanded(a + b, m + n) {
      assert (a + b)[|a| + i] == b[i] && (m + n)[|m| + i] == n[i];
    }
    forall i | 0 <= i < |a| && !HasDefault(a[i]) ensures m[i] in Demanded(a + b, m + n) {
      assert (a + b)[i] == a[i] && (m + n)[i] == m[i];
    }
  }

  lemma DefaultOnLine(name: string, rest: string)
    requires Readable(name)
    ensures HasDefault(ArgLine(name, rest)) <==> '=' in rest
  {
    forall c | c in name ensures c != '=' { assert IsSnake(c); }
  }

  lemma DemandedPaths(params: seq<PathParam>)
    requires forall p <- params :: Readable(p.pythonName)
    ensures Demanded(PathLines(params), PathNames(params)) == set p | p in params :: p.pythonName
  {
    forall i | 0 <= i < |params| ensures !HasDefault(PathLines(params)[i]) {
      assert params[i] in params;
      DefaultOnLine(params[i].pythonName, "str,");
    }
    hide HasDefault;
    forall p | p in params ensures p.pythonName in Demanded(PathLines(params), PathNames(params)) {
      var i :| 0 <= i < |params| && params[i] == p;
      assert PathNames(params)[i] == p.pythonName;
    }
  }

  lemma QueryDefault(q: QueryParam)
    requires Readable(q.pythonName) && KnownTypes([q])
    ensures HasDefault(ArgLine(q.pythonName, q.typeExpr + if q.required then "," else " | None = None,")) <==>
        !q.required
  {
    assert q in [q];
    var rest := q.typeExpr + if q.required then "," else " | None = None,";
    DefaultOnLine(q.pythonName, rest);
    assert !q.required ==> " | None = None,"[8] == '=' && '=' in " | None = None,";
  }

  /** Of the required queries every one is demanded, of the optional ones none. */
  lemma DemandedQueries(queries: seq<QueryParam>, required: bool)
    requires (forall q <- queries :: Readable(q.pythonName)) && KnownTypes(queries)
    ensures var chosen := Select(queries, required);
      Demanded(QueryLines(chosen), PythonNamesOf(chosen))
        == if required then set q | q in queries && q.required :: q.pythonName else {}
  {
    var chosen := Select(queries, required);
    SelectMembers(queries, required);
    SelectKeeps(queries, required);
    hide HasDefault, ArgLine, Select, Readable;
    forall i | 0 <= i < |chosen| ensures HasDefault(QueryLines(chosen)[i]) <==> !required {
      assert chosen[i] in chosen;
      QueryDefault(chosen[i]);
    }
    if required {
      forall q | q in queries && q.required ensures q.pythonName in Demanded(QueryLines(chosen),
          PythonNamesOf(chosen)) {
        var i :| 0 <= i < |chosen| && chosen[i] == q;
        assert PythonNamesOf(chosen)[i] == q.pythonName;
      }
    }
  }

  lemma {:induction false} SelectKeeps(queries: seq<QueryParam>, required: bool)
    ensures forall q <- queries :: q.required == required ==> q in Select(queries, required)
  {
    if queries != [] { SelectKeeps(queries[1..], required); }
  }

  /**
   * The parameters printed without a default are the client, an appliance's key, every placeholder, a body
   * that is required and the required queries.
   */
  lemma DemandedIsMandatory(b: Binding)
    requires Printable(b)
    ensures |PositionalLines(b)| == |PositionalNames(b)| && |KeywordLines(b)| == |KeywordNames(b)|
    ensures Demanded(PositionalLines(b) + KeywordLines(b), ParameterNames(b)) == Mandatory(b)
  {
    PositionalRead(b);
    KeywordRead(b);
    DemandedPositional(b);
    DemandedKeywords(b);
    hide Printable, Demanded, PositionalLines, KeywordLines, PositionalNames, KeywordNames;
    DemandedConcat(PositionalLines(b), PositionalNames(b), KeywordLines(b), KeywordNames(b));
  }

  lemma DemandedOne(name: string, rest: string)
    requires Readable(name)
    ensures Demanded([ArgLine(name, rest)], [name]) == if '=' in rest then {} else {name}
  {
    DefaultOnLine(name, rest);
    hide HasDefault, ArgLine;
    assert [ArgLine(name, rest)][0] == ArgLine(name, rest) && [name][0] == name;
  }

  lemma NoneDemanded()
    ensures Demanded([], []) == {}
  {
  }

  lemma {:induction false} DemandedFixed(b: Binding)
    ensures |NePkLines(b)| == (if b.isAppliance then 1 else 0) && |BodyLines(b)| == (if b.hasBody then 1 else 0)
    ensures Demanded([ArgLine("client", "OrchClient,")], ["client"]) == {"client"}
    ensures Demanded(NePkLines(b), if b.isAppliance then ["ne_pk"] else []) == if b.isAppliance then {"ne_pk"} else {}
    ensures Demanded(BodyLines(b), if b.hasBody then ["body"] else []) ==
      if b.hasBody && b.bodyRequired then {"body"} else {}
  {
    NoneDemanded();
    DemandedOne("client", "OrchClient,");
    DemandedOne("ne_pk", "str,");
    DemandedOne("body", "RequestBody,");
    DemandedOne("body", "RequestBody | None = None,");
    assert "RequestBody | None = None,"[19] == '=';
    hide Demanded, ArgLine;
  }

  lemma {:induction false} DemandedPositional(b: Binding)
    requires Printable(b) && |PositionalLines(b)| == |PositionalNames(b)|
    ensures Demanded(PositionalLines(b), PositionalNames(b)) ==
      {"client"} + (if b.isAppliance then {"ne_pk"} else {}) + (set p | p in b.pathParams :: p.pythonName)
      + (if b.hasBody && b.bodyRequired then {"body"} else {})
  {
    DemandedFixed(b);
    DemandedPaths(b.pathParams);
    hide Demanded, PathLines, PathNames, ArgLine, NePkLines, BodyLines, Readable, KnownTypes;
    var nePk, body := if b.isAppliance then ["ne_pk"] else [], if b.hasBody then ["body"] else [];
    DemandedConcat(PathLines(b.pathParams), PathNames(b.pathParams), BodyLines(b), body);
    DemandedConcat(NePkLines(b), nePk, PathLines(b.pathParams) + BodyLines(b), PathNames(b.pathParams) + body);
    DemandedConcat([ArgLine("client", "OrchClient,")], ["client"],
                   NePkLines(b) + (PathLines(b.pathParams) + BodyLines(b)), nePk + (PathNames(b.pathParams) + body));
  }

  lemma DefaultsGiven()
    ensures Demanded([ArgLine("params", "dict[str, Any] | None = None,")], ["params"]) == {}
    ensures Demanded([ArgLine("expected", "tuple[int, ...] = EXPECTED_STATUS,")], ["expected"]) == {}
  {
    assert "dict[str, Any] | None = None,"[22] == '=' && "tuple[int, ...] = EXPECTED_STATUS,"[16] == '=';
    DemandedOne("params", "dict[str, Any] | None = None,");
    DemandedOne("expected", "tuple[int, ...] = EXPECTED_STATUS,");
  }

  lemma DemandedKeywords(b: Binding)
    requires Printable(b) && |KeywordLines(b)| == |KeywordNames(b)|
    ensures Demanded(KeywordLines(b), KeywordNames(b)) == set q | q in b.queries && q.required :: q.pythonName
  {
    NoneDemanded();
    DefaultsGiven();
    DemandedQueries(b.queries, true);
    DemandedQueries(b.queries, false);
    hide Demanded, QueryLines, PythonNamesOf, Select, ArgLine, Printable, Readable, KnownTypes, HasDefault;
    var required, optional := Select(b.queries, true), Select(b.queries, false);
    var params := if b.isAppliance then [] else ["params"];
    var expected := [ArgLine("expected", "tuple[int, ...] = EXPECTED_STATUS,")];
    DemandedConcat(ParamsLines(b), params, expected, ["expected"]);
    DemandedConcat(QueryLines(optional), PythonNamesOf(optional), ParamsLines(b) + expected, params + ["expected"]);
    DemandedConcat(QueryLines(required), PythonNamesOf(required),
                   QueryLines(optional) + (ParamsLines(b) + expected),
                       PythonNamesOf(optional) + (params + ["expected"]));
  }

  // ----- the star, and the annotations -----

  /** The one star line stands right after the positional parameters. */
  lemma {:induction false} StarDivides(b: Binding)
    requires Printable(b)
    ensures |ArgLines(b)| == |ParameterNames(b)| + 1
    ensures forall i :: 0 <= i < |ArgLines(b)| ==> (IsStar(ArgLines(b)[i]) <==> i == |PositionalNames(b)|)
    ensures forall i :: 0 <= i < |PositionalNames(b)| ==> NameOn(ArgLines(b)[i]) == PositionalNames(b)[i]
    ensures forall i :: 0 <= i < |KeywordNames(b)| ==>
      NameOn(ArgLines(b)[|PositionalNames(b)| + 1 + i]) == KeywordNames(b)[i]
  {
    hide IsStar, NameOn, PositionalLines, KeywordLines, PositionalNames, KeywordNames, ReadsAs, Printable;
    StarIsStar();
    PositionalRead(b);
    KeywordRead(b);
    SameLength(PositionalLines(b), PositionalNames(b));
    SameLength(KeywordLines(b), KeywordNames(b));
    DividedLines(PositionalLines(b), PositionalNames(b), KeywordLines(b), KeywordNames(b));
  }

  lemma SameLength(lines: seq<string>, names: seq<string>)
    requires ReadsAs(lines, names)
    ensures |lines| == |names|
  {
  }

  lemma {:induction false} DividedLines(pos: seq<string>, m: seq<string>, key: seq<string>, n: seq<string>)
    requires ReadsAs(pos, m) && ReadsAs(key, n) && IsStar("    *,")
    ensures var lines := pos + (["    *,"] + key);
      && |lines| == |m| + 1 + |n|
      && (forall i :: 0 <= i < |lines| ==> (IsStar(lines[i]) <==> i == |m|))
      && (forall i :: 0 <= i < |m| ==> NameOn(lines[i]) == m[i])
      && (forall i :: 0 <= i < |n| ==> NameOn(lines[|m| + 1 + i]) == n[i])
  {
    hide IsStar, NameOn, Closes;
    var lines := pos + (["    *,"] + key);
    forall i | 0 <= i < |lines| ensures IsStar(lines[i]) <==> i == |m| {
      if i > |m| { assert lines[i] == key[i - |m| - 1]; }
    }
    forall i | 0 <= i < |n| ensures NameOn(lines[|m| + 1 + i]) == n[i] {
      assert lines[|m| + 1 + i] == key[i];
    }
  }

  lemma StarIsStar()
    ensures IsStar("    *,")
  {
    assert "    *," == seq(4, _ => ' ') + "*,";
    LTrimSpaces(4, "*,");
    assert Trim("    *,") == "*,";
  }

  /** The word after the first colon and a space. */
  function AnnotationOn(line: string): string {
    var parts := Split(line, ':');
    if |parts| >= 2 && parts[1] != "" then parts[1][1..][..LetterRun(parts[1][1..])] else ""
  }

  function LetterRun(s: string): (n: nat)
    ensures n <= |s|
  {
    if s != "" && (IsLower(s[0]) || IsUpper(s[0])) then 1 + LetterRun(s[1..]) else 0
  }

  lemma {:induction false} LetterRunIs(word: string, rest: string)
    requires forall c <- word :: IsLower(c) || IsUpper(c)
    requires rest != "" && !IsLower(rest[0]) && !IsUpper(rest[0])
    ensures LetterRun(word + rest) == |word|
  {
    if word == "" {
      assert word + rest == rest;
    } else {
      assert (word + rest)[1..] == word[1..] + rest;
      assert forall c <- word[1..] :: c in word;
      LetterRunIs(word[1..], rest);
    }
  }

  /** A query's printed line carries its own type. */
  lemma QueryAnnotation(queries: seq<QueryParam>, i: nat)
    requires (forall q <- queries :: Readable(q.pythonName)) && KnownTypes(queries) && i < |queries|
    ensures AnnotationOn(QueryLines(queries)[i]) == queries[i].typeExpr
  {
    var q := queries[i];
    assert q in queries;
    var tail := if q.required then "," else " | None = None,";
    AnnotationPrinted(q.pythonName, q.typeExpr, tail);
  }

  lemma AnnotationPrinted(name: string, typeExpr: string, tail: string)
    requires Readable(name) && typeExpr in ["str", "int", "float", "bool", "Any"]
    requires tail == "," || tail == " | None = None,"
    ensures AnnotationOn(ArgLine(name, typeExpr + tail)) == typeExpr
  {
    hide ArgLine, Split, LetterRun;
    var line, rest := ArgLine(name, typeExpr + tail), " " + typeExpr + tail;
    assert rest[1..] == typeExpr + tail;
    LineSplits(name, typeExpr + tail);
    assert " " + (typeExpr + tail) == rest;
    ShortTail(typeExpr, tail);
    SplitWithout(rest, ':');
    LetterRunIs(typeExpr, tail);
    assert Split(line, ':')[1] == rest && rest[1..][..|typeExpr|] == typeExpr;
  }

  lemma ShortTail(typeExpr: string, tail: string)
    requires typeExpr in ["str", "int", "float", "bool", "Any"]
    requires tail == "," || tail == " | None = None,"
    ensures ':' !in " " + typeExpr + tail
    ensures forall c <- typeExpr :: IsLower(c) || IsUpper(c)
    ensures !IsLower(tail[0]) && !IsUpper(tail[0])
  {
    assert ':' !in typeExpr && ':' !in tail;
  }

  lemma LineSplits(name: string, rest: string)
    requires Readable(name)
    ensures Split(ArgLine(name, rest), ':') == ["    " + name] + Split(" " + rest, ':')
  {
    forall c | c in name ensures c != ':' { SnakeIsPlain(c); }
    assert ArgLine(name, rest) == ("    " + name) + [':'] + (" " + rest);
    hide Split;
    SplitAt("    " + name, " " + rest, ':');
  }
}
