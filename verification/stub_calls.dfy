/** The calls a generated stub makes: which values it looks up, and which arguments it supplies. */
module StubCalls {
  import opened Text
  import opened Naming
  import opened Signature

  datatype Where = InPath | InQuery

  /** One value every instance ref must carry. */
  datatype RefParam = RefParam(wireName: string, location: Where)

  // ----- the table of ref parameters -----

  function PathRefs(params: seq<PathParam>): seq<RefParam> {
    seq(|params|, i requires 0 <= i < |params| => RefParam(params[i].wireName, InPath))
  }

  function QueryRefs(queries: seq<QueryParam>): seq<RefParam> {
    if queries == [] then []
    else QueryRefs(queries[..|queries| - 1]) + QueryRef(queries[|queries| - 1])
  }

  function QueryRef(q: QueryParam): seq<RefParam> {
    if q.required then [RefParam(q.wireName, InQuery)] else []
  }

  function AllQueryRefs(operations: seq<Binding>): seq<RefParam> {
    if operations == [] then []
    else AllQueryRefs(operations[..|operations| - 1]) + QueryRefs(operations[|operations| - 1].queries)
  }

  predicate Lists(params: seq<RefParam>, wireName: string) {
    exists p <- params :: p.wireName == wireName
  }

  /** First mention of every wire name, in order. */
  function FirstByWire(params: seq<RefParam>): seq<RefParam> {
    if params == [] then []
    else
      var init, last := FirstByWire(params[..|params| - 1]), params[|params| - 1];
      if Lists(init, last.wireName) then init else init + [last]
  }

  /** The write operation's placeholders, then every required query of the write, read and delete. */
  function RefParams(operations: seq<Binding>): seq<RefParam>
    requires operations != []
  {
    FirstByWire(PathRefs(operations[0].pathParams) + AllQueryRefs(operations))
  }

  lemma {:induction false} FirstByWireShape(params: seq<RefParam>)
    ensures forall w :: Lists(FirstByWire(params), w) <==> Lists(params, w)
    ensures forall p <- FirstByWire(params) :: p in params
    ensures forall i, j :: 0 <= i < j < |FirstByWire(params)| ==>
      FirstByWire(params)[i].wireName != FirstByWire(params)[j].wireName
  {
    if params != [] {
      var init, last := params[..|params| - 1], params[|params| - 1];
      FirstByWireShape(init);
      assert params == init + [last];
      forall w ensures Lists(FirstByWire(params), w) <==> Lists(params, w) {
        assert Lists(params, w) <==> Lists(init, w) || last.wireName == w;
        assert Lists(FirstByWire(init) + [last], w) <==> Lists(FirstByWire(init), w) || last.wireName == w;
      }
      assert forall p <- FirstByWire(init) :: p in params;
    }
  }

  /** Mention one more parameter. */
  function Mention(out: seq<RefParam>, p: RefParam): seq<RefParam> {
    if Lists(out, p.wireName) then out else out + [p]
  }

  lemma MentionStep(a: seq<RefParam>, p: RefParam)
    ensures FirstByWire(a + [p]) == Mention(FirstByWire(a), p)
  {
    assert (a + [p])[..|a|] == a;
  }

  lemma QueryStep(before: seq<RefParam>, queries: seq<QueryParam>, i: nat)
    requires i < |queries|
    ensures FirstByWire(before + QueryRefs(queries[..i + 1])) ==
      if queries[i].required then Mention(FirstByWire(before + QueryRefs(queries[..i])),
          RefParam(queries[i].wireName, InQuery))
      else FirstByWire(before + QueryRefs(queries[..i]))
  {
    assert queries[..i + 1][..i] == queries[..i];
    var mentioned := before + QueryRefs(queries[..i]);
    assert before + QueryRefs(queries[..i + 1]) == mentioned + QueryRef(queries[i]);
    hide QueryRefs, FirstByWire, Mention;
    if queries[i].required {
      MentionStep(mentioned, RefParam(queries[i].wireName, InQuery));
    } else {
      assert mentioned + [] == mentioned;
    }
  }

  /** The source's loops over path and query parameters build `RefParams`. */
  method RefParamsFor(operations: seq<Binding>) returns (out: seq<RefParam>)
    requires operations != []
    ensures out == RefParams(operations)
  {
    hide FirstByWire, QueryRefs;
    out := [];
    var paths := operations[0].pathParams;
    NothingMentioned();
    assert PathRefs(paths[..0]) == [];
    for i := 0 to |paths|
      invariant out == FirstByWire(PathRefs(paths[..i]))
    {
      var p := RefParam(paths[i].wireName, InPath);
      assert PathRefs(paths[..i + 1]) == PathRefs(paths[..i]) + [p];
      MentionStep(PathRefs(paths[..i]), p);
      if !Lists(out, p.wireName) { out := out + [p]; }
    }
    assert paths[..|paths|] == paths;
    ghost var pathRefs := PathRefs(paths);
    assert pathRefs + AllQueryRefs(operations[..0]) == pathRefs;
    for k := 0 to |operations|
      invariant out == FirstByWire(pathRefs + AllQueryRefs(operations[..k]))
    {
      var queries := operations[k].queries;
      ghost var before := pathRefs + AllQueryRefs(operations[..k]);
      NoQueries(before, queries);
      for i := 0 to |queries|
        invariant out == FirstByWire(before + QueryRefs(queries[..i]))
      {
        QueryStep(before, queries, i);
        if queries[i].required {
          var p := RefParam(queries[i].wireName, InQuery);
          if !Lists(out, p.wireName) { out := out + [p]; }
        }
      }
      assert queries[..|queries|] == queries;
      assert operations[..k + 1][..k] == operations[..k];
      Regrouped(pathRefs, AllQueryRefs(operations[..k]), QueryRefs(queries));
    }
    assert operations[..|operations|] == operations;
  }

  lemma NothingMentioned()
    ensures FirstByWire([]) == []
  {
  }

  lemma NoQueries(before: seq<RefParam>, queries: seq<QueryParam>)
    ensures before + QueryRefs(queries[..0]) == before
  {
  }

  // ----- the call arguments -----

  /** An argument expression: `ctx.client`, `ne_pk`, `values[...]`, the body, or the accepted statuses. */
  datatype Arg = ClientArg | NePkArg | Lookup(wireName: string, typeExpr: string) | BodyArg | StatusArg

  datatype Keyword = Keyword(name: string, value: Arg)

  datatype Call = Call(positional: seq<Arg>, keywords: seq<Keyword>)

  /** Placeholders are matched to the write operation's by position, whatever their spelling. */
  function PathArgs(n: nat, writeParams: seq<PathParam>): seq<Arg>
    requires n <= |writeParams|
  {
    seq(n, i requires 0 <= i < n => Lookup(writeParams[i].wireName, "str"))
  }

  function QueryArgs(queries: seq<QueryParam>): seq<Keyword> {
    if queries == [] then []
    else (if queries[0].required then [Keyword(queries[0].pythonName, Lookup(queries[0].wireName, queries[0].typeExpr))]
          else []) + QueryArgs(queries[1..])
  }

  /** The arguments of one binding call; `withBody` when the stub has a body to pass. */
  function CallArguments(operation: Binding, write: Binding, withBody: bool): Call
    requires |operation.pathParams| <= |write.pathParams|
  {
    Call(
      [ClientArg]
        + ((if operation.isAppliance then [NePkArg] else [])
        + (PathArgs(|operation.pathParams|, write.pathParams)
        + (if withBody && operation.hasBody then [BodyArg] else []))),
      QueryArgs(operation.queries) + [Keyword("expected", StatusArg)])
  }

  /** The `values[...]` keys a call reads. */
  function LookedUp(call: Call): set<string> {
    (set a | a in call.positional && a.Lookup? :: a.wireName)
    + (set k | k in call.keywords && k.value.Lookup? :: k.value.wireName)
  }

  /** Whether the emitted method parses the ref name at all. */
  predicate NeedsValues(operation: Binding, params: seq<RefParam>) {
    params != [] && (operation.pathParams != [] || exists q <- operation.queries :: q.required)
  }

  lemma {:induction false} QueryRefsList(queries: seq<QueryParam>, q: QueryParam)
    requires q in queries && q.required
    ensures Lists(QueryRefs(queries), q.wireName)
  {
    var init, last := queries[..|queries| - 1], queries[|queries| - 1];
    if q in init {
      QueryRefsList(init, q);
      assert forall p <- QueryRefs(init) :: p in QueryRefs(queries);
    } else {
      assert RefParam(q.wireName, InQuery) in QueryRefs(queries);
    }
  }

  lemma {:induction false} AllQueryRefsList(operations: seq<Binding>, operation: Binding, q: QueryParam)
    requires operation in operations && q in operation.queries && q.required
    ensures Lists(AllQueryRefs(operations), q.wireName)
  {
    var init, last := operations[..|operations| - 1], operations[|operations| - 1];
    if operation in init {
      AllQueryRefsList(init, operation, q);
      assert forall p <- AllQueryRefs(init) :: p in AllQueryRefs(operations);
    } else {
      QueryRefsList(last.queries, q);
      assert forall p <- QueryRefs(last.queries) :: p in AllQueryRefs(operations);
    }
  }

  lemma {:induction false} QueryArgsShape(queries: seq<QueryParam>)
    ensures forall k <- QueryArgs(queries) :: exists q <- queries ::
      q.required && k == Keyword(q.pythonName, Lookup(q.wireName, q.typeExpr))
    ensures forall q <- queries :: q.required ==>
      Keyword(q.pythonName, Lookup(q.wireName, q.typeExpr)) in QueryArgs(queries)
  {
    if queries != [] { QueryArgsShape(queries[1..]); }
  }

  /**
   * Every lookup an emitted call makes is in the ref table; the table repeats no wire name; and the
   * method parses the ref exactly when it makes a lookup.
   */
  lemma LookupsServed(operations: seq<Binding>, operation: Binding, withBody: bool)
    requires operations != [] && operation in operations
    requires |operation.pathParams| <= |operations[0].pathParams|
    ensures var table := RefParams(operations);
      && (forall w <- LookedUp(CallArguments(operation, operations[0], withBody)) :: Lists(table, w))
      && (forall i, j :: 0 <= i < j < |table| ==> table[i].wireName != table[j].wireName)
      && (NeedsValues(operation, table) <==> LookedUp(CallArguments(operation, operations[0], withBody)) != {})
  {
    var write, call := operations[0], CallArguments(operation, operations[0], withBody);
    var mentioned := PathRefs(write.pathParams) + AllQueryRefs(operations);
    FirstByWireShape(mentioned);
    var table := RefParams(operations);
    QueryArgsShape(operation.queries);
    var paths := PathArgs(|operation.pathParams|, write.pathParams);
    forall w | w in LookedUp(call) ensures Lists(table, w) {
      LookupServed(operations, operation, withBody, w);
    }
    if NeedsValues(operation, table) {
      if operation.pathParams != [] {
        assert paths[0] in call.positional;
        assert write.pathParams[0].wireName in LookedUp(call);
      } else {
        var q :| q in operation.queries && q.required;
        assert Keyword(q.pythonName, Lookup(q.wireName, q.typeExpr)) in call.keywords;
        assert q.wireName in LookedUp(call);
      }
    }
    if w :| w in LookedUp(call) {
      assert Lists(table, w);
      LookupSource(operation, write, withBody, w);
    }
  }

  /** Where a lookup comes from. */
  lemma LookupSource(operation: Binding, write: Binding, withBody: bool, w: string)
    requires |operation.pathParams| <= |write.pathParams|
    requires w in LookedUp(CallArguments(operation, write, withBody))
    ensures (exists i :: 0 <= i < |operation.pathParams| && write.pathParams[i].wireName == w)
      || (exists q <- operation.queries :: q.required && q.wireName == w)
  {
    QueryArgsShape(operation.queries);
    var call := CallArguments(operation, write, withBody);
    if a :| a in call.positional && a.Lookup? && a.wireName == w {
      var paths := PathArgs(|operation.pathParams|, write.pathParams);
      assert a in paths;
      var i :| 0 <= i < |paths| && paths[i] == a;
    } else {
      var k :| k in call.keywords && k.value.Lookup? && k.value.wireName == w;
      assert k in QueryArgs(operation.queries);
    }
  }

  lemma LookupServed(operations: seq<Binding>, operation: Binding, withBody: bool, w: string)
    requires operations != [] && operation in operations
    requires |operation.pathParams| <= |operations[0].pathParams|
    requires w in LookedUp(CallArguments(operation, operations[0], withBody))
    ensures Lists(RefParams(operations), w)
  {
    hide LookedUp, CallArguments;
    var write := operations[0];
    var mentioned := PathRefs(write.pathParams) + AllQueryRefs(operations);
    FirstByWireShape(mentioned);
    LookupSource(operation, write, withBody, w);
    if i :| 0 <= i < |operation.pathParams| && write.pathParams[i].wireName == w {
      assert PathRefs(write.pathParams)[i] in mentioned;
    } else {
      var q :| q in operation.queries && q.required && q.wireName == w;
      AllQueryRefsList(operations, operation, q);
      assert forall p <- AllQueryRefs(operations) :: p in mentioned;
    }
    assert Lists(mentioned, w);
  }

  // ----- the call against the signature -----

  /** The parameters a call binds: positional ones in signature order, then keywords. */
  function Supplied(call: Call, b: Binding): set<string>
    requires |call.positional| <= |PositionalNames(b)|
  {
    (set i | 0 <= i < |call.positional| :: PositionalNames(b)[i]) + (set k | k in call.keywords :: k.name)
  }

  lemma PositionalCount(b: Binding, write: Binding, withBody: bool)
    requires |b.pathParams| <= |write.pathParams|
    ensures |CallArguments(b, write, withBody).positional| ==
      (if b.isAppliance then 2 else 1) + |b.pathParams| + (if withBody && b.hasBody then 1 else 0)
    ensures |CallArguments(b, write, withBody).positional| <= |PositionalNames(b)|
  {
  }

  /** The emitted call supplies every mandatory parameter exactly when a mandatory body is passed. */
  lemma CallCompleteIffBodyPassed(b: Binding, write: Binding, withBody: bool)
    requires |b.pathParams| <= |write.pathParams|
    requires NamesOk(PathNames(b.pathParams)) && NamesOk(PythonNamesOf(b.queries))
    ensures |CallArguments(b, write, withBody).positional| <= |PositionalNames(b)|
    ensures Mandatory(b) <= Supplied(CallArguments(b, write, withBody), b)
      <==> (b.hasBody && b.bodyRequired ==> withBody)
  {
    hide LegalFieldName, PositionalNames, CallArguments, NamesOk;
    PositionalAt(b);
    PositionalCount(b, write, withBody);
    RequiredKeywords(b, write, withBody);
    var call, offset := CallArguments(b, write, withBody), if b.isAppliance then 2 else 1;
    forall p | p in b.pathParams ensures p.pythonName in Supplied(call, b) {
      var i :| 0 <= i < |b.pathParams| && b.pathParams[i] == p;
      assert PositionalNames(b)[offset + i] == p.pythonName;
    }
    if b.hasBody && !withBody { BodyNotSupplied(b, write); }
  }

  /** What stands where in a signature's positional part. */
  lemma PositionalAt(b: Binding)
    ensures var names, offset := PositionalNames(b), if b.isAppliance then 2 else 1;
      && |names| == offset + |b.pathParams| + (if b.hasBody then 1 else 0)
      && names[0] == "client" && (b.isAppliance ==> names[1] == "ne_pk")
      && (forall i :: 0 <= i < |b.pathParams| ==> names[offset + i] == b.pathParams[i].pythonName)
      && (b.hasBody ==> names[offset + |b.pathParams|] == "body")
  {
  }

  lemma RequiredKeywords(b: Binding, write: Binding, withBody: bool)
    requires |b.pathParams| <= |write.pathParams|
    ensures forall q <- b.queries :: q.required ==>
      exists k <- CallArguments(b, write, withBody).keywords :: k.name == q.pythonName
  {
    QueryArgsShape(b.queries);
    forall q | q in b.queries && q.required
      ensures exists k <- CallArguments(b, write, withBody).keywords :: k.name == q.pythonName
    {
      assert Keyword(q.pythonName, Lookup(q.wireName, q.typeExpr)) in CallArguments(b, write, withBody).keywords;
    }
  }

  lemma BodyNotSupplied(b: Binding, write: Binding)
    requires |b.pathParams| <= |write.pathParams| && b.hasBody
    requires NamesOk(PathNames(b.pathParams)) && NamesOk(PythonNamesOf(b.queries))
    ensures |CallArguments(b, write, false).positional| <= |PositionalNames(b)|
    ensures "body" !in Supplied(CallArguments(b, write, false), b)
  {
    hide LegalFieldName;
    var call := CallArguments(b, write, false);
    QueryArgsShape(b.queries);
    var names, offset := PositionalNames(b), if b.isAppliance then 2 else 1;
    assert |call.positional| == offset + |b.pathParams|;
    assert "body" in BINDING_RESERVED;
    forall i | 0 <= i < |call.positional| ensures names[i] != "body" {
      if i >= offset {
        assert names[i] == PathNames(b.pathParams)[i - offset];
        assert names[i] in PathNames(b.pathParams);
      }
    }
    forall k | k in call.keywords ensures k.name != "body" {
      if k in QueryArgs(b.queries) {
        var q :| q in b.queries && q.required && k == Keyword(q.pythonName, Lookup(q.wireName, q.typeExpr));
        var j :| 0 <= j < |b.queries| && b.queries[j] == q;
        assert PythonNamesOf(b.queries)[j] in PythonNamesOf(b.queries);
      }
    }
  }

  // ----- which argument each parameter gets -----

  predicate AtOnePlace(names: seq<string>, args: seq<Arg>, name: string, arg: Arg) {
    exists i :: 0 <= i < |args| && i < |names| && names[i] == name && args[i] == arg
  }

  predicate OfPlaceholder(b: Binding, write: Binding, name: string, arg: Arg) {
    exists i :: 0 <= i < |b.pathParams| && i < |write.pathParams|
      && name == b.pathParams[i].pythonName && arg == Lookup(write.pathParams[i].wireName, "str")
  }

  /** The call binds the argument to the parameter, by position or by name. */
  predicate Binds(call: Call, b: Binding, name: string, arg: Arg) {
    AtOnePlace(PositionalNames(b), call.positional, name, arg) || Keyword(name, arg) in call.keywords
  }

  /** What a parameter is to be given: each placeholder the value under the write's name in its place. */
  predicate Wanted(b: Binding, write: Binding, withBody: bool, name: string, arg: Arg) {
    || (name == "client" && arg == ClientArg)
    || (name == "ne_pk" && b.isAppliance && arg == NePkArg)
    || OfPlaceholder(b, write, name, arg)
    || (name == "body" && withBody && b.hasBody && arg == BodyArg)
    || (exists q <- b.queries :: q.required && name == q.pythonName && arg == Lookup(q.wireName, q.typeExpr))
    || (name == "expected" && arg == StatusArg)
  }

  /** The argument at every position, read off the operation. */
  lemma {:induction false} PositionalArgs(b: Binding, write: Binding, withBody: bool)
    requires |b.pathParams| <= |write.pathParams|
    ensures var args, offset := CallArguments(b, write, withBody).positional, if b.isAppliance then 2 else 1;
      && |args| == offset + |b.pathParams| + (if withBody && b.hasBody then 1 else 0)
      && args[0] == ClientArg && (b.isAppliance ==> args[1] == NePkArg)
      && (forall i :: 0 <= i < |b.pathParams| ==> args[offset + i] == Lookup(write.pathParams[i].wireName, "str"))
      && (withBody && b.hasBody ==> args[offset + |b.pathParams|] == BodyArg)
  {
  }

  lemma KeywordArgs(b: Binding, write: Binding, withBody: bool)
    requires |b.pathParams| <= |write.pathParams|
    ensures forall name, arg :: Keyword(name, arg) in CallArguments(b, write, withBody).keywords <==>
      || (exists q <- b.queries :: q.required && name == q.pythonName && arg == Lookup(q.wireName, q.typeExpr))
      || (name == "expected" && arg == StatusArg)
  {
    QueryArgsShape(b.queries);
    var keywords := CallArguments(b, write, withBody).keywords;
    assert keywords == QueryArgs(b.queries) + [Keyword("expected", StatusArg)];
  }

  lemma PlaceholderPlace(b: Binding, write: Binding, names: seq<string>, args: seq<Arg>, offset: nat, name: string,
                         arg: Arg)
    requires |b.pathParams| <= |write.pathParams| && offset + |b.pathParams| <= |args| <= |names|
    requires forall i :: 0 <= i < |b.pathParams| ==> names[offset + i] == b.pathParams[i].pythonName
    requires forall i :: 0 <= i < |b.pathParams| ==> args[offset + i] == Lookup(write.pathParams[i].wireName, "str")
    ensures OfPlaceholder(b, write, name, arg) <==>
      exists j :: offset <= j < offset + |b.pathParams| && names[j] == name && args[j] == arg
  {
    if OfPlaceholder(b, write, name, arg) {
      var i :| 0 <= i < |b.pathParams| && i < |write.pathParams|
        && name == b.pathParams[i].pythonName && arg == Lookup(write.pathParams[i].wireName, "str");
      assert names[offset + i] == name && args[offset + i] == arg;
    }
    if j :| offset <= j < offset + |b.pathParams| && names[j] == name && args[j] == arg {
      var i := j - offset;
      assert names[offset + i] == b.pathParams[i].pythonName;
      assert args[offset + i] == Lookup(write.pathParams[i].wireName, "str");
    }
  }

  lemma PlaceIff(b: Binding, write: Binding, withBody: bool, name: string, arg: Arg)
    requires |b.pathParams| <= |write.pathParams|
    ensures AtOnePlace(PositionalNames(b), CallArguments(b, write, withBody).positional, name, arg) <==>
      || (name == "client" && arg == ClientArg)
      || (name == "ne_pk" && b.isAppliance && arg == NePkArg)
      || OfPlaceholder(b, write, name, arg)
      || (name == "body" && withBody && b.hasBody && arg == BodyArg)
  {
    PositionalArgs(b, write, withBody);
    PositionalAt(b);
    var names, args := PositionalNames(b), CallArguments(b, write, withBody).positional;
    var offset, n := if b.isAppliance then 2 else 1, |b.pathParams|;
    hide CallArguments, PositionalNames, OfPlaceholder;
    PlaceholderPlace(b, write, names, args, offset, name, arg);
    if AtOnePlace(names, args, name, arg) {
      var i :| 0 <= i < |args| && i < |names| && names[i] == name && args[i] == arg;
      assert i < offset || offset <= i < offset + n || i == offset + n;
    }
    if name == "client" && arg == ClientArg { assert names[0] == name && args[0] == arg; }
    if name == "ne_pk" && b.isAppliance && arg == NePkArg { assert names[1] == name && args[1] == arg; }
    if name == "body" && withBody && b.hasBody && arg == BodyArg {
      assert names[offset + n] == name && args[offset + n] == arg;
    }
  }

  /** The emitted call binds every parameter to the argument it is to be given, and binds nothing else. */
  lemma CallBindsIff(b: Binding, write: Binding, withBody: bool, name: string, arg: Arg)
    requires |b.pathParams| <= |write.pathParams|
    ensures Binds(CallArguments(b, write, withBody), b, name, arg) <==> Wanted(b, write, withBody, name, arg)
  {
    PlaceIff(b, write, withBody, name, arg);
    KeywordArgs(b, write, withBody);
    hide CallArguments, PositionalNames, AtOnePlace, OfPlaceholder;
  }

  // ----- what the ref table holds -----

  predicate IsPlaceholderOf(write: Binding, w: string) { exists p <- write.pathParams :: p.wireName == w }

  predicate IsQueryOf(operations: seq<Binding>, w: string) {
    exists o <- operations :: exists q <- o.queries :: q.required && q.wireName == w
  }

  lemma {:induction false} QueryRefsFrom(queries: seq<QueryParam>)
    ensures forall p <- QueryRefs(queries) :: p.location == InQuery && exists q <- queries ::
      q.required && q.wireName == p.wireName
  {
    if queries != [] { QueryRefsFrom(queries[..|queries| - 1]); }
  }

  lemma {:induction false} AllQueryRefsFrom(operations: seq<Binding>)
    ensures forall p <- AllQueryRefs(operations) :: p.location == InQuery && IsQueryOf(operations, p.wireName)
  {
    if operations != [] {
      var init, last := operations[..|operations| - 1], operations[|operations| - 1];
      AllQueryRefsFrom(init);
      QueryRefsFrom(last.queries);
      forall p | p in AllQueryRefs(operations) ensures p.location == InQuery && IsQueryOf(operations, p.wireName) {
        if p in AllQueryRefs(init) {
          assert IsQueryOf(init, p.wireName);
          var o :| o in init && exists q <- o.queries :: q.required && q.wireName == p.wireName;
          assert o in operations;
        } else {
          assert p in QueryRefs(last.queries) && last in operations;
        }
      }
    }
  }

  lemma PathRefsFrom(params: seq<PathParam>)
    ensures forall p <- PathRefs(params) :: p.location == InPath && exists x <- params :: x.wireName == p.wireName
    ensures forall x <- params :: RefParam(x.wireName, InPath) in PathRefs(params)
  {
    var refs := PathRefs(params);
    forall p | p in refs ensures p.location == InPath && exists x <- params :: x.wireName == p.wireName {
      var i :| 0 <= i < |refs| && refs[i] == p;
      assert params[i] in params;
    }
    forall x | x in params ensures RefParam(x.wireName, InPath) in refs {
      var i :| 0 <= i < |params| && params[i] == x;
      assert refs[i] in refs;
    }
  }

  /** First mentions of a list that goes on after a part with no repetition start with that part. */
  lemma {:induction false} FirstByWireKeeps(a: seq<RefParam>, b: seq<RefParam>)
    requires forall i, j :: 0 <= i < j < |a| ==> a[i].wireName != a[j].wireName
    ensures a <= FirstByWire(a + b)
    decreases |a| + |b|
  {
    if b != [] {
      assert (a + b)[..|a + b| - 1] == a + b[..|b| - 1];
      FirstByWireKeeps(a, b[..|b| - 1]);
    } else if a != [] {
      assert a + b == a;
      FirstByWireKeeps(a[..|a| - 1], []);
      FirstByWireWhole(a);
    }
  }

  lemma {:induction false} FirstByWireWhole(a: seq<RefParam>)
    requires forall i, j :: 0 <= i < j < |a| ==> a[i].wireName != a[j].wireName
    ensures FirstByWire(a) == a
  {
    if a != [] {
      var init, last := a[..|a| - 1], a[|a| - 1];
      FirstByWireWhole(init);
      assert a == init + [last];
      assert !Lists(init, last.wireName);
    }
  }

  /**
   * The table lists exactly the write's placeholders and the required queries; a name that is both is a
   * path value; and distinct placeholders come first, in path order.
   */
  lemma TableIff(operations: seq<Binding>)
    requires operations != []
    ensures var table, write := RefParams(operations), operations[0];
      && (forall w :: Lists(table, w) <==> IsPlaceholderOf(write, w) || IsQueryOf(operations, w))
      && (forall p <- table :: p.location == InPath <==> IsPlaceholderOf(write, p.wireName))
      && ((forall i, j :: 0 <= i < j < |write.pathParams| ==>
             write.pathParams[i].wireName != write.pathParams[j].wireName) ==> PathRefs(write.pathParams) <= table)
  {
    hide FirstByWire;
    var write, refs, queries := operations[0], PathRefs(operations[0].pathParams), AllQueryRefs(operations);
    FirstByWireShape(refs + queries);
    PathRefsFrom(write.pathParams);
    AllQueryRefsFrom(operations);
    forall w | IsQueryOf(operations, w) ensures Lists(refs + queries, w) {
      var o :| o in operations && exists q <- o.queries :: q.required && q.wireName == w;
      var q :| q in o.queries && q.required && q.wireName == w;
      AllQueryRefsList(operations, o, q);
      assert forall p <- queries :: p in refs + queries;
    }
    PlaceholdersKept(refs, queries);
    if forall i, j :: 0 <= i < j < |write.pathParams| ==>
      write.pathParams[i].wireName != write.pathParams[j].wireName { FirstByWireKeeps(refs, queries); }
  }

  /** A wire name mentioned in the first part is listed as the first part has it. */
  lemma {:induction false} PlaceholdersKept(a: seq<RefParam>, b: seq<RefParam>)
    requires (forall p <- a :: p.location == InPath) && (forall p <- b :: p.location == InQuery)
    ensures forall p <- FirstByWire(a + b) :: p.location == InPath <==> Lists(a, p.wireName)
  {
    if b == [] {
      assert a + b == a;
      FirstByWireShape(a);
    } else {
      var init, last := b[..|b| - 1], b[|b| - 1];
      assert (a + b)[..|a + b| - 1] == a + init;
      PlaceholdersKept(a, init);
      FirstByWireShape(a + init);
      assert Lists(a, last.wireName) ==> Lists(a + init, last.wireName) by {
        assert forall p <- a :: p in a + init;
      }
    }
  }
}
