/** Reading an instance's name into the values its calls look up, and which values a name can carry. */
module RefParams {
  import opened Wrappers
  import opened Text
  import opened Urls
  import opened Folding
  import opened Signature
  import opened StubCalls

  datatype RefError = NoEquals(piece: string) | UnknownParam(name: string) | MissingValues(names: set<string>)

  type Values = map<string, string>

  function WireNames(params: seq<RefParam>): set<string> {
    set i | 0 <= i < |params| :: params[i].wireName
  }

  /** One more chunk: skipped when blank, else a declared name, an equals sign and a value. */
  function ReadChunk(values: Values, chunk: string, declared: set<string>): Result<Values, RefError> {
    var piece := Trim(chunk);
    if piece == "" then Success(values)
    else if '=' !in piece then Failure(NoEquals(piece))
    else
      var (name, value) := SplitMark(piece, "=");
      if Trim(name) !in declared then Failure(UnknownParam(Trim(name)))
      else Success(values[Trim(name) := Trim(value)])
  }

  function ReadChunks(chunks: seq<string>, declared: set<string>): Result<Values, RefError> {
    if chunks == [] then Success(map[])
    else
      match ReadChunks(chunks[..|chunks| - 1], declared)
      case Failure(e) => Failure(e)
      case Success(values) => ReadChunk(values, chunks[|chunks| - 1], declared)
  }

  function Missing(values: Values, declared: set<string>): set<string> {
    set n | n in declared && (n !in values || values[n] == "")
  }

  predicate IsBare(text: string, params: seq<RefParam>) { text != "" && '=' !in text && |params| == 1 }

  /** The values an instance's name carries, or why it carries none. */
  function ParamValues(name: string, params: seq<RefParam>): Result<Values, RefError> {
    if params == [] then Success(map[])
    else
      var text, declared := Trim(name), WireNames(params);
      var read := if IsBare(text, params) then
          Success(map[params[0].wireName := text]) else ReadChunks(Split(text, ','), declared);
      match read
      case Failure(e) => Failure(e)
      case Success(values) =>
        if Missing(values, declared) != {} then Failure(MissingValues(Missing(values, declared))) else Success(values)
  }

  lemma {:induction false} ReadFails(chunks: seq<string>, n: nat, declared: set<string>)
    requires n <= |chunks| && ReadChunks(chunks[..n], declared).Failure?
    ensures ReadChunks(chunks, declared) == ReadChunks(chunks[..n], declared)
    decreases |chunks| - n
  {
    hide ReadChunk;
    if n < |chunks| {
      assert chunks[..n + 1][..n] == chunks[..n];
      ReadFails(chunks, n + 1, declared);
    } else {
      assert chunks[..n] == chunks;
    }
  }

  /** The parser as the stubs run it. */
  method ReadRef(name: string, params: seq<RefParam>) returns (r: Result<Values, RefError>)
    ensures r == ParamValues(name, params)
  {
    hide Trim, Split, SplitMark;
    if params == [] { return Success(map[]); }
    var text, declared := Trim(name), set i | 0 <= i < |params| :: params[i].wireName;
    var values: Values := map[];
    if text != "" && '=' !in text && |params| == 1 {
      values := values[params[0].wireName := text];
    } else {
      var chunks := Split(text, ',');
      for i := 0 to |chunks|
        invariant ReadChunks(chunks[..i], declared) == Success(values)
      {
        assert chunks[..i + 1][..i] == chunks[..i] && chunks[..i + 1][i] == chunks[i];
        var piece := Trim(chunks[i]);
        if piece == "" { continue; }
        if '=' !in piece {
          ReadFails(chunks, i + 1, declared);
          return Failure(NoEquals(piece));
        }
        var (key, value) := SplitMark(piece, "=");
        if Trim(key) !in declared {
          ReadFails(chunks, i + 1, declared);
          return Failure(UnknownParam(Trim(key)));
        }
        values := values[Trim(key) := Trim(value)];
      }
      assert chunks[..|chunks|] == chunks;
    }
    var missing := set n | n in declared && (n !in values || values[n] == "");
    r := if missing != {} then Failure(MissingValues(missing)) else Success(values);
  }

  // ----- trimming -----

  predicate Trimmed(s: string) { s == "" || (!IsSpace(s[0]) && !IsSpace(s[|s| - 1])) }

  lemma {:induction false} LTrimShape(s: string)
    ensures |LTrim(s)| <= |s| && LTrim(s) == s[|s| - |LTrim(s)|..]
    ensures LTrim(s) != "" ==> !IsSpace(LTrim(s)[0])
  {
    hide IsSpace;
    if s != "" && IsSpace(s[0]) { LTrimShape(s[1..]); }
  }

  lemma {:induction false} RTrimShape(s: string)
    ensures RTrim(s) <= s
    ensures RTrim(s) != "" ==> !IsSpace(RTrim(s)[|RTrim(s)| - 1])
  {
    hide IsSpace;
    if s != "" && IsSpace(s[|s| - 1]) { RTrimShape(s[..|s| - 1]); }
  }

  lemma TrimShape(s: string)
    ensures Trimmed(Trim(s)) && |Trim(s)| <= |s| && forall c <- Trim(s) :: c in s
  {
    hide IsSpace, LTrim, RTrim;
    LTrimShape(s);
    RTrimShape(LTrim(s));
  }

  lemma TrimFixes(s: string)
    ensures Trim(s) == s <==> Trimmed(s)
  {
    hide IsSpace;
    TrimShape(s);
  }

  // ----- every lookup finds a value -----

  /** A value as it can come out of a chunk: trimmed, without a comma, shorter than the chunk. */
  predicate FromChunk(value: string, longest: nat) { Trimmed(value) && ',' !in value && |value| < longest }

  lemma ChunkValue(values: Values, chunk: string, declared: set<string>, longest: nat)
    requires ReadChunk(values, chunk, declared).Success? && ',' !in chunk && |chunk| <= longest
    requires values.Keys <= declared && forall n <- values :: FromChunk(values[n], longest)
    ensures var r := ReadChunk(values, chunk, declared).value;
      r.Keys <= declared && forall n <- r :: FromChunk(r[n], longest)
  {
    hide Trim, Trimmed;
    TrimShape(chunk);
    var (name, value) := SplitMark(Trim(chunk), "=");
    TrimShape(value);
  }

  lemma {:induction false} ChunkValues(chunks: seq<string>, declared: set<string>, longest: nat)
    requires ReadChunks(chunks, declared).Success?
    requires forall i :: 0 <= i < |chunks| ==> ',' !in chunks[i] && |chunks[i]| <= longest
    ensures var r := ReadChunks(chunks, declared).value;
      r.Keys <= declared && forall n <- r :: FromChunk(r[n], longest)
  {
    hide ReadChunk, FromChunk;
    if chunks != [] {
      ChunkValues(chunks[..|chunks| - 1], declared, longest);
      ChunkValue(ReadChunks(chunks[..|chunks| - 1], declared).value, chunks[|chunks| - 1], declared, longest);
    }
  }

  lemma {:induction false} PiecesShorter(s: string, c: char)
    ensures forall i :: 0 <= i < |Split(s, c)| ==> |Split(s, c)[i]| <= |s|
  {
    if s != "" { PiecesShorter(s[1..], c); }
  }

  /** A parsed name gives every declared parameter a nonempty value and nothing else one. */
  lemma ParsedIsComplete(name: string, params: seq<RefParam>)
    requires params != [] && ParamValues(name, params).Success?
    ensures var values := ParamValues(name, params).value;
      && values.Keys == WireNames(params)
      && (forall n <- values :: values[n] != "" && Trimmed(values[n]))
      && (!IsBare(Trim(name), params) ==> forall n <- values :: FromChunk(values[n], |Trim(name)|))
  {
    hide ReadChunks, Trim, Split, Trimmed;
    var text, declared, values := Trim(name), WireNames(params), ParamValues(name, params).value;
    assert Missing(values, declared) == {};
    forall n | n in declared ensures n in values && values[n] != "" {
      assert n !in Missing(values, declared);
    }
    if IsBare(text, params) {
      TrimShape(name);
    } else {
      PiecesShorter(text, ',');
      ChunkValues(Split(text, ','), declared, |text|);
    }
  }

  /** Whatever a stub's call looks up in a parsed name is there, and is not empty. */
  lemma LookupsFindValues(operations: seq<Binding>, operation: Binding, withBody: bool, name: string)
    requires operations != [] && operation in operations
    requires |operation.pathParams| <= |operations[0].pathParams|
    requires ParamValues(name, StubCalls.RefParams(operations)).Success?
    ensures var values := ParamValues(name, StubCalls.RefParams(operations)).value;
      forall w <- LookedUp(CallArguments(operation, operations[0], withBody)) :: w in values && values[w] != ""
  {
    hide ParamValues, LookedUp, CallArguments, StubCalls.RefParams, NeedsValues, Trimmed, FromChunk, IsBare;
    LookupsServed(operations, operation, withBody);
    var table := StubCalls.RefParams(operations);
    if table != [] { ParsedIsComplete(name, table); }
    forall w | w in LookedUp(CallArguments(operation, operations[0], withBody)) ensures w in WireNames(table) {
      var p :| p in table && p.wireName == w;
      var i :| 0 <= i < |table| && table[i] == p;
    }
  }

  // ----- which names are accepted, and as what -----

  /** The chunk's name and value around its first equals sign. */
  predicate Sets(chunk: string, n: string, v: string) {
    var piece := Trim(chunk);
    exists i :: 0 <= i < |piece| && piece[i] == '=' && '=' !in piece[..i] && n == Trim(piece[..i])
      && v == Trim(piece[i + 1..])
  }

  ghost predicate Names(chunk: string, n: string) { exists v :: Sets(chunk, n, v) }

  /** Neither blank nor the assignment of a declared parameter. */
  ghost predicate Unusable(chunk: string, declared: set<string>) {
    Trim(chunk) != "" && forall n <- declared :: !Names(chunk, n)
  }

  /** The last chunk that names n gives it v. */
  ghost predicate LastSets(chunks: seq<string>, n: string, v: string) {
    exists i: nat :: i < |chunks| && Sets(chunks[i], n, v) && NotNamedAfter(chunks, i, n)
  }

  ghost predicate NotNamedAfter(chunks: seq<string>, i: nat, n: string) {
    forall j :: i < j < |chunks| ==> !Names(chunks[j], n)
  }

  lemma SetsIs(chunk: string)
    ensures var piece := Trim(chunk);
      var (name, value) := SplitMark(piece, "=");
      && ('=' in piece ==> Sets(chunk, Trim(name), Trim(value)))
      && forall n, v :: Sets(chunk, n, v) ==> '=' in piece && n == Trim(name) && v == Trim(value)
  {
    hide Trim;
    var piece := Trim(chunk);
    var (name, value) := SplitMark(piece, "=");
    if '=' in piece {
      assert |name| == |piece| ==> name == piece;
      assert piece[|name|] == '=' && '=' !in piece[..|name|];
    }
    forall n, v | Sets(chunk, n, v) ensures '=' in piece && n == Trim(name) && v == Trim(value) {
      var i :| 0 <= i < |piece| && piece[i] == '=' && '=' !in piece[..i] && n == Trim(piece[..i])
        && v == Trim(piece[i + 1..]);
      assert forall m :: 0 <= m < |name| ==> name[m] == piece[m] && name[m] in name;
      assert forall m :: 0 <= m < i ==> piece[m] == piece[..i][m] && piece[m] in piece[..i];
      assert i == |name|;
    }
  }

  /** One chunk: refused exactly when unusable, else it sets what it names and leaves the rest. */
  lemma ChunkIff(values: Values, chunk: string, declared: set<string>)
    requires values.Keys <= declared
    ensures var r := ReadChunk(values, chunk, declared);
      && (r.Failure? <==> Unusable(chunk, declared))
      && (r.Failure? ==> Blames(r.error, chunk))
      && (r.Success? ==> r.value.Keys <= declared && After(values, chunk, r.value))
  {
    SetsIs(chunk);
    hide Trim, SplitMark, Sets;
    var (name, value) := SplitMark(Trim(chunk), "=");
    if Trim(chunk) == "" {
      assert forall n :: !Names(chunk, n);
    } else if '=' in Trim(chunk) {
      assert Names(chunk, Trim(name));
    }
  }

  /** What the chunk names is set, and everything else as it was. */
  ghost predicate After(values: Values, chunk: string, r: Values) {
    && (forall n, v :: Sets(chunk, n, v) ==> n in r && r[n] == v)
    && (forall n :: !Names(chunk, n) ==> (n in r <==> n in values))
    && (forall n <- values :: !Names(chunk, n) && n in r ==> r[n] == values[n])
  }

  /** The error names the chunk that has no equals sign, or the parameter that is not declared. */
  ghost predicate Blames(error: RefError, chunk: string) {
    match error
    case NoEquals(piece) => piece == Trim(chunk) && '=' !in piece
    case UnknownParam(name) => Names(chunk, name)
    case MissingValues(_) => false
  }

  /**
   * The chunks are read iff none is unusable; each parameter then has the value of the last chunk naming it.
   * Otherwise the first unusable one is blamed.
   */
  lemma {:induction false} ChunksIff(chunks: seq<string>, declared: set<string>)
    ensures var r := ReadChunks(chunks, declared);
      && (r.Success? <==> forall chunk <- chunks :: !Unusable(chunk, declared))
      && (r.Success? ==> r.value.Keys <= declared && forall n, v :: Has(r.value, n, v) <==> LastSets(chunks, n, v))
      && (r.Failure? ==> FirstBlamed(r.error, chunks, declared))
  {
    hide ReadChunk, Unusable, Sets, Names, Blames;
    if chunks != [] {
      var init, last := chunks[..|chunks| - 1], chunks[|chunks| - 1];
      ChunksIff(init, declared);
      assert chunks == init + [last];
      match ReadChunks(init, declared)
      case Failure(e) =>
        var i :| 0 <= i < |init| && Unusable(init[i], declared) && Blames(e, init[i])
          && forall j :: 0 <= j < i ==> !Unusable(init[j], declared);
        assert chunks[i] == init[i] && chunks[i] in chunks;
        assert forall j :: 0 <= j < i ==> chunks[j] == init[j];
      case Success(values) =>
        ChunkIff(values, last, declared);
        var r := ReadChunks(chunks, declared);
        if r.Failure? {
          var i := |init|;
          forall j | 0 <= j < i ensures !Unusable(chunks[j], declared) {
            assert chunks[j] == init[j] && init[j] in init;
          }
          assert chunks[i] == last && chunks[i] in chunks;
        } else {
          forall n, v ensures Has(r.value, n, v) <==> LastSets(chunks, n, v) {
            LastSetsStep(init, last, n, v);
            if Names(last, n) { NamesSomething(last, n, r.value); }
          }
        }
    }
  }

  predicate Has(values: Values, n: string, v: string) { n in values && values[n] == v }

  ghost predicate FirstBlamed(error: RefError, chunks: seq<string>, declared: set<string>) {
    exists i :: 0 <= i < |chunks| && Unusable(chunks[i], declared) && Blames(error, chunks[i])
      && forall j :: 0 <= j < i ==> !Unusable(chunks[j], declared)
  }

  lemma NamesSomething(chunk: string, n: string, r: Values)
    requires Names(chunk, n)
    requires forall v :: Sets(chunk, n, v) ==> n in r && r[n] == v
    ensures n in r && Sets(chunk, n, r[n])
  {
    hide Sets;
  }

  lemma LastSetsStep(init: seq<string>, last: string, n: string, v: string)
    ensures LastSets(init + [last], n, v) <==> if Names(last, n) then Sets(last, n, v) else LastSets(init, n, v)
  {
    hide Sets;
    var chunks := init + [last];
    if Names(last, n) {
      if LastSets(chunks, n, v) {
        var i: nat :| i < |chunks| && Sets(chunks[i], n, v) && NotNamedAfter(chunks, i, n);
        assert chunks[|init|] == last;
      }
      if Sets(last, n, v) {
        assert Sets(chunks[|init|], n, v) && NotNamedAfter(chunks, |init|, n);
      }
    } else {
      if LastSets(chunks, n, v) {
        var i: nat :| i < |chunks| && Sets(chunks[i], n, v) && NotNamedAfter(chunks, i, n);
        assert chunks[|init|] == last && i < |init|;
        assert init[i] == chunks[i] && NotNamedAfter(init, i, n) by {
          forall j | i < j < |init| ensures !Names(init[j], n) { assert chunks[j] == init[j]; }
        }
      }
      if LastSets(init, n, v) {
        var i: nat :| i < |init| && Sets(init[i], n, v) && NotNamedAfter(init, i, n);
        assert chunks[i] == init[i] && NotNamedAfter(chunks, i, n) by {
          forall j | i < j < |chunks| ensures !Names(chunks[j], n) {
            if j < |init| { assert chunks[j] == init[j]; }
          }
        }
      }
    }
  }

  /**
   * Reading a name, outcome by outcome: nothing is read without parameters; a bare name is the one
   * parameter's value; else the chunks are read, and every declared parameter must come out nonempty.
   */
  lemma ParamValuesIff(name: string, params: seq<RefParam>)
    requires params != []
    ensures var r, text, chunks, declared := ParamValues(name, params), Trim(name), Split(Trim(name), ','),
        WireNames(params);
      if text != "" && '=' !in text && |params| == 1 then r == Success(map[params[0].wireName := text])
      else if exists chunk <- chunks :: Unusable(chunk, declared) then
          r.Failure? && FirstBlamed(r.error, chunks, declared)
      else if exists n <- declared :: !Given(chunks, n) then
        r == Failure(MissingValues(set n | n in declared && !Given(chunks, n)))
      else r.Success? && r.value.Keys == declared && forall n <- declared :: LastSets(chunks, n, r.value[n])
  {
    var text, declared := Trim(name), WireNames(params);
    var chunks := Split(text, ',');
    hide Trim, Split, ReadChunks, LastSets, Unusable, FirstBlamed;
    ChunksIff(chunks, declared);
    if IsBare(text, params) {
      var values := map[params[0].wireName := text];
      assert Missing(values, declared) == {};
    } else if forall chunk <- chunks :: !Unusable(chunk, declared) {
      var values := ReadChunks(chunks, declared).value;
      forall n | n in declared ensures Given(chunks, n) <==> n in values && values[n] != "" {
        if n in values { assert Has(values, n, values[n]); }
        if v :| v != "" && LastSets(chunks, n, v) { assert Has(values, n, v); }
      }
      assert Missing(values, declared) == set n | n in declared && !Given(chunks, n);
      assert forall n <- values :: Has(values, n, values[n]);
      assert forall n <- declared :: n !in Missing(values, declared) ==> Given(chunks, n);
    }
  }

  /** Some chunk names n, and the last one that does gives it a value that is not empty. */
  ghost predicate Given(chunks: seq<string>, n: string) {
    exists v :: v != "" && LastSets(chunks, n, v)
  }

  // ----- which values a name can carry -----

  /** A parameter name as the specification has them: no comma, no equals sign, no surrounding space. */
  predicate PlainName(n: string) { n != "" && Trimmed(n) && ',' !in n && '=' !in n }

  predicate Carried(v: string) { v != "" && Trimmed(v) && ',' !in v }

  function Assignment(n: string, v: string): string { n + ("=" + v) }

  function Assignments(order: seq<string>, values: Values): seq<string>
    requires forall n <- order :: n in values
  {
    seq(|order|, i requires 0 <= i < |order| => assert order[i] in order; Assignment(order[i], values[order[i]]))
  }

  /** The documented spelling of several values, in any order. */
  function RefText(order: seq<string>, values: Values): string
    requires forall n <- order :: n in values
  {
    Join(",", Assignments(order, values))
  }

  /** Every declared parameter listed once, in whatever order. */
  predicate Orders(order: seq<string>, names: set<string>) {
    && (forall n <- order :: n in names) && (forall n <- names :: n in order)
    && forall i, j :: 0 <= i < j < |order| ==> order[i] != order[j]
  }

  lemma ReadAssignment(values: Values, n: string, v: string, declared: set<string>)
    requires PlainName(n) && Carried(v) && n in declared
    ensures ReadChunk(values, Assignment(n, v), declared) == Success(values[n := v])
  {
    hide Trim, IsSpace;
    TrimFixes(n);
    TrimFixes(v);
    var piece := Assignment(n, v);
    assert piece[0] == n[0] && piece[|piece| - 1] == v[|v| - 1] && piece[|n|] == '=';
    TrimFixes(piece);
    assert NoneOf(n, ['=']);
    MarkSplits(n, '=', v);
    hide SplitMark;
  }

  lemma {:induction false} ReadAssignments(order: seq<string>, values: Values, declared: set<string>)
    requires forall n <- order :: n in values && n in declared && PlainName(n) && Carried(values[n])
    ensures ReadChunks(Assignments(order, values), declared) == Success(map n | n in order :: values[n])
  {
    hide ReadChunk, PlainName, Carried, Assignment;
    if order != [] {
      var init, last := order[..|order| - 1], order[|order| - 1];
      assert order == init + [last];
      ReadAssignments(init, values, declared);
      var parts := Assignments(order, values);
      assert parts[..|parts| - 1] == Assignments(init, values);
      ReadAssignment(map n | n in init :: values[n], last, values[last], declared);
      assert (map n | n in init :: values[n])[last := values[last]] == map n | n in order :: values[n];
    }
  }

  lemma {:induction false} JoinTrimmed(parts: seq<string>)
    requires parts != [] && forall p <- parts :: p != "" && Trimmed(p)
    ensures Join(",", parts) != "" && Trimmed(Join(",", parts))
  {
    hide IsSpace;
    assert parts[0] in parts;
    if |parts| > 1 {
      assert forall p <- parts[1..] :: p in parts;
      JoinTrimmed(parts[1..]);
    }
  }

  lemma {:induction false} LTrimKeeps(s: string, c: char)
    requires c in s && !IsSpace(c)
    ensures c in LTrim(s)
  {
    hide IsSpace;
    if s != "" && IsSpace(s[0]) { LTrimKeeps(s[1..], c); }
  }

  lemma {:induction false} RTrimKeeps(s: string, c: char)
    requires c in s && !IsSpace(c)
    ensures c in RTrim(s)
  {
    hide IsSpace;
    if s != "" && IsSpace(s[|s| - 1]) { RTrimKeeps(s[..|s| - 1], c); }
  }

  lemma AssignmentIsPart(n: string, v: string)
    requires PlainName(n) && Carried(v)
    ensures Assignment(n, v) != "" && Trimmed(Assignment(n, v)) && ',' !in Assignment(n, v)
  {
    hide IsSpace;
  }

  lemma TextHasEquals(order: seq<string>, values: Values)
    requires order != [] && forall n <- order :: n in values
    ensures '=' in Trim(RefText(order, values))
  {
    hide LTrim, RTrim;
    assert order[0] in order;
    var parts := Assignments(order, values);
    assert parts[0][|order[0]|] == '=';
    var text := RefText(order, values);
    assert '=' in text by {
      assert text[|order[0]|] == '=';
    }
    assert !IsSpace('=');
    LTrimKeeps(text, '=');
    RTrimKeeps(LTrim(text), '=');
  }

  lemma CarriedAreRead(order: seq<string>, values: Values, params: seq<RefParam>)
    requires params != [] && values.Keys == WireNames(params) && Orders(order, values.Keys)
    requires forall n <- values :: PlainName(n) && Carried(values[n])
    ensures ParamValues(RefText(order, values), params) == Success(values)
  {
    hide PlainName, Carried, Assignment, ReadChunk, ReadChunks, Trim, Join, Split, Trimmed;
    var parts, text := Assignments(order, values), RefText(order, values);
    assert params[0].wireName in WireNames(params);
    forall i | 0 <= i < |parts| ensures parts[i] != "" && Trimmed(parts[i]) && ',' !in parts[i] {
      assert order[i] in order;
      AssignmentIsPart(order[i], values[order[i]]);
    }
    JoinTrimmed(parts);
    TrimFixes(text);
    SplitJoin(parts, ',');
    TextHasEquals(order, values);
    ReadAssignments(order, values, WireNames(params));
    assert (map n | n in order :: values[n]) == values;
    forall n | n in values ensures values[n] != "" { CarriedIsNotEmpty(values[n]); }
    assert Missing(values, WireNames(params)) == {};
  }

  lemma CarriedIsNotEmpty(v: string)
    requires Carried(v)
    ensures v != ""
  {
  }

  /** Spelled out in any order, values come back iff each is nonempty, trimmed and without a comma. */
  lemma AssignmentsRoundTripIff(order: seq<string>, values: Values, params: seq<RefParam>)
    requires params != [] && values.Keys == WireNames(params) && Orders(order, values.Keys)
    requires forall n <- values :: PlainName(n)
    ensures ParamValues(RefText(order, values), params) == Success(values) <==> forall n <- values :: Carried(values[n])
  {
    hide ParamValues, PlainName, Trim, Trimmed, RefText;
    if forall n <- values :: Carried(values[n]) {
      CarriedAreRead(order, values, params);
    }
    if ParamValues(RefText(order, values), params) == Success(values) {
      assert params[0].wireName in WireNames(params);
      TextHasEquals(order, values);
      ParsedIsComplete(RefText(order, values), params);
    }
  }

  lemma BareIsRead(p: RefParam, v: string)
    requires v != "" && Trimmed(v) && '=' !in v
    ensures ParamValues(v, [p]) == Success(map[p.wireName := v])
  {
    TrimFixes(v);
    hide Trim, Trimmed;
    assert Missing(map[p.wireName := v], WireNames([p])) == {};
  }

  /**
   * With one parameter, some name carries a value iff it is nonempty and trimmed and does not hold both
   * an equals sign, which the bare spelling cannot carry, and a comma, which the explicit one cannot.
   */
  lemma NameableIff(p: RefParam, v: string)
    requires PlainName(p.wireName)
    ensures (exists name :: ParamValues(name, [p]) == Success(map[p.wireName := v])) <==>
      v != "" && Trimmed(v) && !('=' in v && ',' in v)
  {
    hide ParamValues, Trim, Trimmed, RefText;
    var values := map[p.wireName := v];
    assert [p][0] == p && WireNames([p]) == {p.wireName};
    if name :| ParamValues(name, [p]) == Success(values) {
      ParsedIsComplete(name, [p]);
      assert v == values[p.wireName];
      if IsBare(Trim(name), [p]) { BareValue(name, p); }
    }
    if v != "" && Trimmed(v) && !('=' in v && ',' in v) {
      if '=' !in v {
        BareIsRead(p, v);
      } else {
        assert Orders([p.wireName], values.Keys);
        AssignmentsRoundTripIff([p.wireName], values, [p]);
      }
    }
  }

  lemma BareValue(name: string, p: RefParam)
    requires IsBare(Trim(name), [p]) && ParamValues(name, [p]).Success?
    ensures ParamValues(name, [p]).value == map[p.wireName := Trim(name)]
  {
  }
}
