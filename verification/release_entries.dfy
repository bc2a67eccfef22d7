/** Distilling one release of a collection: which requests count, what is kept of each, and one entry per endpoint. */
module ReleaseEntries {
  import opened Wrappers
  import opened JsonValues
  import opened Folding

  /** What the tool borrows: JSON parsing, Python's `str`, and the package's endpoint normalizer. */
  datatype Borrowed = Borrowed(
    loads: string -> Option<Json>,
    render: Json -> string,
    endpointKey: (string, string, string) -> string)

  // ----- one example body -----

  /** A body as parsed: nothing usable, JSON, or text that is not JSON. */
  datatype Example = NoBody | Parsed(json: Json) | RawText(text: string)

  /** Blank or missing text is no body, and neither is the JSON `null`; what is not JSON is kept as it is. */
  function ParseExample(b: Borrowed, text: Option<Json>): Example {
    if text.None? || !text.value.Str? || (forall c <- text.value.s :: IsSpace(c)) then NoBody
    else
      match b.loads(text.value.s)
      case None => RawText(text.value.s)
      case Some(Null) => NoBody
      case Some(json) => Parsed(json)
  }

  /** A Python integer, which a boolean is too. */
  function AsStatus(code: Option<Json>): Option<int> {
    match code
    case Some(Int(n)) => Some(n)
    case Some(Bool(x)) => Some(if x then 1 else 0)
    case _ => None
  }

  function ResponseOf(b: Borrowed, entry: Json): Response {
    Response(ParseExample(b, Get(entry, "text")),
             if Get(entry, "responseCode").Some? then AsStatus(Get(Get(entry, "responseCode").value, "code")) else None)
  }

  /** The saved responses that are objects, in order. */
  function Responses(b: Borrowed, entries: seq<Json>): seq<Response> {
    if entries == [] then []
    else (if entries[0].Obj? then [ResponseOf(b, entries[0])] else []) + Responses(b, entries[1..])
  }

  function SavedResponses(b: Borrowed, responses: Option<Json>): seq<Response> {
    if responses.Some? && responses.value.Arr? then Responses(b, responses.value.items) else []
  }

  datatype Response = Response(body: Example, status: Option<int>)

  predicate HasBody(r: Response) { !r.body.NoBody? }

  predicate Succeeded(r: Response) { r.status.Some? && 200 <= r.status.value < 300 }

  /** The response the tool picks, as a function: the first success with a body, else the first with a body. */
  function BestResponse(responses: seq<Response>): Response {
    var ok := FirstWhere(responses, true);
    if ok.Some? then ok.value
    else
      var any := FirstWhere(responses, false);
      if any.Some? then any.value else Response(NoBody, None)
  }

  predicate Chosen(r: Response, mustSucceed: bool) { HasBody(r) && (mustSucceed ==> Succeeded(r)) }

  function FirstWhere(responses: seq<Response>, mustSucceed: bool): Option<Response> {
    if responses == [] then None
    else if Chosen(responses[0], mustSucceed) then Some(responses[0])
    else FirstWhere(responses[1..], mustSucceed)
  }

  lemma {:induction false} FirstWhereIs(responses: seq<Response>, i: nat, mustSucceed: bool)
    requires i < |responses| && Chosen(responses[i], mustSucceed)
    requires forall j :: 0 <= j < i ==> !Chosen(responses[j], mustSucceed)
    ensures FirstWhere(responses, mustSucceed) == Some(responses[i])
  {
    if i > 0 {
      assert !Chosen(responses[0], mustSucceed);
      FirstWhereIs(responses[1..], i - 1, mustSucceed);
    }
  }

  lemma {:induction false} FirstWhereNone(responses: seq<Response>, mustSucceed: bool)
    requires forall x <- responses :: !Chosen(x, mustSucceed)
    ensures FirstWhere(responses, mustSucceed) == None
  {
    if responses != [] {
      assert responses[0] in responses && forall x <- responses[1..] :: x in responses;
      FirstWhereNone(responses[1..], mustSucceed);
    }
  }

  /** The first response with a body and a 2xx status, else the first with a body, else nothing. */
  method PickResponse(responses: seq<Response>) returns (r: Response)
    ensures r == BestResponse(responses)
    ensures (exists x <- responses :: HasBody(x) && Succeeded(x)) ==>
      exists i :: 0 <= i < |responses| && r == responses[i] && HasBody(r) && Succeeded(r)
        && forall j :: 0 <= j < i ==> !(HasBody(responses[j]) && Succeeded(responses[j]))
    ensures !(exists x <- responses :: HasBody(x) && Succeeded(x)) && (exists x <- responses :: HasBody(x)) ==>
      exists i :: 0 <= i < |responses| && r == responses[i] && HasBody(r)
        && forall j :: 0 <= j < i ==> !HasBody(responses[j])
    ensures !(exists x <- responses :: HasBody(x)) ==> r == Response(NoBody, None)
  {
    var fallback: Option<Response> := None;
    ghost var at := 0;
    for i := 0 to |responses|
      invariant forall j :: 0 <= j < i ==> !(HasBody(responses[j]) && Succeeded(responses[j]))
      invariant fallback.None? ==> forall j :: 0 <= j < i ==> !HasBody(responses[j])
      invariant fallback.Some? ==>
        && 0 <= at < i && fallback.value == responses[at] && HasBody(responses[at])
        && forall j :: 0 <= j < at ==> !HasBody(responses[j])
    {
      if HasBody(responses[i]) {
        if Succeeded(responses[i]) {
          FirstWhereIs(responses, i, true);
          return responses[i];
        }
        if fallback.None? { fallback, at := Some(responses[i]), i; }
      }
    }
    FirstWhereNone(responses, true);
    if fallback.Some? { FirstWhereIs(responses, at, false); } else { FirstWhereNone(responses, false); }
    r := if fallback.Some? then fallback.value else Response(NoBody, None);
  }

  // ----- one request -----

  const ORCHESTRATOR_URL := "{{orchestratorBaseUrl}}"
  const APPLIANCE_URL := "{{applianceBaseUrl}}"

  /** Scope and path of a URL that starts with a base-URL variable; scope is never guessed. */
  function SplitUrl(url: string): Option<(string, string)> {
    if ORCHESTRATOR_URL <= url then Some(("orchestrator", url[|ORCHESTRATOR_URL|..]))
    else if APPLIANCE_URL <= url then Some(("appliance", url[|APPLIANCE_URL|..]))
    else None
  }

  lemma SplitUrlIff(url: string)
    ensures SplitUrl(url).None? <==> !(ORCHESTRATOR_URL <= url) && !(APPLIANCE_URL <= url)
    ensures forall path :: SplitUrl(url) == Some(("orchestrator", path)) <==> url == ORCHESTRATOR_URL + path
    ensures forall path :: SplitUrl(url) == Some(("appliance", path)) <==> url == APPLIANCE_URL + path
  {
    assert ORCHESTRATOR_URL[2] == 'o' && APPLIANCE_URL[2] == 'a' && "orchestrator" != "appliance" by {
      assert "orchestrator"[0] != "appliance"[0];
    }
    hide ORCHESTRATOR_URL, APPLIANCE_URL;
    forall path | url == APPLIANCE_URL + path ensures !(ORCHESTRATOR_URL <= url) {
      assert url[2] == APPLIANCE_URL[2];
    }
  }

  /** What is kept of a request; a status other than 200 only beside a response body. */
  datatype Entry = Entry(
    name: string,
    path: string,
    folder: Option<seq<string>>,
    request: Example,
    response: Example,
    status: Option<int>)

  function TextOf(request: Json, field: string): Option<string> {
    match Get(request, field)
    case Some(Str(s)) => Some(s)
    case _ => None
  }

  function FolderOf(request: Json, paths: map<string, seq<string>>): Option<seq<string>> {
    var folder := TextOf(request, "folder");
    if folder.Some? && folder.value in paths then Some(paths[folder.value]) else None
  }

  function NameOf(b: Borrowed, request: Json): string {
    b.render(if HasKey(request, "name") then At(request.members, "name") else Str(""))
  }

  function EntryOf(b: Borrowed, request: Json, path: string, paths: map<string, seq<string>>, best: Response): Entry {
    Entry(NameOf(b, request), path, FolderOf(request, paths), ParseExample(b, Get(request, "rawModeData")), best.body,
          if HasBody(best) && best.status != Some(200) then best.status else None)
  }

  /** A request counts when it is an object with a scoped URL and a method. */
  predicate Counts(request: Json) {
    && request.Obj? && TextOf(request, "url").Some? && TextOf(request, "method").Some?
    && SplitUrl(TextOf(request, "url").value).Some?
  }

  function KeyOf(b: Borrowed, request: Json): string
    requires Counts(request)
  {
    var (scope, path) := SplitUrl(TextOf(request, "url").value).value;
    b.endpointKey(scope, TextOf(request, "method").value, path)
  }

  function EntryFor(b: Borrowed, request: Json, paths: map<string, seq<string>>): Entry
    requires Counts(request)
  {
    EntryOf(b, request, SplitUrl(TextOf(request, "url").value).value.1, paths,
            BestResponse(SavedResponses(b, Get(request, "responses"))))
  }

  // ----- one release -----

  function Entries(b: Borrowed, requests: seq<Json>, paths: map<string, seq<string>>): map<string, Entry> {
    if requests == [] then map[]
    else
      var init, last := Entries(b, requests[..|requests| - 1], paths), requests[|requests| - 1];
      if !Counts(last) || KeyOf(b, last) in init then init else init[KeyOf(b, last) := EntryFor(b, last, paths)]
  }

  /** One entry per endpoint, the first request for it winning; what is no scoped request is dropped. */
  method DistilRelease(b: Borrowed, requests: seq<Json>, paths: map<string, seq<string>>)
    returns (entries: map<string, Entry>)
    ensures entries == Entries(b, requests, paths)
  {
    hide SplitUrl, EntryOf, BestResponse, SavedResponses, TextOf;
    entries := map[];
    for i := 0 to |requests|
      invariant entries == Entries(b, requests[..i], paths)
    {
      assert requests[..i + 1][..i] == requests[..i] && requests[..i + 1][i] == requests[i];
      var request := requests[i];
      if !request.Obj? { continue; }
      var url, verb := TextOf(request, "url"), TextOf(request, "method");
      if url.None? || verb.None? { continue; }
      var split := SplitUrl(url.value);
      if split.None? { continue; }
      var (scope, path) := split.value;
      var best := PickResponse(SavedResponses(b, Get(request, "responses")));
      var entry := EntryOf(b, request, path, paths, best);
      var key := b.endpointKey(scope, verb.value, path);
      if key !in entries { entries := entries[key := entry]; }
    }
    assert requests[..|requests|] == requests;
  }

  predicate Names(b: Borrowed, request: Json, key: string) { Counts(request) && KeyOf(b, request) == key }

  lemma {:induction false} FirstNamed(b: Borrowed, requests: seq<Json>, paths: map<string, seq<string>>, key: string)
    ensures key in Entries(b, requests, paths) <==>
      exists i :: 0 <= i < |requests| && Names(b, requests[i], key)
    ensures key in Entries(b, requests, paths) ==>
      exists i :: 0 <= i < |requests| && Names(b, requests[i], key)
        && Entries(b, requests, paths)[key] == EntryFor(b, requests[i], paths)
        && forall j :: 0 <= j < i ==> !Names(b, requests[j], key)
  {
    hide Counts, KeyOf, EntryFor;
    if requests != [] {
      var n := |requests| - 1;
      var init := requests[..n];
      FirstNamed(b, init, paths, key);
      assert forall i :: 0 <= i < n ==> init[i] == requests[i];
      if key in Entries(b, init, paths) {
        var i :| 0 <= i < |init| && Names(b, init[i], key)
          && Entries(b, init, paths)[key] == EntryFor(b, init[i], paths)
          && forall j :: 0 <= j < i ==> !Names(b, init[j], key);
        assert Names(b, requests[i], key);
        assert Entries(b, requests, paths)[key] == EntryFor(b, requests[i], paths);
      } else {
        assert forall j :: 0 <= j < n ==> !Names(b, requests[j], key);
        if Names(b, requests[n], key) {
          assert Entries(b, requests, paths)[key] == EntryFor(b, requests[n], paths);
        }
      }
    }
  }

  // ----- entries over the raw requests -----

  /** Nothing usable: no text at all, or nothing but white space. */
  predicate Blank(text: Option<Json>) {
    text.None? || !text.value.Str? || forall c <- text.value.s :: IsSpace(c)
  }

  /** What an example text stands for: JSON that is not `null`, or text kept because it is not JSON. */
  predicate StandsFor(b: Borrowed, text: Option<Json>, e: Example) {
    match e
    case NoBody => Blank(text) || b.loads(text.value.s) == Some(Null)
    case Parsed(j) => !Blank(text) && b.loads(text.value.s) == Some(j) && j != Null
    case RawText(t) => !Blank(text) && b.loads(text.value.s).None? && t == text.value.s
  }

  lemma ParseExampleIff(b: Borrowed, text: Option<Json>, e: Example)
    ensures ParseExample(b, text) == e <==> StandsFor(b, text, e)
  {
  }

  /** The status a saved response carries: an integer, which a boolean is too. */
  predicate CarriesStatus(entry: Json, n: int) {
    var code := Get(entry, "responseCode");
    && code.Some?
    && (Get(code.value, "code") == Some(Int(n)) || (n in {0, 1} && Get(code.value, "code") == Some(Bool(n == 1))))
  }

  /** A saved response gives this body and this status. */
  ghost predicate Gives(b: Borrowed, entry: Json, body: Example, status: Option<int>) {
    && entry.Obj? && StandsFor(b, Get(entry, "text"), body) && body != NoBody
    && (if status.Some? then CarriesStatus(entry, status.value) else forall n :: !CarriesStatus(entry, n))
  }

  ghost predicate GivesSuccess(b: Borrowed, entry: Json) {
    exists body: Example, n: int :: 200 <= n < 300 && Gives(b, entry, body, Some(n))
  }

  ghost predicate GivesSome(b: Borrowed, entry: Json) {
    exists body: Example, status: Option<int> :: Gives(b, entry, body, status)
  }

  lemma StatusIff(entry: Json, n: int)
    ensures entry.Obj? ==>
      (CarriesStatus(entry, n) <==>
        Get(entry, "responseCode").Some? && AsStatus(Get(Get(entry, "responseCode").value, "code")) == Some(n))
  {
    hide Get;
  }

  lemma GivesIff(b: Borrowed, entry: Json, body: Example, status: Option<int>)
    ensures Gives(b, entry, body, status) <==>
      entry.Obj? && ResponseOf(b, entry) == Response(body, status) && HasBody(Response(body, status))
  {
    ParseExampleIff(b, Get(entry, "text"), body);
    forall n ensures entry.Obj? ==> (CarriesStatus(entry, n) <==> ResponseOf(b, entry).status == Some(n)) {
      StatusIff(entry, n);
    }
    hide Get, CarriesStatus, ParseExample, StandsFor;
    var found := ResponseOf(b, entry).status;
    assert entry.Obj? && found.Some? ==> CarriesStatus(entry, found.value);
  }

  /** The first success with a body, else the first with a body, else nothing. */
  ghost predicate IsPick(b: Borrowed, items: seq<Json>, body: Example, status: Option<int>) {
    || (exists i :: 0 <= i < |items| && Gives(b, items[i], body, status) && status.Some?
         && 200 <= status.value < 300 && forall j :: 0 <= j < i ==> !GivesSuccess(b, items[j]))
    || ((forall x <- items :: !GivesSuccess(b, x))
         && exists i :: 0 <= i < |items| && Gives(b, items[i], body, status)
              && forall j :: 0 <= j < i ==> !GivesSome(b, items[j]))
    || ((forall x <- items :: !GivesSome(b, x)) && body == NoBody && status.None?)
  }

  function ItemsOf(responses: Option<Json>): seq<Json> {
    if responses.Some? && responses.value.Arr? then responses.value.items else []
  }

  predicate ChosenRaw(b: Borrowed, entry: Json, mustSucceed: bool) {
    entry.Obj? && Chosen(ResponseOf(b, entry), mustSucceed)
  }

  predicate FirstChosen(b: Borrowed, items: seq<Json>, mustSucceed: bool, i: int) {
    && 0 <= i < |items| && ChosenRaw(b, items[i], mustSucceed)
    && forall j :: 0 <= j < i ==> !ChosenRaw(b, items[j], mustSucceed)
  }

  lemma ChosenRawIff(b: Borrowed, entry: Json)
    ensures ChosenRaw(b, entry, true) <==> GivesSuccess(b, entry)
    ensures ChosenRaw(b, entry, false) <==> GivesSome(b, entry)
  {
    if entry.Obj? {
      var r := ResponseOf(b, entry);
      GivesIff(b, entry, r.body, r.status);
    }
    hide ResponseOf, Gives;
    if GivesSuccess(b, entry) {
      var body: Example, n: int :| 200 <= n < 300 && Gives(b, entry, body, Some(n));
      GivesIff(b, entry, body, Some(n));
    }
    if GivesSome(b, entry) {
      var body: Example, status: Option<int> :| Gives(b, entry, body, status);
      GivesIff(b, entry, body, status);
    }
  }

  lemma {:induction false} FirstRaw(b: Borrowed, items: seq<Json>, mustSucceed: bool)
    ensures var first := FirstWhere(Responses(b, items), mustSucceed);
      && (first.None? ==> forall x <- items :: !ChosenRaw(b, x, mustSucceed))
      && (first.Some? ==> exists i :: FirstChosen(b, items, mustSucceed, i) && first.value == ResponseOf(b, items[i]))
  {
    hide ResponseOf, Chosen;
    if items != [] {
      FirstRaw(b, items[1..], mustSucceed);
      var rest := Responses(b, items[1..]);
      if items[0].Obj? {
        assert Responses(b, items) == [ResponseOf(b, items[0])] + rest;
        assert ([ResponseOf(b, items[0])] + rest)[1..] == rest;
      } else {
        assert Responses(b, items) == rest;
      }
      if !ChosenRaw(b, items[0], mustSucceed) {
        assert FirstWhere(Responses(b, items), mustSucceed) == FirstWhere(rest, mustSucceed);
        if FirstWhere(rest, mustSucceed).Some? {
          var i :| FirstChosen(b, items[1..], mustSucceed, i)
            && FirstWhere(rest, mustSucceed).value == ResponseOf(b, items[1..][i]);
          assert items[i + 1] == items[1..][i];
          forall j | 0 <= j < i + 1 ensures !ChosenRaw(b, items[j], mustSucceed) {
            if j > 0 { assert items[j] == items[1..][j - 1]; }
          }
          assert FirstChosen(b, items, mustSucceed, i + 1);
        } else {
          forall x | x in items ensures !ChosenRaw(b, x, mustSucceed) {
            assert x == items[0] || x in items[1..];
          }
        }
      } else {
        assert FirstWhere(Responses(b, items), mustSucceed) == Some(ResponseOf(b, items[0]));
        assert FirstChosen(b, items, mustSucceed, 0);
      }
    }
  }

  lemma {:induction false} PickIs(b: Borrowed, responses: Option<Json>)
    ensures var best := BestResponse(SavedResponses(b, responses));
      IsPick(b, ItemsOf(responses), best.body, best.status)
  {
    var items := ItemsOf(responses);
    assert SavedResponses(b, responses) == Responses(b, items);
    FirstRaw(b, items, true);
    FirstRaw(b, items, false);
    forall x | x in items
      ensures ChosenRaw(b, x, true) <==> GivesSuccess(b, x)
      ensures ChosenRaw(b, x, false) <==> GivesSome(b, x)
    {
      ChosenRawIff(b, x);
    }
    hide Gives, GivesSome, GivesSuccess, ResponseOf, FirstWhere, Responses, ChosenRaw, HasBody;
    var best, ok := BestResponse(Responses(b, items)), FirstWhere(Responses(b, items), true);
    var any := FirstWhere(Responses(b, items), false);
    if ok.Some? {
      var i :| FirstChosen(b, items, true, i) && ok.value == ResponseOf(b, items[i]);
      GivesIff(b, items[i], best.body, best.status);
      assert forall j :: 0 <= j < i ==> items[j] in items;
    } else if any.Some? {
      var i :| FirstChosen(b, items, false, i) && any.value == ResponseOf(b, items[i]);
      GivesIff(b, items[i], best.body, best.status);
      assert forall j :: 0 <= j < i ==> items[j] in items;
    }
  }

  /** The request names the endpoint: an object with a method and a URL after one of the base-URL variables. */
  predicate Mentions(b: Borrowed, request: Json, key: string) {
    && request.Obj? && TextOf(request, "url").Some? && Get(request, "method").Some? && Get(request, "method").value.Str?
    && var url, verb := TextOf(request, "url").value, Get(request, "method").value.s;
       || (ORCHESTRATOR_URL <= url && key == b.endpointKey("orchestrator", verb, url[|ORCHESTRATOR_URL|..]))
       || (APPLIANCE_URL <= url && key == b.endpointKey("appliance", verb, url[|APPLIANCE_URL|..]))
  }

  lemma NamesIff(b: Borrowed, request: Json, key: string)
    ensures Names(b, request, key) <==> Mentions(b, request, key)
  {
    hide Get;
    if request.Obj? && TextOf(request, "url").Some? { SplitUrlIff(TextOf(request, "url").value); }
    assert ORCHESTRATOR_URL[2] == 'o' && APPLIANCE_URL[2] == 'a';
    hide ORCHESTRATOR_URL, APPLIANCE_URL;
  }

  /**
   * What an entry keeps of its request: the rendered name, the URL after its base, the folder's path where
   * it is listed, the example body, and the picked response with any status but 200 beside it.
   */
  ghost predicate Keeps(b: Borrowed, request: Json, paths: map<string, seq<string>>, e: Entry) {
    && e.name == b.render(if HasKey(request, "name") then At(request.members, "name") else Str(""))
    && (Get(request, "url") == Some(Str(ORCHESTRATOR_URL + e.path))
        || Get(request, "url") == Some(Str(APPLIANCE_URL + e.path)))
    && (e.folder.Some? <==> exists id :: Get(request, "folder") == Some(Str(id)) && id in paths)
    && (forall id :: Get(request, "folder") == Some(Str(id)) && id in paths ==> e.folder == Some(paths[id]))
    && StandsFor(b, Get(request, "rawModeData"), e.request)
    && (exists status :: IsPick(b, ItemsOf(Get(request, "responses")), e.response, status)
         && e.status == if e.response == NoBody || status == Some(200) then None else status)
  }

  /** Where the entry's own parts come from: its name, its path and its folder. */
  lemma {:induction false} EntryPlace(b: Borrowed, request: Json, paths: map<string, seq<string>>)
    requires Counts(request)
    ensures var e := EntryFor(b, request, paths);
      && e.name == b.render(if HasKey(request, "name") then At(request.members, "name") else Str(""))
      && (Get(request, "url") == Some(Str(ORCHESTRATOR_URL + e.path))
          || Get(request, "url") == Some(Str(APPLIANCE_URL + e.path)))
      && (e.folder.Some? <==> exists id :: Get(request, "folder") == Some(Str(id)) && id in paths)
      && (forall id :: Get(request, "folder") == Some(Str(id)) && id in paths ==> e.folder == Some(paths[id]))
  {
    SplitUrlIff(TextOf(request, "url").value);
    hide BestResponse, SavedResponses, Get, ParseExample, SplitUrl, ORCHESTRATOR_URL, APPLIANCE_URL, HasBody;
  }

  /** Where its bodies and its status come from. */
  lemma {:induction false} EntryBodies(b: Borrowed, request: Json, paths: map<string, seq<string>>)
    requires Counts(request)
    ensures var e := EntryFor(b, request, paths);
      && StandsFor(b, Get(request, "rawModeData"), e.request)
      && exists status :: IsPick(b, ItemsOf(Get(request, "responses")), e.response, status)
           && e.status == if e.response == NoBody || status == Some(200) then None else status
  {
    var e := EntryFor(b, request, paths);
    ParseExampleIff(b, Get(request, "rawModeData"), e.request);
    PickIs(b, Get(request, "responses"));
    var best := BestResponse(SavedResponses(b, Get(request, "responses")));
    hide BestResponse, SavedResponses, Get, ParseExample, StandsFor, IsPick, SplitUrl, FolderOf, NameOf, TextOf;
    assert IsPick(b, ItemsOf(Get(request, "responses")), e.response, best.status);
  }

  lemma {:induction false} EntryKeeps(b: Borrowed, request: Json, paths: map<string, seq<string>>)
    requires Counts(request)
    ensures Keeps(b, request, paths, EntryFor(b, request, paths))
  {
    EntryPlace(b, request, paths);
    EntryBodies(b, request, paths);
    hide EntryFor, Get, StandsFor, IsPick, ORCHESTRATOR_URL, APPLIANCE_URL;
  }

  /**
   * An endpoint has an entry iff some request names it, and the entry is what is kept of the first one
   * that does.
   */
  lemma FirstRequestWins(b: Borrowed, requests: seq<Json>, paths: map<string, seq<string>>, key: string)
    ensures key in Entries(b, requests, paths) <==>
      exists i :: 0 <= i < |requests| && Mentions(b, requests[i], key)
    ensures key in Entries(b, requests, paths) ==>
      exists i :: 0 <= i < |requests| && Mentions(b, requests[i], key)
        && Keeps(b, requests[i], paths, Entries(b, requests, paths)[key])
        && forall j :: 0 <= j < i ==> !Mentions(b, requests[j], key)
  {
    FirstNamed(b, requests, paths, key);
    forall i | 0 <= i < |requests| ensures Names(b, requests[i], key) <==> Mentions(b, requests[i], key) {
      NamesIff(b, requests[i], key);
    }
    hide Mentions, Entries, Keeps, EntryFor, Names;
    if key in Entries(b, requests, paths) {
      var i :| 0 <= i < |requests| && Names(b, requests[i], key)
        && Entries(b, requests, paths)[key] == EntryFor(b, requests[i], paths)
        && forall j :: 0 <= j < i ==> !Names(b, requests[j], key);
      EntryKeepsNamed(b, requests[i], paths, key);
      assert Mentions(b, requests[i], key);
    }
  }

  lemma EntryKeepsNamed(b: Borrowed, request: Json, paths: map<string, seq<string>>, key: string)
    requires Names(b, request, key)
    ensures Counts(request) && Keeps(b, request, paths, EntryFor(b, request, paths))
  {
    EntryKeeps(b, request, paths);
  }
}
