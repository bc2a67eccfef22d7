/** Sanitizing a fetched specification: every host it names becomes the placeholder. */
module Sanitizing {
  import opened Wrappers
  import opened Text
  import opened JsonValues
  import opened Urls

  datatype Target = Orchestrator | Appliance

  function TargetName(target: Target): string {
    match target
    case Orchestrator => "orchestrator"
    case Appliance => "appliance"
  }

  function Placeholder(target: Target): string { TargetName(target) + ".example.com" }

  predicate IsHostChar(c: char) { IsLower(c) || c == '.' }

  predicate AllHostChars(s: string) { forall c <- s :: IsHostChar(c) }

  lemma HostCharsArePlain(s: string)
    requires s != "" && AllHostChars(s)
    ensures PlainHost(s)
  {
  }

  lemma PlaceholderIsPlain(target: Target)
    ensures PlainHost(Placeholder(target))
  {
    assert AllHostChars(TargetName(target));
    assert AllHostChars(".example.com");
    assert AllHostChars(Placeholder(target)) by {
      hide IsHostChar;
      var name, domain := TargetName(target), ".example.com";
      forall c | c in name + domain ensures IsHostChar(c) {
        assert c in name || c in domain;
      }
    }
    hide AllHostChars, PlainHost;
    HostCharsArePlain(Placeholder(target));
  }

  // ----- one URL field -----

  /** The values `urlsplit` reads as an empty string although they are not text. */
  predicate IsZero(v: Json) { v == Bool(false) || v == Int(0) || v == Real(0.0) }

  predicate ReadsAsEmpty(v: Json) { v == Null || IsZero(v) }

  /** A URL field with its host swapped; nothing where splitting it raises. */
  function SanitizeField(v: Json, placeholder: string): Option<Json> {
    match v
    case Str(url) =>
      (match SanitizeUrl(url, placeholder)
       case Some(clean) => Some(Str(clean))
       case None => None)
    case _ => if ReadsAsEmpty(v) then Some(v) else None
  }

  lemma FieldIdempotent(v: Json, placeholder: string)
    requires PlainHost(placeholder) && SanitizeField(v, placeholder).Some?
    ensures var once := SanitizeField(v, placeholder); SanitizeField(once.value, placeholder) == once
  {
    hide SanitizeUrl;
    if v.Str? { SanitizeUrlIdempotent(v.s, placeholder); }
  }

  /** No host but the placeholder. */
  predicate HostFree(v: Json, placeholder: string) {
    v.Str? ==> UrlSplit(v.s).Some? && UrlSplit(v.s).value.netloc in ["", placeholder]
  }

  lemma FieldHostFree(v: Json, placeholder: string)
    requires PlainHost(placeholder) && SanitizeField(v, placeholder).Some?
    ensures HostFree(SanitizeField(v, placeholder).value, placeholder)
  {
    hide UrlSplit, PlainHost, SafePath;
    if v.Str? && UrlSplit(v.s).value.netloc != "" {
      HostedPath(v.s);
      SanitizedSplits(placeholder, UrlSplit(v.s).value.path);
    }
  }

  // ----- the server list -----

  /** `entry.get("url", "")` for an object, the empty string for anything else. */
  function EntryUrl(entry: Json): Json {
    if HasKey(entry, "url") then At(entry.members, "url") else Str("")
  }

  function UrlOnly(url: Json): Json { Obj([Member("url", url)]) }

  /** Python's `==` on two URL fields that survived splitting. */
  predicate SameUrl(a: Json, b: Json) { a == b || (IsZero(a) && IsZero(b)) }

  predicate Listed(servers: seq<Json>, url: Json) {
    exists s <- servers :: SameUrl(EntryUrl(s), url)
  }

  function ServerLabel(i: nat): string { "servers[" + Decimal(i) + "]" }

  datatype Swept = Swept(servers: seq<Json>, touched: seq<string>)

  /** Url-only entries in order of first appearance, and a label for every entry that changes. */
  function Sweep(entries: seq<Json>, placeholder: string): Option<Swept> {
    if entries == [] then Some(Swept([], []))
    else
      var n := |entries| - 1;
      match (Sweep(entries[..n], placeholder), SanitizeField(EntryUrl(entries[n]), placeholder))
      case (Some(before), Some(url)) =>
        Some(Swept(
          if Listed(before.servers, url) then before.servers else before.servers + [UrlOnly(url)],
          if entries[n] == UrlOnly(url) then before.touched else before.touched + [ServerLabel(n)]))
      case _ => None
  }

  lemma SweepPrefix(entries: seq<Json>, n: nat, placeholder: string)
    requires n < |entries|
    ensures Sweep(entries[..n], placeholder).None? ==> Sweep(entries[..n + 1], placeholder).None?
    ensures SanitizeField(EntryUrl(entries[n]), placeholder).None? ==> Sweep(entries[..n + 1], placeholder).None?
  {
    assert entries[..n + 1][..n] == entries[..n] && entries[..n + 1][n] == entries[n];
  }

  lemma {:induction false} SweepFails(entries: seq<Json>, n: nat, placeholder: string)
    requires n <= |entries| && Sweep(entries[..n], placeholder).None?
    ensures Sweep(entries, placeholder).None?
    decreases |entries| - n
  {
    if n < |entries| {
      SweepPrefix(entries, n, placeholder);
      SweepFails(entries, n + 1, placeholder);
    } else {
      assert entries[..n] == entries;
    }
  }

  lemma UrlOfUrlOnly(url: Json)
    ensures EntryUrl(UrlOnly(url)) == url
  {
    assert KeySet([Member("url", url)]) == {"url"} by {
      assert [Member("url", url)][0].key == "url";
    }
  }

  /** The sweep as the tool runs it. */
  method SweepServers(entries: seq<Json>, placeholder: string) returns (r: Option<Swept>)
    ensures r == Sweep(entries, placeholder)
  {
    hide SanitizeField, EntryUrl, Listed, ServerLabel;
    var servers: seq<Json>, touched: seq<string> := [], [];
    for i := 0 to |entries|
      invariant Sweep(entries[..i], placeholder) == Some(Swept(servers, touched))
    {
      assert entries[..i + 1][..i] == entries[..i] && entries[..i + 1][i] == entries[i];
      var url := EntryUrl(entries[i]);
      match SanitizeField(url, placeholder) {
        case None =>
          SweepFails(entries, i + 1, placeholder);
          return None;
        case Some(clean) =>
          UrlOfUrlOnly(clean);
          var changed := clean != url;
          if changed || entries[i] != UrlOnly(clean) { touched := touched + [ServerLabel(i)]; }
          if !Listed(servers, clean) { servers := servers + [UrlOnly(clean)]; }
      }
    }
    assert entries[..|entries|] == entries;
    r := Some(Swept(servers, touched));
  }

  /** A server list the sweep leaves alone: clean, url-only, and no URL twice. */
  ghost predicate SweptClean(servers: seq<Json>, placeholder: string) {
    && (forall s <- servers :: s == UrlOnly(EntryUrl(s)))
    && (forall s <- servers :: SanitizeField(EntryUrl(s), placeholder) == Some(EntryUrl(s)))
    && (forall i, j :: 0 <= i < j < |servers| ==> !SameUrl(EntryUrl(servers[i]), EntryUrl(servers[j])))
  }

  lemma CleanGrows(servers: seq<Json>, url: Json, placeholder: string)
    requires SweptClean(servers, placeholder) && !Listed(servers, url)
    requires SanitizeField(url, placeholder) == Some(url)
    ensures SweptClean(servers + [UrlOnly(url)], placeholder)
  {
    hide SanitizeField, EntryUrl, SameUrl, UrlOnly;
    UrlOfUrlOnly(url);
    var grown := servers + [UrlOnly(url)];
    forall i, j | 0 <= i < j < |grown| ensures !SameUrl(EntryUrl(grown[i]), EntryUrl(grown[j])) {
      if j == |servers| { assert servers[i] in servers; }
    }
  }

  lemma NoneIsClean(placeholder: string)
    ensures SweptClean([], placeholder)
  {
  }

  lemma {:induction false} SweepCleans(entries: seq<Json>, placeholder: string)
    requires PlainHost(placeholder) && Sweep(entries, placeholder).Some?
    ensures SweptClean(Sweep(entries, placeholder).value.servers, placeholder)
  {
    hide PlainHost, SanitizeField, EntryUrl, UrlOnly, Listed, SameUrl, SweptClean;
    if entries == [] {
      NoneIsClean(placeholder);
    } else {
      var n := |entries| - 1;
      SweepCleans(entries[..n], placeholder);
      var before := Sweep(entries[..n], placeholder).value;
      var url := SanitizeField(EntryUrl(entries[n]), placeholder).value;
      FieldIdempotent(EntryUrl(entries[n]), placeholder);
      if !Listed(before.servers, url) { CleanGrows(before.servers, url, placeholder); }
    }
  }

  lemma CleanShrinks(servers: seq<Json>, placeholder: string)
    requires SweptClean(servers, placeholder) && servers != []
    ensures var n := |servers| - 1;
      && SweptClean(servers[..n], placeholder) && !Listed(servers[..n], EntryUrl(servers[n]))
      && servers[n] == UrlOnly(EntryUrl(servers[n]))
      && SanitizeField(EntryUrl(servers[n]), placeholder) == Some(EntryUrl(servers[n]))
  {
    hide SanitizeField, EntryUrl, UrlOnly, SameUrl;
    var init, last := servers[..|servers| - 1], servers[|servers| - 1];
    assert last in servers && forall s <- init :: s in servers;
  }

  lemma {:induction false} SweepFixesClean(servers: seq<Json>, placeholder: string)
    requires SweptClean(servers, placeholder)
    ensures Sweep(servers, placeholder) == Some(Swept(servers, []))
  {
    hide SweptClean, Listed, SanitizeField, EntryUrl, UrlOnly, ServerLabel, SameUrl;
    if servers != [] {
      var n := |servers| - 1;
      CleanShrinks(servers, placeholder);
      SweepFixesClean(servers[..n], placeholder);
      assert servers == servers[..n] + [servers[n]];
    }
  }

  // ----- the whole specification -----

  datatype Sanitized = Sanitized(doc: seq<Member>, touched: seq<string>)

  predicate HasList(ms: seq<Member>, key: string) { key in KeySet(ms) && At(ms, key).Arr? }

  predicate HasText(ms: seq<Member>, key: string) { key in KeySet(ms) && At(ms, key).Str? }

  function SanitizeServers(ms: seq<Member>, placeholder: string): Option<Sanitized> {
    if !HasList(ms, "servers") then Some(Sanitized(ms, []))
    else
      match Sweep(At(ms, "servers").items, placeholder)
      case None => None
      case Some(swept) => Some(Sanitized(SetMember(ms, "servers", Arr(swept.servers)), swept.touched))
  }

  function SanitizeBasePath(ms: seq<Member>, placeholder: string): Option<Sanitized> {
    if !HasText(ms, "basePath") then Some(Sanitized(ms, []))
    else
      match SanitizeUrl(At(ms, "basePath").s, placeholder)
      case None => None
      case Some(url) =>
        Some(if url == At(ms, "basePath").s then Sanitized(ms, [])
             else Sanitized(SetMember(ms, "basePath", Str(url)), ["basePath"]))
  }

  function SanitizeHost(ms: seq<Member>, placeholder: string): Sanitized {
    if HasText(ms, "host") && At(ms, "host").s != placeholder
    then Sanitized(SetMember(ms, "host", Str(placeholder)), ["host"])
    else Sanitized(ms, [])
  }

  /** The sanitized copy and the fields it changed; nothing where a URL cannot be split. */
  function SanitizeSpec(spec: seq<Member>, placeholder: string): Option<Sanitized> {
    match SanitizeServers(spec, placeholder)
    case None => None
    case Some(a) =>
      match SanitizeBasePath(a.doc, placeholder)
      case None => None
      case Some(b) =>
        var c := SanitizeHost(b.doc, placeholder);
        Some(Sanitized(c.doc, a.touched + b.touched + c.touched))
  }

  /** What a stage of sanitizing may change: the value under one key, and nothing else. */
  predicate OnlyAt(before: seq<Member>, after: seq<Member>, key: string) {
    && UniqueKeys(after) && KeySet(after) == KeySet(before)
    && forall k <- KeySet(before) :: k != key ==> At(after, k) == At(before, k)
  }

  ghost predicate ServersClean(ms: seq<Member>, placeholder: string) {
    HasList(ms, "servers") ==> SweptClean(At(ms, "servers").items, placeholder)
  }

  predicate BasePathClean(ms: seq<Member>, placeholder: string) {
    HasText(ms, "basePath") ==> SanitizeUrl(At(ms, "basePath").s, placeholder) == Some(At(ms, "basePath").s)
  }

  predicate HostClean(ms: seq<Member>, placeholder: string) {
    HasText(ms, "host") ==> At(ms, "host").s == placeholder
  }

  lemma ServersStage(ms: seq<Member>, placeholder: string)
    requires UniqueKeys(ms) && PlainHost(placeholder) && SanitizeServers(ms, placeholder).Some?
    ensures var r := SanitizeServers(ms, placeholder).value.doc;
      OnlyAt(ms, r, "servers") && ServersClean(r, placeholder)
  {
    hide Sweep, SweptClean, PlainHost;
    hide SetMember;
    if HasList(ms, "servers") {
      var swept := Sweep(At(ms, "servers").items, placeholder).value;
      SetMemberSpec(ms, "servers", Arr(swept.servers));
      SweepCleans(At(ms, "servers").items, placeholder);
    }
  }

  lemma BasePathStage(ms: seq<Member>, placeholder: string)
    requires UniqueKeys(ms) && PlainHost(placeholder) && SanitizeBasePath(ms, placeholder).Some?
    ensures var r := SanitizeBasePath(ms, placeholder).value.doc;
      OnlyAt(ms, r, "basePath") && BasePathClean(r, placeholder)
  {
    hide SanitizeUrl, PlainHost;
    hide SetMember;
    if HasText(ms, "basePath") {
      var url := At(ms, "basePath").s;
      SanitizeUrlIdempotent(url, placeholder);
      SetMemberSpec(ms, "basePath", Str(SanitizeUrl(url, placeholder).value));
    }
  }

  lemma HostStage(ms: seq<Member>, placeholder: string)
    requires UniqueKeys(ms)
    ensures var r := SanitizeHost(ms, placeholder).doc; OnlyAt(ms, r, "host") && HostClean(r, placeholder)
  {
    hide SetMember;
    if HasText(ms, "host") {
      SetMemberSpec(ms, "host", Str(placeholder));
    }
  }

  ghost predicate CleanSpec(ms: seq<Member>, placeholder: string) {
    ServersClean(ms, placeholder) && BasePathClean(ms, placeholder) && HostClean(ms, placeholder)
  }

  /** Sanitizing changes nothing but servers, basePath and host, and leaves those three clean. */
  lemma SanitizedIsClean(spec: seq<Member>, placeholder: string)
    requires UniqueKeys(spec) && PlainHost(placeholder) && SanitizeSpec(spec, placeholder).Some?
    ensures var r := SanitizeSpec(spec, placeholder).value.doc;
      && CleanSpec(r, placeholder) && UniqueKeys(r) && KeySet(r) == KeySet(spec)
      && forall k <- KeySet(spec) :: k !in ["servers", "basePath", "host"] ==> At(r, k) == At(spec, k)
  {
    hide SanitizeServers, SanitizeBasePath, SanitizeHost, SweptClean, SanitizeUrl, PlainHost;
    var a := SanitizeServers(spec, placeholder).value.doc;
    ServersStage(spec, placeholder);
    var b := SanitizeBasePath(a, placeholder).value.doc;
    BasePathStage(a, placeholder);
    HostStage(b, placeholder);
  }

  lemma CleanIsUntouched(spec: seq<Member>, placeholder: string)
    requires UniqueKeys(spec) && CleanSpec(spec, placeholder)
    ensures SanitizeSpec(spec, placeholder) == Some(Sanitized(spec, []))
  {
    hide SanitizeUrl, SweptClean, Sweep, SetMember;
    if HasList(spec, "servers") {
      var items := At(spec, "servers").items;
      SweepFixesClean(items, placeholder);
      assert At(spec, "servers") == Arr(items);
      SetMemberSame(spec, "servers");
      assert SetMember(spec, "servers", Arr(items)) == spec;
    }
    assert SanitizeServers(spec, placeholder) == Some(Sanitized(spec, []));
    assert SanitizeBasePath(spec, placeholder) == Some(Sanitized(spec, []));
    assert SanitizeHost(spec, placeholder) == Sanitized(spec, []);
    var none: seq<string> := [];
    assert none + none + none == none;
  }

  /** A second pass touches nothing. */
  lemma SanitizeSpecIdempotent(spec: seq<Member>, target: Target)
    requires UniqueKeys(spec) && SanitizeSpec(spec, Placeholder(target)).Some?
    ensures var once := SanitizeSpec(spec, Placeholder(target)).value.doc;
      SanitizeSpec(once, Placeholder(target)) == Some(Sanitized(once, []))
  {
    hide Placeholder, SanitizeSpec, CleanSpec, PlainHost;
    PlaceholderIsPlain(target);
    SanitizedIsClean(spec, Placeholder(target));
    CleanIsUntouched(SanitizeSpec(spec, Placeholder(target)).value.doc, Placeholder(target));
  }

  lemma FixedFieldHostFree(v: Json, placeholder: string)
    requires PlainHost(placeholder) && SanitizeField(v, placeholder) == Some(v)
    ensures HostFree(v, placeholder)
  {
    FieldHostFree(v, placeholder);
    hide SanitizeField, HostFree, PlainHost;
  }

  /** No field of a sanitized specification that may name a deployment names one. */
  lemma SanitizedNamesNoDeployment(spec: seq<Member>, target: Target)
    requires UniqueKeys(spec) && SanitizeSpec(spec, Placeholder(target)).Some?
    ensures var r := SanitizeSpec(spec, Placeholder(target)).value.doc;
      && (HasList(r, "servers") ==> forall s <- At(r, "servers").items ::
        s == UrlOnly(EntryUrl(s)) && HostFree(EntryUrl(s), Placeholder(target)))
      && (HasText(r, "basePath") ==> HostFree(At(r, "basePath"), Placeholder(target)))
      && (HasText(r, "host") ==> At(r, "host").s == Placeholder(target))
  {
    hide Placeholder, SanitizeSpec, PlainHost, HostFree, EntryUrl, UrlOnly, SanitizeUrl, SameUrl;
    PlaceholderIsPlain(target);
    var host := Placeholder(target);
    var r := SanitizeSpec(spec, host).value.doc;
    SanitizedIsClean(spec, host);
    if HasList(r, "servers") {
      forall s | s in At(r, "servers").items ensures s == UrlOnly(EntryUrl(s)) && HostFree(EntryUrl(s), host) {
        FixedFieldHostFree(EntryUrl(s), host);
      }
    }
    if HasText(r, "basePath") {
      FixedFieldHostFree(At(r, "basePath"), host);
    }
  }

  // ----- two deployments of one API -----

  /** Two URLs that are the same, or name the same path on two hosts. */
  ghost predicate SameApart(a: string, b: string) {
    a == b || exists p, q :: WellFormed(p) && WellFormed(q) && p.path == q.path && a == Compose(p) && b == Compose(q)
  }

  /** Server entries with such URLs; what else they hold may differ. */
  ghost predicate SameServer(a: Json, b: Json) {
    a == b || (EntryUrl(a).Str? && EntryUrl(b).Str? && SameApart(EntryUrl(a).s, EntryUrl(b).s))
  }

  ghost predicate SameServers(a: seq<Json>, b: seq<Json>) {
    |a| == |b| && forall i :: 0 <= i < |a| ==> SameServer(a[i], b[i])
  }

  /** Two publications of one API that differ in nothing but where they are deployed. */
  ghost predicate SameApi(a: seq<Member>, b: seq<Member>) {
    |a| == |b| && forall i :: 0 <= i < |a| ==> SameField(a[i], b[i])
  }

  ghost predicate SameField(a: Member, b: Member) {
    a == b || (a.key == b.key && SameValue(a.key, a.value, b.value))
  }

  ghost predicate SameValue(key: string, a: Json, b: Json) {
    || (key == "servers" && a.Arr? && b.Arr? && SameServers(a.items, b.items))
    || (key == "basePath" && a.Str? && b.Str? && SameApart(a.s, b.s))
    || (key == "host" && a.Str? && b.Str?)
  }

  lemma SameApartSanitizeAlike(a: string, b: string, placeholder: string)
    requires SameApart(a, b)
    ensures SanitizeUrl(a, placeholder) == SanitizeUrl(b, placeholder)
  {
    hide SanitizeUrl, WellFormed, Compose;
    if a != b {
      var p, q :| WellFormed(p) && WellFormed(q) && p.path == q.path && a == Compose(p) && b == Compose(q);
      SanitizeUrlHostBlind(p, q, placeholder);
    }
  }

  lemma {:induction false} SweepAlike(a: seq<Json>, b: seq<Json>, placeholder: string)
    requires SameServers(a, b)
    ensures Sweep(a, placeholder).Some? == Sweep(b, placeholder).Some?
    ensures Sweep(a, placeholder).Some? ==> Sweep(a, placeholder).value.servers == Sweep(b, placeholder).value.servers
  {
    hide SanitizeUrl, EntryUrl, UrlOnly, Listed, ServerLabel, SameApart;
    if a != [] {
      var n := |a| - 1;
      SweepAlike(a[..n], b[..n], placeholder);
      assert SameServer(a[n], b[n]);
      if a[n] != b[n] { SameApartSanitizeAlike(EntryUrl(a[n]).s, EntryUrl(b[n]).s, placeholder); }
      assert SanitizeField(EntryUrl(a[n]), placeholder) == SanitizeField(EntryUrl(b[n]), placeholder);
      hide SanitizeField;
    }
  }

  lemma SameKeys(a: seq<Member>, b: seq<Member>)
    requires SameApi(a, b) && UniqueKeys(a) && UniqueKeys(b)
    ensures KeySet(a) == KeySet(b)
    ensures forall i :: 0 <= i < |a| ==> a[i].key == b[i].key
    ensures forall k <- KeySet(a) :: IndexOf(a, k) == IndexOf(b, k)
    ensures forall k <- KeySet(a) :: SameField(Member(k, At(a, k)), Member(k, At(b, k)))
  {
    hide SameValue;
    assert forall i :: 0 <= i < |a| ==> SameField(a[i], b[i]) && a[i].key == b[i].key;
    assert KeySet(a) == KeySet(b);
    forall k | k in KeySet(a)
      ensures IndexOf(a, k) == IndexOf(b, k) && SameField(Member(k, At(a, k)), Member(k, At(b, k)))
    {
      var i := IndexOf(a, k);
      assert b[i].key == k && b[IndexOf(b, k)].key == k;
      assert SameField(a[i], b[i]);
    }
  }

  lemma SetAlike(a: seq<Member>, b: seq<Member>, key: string, value: Json)
    requires SameApi(a, b) && UniqueKeys(a) && UniqueKeys(b) && key in KeySet(a)
    ensures SameApi(SetMember(a, key, value), SetMember(b, key, value))
    ensures key in KeySet(b)
  {
    hide SameValue;
    SameKeys(a, b);
    var ra, rb := SetMember(a, key, value), SetMember(b, key, value);
    forall i | 0 <= i < |ra| ensures SameField(ra[i], rb[i]) {
      assert SameField(a[i], b[i]);
    }
  }

  /** Two specifications agree on a field: neither has it, or both hold the same value there. */
  predicate AgreeAt(a: seq<Member>, b: seq<Member>, key: string) {
    key in KeySet(a) ==> key in KeySet(b) && At(a, key) == At(b, key)
  }

  predicate Related(a: seq<Member>, b: seq<Member>) {
    UniqueKeys(a) && UniqueKeys(b) && KeySet(a) == KeySet(b)
  }

  lemma ServersAlike(a: seq<Member>, b: seq<Member>, placeholder: string)
    requires SameApi(a, b) && Related(a, b)
    ensures SanitizeServers(a, placeholder).Some? == SanitizeServers(b, placeholder).Some?
    ensures SanitizeServers(a, placeholder).Some? ==>
      var ra, rb := SanitizeServers(a, placeholder).value.doc, SanitizeServers(b, placeholder).value.doc;
      SameApi(ra, rb) && Related(ra, rb) && AgreeAt(ra, rb, "servers")
  {
    hide Sweep, SetMember, SameApi, SameServers, SameApart;
    SameKeys(a, b);
    if HasList(a, "servers") {
      var sa, sb := At(a, "servers").items, At(b, "servers").items;
      assert SameServers(sa, sb) by {
        if At(a, "servers") == At(b, "servers") { SameServersRefl(sa); }
      }
      SweepAlike(sa, sb, placeholder);
      if Sweep(sa, placeholder).Some? {
        var v := Arr(Sweep(sa, placeholder).value.servers);
        SetAlike(a, b, "servers", v);
        SetMemberSpec(a, "servers", v);
        SetMemberSpec(b, "servers", v);
      }
    }
  }

  lemma SameServersRefl(a: seq<Json>)
    ensures SameServers(a, a)
  {
    hide SameApart;
  }

  lemma BasePathAlike(a: seq<Member>, b: seq<Member>, placeholder: string)
    requires SameApi(a, b) && Related(a, b)
    ensures SanitizeBasePath(a, placeholder).Some? == SanitizeBasePath(b, placeholder).Some?
    ensures SanitizeBasePath(a, placeholder).Some? ==>
      var ra, rb := SanitizeBasePath(a, placeholder).value.doc, SanitizeBasePath(b, placeholder).value.doc;
      && SameApi(ra, rb) && Related(ra, rb) && AgreeAt(ra, rb, "basePath")
      && (AgreeAt(a, b, "servers") ==> AgreeAt(ra, rb, "servers"))
  {
    hide SanitizeUrl, SameApi, SetMember, SameServers;
    SameKeys(a, b);
    if HasText(a, "basePath") {
      var ua, ub := At(a, "basePath").s, At(b, "basePath").s;
      SameApartSanitizeAlike(ua, ub, placeholder);
      if SanitizeUrl(ua, placeholder).Some? {
        var v := Str(SanitizeUrl(ua, placeholder).value);
        SetAlike(a, b, "basePath", v);
        SetMemberSpec(a, "basePath", v);
        SetMemberSpec(b, "basePath", v);
        SetUnchanged(a, "basePath", ua);
        SetUnchanged(b, "basePath", ub);
        assert SanitizeBasePath(a, placeholder).value.doc == SetMember(a, "basePath", v);
        assert SanitizeBasePath(b, placeholder).value.doc == SetMember(b, "basePath", v);
      }
    }
  }

  lemma SetUnchanged(a: seq<Member>, key: string, text: string)
    requires HasText(a, key) && At(a, key).s == text
    ensures SetMember(a, key, Str(text)) == a
  {
  }

  lemma HostAlike(a: seq<Member>, b: seq<Member>, placeholder: string)
    requires SameApi(a, b) && Related(a, b)
    ensures var ra, rb := SanitizeHost(a, placeholder).doc, SanitizeHost(b, placeholder).doc;
      && SameApi(ra, rb) && Related(ra, rb) && AgreeAt(ra, rb, "host")
      && (AgreeAt(a, b, "servers") ==> AgreeAt(ra, rb, "servers"))
      && (AgreeAt(a, b, "basePath") ==> AgreeAt(ra, rb, "basePath"))
  {
    hide SameApi, SetMember, SameServers, SameApart;
    SameKeys(a, b);
    if HasText(a, "host") {
      var v := Str(placeholder);
      SetAlike(a, b, "host", v);
      SetMemberSpec(a, "host", v);
      SetMemberSpec(b, "host", v);
      if At(a, "host").s == placeholder { SetUnchanged(a, "host", placeholder); }
      if At(b, "host").s == placeholder { SetUnchanged(b, "host", placeholder); }
      assert SanitizeHost(a, placeholder).doc == SetMember(a, "host", v);
      assert SanitizeHost(b, placeholder).doc == SetMember(b, "host", v);
    }
  }

  lemma AgreeingEverywhere(a: seq<Member>, b: seq<Member>)
    requires SameApi(a, b) && Related(a, b)
    requires AgreeAt(a, b, "servers") && AgreeAt(a, b, "basePath") && AgreeAt(a, b, "host")
    ensures a == b
  {
    hide SameServers, SameApart;
    forall i | 0 <= i < |a| ensures a[i] == b[i] {
      assert SameField(a[i], b[i]);
      AtIndex(a, i);
      AtIndex(b, i);
    }
  }

  /** Two deployments of one API sanitize to one document, or are both refused. */
  lemma SanitizeSpecHostBlind(a: seq<Member>, b: seq<Member>, target: Target)
    requires UniqueKeys(a) && UniqueKeys(b) && SameApi(a, b)
    ensures SanitizeSpec(a, Placeholder(target)).Some? == SanitizeSpec(b, Placeholder(target)).Some?
    ensures SanitizeSpec(a, Placeholder(target)).Some? ==>
      SanitizeSpec(a, Placeholder(target)).value.doc == SanitizeSpec(b, Placeholder(target)).value.doc
  {
    hide SanitizeServers, SanitizeBasePath, SanitizeHost, Placeholder, SameApi, AgreeAt;
    var host := Placeholder(target);
    SameKeys(a, b);
    ServersAlike(a, b, host);
    if SanitizeServers(a, host).Some? {
      var a1, b1 := SanitizeServers(a, host).value.doc, SanitizeServers(b, host).value.doc;
      BasePathAlike(a1, b1, host);
      if SanitizeBasePath(a1, host).Some? {
        var a2, b2 := SanitizeBasePath(a1, host).value.doc, SanitizeBasePath(b1, host).value.doc;
        HostAlike(a2, b2, host);
        AgreeingEverywhere(SanitizeHost(a2, host).doc, SanitizeHost(b2, host).doc);
      }
    }
  }


  /** The sanitizer as the tool runs it: every stage reads the given specification. */
  method Sanitize(spec: seq<Member>, target: Target) returns (r: Option<Sanitized>)
    requires UniqueKeys(spec)
    ensures r == SanitizeSpec(spec, Placeholder(target))
  {
    hide Sweep, SetMember, SanitizeUrl, Placeholder;
    var placeholder := Placeholder(target);
    var out, touched := spec, [];
    if HasList(spec, "servers") {
      var swept := SweepServers(At(spec, "servers").items, placeholder);
      if swept.None? { return None; }
      SetMemberSpec(spec, "servers", Arr(swept.value.servers));
      out, touched := SetMember(spec, "servers", Arr(swept.value.servers)), swept.value.touched;
    }
    assert SanitizeServers(spec, placeholder) == Some(Sanitized(out, touched));
    ghost var a := Sanitized(out, touched);
    if HasText(spec, "basePath") {
      var url := At(spec, "basePath").s;
      match SanitizeUrl(url, placeholder) {
        case None => return None;
        case Some(clean) =>
          if clean != url {
            SetMemberSpec(out, "basePath", Str(clean));
            out, touched := SetMember(out, "basePath", Str(clean)), touched + ["basePath"];
          }
      }
    }
    ghost var b := SanitizeBasePath(a.doc, placeholder).value;
    assert b.doc == out && a.touched + b.touched == touched;
    if HasText(spec, "host") && At(spec, "host").s != placeholder {
      out, touched := SetMember(out, "host", Str(placeholder)), touched + ["host"];
    }
    assert SanitizeHost(b.doc, placeholder).doc == out;
    assert a.touched + b.touched + SanitizeHost(b.doc, placeholder).touched == touched;
    r := Some(Sanitized(out, touched));
  }
}
