/** What a sanitized specification holds and reports, field by field. */
module SanitizedFields {
  import opened Wrappers
  import opened Text
  import opened JsonValues
  import opened Urls
  import opened Sanitizing

  /** The i-th entry's URL once its host is swapped. */
  function CleanUrl(entries: seq<Json>, i: nat, placeholder: string): Option<Json>
    requires i < |entries|
  {
    SanitizeField(EntryUrl(entries[i]), placeholder)
  }

  predicate AllClean(entries: seq<Json>, placeholder: string) {
    forall i :: 0 <= i < |entries| ==> CleanUrl(entries, i, placeholder).Some?
  }

  /** The i-th entry sanitizes to this URL, as Python compares them. */
  predicate Yields(entries: seq<Json>, i: nat, url: Json, placeholder: string) {
    i < |entries| && CleanUrl(entries, i, placeholder).Some? && SameUrl(CleanUrl(entries, i, placeholder).value, url)
  }

  /** The k-th entry yields v, and no entry up to it yields w. */
  ghost predicate YieldsFirst(entries: seq<Json>, k: nat, v: Json, w: Json, placeholder: string) {
    Yields(entries, k, v, placeholder) && forall m: nat :: m <= k ==> !Yields(entries, m, w, placeholder)
  }

  /** Every entry's URL is listed. */
  predicate AllListed(entries: seq<Json>, servers: seq<Json>, placeholder: string)
    requires AllClean(entries, placeholder)
  {
    forall i :: 0 <= i < |entries| ==> Listed(servers, CleanUrl(entries, i, placeholder).value)
  }

  /** Every listed server is what some entry yields. */
  ghost predicate AllSupplied(entries: seq<Json>, servers: seq<Json>, placeholder: string) {
    forall s <- servers :: exists i: nat :: Supplies(entries, i, s, placeholder)
  }

  /** Some entry yields the one URL before any yields the other. */
  ghost predicate Precedes(entries: seq<Json>, s: Json, t: Json, placeholder: string) {
    exists k: nat :: YieldsFirst(entries, k, EntryUrl(s), EntryUrl(t), placeholder)
  }

  /** The servers come in order of first appearance. */
  ghost predicate InOrder(entries: seq<Json>, servers: seq<Json>, placeholder: string) {
    forall i, j :: 0 <= i < j < |servers| ==> Precedes(entries, servers[i], servers[j], placeholder)
  }

  lemma {:induction false} SweepsIff(entries: seq<Json>, placeholder: string)
    ensures Sweep(entries, placeholder).Some? <==> AllClean(entries, placeholder)
  {
    hide SanitizeField, EntryUrl, UrlOnly, ServerLabel, Listed;
    if entries != [] {
      var n := |entries| - 1;
      SweepsIff(entries[..n], placeholder);
      assert forall i :: 0 <= i < n ==> CleanUrl(entries[..n], i, placeholder) == CleanUrl(entries, i, placeholder);
      assert AllClean(entries, placeholder) <==>
          AllClean(entries[..n], placeholder) && CleanUrl(entries, n, placeholder).Some?;
    }
  }

  /**
   * The server list that results: every entry's URL, nothing else, in order of first appearance. (That none
   * is there twice is part of `SweptClean`.)
   */
  lemma {:induction false} SweptList(entries: seq<Json>, placeholder: string)
    requires AllClean(entries, placeholder)
    ensures Sweep(entries, placeholder).Some?
    ensures var servers := Sweep(entries, placeholder).value.servers;
      AllListed(entries, servers, placeholder) && AllSupplied(entries, servers, placeholder)
      && InOrder(entries, servers, placeholder)
  {
    SweepsIff(entries, placeholder);
    if entries == [] {
      assert Sweep(entries, placeholder) == Some(Swept([], []));
    } else {
      var n := |entries| - 1;
      var init := entries[..n];
      assert forall i :: 0 <= i < n ==> CleanUrl(init, i, placeholder) == CleanUrl(entries, i, placeholder);
      SweptList(init, placeholder);
      var before, url := Sweep(init, placeholder).value.servers, CleanUrl(entries, n, placeholder).value;
      var servers := Sweep(entries, placeholder).value.servers;
      assert servers == if Listed(before, url) then before else before + [UrlOnly(url)];
      hide Sweep, SanitizeField, AllListed, AllSupplied, InOrder, AllClean, EntryUrl, UrlOnly;
      ListedStep(entries, before, servers, url, placeholder);
      SuppliedStep(entries, before, servers, url, placeholder);
      OrderStep(entries, before, servers, url, placeholder);
    }
  }

  /** One more entry, whose URL is added unless it is listed. */
  predicate OneMore(entries: seq<Json>, before: seq<Json>, servers: seq<Json>, url: Json, placeholder: string) {
    && entries != [] && CleanUrl(entries, |entries| - 1, placeholder) == Some(url)
    && servers == if Listed(before, url) then before else before + [UrlOnly(url)]
  }

  lemma ListedStep(entries: seq<Json>, before: seq<Json>, servers: seq<Json>, url: Json, placeholder: string)
    requires OneMore(entries, before, servers, url, placeholder)
    requires AllClean(entries, placeholder) && AllClean(entries[..|entries| - 1], placeholder)
    requires AllListed(entries[..|entries| - 1], before, placeholder)
    ensures AllListed(entries, servers, placeholder)
  {
    hide SanitizeField, EntryUrl, UrlOnly, Listed;
    var n := |entries| - 1;
    ListedGrows(before, url);
    forall i | 0 <= i < |entries| ensures Listed(servers, CleanUrl(entries, i, placeholder).value) {
      if i < n {
        assert entries[..n][i] == entries[i];
        ListedStays(before, servers, CleanUrl(entries[..n], i, placeholder).value);
      }
    }
  }

  lemma SuppliedStep(entries: seq<Json>, before: seq<Json>, servers: seq<Json>, url: Json, placeholder: string)
    requires OneMore(entries, before, servers, url, placeholder)
    requires AllSupplied(entries[..|entries| - 1], before, placeholder)
    ensures AllSupplied(entries, servers, placeholder)
  {
    hide SanitizeField, EntryUrl, UrlOnly, Listed;
    var n := |entries| - 1;
    forall s | s in servers ensures exists i: nat :: Supplies(entries, i, s, placeholder) {
      if s in before {
        var i: nat :| Supplies(entries[..n], i, s, placeholder);
        assert Supplies(entries, i, s, placeholder);
      } else {
        assert Supplies(entries, n, s, placeholder);
      }
    }
  }

  lemma OrderStep(entries: seq<Json>, before: seq<Json>, servers: seq<Json>, url: Json, placeholder: string)
    requires OneMore(entries, before, servers, url, placeholder)
    requires AllClean(entries[..|entries| - 1], placeholder)
    requires AllListed(entries[..|entries| - 1], before, placeholder)
    requires AllSupplied(entries[..|entries| - 1], before, placeholder)
    requires InOrder(entries[..|entries| - 1], before, placeholder)
    ensures InOrder(entries, servers, placeholder)
  {
    hide SanitizeField, EntryUrl, UrlOnly, Listed, AllClean, YieldsFirst, Supplies;
    var init := entries[..|entries| - 1];
    UrlOfUrlOnly(url);
    forall i, j | 0 <= i < j < |servers| ensures Precedes(entries, servers[i], servers[j], placeholder) {
      var k: nat;
      if j < |before| {
        assert Precedes(init, before[i], before[j], placeholder);
        k :| YieldsFirst(init, k, EntryUrl(before[i]), EntryUrl(before[j]), placeholder);
      } else {
        assert servers[i] == before[i] && before[i] in before;
        k :| Supplies(init, k, before[i], placeholder);
        NewIsLater(init, before, url, k, before[i], placeholder);
      }
      YieldsStays(entries, k, EntryUrl(servers[i]), EntryUrl(servers[j]), placeholder);
    }
  }

  lemma NewIsLater(init: seq<Json>, before: seq<Json>, url: Json, k: nat, s: Json, placeholder: string)
    requires AllClean(init, placeholder) && AllListed(init, before, placeholder) && !Listed(before, url)
    requires Supplies(init, k, s, placeholder)
    ensures YieldsFirst(init, k, EntryUrl(s), url, placeholder)
  {
    SuppliesYields(init, k, s, placeholder);
    hide SanitizeField, EntryUrl, UrlOnly;
    Unlisted(init, before, url, k, placeholder);
  }

  /** The i-th entry yields exactly this url-only server. */
  predicate Supplies(entries: seq<Json>, i: nat, s: Json, placeholder: string) {
    i < |entries| && CleanUrl(entries, i, placeholder).Some? && s == UrlOnly(CleanUrl(entries, i, placeholder).value)
  }

  lemma ListedGrows(servers: seq<Json>, url: Json)
    ensures Listed(servers + [UrlOnly(url)], url)
  {
    UrlOfUrlOnly(url);
    hide EntryUrl, UrlOnly;
    assert UrlOnly(url) in servers + [UrlOnly(url)];
  }

  lemma ListedStays(before: seq<Json>, servers: seq<Json>, url: Json)
    requires before <= servers && Listed(before, url)
    ensures Listed(servers, url)
  {
    hide SameUrl, EntryUrl;
  }

  lemma SuppliesYields(entries: seq<Json>, i: nat, s: Json, placeholder: string)
    requires Supplies(entries, i, s, placeholder)
    ensures Yields(entries, i, EntryUrl(s), placeholder)
  {
    hide SanitizeField, EntryUrl, UrlOnly;
    UrlOfUrlOnly(CleanUrl(entries, i, placeholder).value);
  }

  lemma YieldsStays(entries: seq<Json>, k: nat, v: Json, w: Json, placeholder: string)
    requires entries != [] && YieldsFirst(entries[..|entries| - 1], k, v, w, placeholder)
    ensures YieldsFirst(entries, k, v, w, placeholder)
  {
    hide SanitizeField, EntryUrl, SameUrl;
    var init := entries[..|entries| - 1];
    forall m: nat | m <= k ensures !Yields(entries, m, w, placeholder) {
      assert !Yields(init, m, w, placeholder);
    }
  }

  /** A URL not listed yet was yielded by no entry so far. */
  lemma Unlisted(init: seq<Json>, before: seq<Json>, url: Json, k: nat, placeholder: string)
    requires AllClean(init, placeholder) && !Listed(before, url) && k < |init|
    requires forall i :: 0 <= i < |init| ==> Listed(before, CleanUrl(init, i, placeholder).value)
    ensures forall m: nat :: m <= k ==> !Yields(init, m, url, placeholder)
  {
    hide SanitizeField, EntryUrl;
    forall m: nat | m <= k ensures !Yields(init, m, url, placeholder) {
      assert Listed(before, CleanUrl(init, m, placeholder).value);
    }
  }

  /** An entry the sweep does not leave as it was. */
  predicate Changes(entries: seq<Json>, i: nat, placeholder: string) {
    && i < |entries| && CleanUrl(entries, i, placeholder).Some?
    && entries[i] != UrlOnly(CleanUrl(entries, i, placeholder).value)
  }

  function Labels(places: seq<nat>): seq<string> {
    seq(|places|, i requires 0 <= i < |places| => ServerLabel(places[i]))
  }

  predicate Increasing(places: seq<nat>) {
    forall i, j :: 0 <= i < j < |places| ==> places[i] < places[j]
  }

  /** The labels are those of the entries that change, in order. */
  ghost predicate LabelsChanges(touched: seq<string>, entries: seq<Json>, placeholder: string) {
    exists places: seq<nat> ::
      && Increasing(places) && touched == Labels(places)
      && forall i: nat :: i in places <==> Changes(entries, i, placeholder)
  }

  lemma {:induction false} SweptLabels(entries: seq<Json>, placeholder: string)
    requires Sweep(entries, placeholder).Some?
    ensures LabelsChanges(Sweep(entries, placeholder).value.touched, entries, placeholder)
  {
    hide SanitizeField, EntryUrl, UrlOnly, ServerLabel, Listed;
    if entries == [] {
      assert Labels([]) == [] && Increasing([]);
      assert forall i: nat :: i in [] <==> Changes(entries, i, placeholder);
    } else {
      var n := |entries| - 1;
      var init := entries[..n];
      SweptLabels(init, placeholder);
      var before: seq<nat> :| Increasing(before) && Sweep(init, placeholder).value.touched == Labels(before)
        && forall i: nat :: i in before <==> Changes(init, i, placeholder);
      assert forall i: nat :: i < n ==> (Changes(init, i, placeholder) <==> Changes(entries, i, placeholder));
      var places := if Changes(entries, n, placeholder) then before + [n] else before;
      assert Labels(before + [n]) == Labels(before) + [ServerLabel(n)];
      assert Increasing(places) by {
        forall i | 0 <= i < |before| ensures before[i] < n {
          assert before[i] in before && Changes(init, before[i], placeholder);
        }
      }
      assert Sweep(entries, placeholder).value.touched == Labels(places);
      forall i: nat ensures i in places <==> Changes(entries, i, placeholder) {
        assert i in before <==> Changes(init, i, placeholder);
      }
    }
  }

  /** Labels of different places differ. */
  lemma LabelInjective(i: nat, j: nat)
    requires ServerLabel(i) == ServerLabel(j)
    ensures i == j
  {
    hide Decimal;
    var a, b := ServerLabel(i), ServerLabel(j);
    assert a == "servers[" + (Decimal(i) + "]") && b == "servers[" + (Decimal(j) + "]");
    assert a[8..|a| - 1] == Decimal(i) && b[8..|b| - 1] == Decimal(j);
    DecimalInjective(i, j);
  }

  /** The field's name, if its value changed. */
  function Reported(before: seq<Member>, after: seq<Member>, key: string): seq<string> {
    if key in KeySet(before) && key in KeySet(after) && At(after, key) != At(before, key) then [key] else []
  }

  /** Where the specification cannot be sanitized: a server's URL or a textual base path cannot be split. */
  predicate Unsplittable(spec: seq<Member>, placeholder: string) {
    || (HasList(spec, "servers") && !AllClean(At(spec, "servers").items, placeholder))
    || (HasText(spec, "basePath") && SanitizeUrl(At(spec, "basePath").s, placeholder).None?)
  }

  /** A list of servers is swept, a textual base path has its host swapped, a textual host is the placeholder. */
  predicate FieldsAre(spec: seq<Member>, doc: seq<Member>, placeholder: string)
    requires !Unsplittable(spec, placeholder) && KeySet(doc) == KeySet(spec)
  {
    && (HasList(spec, "servers") ==>
          At(doc, "servers") == Arr(SweptOf(At(spec, "servers").items, placeholder).servers))
    && (HasText(spec, "basePath") ==>
          At(doc, "basePath") == Str(SanitizeUrl(At(spec, "basePath").s, placeholder).value))
    && (HasText(spec, "host") ==> At(doc, "host") == Str(placeholder))
    && (forall k <- KeySet(spec) :: Kept(spec, k) ==> At(doc, k) == At(spec, k))
  }

  /** A field that is not one of the three, or not of the kind that names a deployment. */
  predicate Kept(spec: seq<Member>, k: string) {
    && (k == "servers" ==> !HasList(spec, k))
    && (k == "basePath" || k == "host" ==> !HasText(spec, k))
  }

  function SweptOf(entries: seq<Json>, placeholder: string): Swept
    requires AllClean(entries, placeholder)
  {
    SweepsIff(entries, placeholder);
    Sweep(entries, placeholder).value
  }

  /**
   * The whole outcome: refused exactly where a URL cannot be split; else the three fields are as they
   * should be, everything else is as it was, and the report names the servers and fields that changed.
   */
  lemma SanitizedFieldsAre(spec: seq<Member>, placeholder: string)
    requires UniqueKeys(spec)
    ensures SanitizeSpec(spec, placeholder).None? <==> Unsplittable(spec, placeholder)
    ensures SanitizeSpec(spec, placeholder).Some? ==>
      var r := SanitizeSpec(spec, placeholder).value;
      && KeySet(r.doc) == KeySet(spec) && FieldsAre(spec, r.doc, placeholder)
      && exists labels ::
        && r.touched == labels + Reported(spec, r.doc, "basePath") + Reported(spec, r.doc, "host")
        && LabelsChanges(labels, if HasList(spec, "servers") then At(spec, "servers").items else [], placeholder)
  {
    hide Sweep, SanitizeUrl, SetMember, AllClean, LabelsChanges, KeySet, At, IndexOf;
    ServersField(spec, placeholder);
    if SanitizeServers(spec, placeholder).Some? {
      var a := SanitizeServers(spec, placeholder).value;
      BasePathField(a.doc, placeholder);
      if SanitizeBasePath(a.doc, placeholder).Some? {
        var b := SanitizeBasePath(a.doc, placeholder).value;
        HostField(b.doc, placeholder);
        var r := SanitizeSpec(spec, placeholder).value;
        assert r.touched == a.touched + Reported(spec, r.doc, "basePath") + Reported(spec, r.doc, "host");
      }
    }
  }

  lemma ServersField(ms: seq<Member>, placeholder: string)
    requires UniqueKeys(ms)
    ensures SanitizeServers(ms, placeholder).None? <==>
      HasList(ms, "servers") && !AllClean(At(ms, "servers").items, placeholder)
    ensures SanitizeServers(ms, placeholder).Some? ==>
      var r := SanitizeServers(ms, placeholder).value;
      && OnlyAt(ms, r.doc, "servers")
      && (if HasList(ms, "servers") then
            && AllClean(At(ms, "servers").items, placeholder)
            && At(r.doc, "servers") == Arr(SweptOf(At(ms, "servers").items, placeholder).servers)
          else r.doc == ms)
      && LabelsChanges(r.touched, if HasList(ms, "servers") then At(ms, "servers").items else [], placeholder)
  {
    hide Sweep, SetMember, AllClean, LabelsChanges;
    var items := if HasList(ms, "servers") then At(ms, "servers").items else [];
    SweepsIff(items, placeholder);
    if HasList(ms, "servers") {
      if AllClean(items, placeholder) {
        SetMemberSpec(ms, "servers", Arr(Sweep(items, placeholder).value.servers));
        SweptLabels(items, placeholder);
      }
    } else {
      NothingSwept(placeholder);
    }
  }

  lemma NothingSwept(placeholder: string)
    ensures LabelsChanges([], [], placeholder)
  {
    SweptLabels([], placeholder);
  }

  lemma BasePathField(ms: seq<Member>, placeholder: string)
    requires UniqueKeys(ms)
    ensures SanitizeBasePath(ms, placeholder).None? <==>
      HasText(ms, "basePath") && SanitizeUrl(At(ms, "basePath").s, placeholder).None?
    ensures SanitizeBasePath(ms, placeholder).Some? ==>
      var r := SanitizeBasePath(ms, placeholder).value;
      && OnlyAt(ms, r.doc, "basePath") && r.touched == Reported(ms, r.doc, "basePath")
      && (if HasText(ms, "basePath") then
            At(r.doc, "basePath") == Str(SanitizeUrl(At(ms, "basePath").s, placeholder).value)
          else r.doc == ms)
  {
    hide SanitizeUrl, SetMember;
    if HasText(ms, "basePath") && SanitizeUrl(At(ms, "basePath").s, placeholder).Some? {
      SetMemberSpec(ms, "basePath", Str(SanitizeUrl(At(ms, "basePath").s, placeholder).value));
    }
  }

  lemma HostField(ms: seq<Member>, placeholder: string)
    requires UniqueKeys(ms)
    ensures var r := SanitizeHost(ms, placeholder);
      && OnlyAt(ms, r.doc, "host") && r.touched == Reported(ms, r.doc, "host")
      && (if HasText(ms, "host") then At(r.doc, "host") == Str(placeholder) else r.doc == ms)
  {
    hide SetMember;
    if HasText(ms, "host") {
      SetMemberSpec(ms, "host", Str(placeholder));
    }
  }
}
