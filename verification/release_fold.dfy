/** Folding the releases of a collection into one artifact. */
module ReleaseFold {
  import opened Wrappers

  // ----- the fold over releases -----

  datatype Release<E> = Release(name: string, entries: map<string, E>)

  datatype Folded<E> = Folded(entry: E, since: string, removedAfter: Option<string>)

  /** `first` and `last` are the oldest and the newest of the first `n` releases that carry the key. */
  predicate CarriedBetween<E>(releases: seq<Release<E>>, n: nat, key: string, first: nat, last: nat)
    requires n <= |releases|
  {
    && first <= last < n
    && key in releases[first].entries && key in releases[last].entries
    && (forall i :: 0 <= i < first ==> key !in releases[i].entries)
    && (forall i :: last < i < n ==> key !in releases[i].entries)
  }

  /** The endpoint's payload is the newest release's, its `since` the oldest's. */
  ghost predicate FoldsTo<E>(releases: seq<Release<E>>, n: nat, key: string, f: Folded<E>)
    requires n <= |releases|
  {
    exists first: nat, last: nat :: CarriedBetween(releases, n, key, first, last)
      && f.entry == releases[last].entries[key] && f.since == releases[first].name
  }

  ghost predicate Carried<E>(releases: seq<Release<E>>, n: nat, key: string)
    requires n <= |releases|
  {
    exists i :: 0 <= i < n && key in releases[i].entries
  }

  ghost predicate LastCarrier<E>(releases: seq<Release<E>>, n: nat, key: string, name: string)
    requires n <= |releases|
  {
    exists i :: 0 <= i < n && releases[i].name == name && key in releases[i].entries
      && forall j :: i < j < n ==> key !in releases[j].entries
  }

  ghost predicate FoldedUpTo<E>(releases: seq<Release<E>>, n: nat, endpoints: map<string, Folded<E>>)
    requires n <= |releases|
  {
    && (forall key :: key in endpoints <==> Carried(releases, n, key))
    && (forall key <- endpoints :: FoldsTo(releases, n, key, endpoints[key]) && endpoints[key].removedAfter.None?)
  }

  /** What one release's entry does to an endpoint already folded, or not yet. */
  function Merge<E>(endpoints: map<string, Folded<E>>, release: Release<E>, key: string): Folded<E>
    requires key in release.entries
  {
    Folded(release.entries[key], if key in endpoints then endpoints[key].since else release.name, None)
  }

  lemma FoldStep<E>(releases: seq<Release<E>>, n: nat, before: map<string, Folded<E>>, after: map<string, Folded<E>>)
    requires n < |releases| && FoldedUpTo(releases, n, before)
    requires after.Keys == before.Keys + releases[n].entries.Keys
    requires forall key <- after ::
      after[key] == if key in releases[n].entries then Merge(before, releases[n], key) else before[key]
    ensures FoldedUpTo(releases, n + 1, after)
  {
    hide FoldsTo, Carried;
    forall key ensures key in after <==> Carried(releases, n + 1, key) {
      CarriedStep(releases, n, key);
    }
    forall key | key in after ensures FoldsTo(releases, n + 1, key, after[key]) {
      FoldKey(releases, n, before, key);
    }
  }

  lemma CarriedStep<E>(releases: seq<Release<E>>, n: nat, key: string)
    requires n < |releases|
    ensures Carried(releases, n + 1, key) <==> Carried(releases, n, key) || key in releases[n].entries
  {
  }

  lemma FoldKey<E>(releases: seq<Release<E>>, n: nat, before: map<string, Folded<E>>, key: string)
    requires n < |releases|
    requires key in before <==> Carried(releases, n, key)
    requires key in before ==> FoldsTo(releases, n, key, before[key])
    requires key in before || key in releases[n].entries
    ensures FoldsTo(releases, n + 1, key,
      if key in releases[n].entries then Merge(before, releases[n], key) else before[key])
  {
    if key in before {
      var first: nat, last: nat :| CarriedBetween(releases, n, key, first, last)
        && before[key].entry == releases[last].entries[key] && before[key].since == releases[first].name;
      if key in releases[n].entries {
        assert CarriedBetween(releases, n + 1, key, first, n);
      } else {
        assert CarriedBetween(releases, n + 1, key, first, last);
      }
    } else {
      assert CarriedBetween(releases, n + 1, key, n, n);
    }
  }

  /** The fold of one release into the endpoints gathered so far. */
  method FoldRelease<E>(endpoints: map<string, Folded<E>>, release: Release<E>)
    returns (after: map<string, Folded<E>>)
    ensures after.Keys == endpoints.Keys + release.entries.Keys
    ensures forall key <- after ::
      after[key] == if key in release.entries then Merge(endpoints, release, key) else endpoints[key]
  {
    after := endpoints;
    var todo := release.entries.Keys;
    while todo != {}
      invariant todo <= release.entries.Keys
      invariant after.Keys == endpoints.Keys + (release.entries.Keys - todo)
      invariant forall key <- after ::
        after[key] == if key in release.entries.Keys - todo then Merge(endpoints, release, key) else endpoints[key]
    {
      var key :| key in todo;
      var since := if key in after then after[key].since else release.name;
      after := after[key := Folded(release.entries[key], since, None)];
      todo := todo - {key};
    }
  }

  lemma LastCarrierStep<E>(releases: seq<Release<E>>, n: nat, key: string, name: string)
    requires n < |releases|
    ensures key in releases[n].entries ==> LastCarrier(releases, n + 1, key, releases[n].name)
    ensures key !in releases[n].entries && LastCarrier(releases, n, key, name) ==>
        LastCarrier(releases, n + 1, key, name)
  {
  }

  /** The newest of the releases that carry a key, by name. */
  method LastSeen<E>(releases: seq<Release<E>>) returns (lastSeen: map<string, string>)
    ensures forall key :: key in lastSeen <==> Carried(releases, |releases|, key)
    ensures forall key <- lastSeen :: LastCarrier(releases, |releases|, key, lastSeen[key])
  {
    assert forall key :: !Carried(releases, 0, key);
    hide Carried, LastCarrier;
    lastSeen := map[];
    for n := 0 to |releases|
      invariant forall key :: key in lastSeen <==> Carried(releases, n, key)
      invariant forall key <- lastSeen :: LastCarrier(releases, n, key, lastSeen[key])
    {
      ghost var before := lastSeen;
      var name, keys := releases[n].name, releases[n].entries.Keys;
      lastSeen := map key | key in lastSeen.Keys + keys :: if key in keys then name else lastSeen[key];
      forall key ensures key in lastSeen <==> Carried(releases, n + 1, key) {
        CarriedStep(releases, n, key);
      }
      forall key | key in lastSeen ensures LastCarrier(releases, n + 1, key, lastSeen[key]) {
        LastCarrierStep(releases, n, key, lastSeen[key]);
      }
    }
  }

  ghost predicate DistinctNames<E>(releases: seq<Release<E>>) {
    forall i, j :: 0 <= i < j < |releases| ==> releases[i].name != releases[j].name
  }

  predicate InNewest<E>(releases: seq<Release<E>>, key: string) {
    releases != [] && key in releases[|releases| - 1].entries
  }

  /** Mark every endpoint whose last carrier is not the newest release. */
  method MarkRemoved<E>(folded: map<string, Folded<E>>, lastSeen: map<string, string>, newest: string)
    returns (endpoints: map<string, Folded<E>>)
    requires folded.Keys == lastSeen.Keys
    ensures endpoints.Keys == folded.Keys
    ensures forall key <- endpoints :: lastSeen[key] == newest ==> endpoints[key] == folded[key]
    ensures forall key <- endpoints :: lastSeen[key] != newest ==>
      endpoints[key] == folded[key].(removedAfter := Some(lastSeen[key]))
  {
    endpoints := folded;
    var todo := lastSeen.Keys;
    while todo != {}
      invariant todo <= lastSeen.Keys && endpoints.Keys == folded.Keys
      invariant forall key <- endpoints :: key in todo || lastSeen[key] == newest ==> endpoints[key] == folded[key]
      invariant forall key <- endpoints :: key !in todo && lastSeen[key] != newest ==>
        endpoints[key] == folded[key].(removedAfter := Some(lastSeen[key]))
    {
      var key :| key in todo;
      if lastSeen[key] != newest {
        endpoints := endpoints[key := endpoints[key].(removedAfter := Some(lastSeen[key]))];
      }
      todo := todo - {key};
    }
  }

  /**
   * Ascending releases folded into one artifact: every endpoint any release carries, with the newest
   * payload and the oldest release that had it; one that is gone names the last release that had it.
   */
  method Distil<E>(releases: seq<Release<E>>) returns (endpoints: map<string, Folded<E>>)
    requires DistinctNames(releases)
    ensures forall key :: key in endpoints <==> Carried(releases, |releases|, key)
    ensures forall key <- endpoints :: FoldsTo(releases, |releases|, key, endpoints[key])
    ensures forall key <- endpoints :: (endpoints[key].removedAfter.None? <==> InNewest(releases, key))
    ensures forall key <- endpoints :: endpoints[key].removedAfter.Some? ==>
      LastCarrier(releases, |releases|, key, endpoints[key].removedAfter.value)
  {
    hide Carried, LastCarrier;
    NothingFolded(releases);
    endpoints := map[];
    for n := 0 to |releases|
      invariant FoldedUpTo(releases, n, endpoints)
    {
      var after := FoldRelease(endpoints, releases[n]);
      FoldStep(releases, n, endpoints, after);
      endpoints := after;
    }
    if releases == [] { return; }
    var newest := releases[|releases| - 1].name;
    var lastSeen := LastSeen(releases);
    ghost var folded := endpoints;
    assert folded.Keys == lastSeen.Keys;
    endpoints := MarkRemoved(endpoints, lastSeen, newest);
    forall key | key in endpoints
      ensures FoldsTo(releases, |releases|, key, endpoints[key])
      ensures endpoints[key].removedAfter.None? <==> InNewest(releases, key)
    {
      LastIsNewest(releases, key, lastSeen[key]);
      assert FoldsTo(releases, |releases|, key, folded[key]);
    }
  }

  lemma NothingFolded<E>(releases: seq<Release<E>>)
    ensures FoldedUpTo(releases, 0, map[])
  {
  }

  lemma LastIsNewest<E>(releases: seq<Release<E>>, key: string, name: string)
    requires releases != [] && DistinctNames(releases) && LastCarrier(releases, |releases|, key, name)
    ensures name == releases[|releases| - 1].name <==> key in releases[|releases| - 1].entries
  {
    var i :| 0 <= i < |releases| && releases[i].name == name && key in releases[i].entries
      && forall j :: i < j < |releases| ==> key !in releases[j].entries;
  }

  /** The specification leaves no freedom: two folds of one key agree. */
  lemma FoldUnique<E>(releases: seq<Release<E>>, key: string, f: Folded<E>, g: Folded<E>)
    requires FoldsTo(releases, |releases|, key, f) && FoldsTo(releases, |releases|, key, g)
    ensures f.entry == g.entry && f.since == g.since
  {
    var n := |releases|;
    var a: nat, b: nat :| CarriedBetween(releases, n, key, a, b)
      && f.entry == releases[b].entries[key] && f.since == releases[a].name;
    var c: nat, d: nat :| CarriedBetween(releases, n, key, c, d)
      && g.entry == releases[d].entries[key] && g.since == releases[c].name;
    assert a == c && b == d;
  }
}
