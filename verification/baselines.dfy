/** The directory of vendored specifications, which keeps one baseline per target. */
module Baselines {
  import opened Wrappers
  import opened Text
  import opened JsonValues
  import opened Sanitizing

  type Doc = seq<Member>

  type Files = map<string, Doc>

  const JSON_SUFFIX := ".json"

  function Prefix(target: Target): string { TargetName(target) + "-openapi-" }

  /** The names the pattern `<target>-openapi-*.json` finds. */
  predicate IsBaseline(name: string, target: Target) {
    && |name| >= |Prefix(target)| + |JSON_SUFFIX|
    && name[..|Prefix(target)|] == Prefix(target)
    && name[|name| - |JSON_SUFFIX|..] == JSON_SUFFIX
  }

  function Matches(files: Files, target: Target): set<string> {
    set n | n in files && IsBaseline(n, target)
  }

  /** No name is a baseline of both targets. */
  lemma TargetsApart(name: string)
    ensures !(IsBaseline(name, Orchestrator) && IsBaseline(name, Appliance))
  {
    assert Prefix(Orchestrator)[0] == 'o' && Prefix(Appliance)[0] == 'a';
    if IsBaseline(name, Orchestrator) { assert name[0] == 'o'; }
    if IsBaseline(name, Appliance) { assert name[0] == 'a'; }
  }

  // ----- what a baseline is called -----

  predicate IsSlugChar(c: char) { IsAlnum(c) || c == '.' || c == '_' || c == '-' }

  function Slug(version: string): (slug: string)
    ensures |slug| == |version| && forall c <- slug :: IsSlugChar(c)
  {
    seq(|version|, i requires 0 <= i < |version| => if IsSlugChar(version[i]) then version[i] else '_')
  }

  /** `str(info.get("version", ""))` or "unknown", where `render` is Python's `str`. */
  function Version(fetched: Doc, render: Json -> string): (v: string)
    ensures v != ""
  {
    var info := if "info" in KeySet(fetched) then At(fetched, "info") else Null;
    var text := if info.Obj? then render(if HasKey(info, "version") then
        At(info.members, "version") else Str("")) else "";
    if text == "" then "unknown" else text
  }

  function DestName(fetched: Doc, target: Target, render: Json -> string): string {
    Prefix(target) + Slug(Version(fetched, render)) + JSON_SUFFIX
  }

  predicate AllSlugChars(s: string) { forall c <- s :: IsSlugChar(c) }

  lemma FixedPartsAreSlugs(target: Target)
    ensures AllSlugChars(Prefix(target)) && AllSlugChars(JSON_SUFFIX)
  {
    assert AllSlugChars("orchestrator") && AllSlugChars("appliance") && AllSlugChars("-openapi-");
    hide IsSlugChar;
    forall c | c in Prefix(target) ensures IsSlugChar(c) {
      assert c in TargetName(target) || c in "-openapi-";
    }
  }

  lemma WrappedName(prefix: string, slug: string, suffix: string)
    ensures var name := prefix + slug + suffix;
      |name| == |prefix| + |slug| + |suffix| && name[..|prefix|] == prefix && name[|name| - |suffix|..] == suffix
    ensures AllSlugChars(prefix) && AllSlugChars(slug) && AllSlugChars(suffix) ==> AllSlugChars(prefix + slug + suffix)
  {
    hide IsSlugChar;
  }

  lemma SlugCharsSeparateNothing(s: string)
    requires AllSlugChars(s)
    ensures '/' !in s && '\\' !in s
  {
  }

  /** A written baseline is found again, and it lies directly in the directory. */
  lemma DestIsBaseline(fetched: Doc, target: Target, render: Json -> string)
    ensures IsBaseline(DestName(fetched, target, render), target)
    ensures '/' !in DestName(fetched, target, render) && '\\' !in DestName(fetched, target, render)
  {
    hide Prefix, Version, JSON_SUFFIX, IsSlugChar;
    FixedPartsAreSlugs(target);
    WrappedName(Prefix(target), Slug(Version(fetched, render)), JSON_SUFFIX);
    SlugCharsSeparateNothing(DestName(fetched, target, render));
  }

  // ----- one update -----

  datatype Update = Update(target: Target, fetched: Doc)

  datatype SyncError = BadUrl | SeveralBaselines(names: set<string>)

  function SanitizedDoc(u: Update): Option<Doc> {
    match SanitizeSpec(u.fetched, Placeholder(u.target))
    case None => None
    case Some(s) => Some(s.doc)
  }

  /** After an update the target has the written baseline and no other; a refused one changes nothing. */
  function Updated(files: Files, u: Update, render: Json -> string): Files {
    if SanitizedDoc(u).None? || |Matches(files, u.target)| > 1 then files
    else (files - Matches(files, u.target))[DestName(u.fetched, u.target, render) := SanitizedDoc(u).value]
  }

  lemma SubsingletonIs<T>(s: set<T>, x: T)
    requires |s| <= 1 && x in s
    ensures s == {x}
  {
    assert |s - {x}| == |s| - 1;
    assert s - {x} == {};
  }

  class BaselineDir {
    var files: Files

    constructor (files: Files)
      ensures this.files == files
    {
      this.files := files;
    }

    /** The target's baseline, if it has one; an error where it has several. */
    method FindBaseline(target: Target) returns (r: Result<Option<string>, SyncError>)
      ensures r.Failure? <==> |Matches(files, target)| > 1
      ensures r.Failure? ==> r.error == SeveralBaselines(Matches(files, target))
      ensures r.Success? && r.value.Some? ==> Matches(files, target) == {r.value.value}
      ensures r.Success? && r.value.None? ==> Matches(files, target) == {}
    {
      var matches := set n | n in files && IsBaseline(n, target);
      if |matches| > 1 { return Failure(SeveralBaselines(matches)); }
      if matches == {} { return Success(None); }
      var name :| name in matches;
      SubsingletonIs(matches, name);
      return Success(Some(name));
    }

    /** Sanitize, write under the version's name, and drop the baseline this one supersedes. */
    method WriteBaseline(fetched: Doc, target: Target, render: Json -> string) returns (r: Result<string, SyncError>)
      requires UniqueKeys(fetched)
      modifies this
      ensures files == Updated(old(files), Update(target, fetched), render)
      ensures r.Success? <==> SanitizedDoc(Update(target, fetched)).Some? && |Matches(old(files), target)| <= 1
      ensures r.Success? ==> r.value == DestName(fetched, target, render) && Matches(files, target) == {r.value}
    {
      hide SanitizeSpec, DestName, IsBaseline, Placeholder;
      var sanitized := Sanitize(fetched, target);
      if sanitized.None? { return Failure(BadUrl); }
      var previous := FindBaseline(target);
      if previous.Failure? { return Failure(previous.error); }
      var dest := DestName(fetched, target, render);
      DestIsBaseline(fetched, target, render);
      files := files[dest := sanitized.value.doc];
      if previous.value.Some? && previous.value.value != dest {
        files := files - {previous.value.value};
      }
      return Success(dest);
    }
  }

  // ----- every run of updates -----

  /** The files a target's baselines are, by name. */
  function Baseline(files: Files, target: Target): Files {
    map n | n in files && IsBaseline(n, target) :: files[n]
  }

  function Run(files: Files, updates: seq<Update>, render: Json -> string): Files {
    if updates == [] then files
    else Updated(Run(files, updates[..|updates| - 1], render), updates[|updates| - 1], render)
  }

  /** The last update of a target that a URL did not stop. */
  function LastGood(updates: seq<Update>, target: Target): Option<Update> {
    if updates == [] then None
    else
      var last := updates[|updates| - 1];
      if last.target == target && SanitizedDoc(last).Some? then Some(last)
      else LastGood(updates[..|updates| - 1], target)
  }

  lemma MatchesOfBaseline(files: Files, target: Target)
    ensures Matches(files, target) == Baseline(files, target).Keys
  {
  }

  /** Updating one target leaves the other's baselines, and every unrelated file, as they were. */
  lemma UpdateKeepsOthers(files: Files, u: Update, render: Json -> string)
    ensures forall t :: t != u.target ==> Baseline(Updated(files, u, render), t) == Baseline(files, t)
    ensures forall n :: !IsBaseline(n, u.target) ==>
      (n in files <==> n in Updated(files, u, render)) && (n in files ==> Updated(files, u, render)[n] == files[n])
  {
    hide IsBaseline, DestName, SanitizedDoc;
    DestIsBaseline(u.fetched, u.target, render);
    forall t | t != u.target ensures Baseline(Updated(files, u, render), t) == Baseline(files, t) {
      forall n | IsBaseline(n, t) ensures !IsBaseline(n, u.target) { TargetsApart(n); }
    }
  }

  lemma UpdateReplaces(files: Files, u: Update, render: Json -> string)
    requires |Baseline(files, u.target).Keys| <= 1 && SanitizedDoc(u).Some?
    ensures Baseline(Updated(files, u, render), u.target) ==
        map[DestName(u.fetched, u.target, render) := SanitizedDoc(u).value]
  {
    hide IsBaseline, DestName, SanitizedDoc;
    MatchesOfBaseline(files, u.target);
    DestIsBaseline(u.fetched, u.target, render);
  }

  lemma UpdateRefused(files: Files, u: Update, render: Json -> string)
    requires |Baseline(files, u.target).Keys| > 1 || SanitizedDoc(u).None?
    ensures Updated(files, u, render) == files
  {
    MatchesOfBaseline(files, u.target);
  }

  /** What a run leaves of a target: nothing changed, or exactly its last good update. */
  function Outcome(before: Files, last: Option<Update>, render: Json -> string): Files {
    if last.None? || |before.Keys| > 1 || SanitizedDoc(last.value).None? then before
    else map[DestName(last.value.fetched, last.value.target, render) := SanitizedDoc(last.value).value]
  }

  /**
   * Every run, from every directory: a target's baselines afterwards are its sanitized last good
   * update under that update's name, or what they were, if no update of it was good or there were
   * several baselines to begin with.  Updates of the other target have no say.
   */
  lemma {:induction false} RunOutcome(files: Files, updates: seq<Update>, target: Target, render: Json -> string)
    ensures Baseline(Run(files, updates, render), target) ==
        Outcome(Baseline(files, target), LastGood(updates, target), render)
    ensures LastGood(updates, target).Some? ==>
      LastGood(updates, target).value.target == target && SanitizedDoc(LastGood(updates, target).value).Some?
  {
    hide SanitizedDoc, DestName, IsBaseline, Updated, Baseline;
    if updates != [] {
      var last := updates[|updates| - 1];
      var before := Run(files, updates[..|updates| - 1], render);
      RunOutcome(files, updates[..|updates| - 1], target, render);
      if last.target != target {
        UpdateKeepsOthers(before, last, render);
      } else if |Baseline(before, target).Keys| > 1 || SanitizedDoc(last).None? {
        UpdateRefused(before, last, render);
      } else {
        UpdateReplaces(before, last, render);
      }
    }
  }

  /** A run that had a good update of a target leaves exactly one baseline iff it began with at most one. */
  lemma ExactlyOneIff(files: Files, updates: seq<Update>, target: Target, render: Json -> string)
    requires LastGood(updates, target).Some?
    ensures |Matches(Run(files, updates, render), target)| == 1 <==> |Matches(files, target)| <= 1
  {
    hide Run, LastGood, Matches, Baseline, SanitizedDoc, DestName;
    RunOutcome(files, updates, target, render);
    MatchesOfBaseline(files, target);
    MatchesOfBaseline(Run(files, updates, render), target);
    var u := LastGood(updates, target).value;
    var dest := DestName(u.fetched, u.target, render);
    assert (map[dest := SanitizedDoc(u).value]).Keys == {dest};
  }

  /** A run never has more than one baseline of a target unless it began with more. */
  lemma AtMostOneKept(files: Files, updates: seq<Update>, target: Target, render: Json -> string)
    requires |Matches(files, target)| <= 1
    ensures |Matches(Run(files, updates, render), target)| <= 1
  {
    hide Run, Matches, Baseline, SanitizedDoc, DestName;
    RunOutcome(files, updates, target, render);
    MatchesOfBaseline(files, target);
    MatchesOfBaseline(Run(files, updates, render), target);
    if LastGood(updates, target).Some? {
      var u := LastGood(updates, target).value;
      var dest := DestName(u.fetched, u.target, render);
      assert (map[dest := SanitizedDoc(u).value]).Keys == {dest};
    }
  }

  /** A write whose superseded baseline was not removed: what an interruption between the two leaves. */
  function Interrupted(files: Files, u: Update, render: Json -> string): Files
    requires SanitizedDoc(u).Some?
  {
    files[DestName(u.fetched, u.target, render) := SanitizedDoc(u).value]
  }

  /** Interrupted between writing and removing, the target is stuck: no later run of updates changes it. */
  lemma InterruptionSticks(files: Files, u: Update, updates: seq<Update>, render: Json -> string)
    requires SanitizedDoc(u).Some? && Matches(files, u.target) != {}
    requires DestName(u.fetched, u.target, render) !in Matches(files, u.target)
    ensures Baseline(Run(Interrupted(files, u, render), updates, render), u.target)
      == Baseline(Interrupted(files, u, render), u.target)
    ensures |Matches(Run(Interrupted(files, u, render), updates, render), u.target)| >= 2
  {
    hide Run, IsBaseline, SanitizedDoc, DestName;
    var after := Interrupted(files, u, render);
    var dest := DestName(u.fetched, u.target, render);
    DestIsBaseline(u.fetched, u.target, render);
    assert Matches(after, u.target) == Matches(files, u.target) + {dest};
    RunOutcome(after, updates, u.target, render);
    MatchesOfBaseline(after, u.target);
    MatchesOfBaseline(Run(after, updates, render), u.target);
  }

  // ----- what a written baseline is called -----

  /** Characters a file name keeps are kept, and every other one becomes an underscore. */
  lemma SlugKeeps(version: string)
    ensures forall i :: 0 <= i < |version| ==>
      Slug(version)[i] == if IsSlugChar(version[i]) then version[i] else '_'
    ensures (forall c <- version :: IsSlugChar(c)) ==> Slug(version) == version
  {
  }

  /** The document's `info` has the version v, and v does not render as nothing. */
  predicate Publishes(fetched: Doc, info: Json, v: Json, render: Json -> string) {
    Member("info", info) in fetched && info.Obj? && UniqueKeys(info.members)
    && Member("version", v) in info.members && render(v) != ""
  }

  /** The version is the rendered `info.version`, or "unknown" where that is missing or empty. */
  lemma VersionIs(fetched: Doc, render: Json -> string)
    requires UniqueKeys(fetched)
    ensures forall info, v :: Publishes(fetched, info, v, render) ==> Version(fetched, render) == render(v)
    ensures "info" !in KeySet(fetched) || !At(fetched, "info").Obj? ==> Version(fetched, render) == "unknown"
  {
    forall info, v | Publishes(fetched, info, v, render)
      ensures Version(fetched, render) == render(v)
    {
      MemberAt(fetched, Member("info", info));
      MemberAt(info.members, Member("version", v));
    }
  }

  lemma MemberAt(ms: seq<Member>, m: Member)
    requires UniqueKeys(ms) && m in ms
    ensures m.key in KeySet(ms) && At(ms, m.key) == m.value
  {
    var i :| 0 <= i < |ms| && ms[i] == m;
    AtIndex(ms, i);
  }

  /** The two targets' file names and placeholders, spelled out. */
  lemma NamesSpelledOut(fetched: Doc, render: Json -> string)
    ensures DestName(fetched, Orchestrator, render) ==
        "orchestrator-openapi-" + Slug(Version(fetched, render)) + ".json"
    ensures DestName(fetched, Appliance, render) == "appliance-openapi-" + Slug(Version(fetched, render)) + ".json"
    ensures Placeholder(Orchestrator) == "orchestrator.example.com" && Placeholder(Appliance) == "appliance.example.com"
  {
    assert "orchestrator" + "-openapi-" == "orchestrator-openapi-" && "appliance" + "-openapi-" == "appliance-openapi-";
    assert "orchestrator" + ".example.com" == "orchestrator.example.com";
    assert "appliance" + ".example.com" == "appliance.example.com";
    hide Slug, Version;
  }
}
