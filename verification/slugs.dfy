/** Module names of operations: short, legal, and one per operation. */
module Slugs {
  import opened Text
  import opened Naming

  /** An operation of the specification; `key` is its identity there. */
  datatype Operation = Operation(isAppliance: bool, verb: string, path: string, key: string)

  const SLUG_BUDGET: nat := 55

  const DIGEST_LENGTH: nat := 6

  // ----- the natural slug -----

  /** A segment that is one path parameter: braces around at least one character, no line break. */
  predicate IsPlaceholder(segment: string) {
    |segment| >= 3 && segment[0] == '{' && segment[|segment| - 1] == '}' && '\n' !in segment[1..|segment| - 1]
  }

  function SegmentPart(segment: string): string {
    if IsPlaceholder(segment) then "by_" + SnakeCase(segment[1..|segment| - 1]) else SnakeCase(segment)
  }

  function PathParts(segments: seq<string>): seq<string> {
    if segments == [] then []
    else (if segments[0] == "" then [] else [SegmentPart(segments[0])]) + PathParts(segments[1..])
  }

  function NonEmpty(parts: seq<string>): seq<string> {
    if parts == [] then []
    else (if parts[0] == "" then [] else [parts[0]]) + NonEmpty(parts[1..])
  }

  function Scope(o: Operation): string { if o.isAppliance then "appliance" else "orchestrator" }

  function SlugFor(o: Operation): string {
    Join("_", NonEmpty([Scope(o), Lower(o.verb)] + PathParts(Split(Strip(o.path, '/'), '/'))))
  }

  // ----- the slug in use -----

  /** How many operations claim a slug. */
  function Claims(slug: string, universe: seq<Operation>): nat {
    if universe == [] then 0
    else (if SlugFor(universe[0]) == slug then 1 else 0) + Claims(slug, universe[1..])
  }

  predicate Ambiguous(slug: string, universe: seq<Operation>) { Claims(slug, universe) > 1 }

  /** `s.rfind(c)`, or -1. */
  function LastIndex(s: string, c: char): (i: int)
    ensures -1 <= i < |s|
    ensures i >= 0 ==> s[i] == c
    ensures forall j :: i < j < |s| ==> s[j] != c
  {
    if s == "" then -1
    else if s[|s| - 1] == c then |s| - 1
    else LastIndex(s[..|s| - 1], c)
  }

  /** The longest a name may be and still take an underscore and a digest. */
  const HEAD_BUDGET: nat := SLUG_BUDGET - DIGEST_LENGTH - 1

  /** What is left of an overlong name before its digest: cut, then trimmed back to an underscore. */
  function Head(name: string): string
    requires |name| >= HEAD_BUDGET
  {
    var head := RStrip(name[..HEAD_BUDGET], '_');
    if LastIndex(head, '_') >= 0 then head[..LastIndex(head, '_')] else head
  }

  function Shorten(name: string, digest: string): string {
    if |name| <= SLUG_BUDGET then name else Head(name) + "_" + digest
  }

  /** The module name of one operation of the universe; `digest` gives the first six hex digits. */
  function UniqueSlug(o: Operation, universe: seq<Operation>, digest: string -> string): string {
    var slug := SlugFor(o);
    Shorten(if Ambiguous(slug, universe) then slug + "_" + digest(o.key) else slug, digest(o.key))
  }

  // ----- length -----

  lemma {:induction false} RStripShorter(s: string, c: char)
    ensures RStrip(s, c) <= s
    ensures s != "" && s[0] != c ==> RStrip(s, c) != "" && RStrip(s, c)[0] == s[0]
  {
    if s != "" && s[|s| - 1] == c { RStripShorter(s[..|s| - 1], c); }
  }

  /** Every module name fits the budget. */
  lemma SlugFits(o: Operation, universe: seq<Operation>, digest: string -> string)
    requires |digest(o.key)| == DIGEST_LENGTH
    ensures |UniqueSlug(o, universe, digest)| <= SLUG_BUDGET
  {
    var slug := SlugFor(o);
    var name := if Ambiguous(slug, universe) then slug + "_" + digest(o.key) else slug;
    if |name| > SLUG_BUDGET { RStripShorter(name[..HEAD_BUDGET], '_'); }
  }

  // ----- one module per operation -----

  /** The name carries the operation's digest: its slug is contested, or too long. */
  predicate Tagged(o: Operation, universe: seq<Operation>) {
    Ambiguous(SlugFor(o), universe) || |SlugFor(o)| > SLUG_BUDGET
  }

  predicate EndsWith(s: string, tail: string) { |s| >= |tail| && s[|s| - |tail|..] == tail }

  lemma {:induction false} ClaimsTwo(slug: string, universe: seq<Operation>, i: nat, j: nat)
    requires i < j < |universe| && SlugFor(universe[i]) == slug && SlugFor(universe[j]) == slug
    ensures Ambiguous(slug, universe)
  {
    hide SlugFor;
    if i == 0 { ClaimsOne(slug, universe[1..], j - 1); } else { ClaimsTwo(slug, universe[1..], i - 1, j - 1); }
  }

  lemma {:induction false} ClaimsOne(slug: string, universe: seq<Operation>, i: nat)
    requires i < |universe| && SlugFor(universe[i]) == slug
    ensures Claims(slug, universe) >= 1
  {
    hide SlugFor;
    if i > 0 { ClaimsOne(slug, universe[1..], i - 1); }
  }

  /** What a tagged operation keeps of its natural slug. */
  function Kept(slug: string): string { if |slug| > HEAD_BUDGET then Head(slug) else slug }

  /** A tagged operation's module name, from its natural slug and its digest. */
  lemma TaggedIs(o: Operation, universe: seq<Operation>, digest: string -> string)
    requires Tagged(o, universe) && |digest(o.key)| == DIGEST_LENGTH
    ensures UniqueSlug(o, universe, digest) == Kept(SlugFor(o)) + "_" + digest(o.key)
  {
    var slug, tag := SlugFor(o), digest(o.key);
    hide SlugFor, Ambiguous;
    var tagged := slug + "_" + tag;
    if Ambiguous(slug, universe) && |slug| > HEAD_BUDGET {
      assert tagged[..HEAD_BUDGET] == slug[..HEAD_BUDGET];
    }
  }

  lemma UntaggedIsNatural(o: Operation, universe: seq<Operation>, digest: string -> string)
    requires !Tagged(o, universe)
    ensures UniqueSlug(o, universe, digest) == SlugFor(o)
  {
    hide SlugFor, Ambiguous, Head;
  }

  /** No operation that keeps its natural slug has one ending in another operation's digest. */
  predicate NoMimic(universe: seq<Operation>, digest: string -> string) {
    forall i, j :: 0 <= i < |universe| && 0 <= j < |universe| && i != j && !Tagged(universe[i], universe)
      ==> !EndsWith(SlugFor(universe[i]), "_" + digest(universe[j].key))
  }

  predicate DistinctDigests(universe: seq<Operation>, digest: string -> string) {
    && (forall o <- universe :: |digest(o.key)| == DIGEST_LENGTH)
    && forall i, j :: 0 <= i < j < |universe| ==> digest(universe[i].key) != digest(universe[j].key)
  }

  predicate PairwiseDistinct(universe: seq<Operation>, digest: string -> string) {
    forall i, j :: 0 <= i < j < |universe| ==>
      UniqueSlug(universe[i], universe, digest) != UniqueSlug(universe[j], universe, digest)
  }

  /** No natural slug kept as it is spells what another one keeps, an underscore and its digest. */
  predicate NoneSpelled(universe: seq<Operation>, digest: string -> string) {
    forall i, j :: 0 <= i < |universe| && 0 <= j < |universe|
      && !Tagged(universe[i], universe) && Tagged(universe[j], universe)
      ==> SlugFor(universe[i]) != Kept(SlugFor(universe[j])) + "_" + digest(universe[j].key)
  }

  /** No two tagged operations keep the same text and have the same digest. */
  predicate TagsApart(universe: seq<Operation>, digest: string -> string) {
    forall i, j :: 0 <= i < j < |universe| && Tagged(universe[i], universe) && Tagged(universe[j], universe)
      ==> Kept(SlugFor(universe[i])) != Kept(SlugFor(universe[j])) || digest(universe[i].key) != digest(universe[j].key)
  }

  predicate SixDigits(universe: seq<Operation>, digest: string -> string) {
    forall o <- universe :: |digest(o.key)| == DIGEST_LENGTH
  }

  /** The module name by cases: the natural slug, or what is kept of it with the digest. */
  lemma SlugByCase(universe: seq<Operation>, digest: string -> string, i: nat)
    requires SixDigits(universe, digest) && i < |universe|
    ensures UniqueSlug(universe[i], universe, digest) ==
      if Tagged(universe[i], universe) then Kept(SlugFor(universe[i])) + "_" + digest(universe[i].key)
      else SlugFor(universe[i])
  {
    hide SlugFor, UniqueSlug, Tagged, Kept;
    assert universe[i] in universe;
    if Tagged(universe[i], universe) {
      TaggedIs(universe[i], universe, digest);
    } else {
      UntaggedIsNatural(universe[i], universe, digest);
    }
  }

  lemma TaggedParts(a: string, b: string, d: string, e: string)
    requires |d| == |e|
    ensures a + "_" + d == b + "_" + e <==> a == b && d == e
  {
    if a + "_" + d == b + "_" + e {
      var s := a + "_" + d;
      assert s[..|a|] == a && s[|a| + 1..] == d && s[..|b|] == b && s[|b| + 1..] == e;
    }
  }

  /**
   * Every operation has a module of its own iff no kept slug spells a tagged one, and no two tagged ones
   * keep the same text under one digest: tests on natural slugs and digests alone.
   */
  lemma SlugsDistinctIff(universe: seq<Operation>, digest: string -> string)
    requires SixDigits(universe, digest)
    ensures PairwiseDistinct(universe, digest) <==> NoneSpelled(universe, digest) && TagsApart(universe, digest)
  {
    hide SlugFor, UniqueSlug, Tagged, Kept;
    forall i | 0 <= i < |universe|
      ensures UniqueSlug(universe[i], universe, digest) ==
        if Tagged(universe[i], universe) then Kept(SlugFor(universe[i])) + "_" + digest(universe[i].key)
        else SlugFor(universe[i])
    {
      SlugByCase(universe, digest, i);
    }
    forall i, j | 0 <= i < j < |universe|
      ensures UniqueSlug(universe[i], universe, digest) == UniqueSlug(universe[j], universe, digest) <==>
        SameSlug(universe, digest, i, j)
    {
      PairSame(universe, digest, i, j);
    }
  }

  predicate SameSlug(universe: seq<Operation>, digest: string -> string, i: nat, j: nat)
    requires i < |universe| && j < |universe|
  {
    var a, b := universe[i], universe[j];
    if Tagged(a, universe) then
      if Tagged(b, universe) then Kept(SlugFor(a)) == Kept(SlugFor(b)) && digest(a.key) == digest(b.key)
      else SlugFor(b) == Kept(SlugFor(a)) + "_" + digest(a.key)
    else Tagged(b, universe) && SlugFor(a) == Kept(SlugFor(b)) + "_" + digest(b.key)
  }

  lemma PairSame(universe: seq<Operation>, digest: string -> string, i: nat, j: nat)
    requires SixDigits(universe, digest) && i < j < |universe|
    ensures UniqueSlug(universe[i], universe, digest) == UniqueSlug(universe[j], universe, digest)
      <==> SameSlug(universe, digest, i, j)
  {
    hide SlugFor, UniqueSlug, Tagged, Kept;
    var a, b := universe[i], universe[j];
    assert a in universe && b in universe;
    SlugByCase(universe, digest, i);
    SlugByCase(universe, digest, j);
    TaggedParts(Kept(SlugFor(a)), Kept(SlugFor(b)), digest(a.key), digest(b.key));
    if !Tagged(a, universe) && !Tagged(b, universe) { NaturalsDiffer(universe, i, j); }
  }

  /** With distinct digests it is enough that no kept slug ends in another operation's digest. */
  lemma SlugsDistinct(universe: seq<Operation>, digest: string -> string)
    requires DistinctDigests(universe, digest) && NoMimic(universe, digest)
    ensures PairwiseDistinct(universe, digest)
  {
    hide SlugFor, UniqueSlug, Tagged, EndsWith, PairwiseDistinct, Kept;
    forall i, j | 0 <= i < |universe| && 0 <= j < |universe|
      && !Tagged(universe[i], universe) && Tagged(universe[j], universe)
      ensures SlugFor(universe[i]) != Kept(SlugFor(universe[j])) + "_" + digest(universe[j].key)
    {
      assert i != j && universe[j] in universe;
      EndsTagged(Kept(SlugFor(universe[j])), digest(universe[j].key));
    }
    SlugsDistinctIff(universe, digest);
  }

  lemma EndsTagged(head: string, tag: string)
    ensures EndsWith(head + "_" + tag, "_" + tag)
  {
    assert head + "_" + tag == head + ("_" + tag);
  }

  lemma NaturalsDiffer(universe: seq<Operation>, i: nat, j: nat)
    requires i < j < |universe| && !Tagged(universe[i], universe)
    ensures SlugFor(universe[i]) != SlugFor(universe[j])
  {
    hide SlugFor, Ambiguous;
    if SlugFor(universe[i]) == SlugFor(universe[j]) { ClaimsTwo(SlugFor(universe[i]), universe, i, j); }
  }

  /** An operation's name takes its digest iff another operation has its natural slug, or that is too long. */
  lemma TaggedIff(universe: seq<Operation>, i: nat)
    requires i < |universe|
    ensures Tagged(universe[i], universe) <==>
      || |SlugFor(universe[i])| > SLUG_BUDGET
      || exists j :: 0 <= j < |universe| && j != i && SlugFor(universe[j]) == SlugFor(universe[i])
  {
    var slug := SlugFor(universe[i]);
    hide SlugFor;
    if j :| 0 <= j < |universe| && j != i && SlugFor(universe[j]) == slug {
      if i < j { ClaimsTwo(slug, universe, i, j); } else { ClaimsTwo(slug, universe, j, i); }
    }
    if Ambiguous(slug, universe) { TwoClaim(slug, universe, i); }
  }

  lemma {:induction false} SomeClaim(slug: string, universe: seq<Operation>)
    requires Claims(slug, universe) >= 1
    ensures exists j :: 0 <= j < |universe| && SlugFor(universe[j]) == slug
  {
    hide SlugFor;
    if SlugFor(universe[0]) != slug {
      SomeClaim(slug, universe[1..]);
      var j :| 0 <= j < |universe[1..]| && SlugFor(universe[1..][j]) == slug;
      assert universe[j + 1] == universe[1..][j];
    }
  }

  lemma {:induction false} TwoClaim(slug: string, universe: seq<Operation>, i: nat)
    requires Claims(slug, universe) >= 2 && i < |universe|
    ensures exists j :: 0 <= j < |universe| && j != i && SlugFor(universe[j]) == slug
  {
    hide SlugFor;
    var rest := universe[1..];
    if i == 0 {
      SomeClaim(slug, rest);
      var j :| 0 <= j < |rest| && SlugFor(rest[j]) == slug;
      assert universe[j + 1] == rest[j];
    } else if SlugFor(universe[0]) != slug {
      TwoClaim(slug, rest, i - 1);
      var j :| 0 <= j < |rest| && j != i - 1 && SlugFor(rest[j]) == slug;
      assert universe[j + 1] == rest[j];
    }
  }

  /** A run of underscores. */
  predicate Underscores(s: string) { forall c <- s :: c == '_' }

  lemma {:induction false} RStripRest(s: string)
    ensures RStrip(s, '_') <= s && Underscores(s[|RStrip(s, '_')|..])
    ensures RStrip(s, '_') != "" ==> RStrip(s, '_')[|RStrip(s, '_')| - 1] != '_'
  {
    if s != "" && s[|s| - 1] == '_' {
      RStripRest(s[..|s| - 1]);
      assert s == s[..|s| - 1] + "_";
    }
  }

  /** The cut is the head, an underscore, one word and underscores, or a head of one word and underscores. */
  predicate Drops(cut: string, head: string, word: string, tail: string) {
    && '_' !in word && Underscores(tail)
    && if word == "" then '_' !in head && cut == head + tail else cut == head + "_" + word + tail
  }

  /** What shortening drops of the cut name: its last word and the underscores around it, if it has two words. */
  lemma HeadDropsOneWord(name: string)
    requires |name| >= HEAD_BUDGET
    ensures Head(name) <= name[..HEAD_BUDGET]
    ensures exists word, tail :: Drops(name[..HEAD_BUDGET], Head(name), word, tail)
  {
    var cut := name[..HEAD_BUDGET];
    RStripRest(cut);
    var head, tail := RStrip(cut, '_'), cut[|RStrip(cut, '_')|..];
    assert cut == head + tail;
    var i := LastIndex(head, '_');
    if i >= 0 {
      var word := head[i + 1..];
      assert head == head[..i] + "_" + word && '_' !in word && word != "";
      assert Drops(cut, Head(name), word, tail);
    } else {
      assert Drops(cut, Head(name), "", tail);
    }
  }

  // ----- legality -----

  /** Lowercase letters, digits and underscores after a first letter, with an underscore among them. */
  predicate ModuleName(s: string) {
    s != "" && IsLower(s[0]) && AllSnake(s) && '_' in s && !IsKeyword(s)
  }

  lemma UnderscoredNotKeyword(s: string)
    requires s != "" && IsLower(s[0]) && '_' in s
    ensures !IsKeyword(s)
  {
  }

  lemma {:induction false} SegmentPartsAreSnake(segments: seq<string>)
    ensures forall p <- PathParts(segments) :: AllSnake(p)
  {
    hide SnakeCase, IsPlaceholder;
    if segments != [] {
      SegmentPartsAreSnake(segments[1..]);
      SegmentIsSnake(segments[0]);
    }
  }

  lemma SegmentIsSnake(segment: string)
    ensures AllSnake(SegmentPart(segment))
  {
    hide SnakeCase, IsPlaceholder;
    SnakeCaseCanonical(segment);
    if IsPlaceholder(segment) { SnakeCaseCanonical(PlaceholderName(segment)); }
  }

  function PlaceholderName(segment: string): string
    requires IsPlaceholder(segment)
  {
    segment[1..|segment| - 1]
  }

  lemma {:induction false} JoinIsSnake(parts: seq<string>)
    requires forall p <- parts :: AllSnake(p)
    ensures AllSnake(Join("_", parts))
  {
    if |parts| > 1 {
      assert parts[0] in parts && forall p <- parts[1..] :: p in parts;
      JoinIsSnake(parts[1..]);
    } else if |parts| == 1 {
      assert parts[0] in parts;
    }
  }

  lemma {:induction false} NonEmptyParts(parts: seq<string>)
    ensures forall p <- NonEmpty(parts) :: p in parts && p != ""
  {
    if parts != [] { NonEmptyParts(parts[1..]); }
  }

  /** A verb as HTTP has them: at least one letter, all of them letters. */
  predicate IsVerb(verb: string) { verb != "" && forall c <- verb :: IsUpper(c) || IsLower(c) }

  lemma VerbIsSnake(verb: string)
    requires IsVerb(verb)
    ensures Lower(verb) != "" && AllSnake(Lower(verb))
  {
    forall i | 0 <= i < |verb| ensures IsSnake(Lower(verb)[i]) { assert verb[i] in verb; }
  }

  /** A natural slug starts with its scope, an underscore and the verb. */
  lemma NaturalShape(o: Operation)
    requires IsVerb(o.verb)
    ensures AllSnake(SlugFor(o))
    ensures |SlugFor(o)| > |Scope(o)| && Scope(o) + "_" <= SlugFor(o)
  {
    var rest := PathParts(Split(Strip(o.path, '/'), '/'));
    SegmentPartsAreSnake(Split(Strip(o.path, '/'), '/'));
    VerbIsSnake(o.verb);
    hide PathParts, Split, Strip, Lower, AllSnake;
    ScopeIsSnake(o);
    var parts := [Scope(o), Lower(o.verb)] + rest;
    assert parts[1..] == [Lower(o.verb)] + rest && parts[1..][1..] == rest;
    NonEmptyParts(rest);
    assert NonEmpty(parts) == [Scope(o)] + NonEmpty(parts[1..]);
    assert NonEmpty(parts[1..]) == [Lower(o.verb)] + NonEmpty(rest);
    hide NonEmpty, Scope;
    var kept := NonEmpty(parts);
    assert kept[1..] == NonEmpty(parts[1..]);
    assert Join("_", kept) == Scope(o) + "_" + Join("_", kept[1..]);
    JoinIsSnake(kept);
  }

  lemma ScopeIsSnake(o: Operation)
    ensures Scope(o) != "" && IsLower(Scope(o)[0]) && AllSnake(Scope(o)) && |Scope(o)| <= 12
  {
  }

  lemma HeadShape(name: string)
    requires |name| > SLUG_BUDGET && IsLower(name[0]) && AllSnake(name)
    ensures Head(name) != "" && Head(name)[0] == name[0] && AllSnake(Head(name))
  {
    RStripShorter(name[..HEAD_BUDGET], '_');
    hide RStrip;
  }

  /** Every module name is an importable identifier. */
  lemma SlugIsLegal(o: Operation, universe: seq<Operation>, digest: string -> string)
    requires IsVerb(o.verb) && AllSnake(digest(o.key))
    ensures ModuleName(UniqueSlug(o, universe, digest))
  {
    hide SlugFor, Ambiguous, Head, IsKeyword, Scope;
    NaturalShape(o);
    ScopeIsSnake(o);
    var slug, tag := SlugFor(o), digest(o.key);
    assert slug[0] == Scope(o)[0] && slug[|Scope(o)|] == '_';
    var name := if Ambiguous(slug, universe) then slug + "_" + tag else slug;
    assert AllSnake(name) && IsLower(name[0]) && name[|Scope(o)|] == '_';
    if |name| > SLUG_BUDGET {
      HeadShape(name);
      var head := Head(name);
      assert (head + "_" + tag)[|head|] == '_';
    }
    UnderscoredNotKeyword(UniqueSlug(o, universe, digest));
  }

  // ----- the condition is needed -----

  const MIMIC := Operation(true, "GET", "x/abcdef", "k1")
  const PLAIN := Operation(true, "GET", "x", "k2")
  const SLASHED := Operation(true, "GET", "/x", "k3")

  function SampleDigest(key: string): string {
    if key == "k1" then "000000" else if key == "k2" then "abcdef" else "111111"
  }

  lemma {:induction false} NonEmptyKeeps(parts: seq<string>)
    requires "" !in parts
    ensures NonEmpty(parts) == parts
  {
    if parts != [] {
      assert parts[0] in parts && "" !in parts[1..];
      NonEmptyKeeps(parts[1..]);
    }
  }

  lemma Literal(segment: string)
    requires Canonical(segment) && segment != "" && '/' !in segment
    ensures SegmentPart(segment) == segment && Split(segment, '/') == [segment]
  {
    SplitWithout(segment, '/');
    SnakeCaseFixesCanonical(segment);
    hide Split, SnakeCase;
    assert segment[0] in segment;
  }

  lemma SlugOfParts(o: Operation, parts: seq<string>)
    requires o.isAppliance && o.verb == "GET" && PathParts(Split(Strip(o.path, '/'), '/')) == parts && "" !in parts
    ensures SlugFor(o) == Join("_", ["appliance", "get"] + parts)
  {
    hide Split, Strip, PathParts, NonEmpty;
    assert Lower("GET") == "get";
    hide Lower;
    NonEmptyKeeps(["appliance", "get"] + parts);
  }

  lemma SamplePaths()
    ensures Strip(PLAIN.path, '/') == "x" && Strip(SLASHED.path, '/') == "x"
    ensures Strip(MIMIC.path, '/') == "x" + ['/'] + "abcdef"
  {
    assert "/x"[1..] == "x";
  }

  lemma SampleParts()
    ensures PathParts(["x"]) == ["x"] && PathParts(["x"] + ["abcdef"]) == ["x"] + ["abcdef"]
    ensures Split("x", '/') == ["x"] && Split("x" + ['/'] + "abcdef", '/') == ["x"] + ["abcdef"]
  {
    assert Canonical("x") && Canonical("abcdef");
    Literal("x");
    Literal("abcdef");
    SplitAt("x", "abcdef", '/');
    hide Split, Canonical, SegmentPart;
    assert (["x"] + ["abcdef"])[1..] == ["abcdef"];
    assert PathParts(["abcdef"]) == ["abcdef"];
  }

  lemma SampleSlugs()
    ensures SlugFor(PLAIN) == SlugFor(SLASHED) && |SlugFor(PLAIN)| == 15
    ensures SlugFor(MIMIC) == SlugFor(PLAIN) + "_" + "abcdef"
  {
    hide Split, Strip, SlugFor, PathParts, Join;
    SamplePaths();
    SampleParts();
    SlugOfParts(PLAIN, ["x"]);
    SlugOfParts(SLASHED, ["x"]);
    SlugOfParts(MIMIC, ["x"] + ["abcdef"]);
    var shared := ["appliance", "get"] + ["x"];
    Regrouped(["appliance", "get"], ["x"], ["abcdef"]);
    JoinConcat("_", shared, ["abcdef"]);
    SharedLength();
  }

  lemma SharedLength()
    ensures |Join("_", ["appliance", "get"] + ["x"])| == 15
    ensures Join("_", ["abcdef"]) == "abcdef"
  {
    var shared := ["appliance", "get"] + ["x"];
    assert shared[1..] == ["get"] + ["x"] && shared[1..][1..] == ["x"];
    assert |Join("_", ["x"])| == 1;
    assert |Join("_", shared[1..])| == 5;
  }

  /** Distinct digests alone are not enough: a path may end in what another operation's digest is. */
  lemma DigestsCanBeMimicked()
    ensures var universe := [MIMIC, PLAIN, SLASHED];
      DistinctDigests(universe, SampleDigest) && !PairwiseDistinct(universe, SampleDigest)
  {
    var universe := [MIMIC, PLAIN, SLASHED];
    SampleSlugs();
    assert Claims(SlugFor(MIMIC), universe) == 1 by {
      hide SlugFor;
      assert universe[1..] == [PLAIN, SLASHED] && universe[1..][1..] == [SLASHED];
      assert Claims(SlugFor(MIMIC), [SLASHED]) == 0;
      assert Claims(SlugFor(MIMIC), [PLAIN, SLASHED]) == 0;
    }
    hide SlugFor, Claims;
    ClaimsTwo(SlugFor(PLAIN), universe, 1, 2);
    assert UniqueSlug(MIMIC, universe, SampleDigest) == SlugFor(MIMIC);
    assert UniqueSlug(PLAIN, universe, SampleDigest) == SlugFor(PLAIN) + "_" + "abcdef";
    hide UniqueSlug;
    assert universe[0] == MIMIC && universe[1] == PLAIN;
  }

  // ----- the natural slug of a path, segment by segment -----

  datatype Segment = Fixed(text: string) | Placeholder(name: string)

  function Spelled(segment: Segment): string {
    match segment
    case Fixed(text) => text
    case Placeholder(name) => "{" + name + "}"
  }

  function SpelledAll(segments: seq<Segment>): seq<string> {
    seq(|segments|, i requires 0 <= i < |segments| => Spelled(segments[i]))
  }

  /** What a segment contributes: its sanitized text, announced by `by_` where it is a placeholder. */
  function PartOf(segment: Segment): string {
    match segment
    case Fixed(text) => SnakeCase(text)
    case Placeholder(name) => "by_" + SnakeCase(name)
  }

  function PartsOf(segments: seq<Segment>): seq<string> {
    seq(|segments|, i requires 0 <= i < |segments| => PartOf(segments[i]))
  }

  predicate Separable(segment: Segment) {
    && Spelled(segment) != "" && '/' !in Spelled(segment)
    && (segment.Fixed? ==> !IsPlaceholder(segment.text))
    && (segment.Placeholder? ==> segment.name != "" && '\n' !in segment.name)
  }

  lemma SpelledPart(segment: Segment)
    requires Separable(segment)
    ensures SegmentPart(Spelled(segment)) == PartOf(segment)
  {
    hide SnakeCase;
    if segment.Placeholder? {
      var s := Spelled(segment);
      assert s[1..|s| - 1] == segment.name;
    }
  }

  lemma {:induction false} PathPartsAre(segments: seq<Segment>)
    requires forall x <- segments :: Separable(x)
    ensures PathParts(SpelledAll(segments)) == PartsOf(segments)
  {
    hide SegmentPart, PartOf, Spelled;
    if segments != [] {
      assert segments[0] in segments;
      SpelledNotEmpty(segments[0]);
      SpelledPart(segments[0]);
      PathPartsAre(segments[1..]);
      assert SpelledAll(segments)[1..] == SpelledAll(segments[1..]);
      assert PartsOf(segments) == [PartOf(segments[0])] + PartsOf(segments[1..]);
    }
  }

  lemma SpelledNotEmpty(segment: Segment)
    requires Separable(segment)
    ensures Spelled(segment) != "" && '/' !in Spelled(segment)
  {
  }

  lemma {:induction false} JoinEnds(parts: seq<string>, c: char)
    requires parts != [] && forall p <- parts :: p != "" && c !in p
    ensures var j := Join([c], parts); j != "" && j[0] != c && j[|j| - 1] != c
  {
    assert parts[0] in parts;
    assert parts[0][0] in parts[0] && parts[0][|parts[0]| - 1] in parts[0];
    if |parts| > 1 {
      assert forall p <- parts[1..] :: p in parts;
      JoinEnds(parts[1..], c);
    }
  }

  /** A path's slug is scope, verb and one part per segment, joined; parts that sanitize to nothing are left out. */
  lemma SlugOfPath(o: Operation, segments: seq<Segment>)
    requires segments != [] && forall x <- segments :: Separable(x)
    requires o.path == "/" + Join("/", SpelledAll(segments))
    ensures SlugFor(o) == Join("_",
      NonEmpty([if o.isAppliance then "appliance" else "orchestrator", Lower(o.verb)] + PartsOf(segments)))
  {
    var parts := SpelledAll(segments);
    forall p | p in parts ensures p != "" && '/' !in p {
      var i :| 0 <= i < |parts| && parts[i] == p;
      assert segments[i] in segments;
      SpelledNotEmpty(segments[i]);
    }
    var j := Join("/", parts);
    JoinEnds(parts, '/');
    SplitJoin(parts, '/');
    assert o.path[1..] == j;
    assert LStrip(o.path, '/') == j && RStrip(j, '/') == j;
    hide Join, Split, NonEmpty, PathParts, LStrip, RStrip, PartsOf, SpelledAll, Lower;
    PathPartsAre(segments);
  }
}
