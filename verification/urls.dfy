/** Splitting a URL into its components, and swapping its host for a placeholder. */
module Urls {
  import opened Wrappers
  import opened Text

  datatype UrlParts = UrlParts(scheme: string, netloc: string, path: string, query: string, fragment: string)

  /** Characters a URL loses before it is split: control characters and spaces at the front. */
  function DropLeading(url: string): string {
    if url != "" && url[0] as int <= 32 then DropLeading(url[1..]) else url
  }

  predicate IsUnsafe(c: char) { c == '\t' || c == '\r' || c == '\n' }

  /** Tabs and line breaks are dropped wherever they are. */
  function DropUnsafe(url: string): string {
    if url == "" then ""
    else if IsUnsafe(url[0]) then DropUnsafe(url[1..])
    else [url[0]] + DropUnsafe(url[1..])
  }

  predicate IsSchemeChar(c: char) { IsAlnum(c) || c == '+' || c == '-' || c == '.' }

  predicate IsScheme(s: string) {
    s != "" && (IsUpper(s[0]) || IsLower(s[0])) && forall c <- s :: IsSchemeChar(c)
  }

  /** Everything before the first of the given delimiters. */
  function Until(s: string, delimiters: string): (head: string)
    ensures |head| <= |s| && head == s[..|head|]
    ensures forall c <- head :: c !in delimiters
    ensures |head| < |s| ==> s[|head|] in delimiters
  {
    if s == "" || s[0] in delimiters then "" else [s[0]] + Until(s[1..], delimiters)
  }

  /** Scheme and the rest; without a legal scheme the whole text is the rest. */
  function SplitScheme(url: string): (string, string) {
    var head := Until(url, ":");
    if |head| < |url| && IsScheme(head) then (Lower(head), url[|head| + 1..]) else ("", url)
  }

  /** Brackets in the authority come in pairs or not at all. */
  predicate BracketsMatch(netloc: string) {
    '[' in netloc <==> ']' in netloc
  }

  predicate HasAuthority(rest: string) { |rest| >= 2 && rest[0] == '/' && rest[1] == '/' }

  function Authority(rest: string): string {
    if HasAuthority(rest) then Until(rest[2..], "/?#") else ""
  }

  function AfterAuthority(rest: string): string {
    if HasAuthority(rest) then rest[2 + |Authority(rest)|..] else rest
  }

  /** What precedes the first mark, and what follows it. */
  function SplitMark(s: string, mark: string): (string, string) {
    var head := Until(s, mark);
    (head, if |head| < |s| then s[|head| + 1..] else "")
  }

  /** `urlsplit`: scheme, authority, path, query and fragment, or nothing where it raises. */
  function UrlSplit(url: string): Option<UrlParts> {
    var (scheme, rest) := SplitScheme(DropUnsafe(DropLeading(url)));
    if !BracketsMatch(Authority(rest)) then None
    else
      var (beforeFragment, fragment) := SplitMark(AfterAuthority(rest), "#");
      var (path, query) := SplitMark(beforeFragment, "?");
      Some(UrlParts(scheme, Authority(rest), path, query, fragment))
  }

  // ----- splitting inverts composition, as section 3 of RFC 3986 has it -----

  predicate NoneOf(s: string, delimiters: string) { forall c <- s :: c !in delimiters }

  predicate Clean(s: string) { forall c <- s :: c as int > 32 }

  lemma {:induction false} UntilStops(head: string, tail: string, delimiters: string)
    requires NoneOf(head, delimiters) && (tail == "" || tail[0] in delimiters)
    ensures Until(head + tail, delimiters) == head
  {
    if head == "" {
      assert head + tail == tail;
    } else {
      assert (head + tail)[1..] == head[1..] + tail && (head + tail)[0] == head[0];
      assert head[0] in head && forall c <- head[1..] :: c in head;
      UntilStops(head[1..], tail, delimiters);
    }
  }

  lemma {:induction false} CleanIsKept(url: string)
    requires Clean(url)
    ensures DropLeading(url) == url && DropUnsafe(url) == url
  {
    if url != "" {
      assert url[0] in url && forall c <- url[1..] :: c in url;
      CleanIsKept(url[1..]);
      assert url == [url[0]] + url[1..];
    }
  }

  /** The component grammar of section 3: scheme, authority, path, query, fragment. */
  predicate WellFormed(p: UrlParts) {
    && IsScheme(p.scheme)
    && p.netloc != "" && NoneOf(p.netloc, "/?#") && BracketsMatch(p.netloc)
    && (p.path == "" || p.path[0] == '/') && NoneOf(p.path, "?#")
    && NoneOf(p.query, "#")
    && Clean(p.scheme) && Clean(p.netloc) && Clean(p.path) && Clean(p.query) && Clean(p.fragment)
  }

  function Suffix(mark: string, s: string): string { if s == "" then "" else mark + s }

  function Tail(p: UrlParts): string {
    p.path + (Suffix("?", p.query) + Suffix("#", p.fragment))
  }

  function Compose(p: UrlParts): string {
    p.scheme + (":" + ("//" + (p.netloc + Tail(p))))
  }

  lemma SchemeSplits(scheme: string, rest: string)
    requires IsScheme(scheme)
    ensures SplitScheme(scheme + (":" + rest)) == (Lower(scheme), rest)
  {
    UntilStops(scheme, ":" + rest, ":");
    assert (scheme + (":" + rest))[|scheme| + 1..] == rest;
  }

  lemma MarkSplits(head: string, mark: char, tail: string)
    requires NoneOf(head, [mark])
    ensures SplitMark(head + Suffix([mark], tail), [mark]) == (head, tail)
  {
    UntilStops(head, Suffix([mark], tail), [mark]);
    if tail != "" {
      assert (head + ([mark] + tail))[|head| + 1..] == tail;
    }
  }

  lemma TailSplits(path: string, query: string, fragment: string)
    requires NoneOf(path, "?#") && NoneOf(query, "#")
    ensures SplitMark(path + (Suffix("?", query) + Suffix("#", fragment)), "#") == (path + Suffix("?", query), fragment)
    ensures SplitMark(path + Suffix("?", query), "?") == (path, query)
  {
    var beforeFragment := path + Suffix("?", query);
    assert path + (Suffix("?", query) + Suffix("#", fragment)) == beforeFragment + Suffix("#", fragment);
    assert NoneOf(beforeFragment, "#") && NoneOf(path, "?");
    hide NoneOf, Suffix, SplitMark;
    MarkSplits(beforeFragment, '#', fragment);
    MarkSplits(path, '?', query);
  }

  lemma CleanConcat(a: string, b: string)
    requires Clean(a) && Clean(b)
    ensures Clean(a + b)
  {
  }

  lemma ComposedIsClean(p: UrlParts)
    requires WellFormed(p)
    ensures Clean(Compose(p))
  {
    hide IsScheme, BracketsMatch, NoneOf;
    assert Clean(":") && Clean("//") && Clean("?") && Clean("#");
    assert Clean(Suffix("?", p.query)) && Clean(Suffix("#", p.fragment));
    hide Clean, Suffix;
    CleanConcat(Suffix("?", p.query), Suffix("#", p.fragment));
    CleanConcat(p.path, Suffix("?", p.query) + Suffix("#", p.fragment));
    CleanConcat(p.netloc, Tail(p));
    CleanConcat("//", p.netloc + Tail(p));
    CleanConcat(":", "//" + (p.netloc + Tail(p)));
    CleanConcat(p.scheme, ":" + ("//" + (p.netloc + Tail(p))));
  }

  lemma AuthoritySplits(netloc: string, tail: string)
    requires NoneOf(netloc, "/?#") && (tail == "" || tail[0] in "/?#")
    ensures Authority("//" + (netloc + tail)) == netloc
    ensures AfterAuthority("//" + (netloc + tail)) == tail
  {
    UntilStops(netloc, tail, "/?#");
    var rest := "//" + (netloc + tail);
    assert rest[2..] == netloc + tail && rest[2 + |netloc|..] == tail;
  }

  lemma TailStarts(p: UrlParts)
    requires WellFormed(p)
    ensures Tail(p) == "" || Tail(p)[0] in "/?#"
  {
    hide NoneOf, Clean, IsScheme, BracketsMatch;
  }

  /** Splitting a composed URL gives its components back, the scheme case-folded. */
  lemma SplitInvertsCompose(p: UrlParts)
    requires WellFormed(p)
    ensures UrlSplit(Compose(p)) == Some(p.(scheme := Lower(p.scheme)))
  {
    hide Until, DropLeading, DropUnsafe, SplitScheme, SplitMark, Authority, AfterAuthority, IsScheme, NoneOf, Clean,
      Lower;
    hide Suffix;
    ComposedIsClean(p);
    CleanIsKept(Compose(p));
    SchemeSplits(p.scheme, "//" + (p.netloc + Tail(p)));
    TailStarts(p);
    AuthoritySplits(p.netloc, Tail(p));
    TailSplits(p.path, p.query, p.fragment);
  }

  // ----- swapping the host -----

  /** The URL with the placeholder for a host, or as it is when it names no host; nothing on a raise. */
  function SanitizeUrl(url: string, placeholder: string): Option<string> {
    match UrlSplit(url)
    case None => None
    case Some(parts) =>
      Some(if parts.netloc == "" then url else "https://" + placeholder + parts.path)
  }

  /** A host name as the placeholders are: plain, and no delimiter in it. */
  predicate PlainHost(host: string) {
    host != "" && NoneOf(host, "/?#[]") && Clean(host)
  }

  lemma {:induction false} DropUnsafeIsSafe(url: string)
    ensures forall c <- DropUnsafe(url) :: !IsUnsafe(c)
    ensures forall c <- DropUnsafe(url) :: c in url
  {
    if url != "" {
      DropUnsafeIsSafe(url[1..]);
    }
  }

  predicate SafePath(path: string) {
    (path == "" || path[0] == '/') && NoneOf(path, "?#") && forall c <- path :: !IsUnsafe(c)
  }

  predicate Safe(s: string) { forall c <- s :: !IsUnsafe(c) }

  lemma SchemeKeepsSafe(url: string)
    requires Safe(url)
    ensures Safe(SplitScheme(url).1)
  {
  }

  lemma AuthorityLeavesPath(rest: string)
    requires Safe(rest) && Authority(rest) != ""
    ensures Safe(AfterAuthority(rest)) && (AfterAuthority(rest) == "" || AfterAuthority(rest)[0] in "/?#")
  {
    var netloc := Until(rest[2..], "/?#");
    assert rest[2 + |netloc|..] == rest[2..][|netloc|..];
  }

  lemma PathOfTail(tail: string)
    requires Safe(tail) && (tail == "" || tail[0] in "/?#")
    ensures SafePath(SplitMark(SplitMark(tail, "#").0, "?").0)
  {
    var beforeFragment := Until(tail, "#");
    var path := Until(beforeFragment, "?");
    assert path == beforeFragment[..|path|] && beforeFragment == tail[..|beforeFragment|];
    assert forall c <- path :: c in beforeFragment && c in tail;
    if path != "" {
      assert path[0] == tail[0] && path[0] in path;
    }
  }

  /** The path of a URL with a host is empty or absolute, and free of delimiters and line breaks. */
  lemma HostedPath(url: string)
    requires UrlSplit(url).Some? && UrlSplit(url).value.netloc != ""
    ensures SafePath(UrlSplit(url).value.path)
  {
    hide Until, DropLeading, DropUnsafe, SplitScheme, SplitMark, Authority, AfterAuthority, SafePath, BracketsMatch;
    var cleaned := DropUnsafe(DropLeading(url));
    DropUnsafeIsSafe(DropLeading(url));
    SchemeKeepsSafe(cleaned);
    var rest := SplitScheme(cleaned).1;
    AuthorityLeavesPath(rest);
    PathOfTail(AfterAuthority(rest));
  }

  lemma SpelledOut(placeholder: string, path: string)
    ensures "https://" + placeholder + path == "https" + (":" + ("//" + (placeholder + path)))
  {
    assert "https://" == "https" + (":" + "//");
  }

  lemma HttpsScheme()
    ensures IsScheme("https") && Lower("https") == "https"
  {
  }

  /** A sanitized URL splits into https, the placeholder and the same path. */
  lemma SanitizedSplits(placeholder: string, path: string)
    requires PlainHost(placeholder) && SafePath(path)
    ensures UrlSplit("https://" + placeholder + path) == Some(UrlParts("https", placeholder, path, "", ""))
  {
    SpelledOut(placeholder, path);
    SafeKept(placeholder, path);
    HttpsScheme();
    assert NoneOf(placeholder, "/?#") && BracketsMatch(placeholder);
    assert path == "" || path[0] in "/?#";
    assert path + (Suffix("?", "") + Suffix("#", "")) == path && path + Suffix("?", "") == path;
    assert NoneOf("", "#");
    hide Until, DropLeading, DropUnsafe, SplitScheme, SplitMark, Authority, AfterAuthority, BracketsMatch, Lower,
      IsScheme;
    hide NoneOf, Suffix;
    SchemeSplits("https", "//" + (placeholder + path));
    AuthoritySplits(placeholder, path);
    TailSplits(path, "", "");
  }

  lemma {:induction false} SafeIsKept(url: string)
    requires forall c <- url :: !IsUnsafe(c)
    ensures DropUnsafe(url) == url
  {
    if url != "" {
      assert url[0] in url && forall c <- url[1..] :: c in url;
      SafeIsKept(url[1..]);
      assert url == [url[0]] + url[1..];
    }
  }

  lemma SafeKept(placeholder: string, path: string)
    requires PlainHost(placeholder) && SafePath(path)
    ensures var url := "https" + (":" + ("//" + (placeholder + path)));
      DropUnsafe(DropLeading(url)) == url
  {
    var url := "https" + (":" + ("//" + (placeholder + path)));
    assert url[0] == 'h';
    forall c | c in url ensures !IsUnsafe(c) {
    }
    SafeIsKept(url);
  }

  /** Sanitizing twice is sanitizing once. */
  lemma SanitizeUrlIdempotent(url: string, placeholder: string)
    requires PlainHost(placeholder) && SanitizeUrl(url, placeholder).Some?
    ensures var once := SanitizeUrl(url, placeholder).value; SanitizeUrl(once, placeholder) == Some(once)
  {
    var parts := UrlSplit(url).value;
    if parts.netloc != "" {
      HostedPath(url);
      SanitizedSplits(placeholder, parts.path);
    }
  }

  /** Two deployments of one API sanitize to one URL: scheme, host, query and fragment leave no trace. */
  lemma SanitizeUrlHostBlind(a: UrlParts, b: UrlParts, placeholder: string)
    requires WellFormed(a) && WellFormed(b) && a.path == b.path
    ensures SanitizeUrl(Compose(a), placeholder) == SanitizeUrl(Compose(b), placeholder)
    ensures SanitizeUrl(Compose(a), placeholder) == Some("https://" + placeholder + a.path)
  {
    SplitInvertsCompose(a);
    SplitInvertsCompose(b);
    hide UrlSplit, Compose;
  }

  // ----- URLs that name no host -----

  /** A reference without scheme and authority: an absolute path, or none, and what may follow it. */
  predicate Hostless(path: string, query: string, fragment: string) {
    && (path == "" || (path[0] == '/' && !HasAuthority(path)))
    && NoneOf(path, "?#") && NoneOf(query, "#") && Clean(path) && Clean(query) && Clean(fragment)
  }

  lemma NoSchemeBefore(url: string)
    requires url != "" && url[0] in "/?#"
    ensures !IsScheme(Until(url, ":"))
  {
    var head := Until(url, ":");
    assert head != "" ==> head[0] == url[0];
  }

  lemma HostlessFirst(path: string, query: string, fragment: string)
    requires path == "" || path[0] == '/'
    ensures var url := path + (Suffix("?", query) + Suffix("#", fragment));
      url != "" ==> url[0] in "/?#"
  {
    var tail := Suffix("?", query) + Suffix("#", fragment);
    assert path == "" ==> path + tail == tail;
    assert query == "" ==> tail == Suffix("#", fragment);
    assert query != "" ==> tail[0] == '?';
  }

  lemma HostlessStart(path: string, query: string, fragment: string)
    requires Hostless(path, query, fragment)
    ensures var url := path + (Suffix("?", query) + Suffix("#", fragment));
      SplitScheme(url) == ("", url) && !HasAuthority(url) && Clean(url)
  {
    var tail := Suffix("?", query) + Suffix("#", fragment);
    var url := path + tail;
    if url != "" {
      HostlessFirst(path, query, fragment);
      NoSchemeBefore(url);
    }
    CleanConcat(Suffix("?", query), Suffix("#", fragment)) by {
      assert Clean("?") && Clean("#");
    }
    if |url| >= 2 && |path| == 1 { assert url[1] == tail[0]; }
  }

  /** Such a URL splits into its own parts, and sanitizing leaves it as it is. */
  lemma HostlessIsKept(path: string, query: string, fragment: string, placeholder: string)
    requires Hostless(path, query, fragment)
    ensures var url := path + (Suffix("?", query) + Suffix("#", fragment));
      && UrlSplit(url) == Some(UrlParts("", "", path, query, fragment))
      && SanitizeUrl(url, placeholder) == Some(url)
  {
    var url := path + (Suffix("?", query) + Suffix("#", fragment));
    HostlessStart(path, query, fragment);
    CleanIsKept(url);
    assert BracketsMatch("");
    hide Until, DropLeading, DropUnsafe, SplitScheme, SplitMark, IsScheme, NoneOf, Clean, Suffix, HasAuthority;
    TailSplits(path, query, fragment);
  }

  /** A URL with a host is changed to https, the placeholder and its path; any other is left as it is. */
  lemma SanitizeUrlByHost(url: string, placeholder: string)
    requires UrlSplit(url).Some?
    ensures UrlSplit(url).value.netloc == "" ==> SanitizeUrl(url, placeholder) == Some(url)
    ensures PlainHost(placeholder) && UrlSplit(url).value.netloc != "" ==>
      UrlSplit(SanitizeUrl(url, placeholder).value)
        == Some(UrlParts("https", placeholder, UrlSplit(url).value.path, "", ""))
  {
    hide UrlSplit, SafePath, PlainHost;
    if PlainHost(placeholder) && UrlSplit(url).value.netloc != "" {
      HostedPath(url);
      SanitizedSplits(placeholder, UrlSplit(url).value.path);
    }
  }
}
