/** What sanitizing a name means: its words, lowercased and joined by underscores. */
module SnakeWords {
  import opened Text
  import opened Naming

  // ----- the words of a name -----

  /** A new word starts at the second character: a capital after a small letter or digit, or before a small letter. */
  predicate BreaksAfterFirst(s: string) {
    && |s| >= 2 && IsUpper(s[1])
    && (IsLower(s[0]) || IsDigit(s[0]) || (|s| >= 3 && IsLower(s[2])))
  }

  /** Runs of letters and digits, cut where a capital starts a new word. */
  function Words(name: string): (words: seq<string>)
    ensures forall w <- words :: w != ""
    ensures name != "" && IsAlnum(name[0]) ==> words != []
  {
    if name == "" then []
    else if !IsAlnum(name[0]) then Words(name[1..])
    else
      var rest := Words(name[1..]);
      assert rest != [] ==> forall w <- rest[1..] :: w in rest;
      if |name| == 1 || !IsAlnum(name[1]) || BreaksAfterFirst(name) then [[name[0]]] + rest
      else [[name[0]] + rest[0]] + rest[1..]
  }

  function LowerAll(words: seq<string>): seq<string> {
    seq(|words|, i requires 0 <= i < |words| => Lower(words[i]))
  }

  // ----- the two boundary passes -----

  /** An underscore before every character that starts a new word. */
  function Broken(s: string): string {
    if s == "" then ""
    else [s[0]] + (if BreaksAfterFirst(s) then "_" else "") + Broken(s[1..])
  }

  lemma {:induction false} CapitalPasses(s: string)
    requires s != "" && IsUpper(s[0])
    ensures BreakCamel(s) == [s[0]] + BreakCamel(s[1..])
  {
  }

  predicate CamelBreak(s: string) { |s| >= 2 && (IsLower(s[0]) || IsDigit(s[0])) && IsUpper(s[1]) }

  lemma {:induction false} CamelUnfolds(s: string)
    requires s != ""
    ensures CamelBreak(s) ==> BreakCamel(s) == [s[0]] + "_" + [s[1]] + BreakCamel(s[2..])
    ensures !CamelBreak(s) ==> BreakCamel(s) == [s[0]] + BreakCamel(s[1..])
  {
  }

  /** The second pass looks at one character and the next, whatever it consumes. */
  lemma {:induction false} CamelStep(s: string)
    requires s != ""
    ensures BreakCamel(s) == [s[0]] + (if CamelBreak(s) then "_" else "") + BreakCamel(s[1..])
  {
    hide BreakCamel;
    CamelUnfolds(s);
    if CamelBreak(s) {
      CapitalPasses(s[1..]);
      assert s[1..][1..] == s[2..];
      var after := BreakCamel(s[2..]);
      assert [s[0]] + "_" + [s[1]] + after == [s[0]] + "_" + ([s[1]] + after);
    } else {
      assert [s[0]] + "" == [s[0]];
    }
  }

  /** A capital and the small letters after it stay together, whatever follows them. */
  lemma {:induction false} WordKept(s: string, n: nat, t: string)
    requires 2 <= n <= |s| && IsUpper(s[0]) && forall i :: 1 <= i < n ==> IsLower(s[i])
    ensures BreakCamel(s[..n] + t) == s[..n] + (if t != "" && IsUpper(t[0]) then "_" else "") + BreakCamel(t)
  {
    var x := s[..n] + t;
    CamelStep(x);
    hide BreakCamel;
    LowersKept(s[1..], n - 1, t);
    var tail := s[1..][..n - 1];
    assert s[..n] == [s[0]] + tail;
    assert x == [s[0]] + (tail + t) && x[1..] == tail + t && x[1] == s[1];
  }

  lemma {:induction false} LowersKept(s: string, n: nat, t: string)
    requires 1 <= n <= |s| && forall i :: 0 <= i < n ==> IsLower(s[i])
    ensures BreakCamel(s[..n] + t) == s[..n] + (if t != "" && IsUpper(t[0]) then "_" else "") + BreakCamel(t)
  {
    var x := s[..n] + t;
    CamelStep(x);
    hide BreakCamel;
    if n == 1 {
      assert x[1..] == t;
    } else {
      LowersKept(s[1..], n - 1, t);
      var tail := s[1..][..n - 1];
      assert s[..n] == [s[0]] + tail;
      assert x == [s[0]] + (tail + t) && x[1..] == tail + t && x[1] == s[1];
    }
  }

  lemma {:induction false} RunIsLower(s: string)
    ensures forall i :: 0 <= i < LowerRun(s) ==> IsLower(s[i])
    ensures LowerRun(s) < |s| ==> !IsLower(s[LowerRun(s)])
  {
    if s != "" && IsLower(s[0]) { RunIsLower(s[1..]); }
  }

  lemma {:induction false} BrokenRun(s: string, n: nat)
    requires 1 <= n <= |s| && (forall i :: 1 <= i < n ==> IsLower(s[i]))
    requires n < |s| && IsUpper(s[n]) ==> IsLower(s[n - 1])
    ensures Broken(s) == s[..n] + (if n < |s| && IsUpper(s[n]) then "_" else "") + Broken(s[n..])
  {
    BrokenUnfolds(s);
    hide Broken;
    if n == 1 {
      assert s[..1] == [s[0]];
    } else {
      BrokenRun(s[1..], n - 1);
      assert s[1..][n - 1..] == s[n..] && s[..n] == [s[0]] + s[1..][..n - 1];
      assert !BreaksAfterFirst(s);
    }
  }

  lemma {:induction false} FirstKept(s: string)
    ensures s != "" ==> BreakBeforeWord(s) != "" && BreakBeforeWord(s)[0] == s[0]
  {
  }

  /** The two regular expressions, each greedy and never overlapping, together break before every new word. */
  lemma {:induction false} PassesBreak(s: string)
    ensures BreakCamel(BreakBeforeWord(s)) == Broken(s)
    decreases |s|
  {
    if s != "" {
      if |s| >= 3 && IsUpper(s[1]) && IsLower(s[2]) {
        WordBreaks(s);
      } else {
        PassesBreak(s[1..]);
        OneKept(s);
      }
    }
  }

  lemma {:induction false} OneKept(s: string)
    requires s != "" && !(|s| >= 3 && IsUpper(s[1]) && IsLower(s[2]))
    requires BreakCamel(BreakBeforeWord(s[1..])) == Broken(s[1..])
    ensures BreakCamel(BreakBeforeWord(s)) == Broken(s)
  {
    var rest := BreakBeforeWord(s[1..]);
    FirstKept(s[1..]);
    var t := [s[0]] + rest;
    assert BreakBeforeWord(s) == t;
    hide BreakBeforeWord, BreakCamel;
    CamelStep(t);
    assert t[1..] == rest;
    if rest != "" { assert t[1] == s[1]; }
  }

  lemma {:induction false} FirstWordUnfolds(s: string)
    requires |s| >= 3 && IsUpper(s[1]) && IsLower(s[2])
    ensures var end := 2 + LowerRun(s[2..]);
      BreakBeforeWord(s) == [s[0]] + "_" + s[1..end] + BreakBeforeWord(s[end..])
  {
    hide IsUpper, IsLower, LowerRun;
  }

  lemma {:induction false} Regrouped4(a: string, b: string, c: string, d: string)
    ensures a + b + c + d == a + (b + (c + d))
  {
  }

  lemma {:induction false} BreakFirstWord(s: string, end: nat)
    requires |s| >= 3 && IsUpper(s[1]) && IsLower(s[2]) && end == 2 + LowerRun(s[2..])
    ensures end <= |s| && BreakBeforeWord(s) == [s[0]] + ("_" + (s[1..end] + BreakBeforeWord(s[end..])))
  {
    hide BreakBeforeWord, LowerRun, IsUpper, IsLower;
    FirstWordUnfolds(s);
    Regrouped4([s[0]], "_", s[1..end], BreakBeforeWord(s[end..]));
  }

  lemma {:induction false} FirstWordEnds(s: string, end: nat)
    requires |s| >= 3 && IsUpper(s[1]) && IsLower(s[2]) && end == 2 + LowerRun(s[2..])
    ensures 3 <= end <= |s| && forall i :: 2 <= i < end ==> IsLower(s[i])
  {
    RunIsLower(s[2..]);
    forall i | 2 <= i < end ensures IsLower(s[i]) { assert s[2..][i - 2] == s[i]; }
  }

  /** A character that is no part of the word before it, an underscore, and what follows. */
  lemma {:induction false} CamelAfterUnderscore(c: char, tail: string)
    ensures BreakCamel([c] + ("_" + tail)) == [c] + ("_" + BreakCamel(tail))
  {
    var t := "_" + tail;
    CamelStep([c] + t);
    CamelStep(t);
    hide BreakCamel;
    assert ([c] + t)[1..] == t && t[1..] == tail && t[0] == '_';
  }

  lemma {:induction false} WordBreaks(s: string)
    requires |s| >= 3 && IsUpper(s[1]) && IsLower(s[2])
    ensures BreakCamel(BreakBeforeWord(s)) == Broken(s)
    decreases |s|, 0
  {
    var end := 2 + LowerRun(s[2..]);
    FirstWordEnds(s, end);
    BreakFirstWord(s, end);
    PassesBreak(s[end..]);
    FirstKept(s[end..]);
    var rest, word := BreakBeforeWord(s[end..]), s[1..end];
    hide BreakBeforeWord, BreakCamel, LowerRun;
    CamelAfterUnderscore(s[0], word + rest);
    TailBroken(s, end);
    HeadBroken(s);
    assert word == s[1..][..end - 1];
    forall i | 1 <= i < end - 1 ensures IsLower(s[1..][i]) { assert s[1..][i] == s[i + 1]; }
    WordKept(s[1..], end - 1, rest);
    hide Broken, IsUpper, IsLower;
    var mark := if rest != "" && IsUpper(rest[0]) then "_" else "";
    assert BreakCamel(word + rest) == word + mark + Broken(s[end..]);
  }

  lemma {:induction false} TailBroken(s: string, end: nat)
    requires 3 <= end <= |s| && IsUpper(s[1]) && forall i :: 2 <= i < end ==> IsLower(s[i])
    ensures Broken(s[1..]) == s[1..end] + (if end < |s| && IsUpper(s[end]) then "_" else "") + Broken(s[end..])
  {
    hide Broken;
    forall i | 1 <= i < end - 1 ensures IsLower(s[1..][i]) { assert s[1..][i] == s[i + 1]; }
    BrokenRun(s[1..], end - 1);
    assert s[1..][end - 1..] == s[end..] && s[1..][..end - 1] == s[1..end];
  }

  lemma {:induction false} HeadBroken(s: string)
    requires |s| >= 3 && IsUpper(s[1]) && IsLower(s[2])
    ensures Broken(s) == [s[0]] + ("_" + Broken(s[1..]))
  {
    hide Broken;
    BrokenUnfolds(s);
    Regrouped3([s[0]], "_", Broken(s[1..]));
  }

  lemma {:induction false} Regrouped3(a: string, b: string, c: string)
    ensures a + b + c == a + (b + c)
  {
  }

  lemma {:induction false} BrokenUnfolds(s: string)
    requires s != ""
    ensures Broken(s) == [s[0]] + (if BreaksAfterFirst(s) then "_" else "") + Broken(s[1..])
  {
  }

  // ----- collapsing and stripping -----

  /** The runs between underscores. */
  function Runs(t: string): (runs: seq<string>)
    ensures forall r <- runs :: r != ""
    ensures t != "" && t[0] != '_' ==> runs != []
  {
    if t == "" then []
    else if t[0] == '_' then Runs(t[1..])
    else
      var rest := Runs(t[1..]);
      assert rest != [] ==> forall r <- rest[1..] :: r in rest;
      if |t| == 1 || t[1] == '_' then [[t[0]]] + rest else [[t[0]] + rest[0]] + rest[1..]
  }

  lemma {:induction false} RStripFirst(c: char, s: string)
    requires c != '_'
    ensures RStrip([c] + s, '_') == [c] + RStrip(s, '_')
    decreases |s|
  {
    var t := [c] + s;
    if s != "" && s[|s| - 1] == '_' {
      assert t[..|t| - 1] == [c] + s[..|s| - 1];
      RStripFirst(c, s[..|s| - 1]);
    }
  }

  lemma {:induction false} RStripUnderscore(s: string)
    ensures RStrip("_" + s, '_') == if RStrip(s, '_') == "" then "" else "_" + RStrip(s, '_')
    decreases |s|
  {
    var t := "_" + s;
    if s == "" {
      assert t[..0] == "";
    } else if s[|s| - 1] == '_' {
      assert t[..|t| - 1] == "_" + s[..|s| - 1];
      RStripUnderscore(s[..|s| - 1]);
    }
  }

  lemma {:induction false} JoinNonEmpty(runs: seq<string>)
    requires forall r <- runs :: r != ""
    ensures Join("_", runs) == "" <==> runs == []
  {
    if runs != [] { assert runs[0] in runs; }
  }

  lemma {:induction false} JoinPrefix(c: char, runs: seq<string>)
    requires runs != []
    ensures Join("_", [[c] + runs[0]] + runs[1..]) == [c] + Join("_", runs)
  {
    var longer := [[c] + runs[0]] + runs[1..];
    assert longer[1..] == runs[1..];
  }

  lemma {:induction false} JoinFirst(c: char, runs: seq<string>)
    ensures Join("_", [[c]] + runs) == if runs == [] then [c] else [c] + "_" + Join("_", runs)
  {
    assert ([[c]] + runs)[1..] == runs;
  }

  /** A character before an underscore is a run of its own. */
  lemma {:induction false} StripBeforeUnderscore(c: char, rest: string, runs: seq<string>)
    requires c != '_' && rest != "" && rest[0] == '_' && NoDoubled(rest)
    requires Strip(rest, '_') == Join("_", runs) && forall r <- runs :: r != ""
    ensures Strip([c] + rest, '_') == Join("_", [[c]] + runs)
  {
    assert LStrip([c] + rest, '_') == [c] + rest;
    RStripFirst(c, rest);
    assert rest == "_" + rest[1..];
    RStripUnderscore(rest[1..]);
    SingleLeading(rest);
    JoinNonEmpty(runs);
    JoinFirst(c, runs);
  }

  /** A character before another one belongs to that one's run. */
  lemma {:induction false} StripBeforeRun(c: char, rest: string, runs: seq<string>)
    requires c != '_' && rest != "" && rest[0] != '_' && runs != []
    requires Strip(rest, '_') == Join("_", runs)
    ensures Strip([c] + rest, '_') == Join("_", [[c] + runs[0]] + runs[1..])
  {
    assert LStrip([c] + rest, '_') == [c] + rest && LStrip(rest, '_') == rest;
    RStripFirst(c, rest);
    JoinPrefix(c, runs);
  }

  lemma {:induction false} StripOne(c: char)
    requires c != '_'
    ensures Strip([c], '_') == Join("_", [[c]])
  {
    assert LStrip([c], '_') == [c];
  }

  /** Collapsing and stripping leaves the runs, joined by single underscores. */
  lemma {:induction false} StrippedIsRuns(t: string)
    requires AllWord(t)
    ensures Strip(CollapseUnderscores(t), '_') == Join("_", Runs(t))
  {
    if t != "" {
      var rest, runs := CollapseUnderscores(t[1..]), Runs(t[1..]);
      StrippedIsRuns(t[1..]);
      CollapseIsSingle(t[1..]);
      if t[0] == '_' {
        LeadingUnderscore(t);
      } else {
        assert CollapseUnderscores(t) == [t[0]] + rest;
        hide Strip, Join, NoDoubled, AllWord;
        if |t| == 1 {
          assert [t[0]] + rest == [t[0]] && Runs(t) == [[t[0]]];
          StripOne(t[0]);
        } else if t[1] == '_' {
          StripBeforeUnderscore(t[0], rest, runs);
        } else {
          StripBeforeRun(t[0], rest, runs);
        }
      }
    }
  }

  lemma {:induction false} LeadingUnderscore(t: string)
    requires t != "" && t[0] == '_'
    ensures LStrip(CollapseUnderscores(t), '_') == LStrip(CollapseUnderscores(t[1..]), '_')
  {
    if |t| >= 2 && t[1] == '_' {
    } else {
      var rest := CollapseUnderscores(t[1..]);
      assert CollapseUnderscores(t) == ['_'] + rest && (['_'] + rest)[1..] == rest;
    }
  }

  lemma {:induction false} SingleLeading(s: string)
    requires s != "" && s[0] == '_' && NoDoubled(s)
    ensures LStrip(s, '_') == s[1..]
  {
    if |s| >= 2 { assert s[1] != '_'; }
  }

  // ----- the words, through all five passes -----

  lemma {:induction false} FoldStart(name: string)
    ensures name != "" && IsAlnum(name[0]) ==> FoldNonWord(name) == [name[0]] + FoldNonWord(name[1..])
    ensures name != "" ==> FoldNonWord(name) != ""
    ensures name != "" ==> FoldNonWord(name)[0] == if IsAlnum(name[0]) then name[0] else '_'
    ensures name == "" ==> FoldNonWord(name) == ""
  {
  }

  /** What stands at the front after folding is what decides about a new word. */
  lemma {:induction false} FoldKeepsBreaks(name: string)
    requires |name| >= 2 && IsAlnum(name[0]) && IsAlnum(name[1])
    ensures BreaksAfterFirst(FoldNonWord(name)) <==> BreaksAfterFirst(name)
  {
    FoldStart(name);
    FoldStart(name[1..]);
    FoldStart(name[2..]);
    assert name[1..][1..] == name[2..];
    var folded := FoldNonWord(name);
    assert folded == [name[0]] + ([name[1]] + FoldNonWord(name[2..]));
  }

  lemma {:induction false} WordsSkip(name: string)
    ensures Words(name) == Words(name[NonWordRun(name)..])
  {
    if name != "" && !IsAlnum(name[0]) {
      WordsSkip(name[1..]);
      assert name[NonWordRun(name)..] == name[1..][NonWordRun(name[1..])..];
    } else {
      assert name[0..] == name;
    }
  }

  lemma {:induction false} BrokenStart(s: string)
    requires s != ""
    ensures Broken(s) == [s[0]] + (if BreaksAfterFirst(s) then "_" else "") + Broken(s[1..])
    ensures Broken(s) != "" && Broken(s)[0] == s[0]
  {
  }

  lemma {:induction false} RunsAfterUnderscores(u: string, t: string)
    requires u == "_" || u == "__"
    ensures Runs(u + t) == Runs(t)
  {
    assert (u + t)[1..] == u[1..] + t;
    if u == "__" { assert (u[1..] + t)[1..] == t; } else { assert u[1..] + t == t; }
  }

  /** The runs left by folding and breaking are the words. */
  lemma {:induction false} RunsAreWords(name: string)
    ensures Runs(Broken(FoldNonWord(name))) == Words(name)
    decreases |name|
  {
    if name != "" {
      FoldStart(name);
      var folded := FoldNonWord(name);
      BrokenStart(folded);
      if IsAlnum(name[0]) {
        RunsAreWords(name[1..]);
        FoldStart(name[1..]);
        assert folded[1..] == FoldNonWord(name[1..]);
        if |name| >= 2 && IsAlnum(name[1]) { FoldKeepsBreaks(name); }
        AlnumStart(name, folded);
      } else {
        var rest := name[NonWordRun(name)..];
        assert folded == "_" + FoldNonWord(rest) && folded[1..] == FoldNonWord(rest);
        RunsAreWords(rest);
        WordsSkip(name);
        var u := if BreaksAfterFirst(folded) then "__" else "_";
        assert Broken(folded) == u + Broken(FoldNonWord(rest));
        RunsAfterUnderscores(u, Broken(FoldNonWord(rest)));
      }
    }
  }

  lemma {:induction false} RunsCons(c: char, t: string)
    requires c != '_'
    ensures Runs([c] + t) ==
      if t == "" || t[0] == '_' then [[c]] + Runs(t) else [[c] + Runs(t)[0]] + Runs(t)[1..]
  {
    assert ([c] + t)[1..] == t;
  }

  lemma {:induction false} WordsCons(name: string)
    requires name != "" && IsAlnum(name[0])
    ensures var rest := Words(name[1..]);
      Words(name) ==
        if |name| == 1 || !IsAlnum(name[1]) || BreaksAfterFirst(name) then [[name[0]]] + rest
        else [[name[0]] + rest[0]] + rest[1..]
  {
  }

  lemma {:induction false} AlnumStart(name: string, folded: string)
    requires name != "" && IsAlnum(name[0]) && folded == [name[0]] + FoldNonWord(name[1..])
    requires Runs(Broken(FoldNonWord(name[1..]))) == Words(name[1..])
    requires |name| >= 2 && IsAlnum(name[1]) ==> (BreaksAfterFirst(folded) <==> BreaksAfterFirst(name))
    ensures Runs(Broken(folded)) == Words(name)
  {
    var next := FoldNonWord(name[1..]);
    FoldStart(name[1..]);
    WordsCons(name);
    NextBreaks(name[0], next);
    hide FoldNonWord, Words, Runs, Broken;
    BrokenStart(folded);
    assert folded[1..] == next;
    if next != "" { BrokenStart(next); } else { BrokenEmpty(); }
    hide BreaksAfterFirst;
    if BreaksAfterFirst(folded) {
      assert Broken(folded) == [name[0]] + ("_" + Broken(next)) by { Regrouped3([name[0]], "_", Broken(next)); }
      RunsCons(name[0], "_" + Broken(next));
      RunsAfterUnderscores("_", Broken(next));
    } else {
      assert Broken(folded) == [name[0]] + Broken(next) by { assert [name[0]] + "" == [name[0]]; }
      RunsCons(name[0], Broken(next));
    }
  }

  lemma {:induction false} NextBreaks(c: char, next: string)
    ensures BreaksAfterFirst([c] + next) ==> next != "" && IsUpper(next[0])
  {
  }

  lemma {:induction false} BrokenEmpty()
    ensures Broken("") == ""
  {
  }

  lemma {:induction false} LowerJoin(words: seq<string>)
    ensures Lower(Join("_", words)) == Join("_", LowerAll(words))
  {
    if |words| > 1 {
      LowerJoin(words[1..]);
      assert LowerAll(words)[1..] == LowerAll(words[1..]);
      assert Lower(words[0] + "_" + Join("_", words[1..])) == Lower(words[0]) + "_" + Lower(Join("_", words[1..]));
    }
  }

  /** Sanitizing a name joins its lowercased words by underscores. */
  lemma {:induction false} SnakeCaseIsWords(name: string)
    ensures SnakeCase(name) == Join("_", LowerAll(Words(name)))
  {
    var folded := FoldNonWord(name);
    PassesBreak(folded);
    RunsAreWords(name);
    FoldNonWordIsWord(name);
    BreakBeforeWordIsWord(folded);
    BreakCamelIsWord(BreakBeforeWord(folded));
    hide FoldNonWord, BreakBeforeWord, BreakCamel, Broken, Runs, Words, CollapseUnderscores, Strip, Join, Lower;
    StrippedIsRuns(Broken(folded));
    LowerJoin(Words(name));
  }

  // ----- names built from it -----

  lemma {:induction false} LowerWordsJoinable(name: string)
    ensures forall w <- LowerAll(Words(name)) :: '_' !in w && w != ""
  {
    WordsAreAlnum(name);
    var words := Words(name);
    forall w | w in LowerAll(words) ensures '_' !in w && w != "" {
      var i :| 0 <= i < |words| && w == Lower(words[i]);
      assert words[i] in words;
      forall c | c in w ensures c != '_' {
        var j :| 0 <= j < |w| && w[j] == c;
        assert words[i][j] in words[i];
      }
    }
  }

  lemma {:induction false} WordsAreAlnum(name: string)
    ensures forall w <- Words(name) :: forall c <- w :: IsAlnum(c)
  {
    if name != "" {
      WordsAreAlnum(name[1..]);
      var rest := Words(name[1..]);
      if IsAlnum(name[0]) && rest != [] {
        assert rest[0] in rest && forall w <- rest[1..] :: w in rest;
        hide IsAlnum;
        forall c | c in [name[0]] + rest[0] ensures IsAlnum(c) { assert c == name[0] || c in rest[0]; }
      }
    }
  }

  /** Camel case capitalizes each of the lowercased words. */
  lemma {:induction false} CamelCaseIsWords(name: string)
    ensures CamelCase(name) == JoinCapitalized(LowerAll(Words(name)))
  {
    SnakeCaseIsWords(name);
    LowerWordsJoinable(name);
    var words := LowerAll(Words(name));
    if words == [] {
      assert Split("", '_') == [""];
      assert JoinCapitalized([""]) == Capitalize("") + JoinCapitalized([]);
    } else {
      hide SnakeCase, Words, Join, Split, JoinCapitalized;
      SplitJoin(words, '_');
    }
  }

  /** A field keeps its sanitized name where that is legal, and else gets a prefix or a trailing underscore. */
  lemma {:induction false} FieldNameFrom(wireName: string)
    ensures var snake, name := Join("_", LowerAll(Words(wireName))), PythonFieldName(wireName);
      && (LegalFieldName(snake) ==> name == snake)
      && (snake == "" ==> name == "field")
      && (snake != "" && IsDigit(snake[0]) ==> name == "field_" + snake)
      && (snake != "" && IsLower(snake[0]) && Reserved(snake) ==> name == snake + "_")
      && (snake == "" || IsDigit(snake[0]) || IsLower(snake[0]))
  {
    SnakeCaseIsWords(wireName);
    SnakeCaseCanonical(wireName);
    var snake := SnakeCase(wireName);
    hide SnakeCase, Words, Join, IsKeyword, IsPydanticAttribute;
    if snake != "" { assert snake[0] in snake; }
    FieldPrefixIsFree(snake);
    assert snake + "_" != "self" by { assert (snake + "_")[|snake|] == '_' && "self"[|"self"| - 1] == 'f'; }
    assert "self" + "_" == "self_";
  }

  lemma {:induction false} FieldPrefixIsFree(s: string)
    ensures !Reserved("field_" + s) && !Reserved("field")
  {
    var name := "field_" + s;
    assert name[0] == 'f' && name[1] == 'i' && name[2] == 'e';
    assert "field"[0] == 'f' && "field"[1] == 'i' && "field"[2] == 'e';
    StartsApart(name);
    StartsApart("field");
  }

  predicate StartsAsField(name: string) {
    |name| >= 3 && name[0] == 'f' && name[1] == 'i' && name[2] == 'e'
  }

  lemma {:induction false} StartsApart(name: string)
    requires StartsAsField(name)
    ensures !Reserved(name)
  {
    assert "finally"[2] == 'n' && "for"[1] == 'o' && "from"[1] == 'r' && "from_orm"[1] == 'r';
    assert forall k <- KEYWORDS :: !StartsAsField(k);
    assert forall k <- PYDANTIC_ATTRIBUTES :: !StartsAsField(k);
    assert "self"[0] == 's';
  }

  /** A class is named by its hint's capitalized words, after `Node` or before it where that is no class name. */
  lemma {:induction false} ClassNameFrom(hint: string)
    ensures var camel, name := JoinCapitalized(LowerAll(Words(hint))), PythonClassName(hint);
      && (LegalClassName(camel) ==> name == camel)
      && (camel == "" || IsDigit(camel[0]) ==> name == "Node" + camel)
      && (camel != "" && IsKeyword(camel) ==> name == camel + "Node")
  {
    CamelCaseIsWords(hint);
    hide CamelCase, Words, JoinCapitalized;
    var camel := CamelCase(hint);
    NodeIsNoKeyword(camel);
    hide IsKeyword;
  }

  lemma {:induction false} NodeIsNoKeyword(s: string)
    ensures !IsKeyword("Node" + s)
    ensures s != "" && IsDigit(s[0]) ==> !IsKeyword(s)
    ensures !IsKeyword("")
  {
    var name := "Node" + s;
    assert name[0] == 'N' && name[1] == 'o' && name[2] == 'd';
  }
}
