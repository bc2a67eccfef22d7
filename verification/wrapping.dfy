/** Wrapping prose into implicitly concatenated string literals that fit the line budget. */
module Wrapping {
  import opened Wrappers
  import opened Text
  import opened Literals
  import opened Folding

  const LINE_LENGTH: nat := 100

  // ----- greedy filling, words never broken -----

  /** How many of `words` go on a line already `used` columns wide. */
  function MoreWords(words: seq<string>, used: nat, width: nat): (n: nat)
    ensures n <= |words|
  {
    if words == [] || used + 1 + |words[0]| > width then 0
    else 1 + MoreWords(words[1..], used + 1 + |words[0]|, width)
  }

  /** Words on the next line: one at least, however long it is. */
  function LineWords(words: seq<string>, width: nat): (n: nat)
    requires words != []
    ensures 1 <= n <= |words|
  {
    1 + MoreWords(words[1..], |words[0]|, width)
  }

  function Fill(words: seq<string>, width: nat): seq<string> {
    if words == [] then []
    else
      var n := LineWords(words, width);
      [Join(" ", words[..n])] + Fill(words[n..], width)
  }

  /** No word is lost, reordered or broken by filling. */
  lemma {:induction false} FillLossless(words: seq<string>, width: nat)
    ensures Join(" ", Fill(words, width)) == Join(" ", words)
    ensures words != [] <==> Fill(words, width) != []
    decreases |words|
  {
    if words != [] {
      var n := LineWords(words, width);
      FillLossless(words[n..], width);
      if n < |words| {
        assert words == words[..n] + words[n..];
        JoinConcat(" ", words[..n], words[n..]);
        assert Fill(words, width)[1..] == Fill(words[n..], width);
      } else {
        assert words[..n] == words && words[n..] == [];
      }
    }
  }

  lemma {:induction false} MoreWordsFit(first: string, words: seq<string>, width: nat)
    requires |first| <= width
    ensures |Join(" ", [first] + words[..MoreWords(words, |first|, width)])| <= width
    decreases |words|
  {
    var n := MoreWords(words, |first|, width);
    if n == 0 {
      assert [first] + words[..0] == [first];
    } else {
      var joined := first + " " + words[0];
      MoreWordsFit(joined, words[1..], width);
      var tail := words[1..][..n - 1];
      assert words[..n] == [words[0]] + tail;
      JoinFirstTwo(first, words[0], tail);
      assert [first] + words[..n] == [first, words[0]] + tail;
    }
  }

  lemma JoinFirstTwo(a: string, b: string, tail: seq<string>)
    ensures Join(" ", [a, b] + tail) == Join(" ", [a + " " + b] + tail)
  {
    assert ([a, b] + tail)[1..] == [b] + tail;
    assert ([a + " " + b] + tail)[1..] == tail;
    assert ([b] + tail)[1..] == tail;
  }

  /** When no single word is too long, no filled line is. */
  lemma {:induction false} FillFits(words: seq<string>, width: nat)
    requires forall w <- words :: |w| <= width
    ensures forall line <- Fill(words, width) :: |line| <= width
    decreases |words|
  {
    if words != [] {
      var n := LineWords(words, width);
      assert words[0] in words;
      MoreWordsFit(words[0], words[1..], width);
      assert [words[0]] + words[1..][..n - 1] == words[..n];
      FillFits(words[n..], width);
    }
  }

  // ----- filling is greedy -----

  /** The words in groups, one group a line. */
  function Flatten(groups: seq<seq<string>>): seq<string> {
    if groups == [] then [] else groups[0] + Flatten(groups[1..])
  }

  function JoinEach(groups: seq<seq<string>>): seq<string> {
    seq(|groups|, i requires 0 <= i < |groups| => Join(" ", groups[i]))
  }

  /** Lines of at least one word, as full as they can be: the next line's first word has no room any more. */
  predicate IsFilling(groups: seq<seq<string>>, width: nat) {
    && (forall g <- groups :: g != [] && (|g| > 1 ==> |Join(" ", g)| <= width))
    && (forall j :: 0 < j < |groups| ==> FullBefore(groups, j, width))
  }

  predicate FullBefore(groups: seq<seq<string>>, j: nat, width: nat)
    requires 0 < j < |groups|
  {
    groups[j] != [] && FullUpTo(groups[j - 1], groups[j][0], width)
  }

  predicate FullUpTo(g: seq<string>, next: string, width: nat) { |Join(" ", g)| + 1 + |next| > width }

  lemma {:induction false} MoreWordsStop(first: string, words: seq<string>, width: nat)
    ensures var n := MoreWords(words, |first|, width);
      && (n > 0 ==> |Join(" ", [first] + words[..n])| <= width)
      && (n < |words| ==> FullUpTo([first] + words[..n], words[n], width))
    decreases |words|
  {
    var n := MoreWords(words, |first|, width);
    if n == 0 {
      assert [first] + words[..0] == [first];
    } else {
      var joined := first + " " + words[0];
      MoreWordsStop(joined, words[1..], width);
      var tail := words[1..][..n - 1];
      assert words[..n] == [words[0]] + tail;
      JoinFirstTwo(first, words[0], tail);
      assert [first] + words[..n] == [first, words[0]] + tail;
      if n == 1 { assert [joined] + tail == [joined]; }
    }
  }

  lemma FillingGrows(g: seq<string>, rest: seq<seq<string>>, width: nat)
    requires IsFilling(rest, width) && g != [] && (|g| > 1 ==> |Join(" ", g)| <= width)
    requires rest != [] ==> rest[0] != [] && FullUpTo(g, rest[0][0], width)
    ensures IsFilling([g] + rest, width)
  {
    hide Join, FullUpTo;
    var groups := [g] + rest;
    forall j | 0 < j < |groups| ensures FullBefore(groups, j, width) {
      if j > 1 { assert FullBefore(rest, j - 1, width); }
    }
  }

  lemma LineIs(words: seq<string>, width: nat)
    requires words != []
    ensures var n := LineWords(words, width);
      && (n > 1 ==> |Join(" ", words[..n])| <= width)
      && (n < |words| ==> FullUpTo(words[..n], words[n..][0], width))
  {
    var n := LineWords(words, width);
    MoreWordsStop(words[0], words[1..], width);
    hide Join;
    assert [words[0]] + words[1..][..n - 1] == words[..n];
    assert n < |words| ==> words[1..][n - 1] == words[n] && words[n..][0] == words[n];
  }

  /** The filled lines are the words in such groups. */
  lemma {:induction false} FillIsFilling(words: seq<string>, width: nat) returns (groups: seq<seq<string>>)
    ensures Flatten(groups) == words && IsFilling(groups, width) && Fill(words, width) == JoinEach(groups)
    decreases |words|
  {
    if words == [] {
      groups := [];
    } else {
      var n := LineWords(words, width);
      LineIs(words, width);
      hide Join, MoreWords, LineWords, FullUpTo, IsFilling, Flatten;
      var rest := FillIsFilling(words[n..], width);
      groups := [words[..n]] + rest;
      FlattenCons(words[..n], rest);
      assert words[..n] + words[n..] == words;
      assert JoinEach(groups) == [Join(" ", words[..n])] + JoinEach(rest);
      NextWord(rest, width);
      FillingGrows(words[..n], rest, width);
    }
  }

  /** The first word is that of the first group, and without words there are no groups. */
  lemma NextWord(groups: seq<seq<string>>, width: nat)
    requires IsFilling(groups, width)
    ensures groups != [] <==> Flatten(groups) != []
    ensures groups != [] ==>
      && groups[0] != [] && Flatten(groups)[0] == groups[0][0] && |groups[0]| <= |Flatten(groups)|
      && groups[0] == Flatten(groups)[..|groups[0]|] && Flatten(groups[1..]) == Flatten(groups)[|groups[0]|..]
  {
    if groups != [] { assert groups[0] in groups; }
  }

  lemma FlattenCons(g: seq<string>, rest: seq<seq<string>>)
    ensures Flatten([g] + rest) == g + Flatten(rest)
  {
    assert ([g] + rest)[1..] == rest;
  }

  lemma LongerJoin(words: seq<string>, n: nat, m: nat)
    requires 0 < n < m <= |words|
    ensures |Join(" ", words[..n])| + 1 + |words[n]| <= |Join(" ", words[..m])|
  {
    var rest := words[n..m];
    assert words[..m] == words[..n] + rest && rest[0] == words[n];
    JoinConcat(" ", words[..n], rest);
  }

  lemma RestFills(groups: seq<seq<string>>, width: nat)
    requires IsFilling(groups, width) && groups != []
    ensures IsFilling(groups[1..], width)
  {
    hide Join, FullUpTo;
    var rest := groups[1..];
    assert forall g <- rest :: g in groups;
    forall j | 0 < j < |rest| ensures FullBefore(rest, j, width) {
      assert FullBefore(groups, j + 1, width);
    }
  }

  /** One and only one way to group the words fills the lines like that. */
  lemma {:induction false} FillingUnique(a: seq<seq<string>>, b: seq<seq<string>>, width: nat)
    requires IsFilling(a, width) && IsFilling(b, width) && Flatten(a) == Flatten(b)
    ensures a == b
    decreases |a|
  {
    NextWord(a, width);
    NextWord(b, width);
    if a != [] {
      NotShorter(a, b, width);
      NotShorter(b, a, width);
      RestFills(a, width);
      RestFills(b, width);
      hide IsFilling, Flatten;
      FillingUnique(a[1..], b[1..], width);
      assert a == [a[0]] + a[1..] && b == [b[0]] + b[1..];
    }
  }

  /** A full line cannot be the beginning of a longer one. */
  lemma NotShorter(a: seq<seq<string>>, b: seq<seq<string>>, width: nat)
    requires IsFilling(a, width) && IsFilling(b, width) && Flatten(a) == Flatten(b)
    requires a != [] && b != []
    ensures |a[0]| >= |b[0]|
  {
    NextWord(a, width);
    NextWord(b, width);
    RestFills(a, width);
    NextWord(a[1..], width);
    assert b[0] in b;
    var words, n, m := Flatten(a), |a[0]|, |b[0]|;
    assert |a| > 1 ==> FullBefore(a, 1, width) && words[n] == Flatten(a[1..])[0];
    hide Join, Flatten;
    if n < m { LongerJoin(words, n, m); }
  }

  // ----- implicit concatenation -----

  function Spaces(n: nat): (s: string)
    ensures |s| == n
  {
    seq(n, _ => ' ')
  }

  /** Every chunk but the last keeps the space that joined it to the next. */
  function Spaced(chunks: seq<string>): seq<string> {
    seq(|chunks|, i requires 0 <= i < |chunks| => if i == |chunks| - 1 then chunks[i] else chunks[i] + " ")
  }

  function Concat(parts: seq<string>): string {
    if parts == [] then "" else parts[0] + Concat(parts[1..])
  }

  lemma {:induction false} ConcatSpaced(chunks: seq<string>)
    ensures Concat(Spaced(chunks)) == Join(" ", chunks)
  {
    if |chunks| == 1 {
      assert Spaced(chunks) == [chunks[0]];
      assert Concat([chunks[0]][1..]) == "";
    } else if |chunks| > 1 {
      ConcatSpaced(chunks[1..]);
      assert Spaced(chunks)[1..] == Spaced(chunks[1..]);
    }
  }

  /** One literal per chunk, indented. */
  function RenderChunks(chunks: seq<string>, indent: nat): (lines: seq<string>)
    ensures |lines| == |chunks|
  {
    var spaced := Spaced(chunks);
    seq(|spaced|, i requires 0 <= i < |spaced| => Spaces(indent) + RawLiteral(spaced[i]))
  }

  /** The value of adjacent literals, each on its own indented line. */
  function ReadLines(lines: seq<string>, indent: nat): Option<string> {
    if lines == [] then Some("")
    else if |lines[0]| < indent || lines[0][..indent] != Spaces(indent) then None
    else
      match (ReadLiteral(lines[0][indent..]), ReadLines(lines[1..], indent))
      case (Some(head), Some(tail)) => Some(head + tail)
      case _ => None
  }

  lemma {:induction false} ReadPrinted(parts: seq<string>, indent: nat)
    ensures ReadLines(seq(|parts|, i requires 0 <= i < |parts| => Spaces(indent) + RawLiteral(parts[i])), indent)
      == Some(Concat(parts))
  {
    if parts != [] {
      var lines := seq(|parts|, i requires 0 <= i < |parts| => Spaces(indent) + RawLiteral(parts[i]));
      var rest := parts[1..];
      ReadPrinted(rest, indent);
      assert lines[1..] == seq(|rest|, i requires 0 <= i < |rest| => Spaces(indent) + RawLiteral(rest[i]));
      assert lines[0][indent..] == RawLiteral(parts[0]);
      ReadRawLiteral(parts[0]);
    }
  }

  /** Rendered chunks read back, concatenated, as the text they were filled from. */
  lemma RenderedReadsBack(words: seq<string>, width: nat, indent: nat)
    ensures ReadLines(RenderChunks(Fill(words, width), indent), indent) == Some(Join(" ", words))
  {
    var chunks := Fill(words, width);
    FillLossless(words, width);
    ConcatSpaced(chunks);
    ReadPrinted(Spaced(chunks), indent);
  }

  /** The value of what `WrappedLiteral` emits: a bare literal, or parenthesized adjacent literals. */
  function ReadExpression(lines: seq<string>, indent: nat): Option<string> {
    if |lines| == 1 then ReadLines(lines, indent)
    else if |lines| >= 2 && lines[0] == Spaces(indent) + "(" && lines[|lines| - 1] == Spaces(indent) + ")"
    then ReadLines(lines[1..|lines| - 1], indent + 4)
    else None
  }

  predicate FitsBudget(lines: seq<string>) {
    forall line <- lines :: |line| <= LINE_LENGTH
  }

  /** The widths tried: from the widest that could fit down to 20, in steps of four. */
  predicate Tried(width: int, indent: nat) {
    20 <= width <= LINE_LENGTH - (indent + 4) - 2 && (LINE_LENGTH - (indent + 4) - 2 - width) % 4 == 0
  }

  predicate WidthFits(words: seq<string>, width: nat, indent: nat) {
    words != [] && FitsBudget(RenderChunks(Fill(words, width), indent + 4))
  }

  /**
   * One literal when it fits, else chunks at the widest tried width at which every line fits. Nothing
   * is returned where the source falls back to breaking inside words.
   */
  method WrappedLiteral(text: string, indent: nat, prefix: nat) returns (r: Option<seq<string>>)
    requires indent < LINE_LENGTH
    ensures r.Some? ==> ReadExpression(r.value, indent) == Some(AsciiFold(text))
    ensures r.Some? ==> FitsBudget(r.value) && (|r.value| == 1 ==> |r.value[0]| + prefix <= LINE_LENGTH)
    ensures r.Some? && |r.value| != 1 ==>
      && indent + |RawLiteral(AsciiFold(text))| + prefix > LINE_LENGTH
      && exists width: nat :: Tried(width, indent) && WidthFits(FoldedWords(text), width, indent)
           && r.value == [Spaces(indent) + "("] + RenderChunks(Fill(FoldedWords(text), width), indent + 4)
                           + [Spaces(indent) + ")"]
           && forall wider: nat :: Tried(wider, indent) && wider > width ==>
               !WidthFits(FoldedWords(text), wider, indent)
    ensures r.None? <==>
      && indent + |RawLiteral(AsciiFold(text))| + prefix > LINE_LENGTH
      && forall width: nat :: Tried(width, indent) ==> !WidthFits(FoldedWords(text), width, indent)
  {
    hide FoldedWords, AsciiFold, RawLiteral, ReadLiteral, Fill, ReadLines, RenderChunks;
    var words := FoldedWords(text);
    assert AsciiFold(text) == Join(" ", words) by { AsciiFoldIs(text); }
    var single := Spaces(indent) + RawLiteral(AsciiFold(text));
    if |single| + prefix <= LINE_LENGTH {
      SingleReadsBack(AsciiFold(text), indent);
      return Some([single]);
    }
    var width: int := LINE_LENGTH - (indent + 4) - 2;
    while width > 19
      invariant (LINE_LENGTH - (indent + 4) - 2 - width) % 4 == 0 && width <= LINE_LENGTH - (indent + 4) - 2
      invariant forall wider: nat :: Tried(wider, indent) && wider > width ==> !WidthFits(words, wider, indent)
    {
      var chunks := Fill(words, width);
      var rendered := RenderChunks(chunks, indent + 4);
      FillLossless(words, width);
      if chunks != [] && FitsBudget(rendered) {
        assert Tried(width, indent) && WidthFits(words, width, indent);
        var lines := [Spaces(indent) + "("] + rendered + [Spaces(indent) + ")"];
        RenderedReadsBack(words, width, indent + 4);
        assert lines[1..|lines| - 1] == rendered;
        return Some(lines);
      }
      assert !WidthFits(words, width, indent);
      width := width - 4;
    }
    return None;
  }

  lemma AsciiFoldIs(text: string)
    ensures AsciiFold(text) == Join(" ", FoldedWords(text))
  {
  }

  lemma SingleReadsBack(text: string, indent: nat)
    ensures ReadLines([Spaces(indent) + RawLiteral(text)], indent) == Some(text)
  {
    ReadRawLiteral(text);
    hide RawLiteral, ReadLiteral;
    var lines := [Spaces(indent) + RawLiteral(text)];
    assert lines[0][indent..] == RawLiteral(text);
    assert ReadLines(lines[1..], indent) == Some("");
    assert text + "" == text;
  }
}
