/** The plugin generator's literals: words clipped to the budget, chunks printed as they are. */
module PlainLiterals {
  import opened Wrappers
  import opened Text
  import opened Literals
  import opened Folding
  import opened Wrapping

  /** A word longer than the budget is cut visibly. */
  function ClipWord(w: string, budget: nat): string
    requires 3 <= budget
  {
    if |w| <= budget then w else w[..budget - 3] + "..."
  }

  function ClipWords(words: seq<string>, budget: nat): seq<string>
    requires 3 <= budget
  {
    seq(|words|, i requires 0 <= i < |words| => ClipWord(words[i], budget))
  }

  function FitTokens(text: string, budget: nat): string
    requires 3 <= budget
  {
    Join(" ", ClipWords(SplitWords(text), budget))
  }

  function Chunks(text: string, budget: nat): (chunks: seq<string>)
    requires 3 <= budget
    ensures chunks != []
  {
    var filled := Fill(ClipWords(SplitWords(text), budget), budget);
    if filled == [] then [""] else filled
  }

  /** Chunks fit the budget, and put back together they are the clipped text. */
  lemma ChunksLossless(text: string, budget: nat)
    requires 3 <= budget
    ensures Concat(Spaced(Chunks(text, budget))) == FitTokens(text, budget)
    ensures forall c <- Chunks(text, budget) :: |c| <= budget
  {
    var words := ClipWords(SplitWords(text), budget);
    FillLossless(words, budget);
    FillFits(words, budget);
    ConcatSpaced(Chunks(text, budget));
  }

  /** Columns left for a chunk after the indent, the quotes, a space and a possible `f`. */
  function ChunkBudget(indent: nat): nat
    requires indent + 8 <= LINE_LENGTH
  {
    LINE_LENGTH - indent - 8
  }

  /** One chunk line of a `raise` block: an f-string when the chunk carries a placeholder. */
  function ChunkLine(chunk: string, last: bool, indent: nat): string {
    Spaces(indent) + "    " + (if '{' in chunk then "f" else "") + "\"" + chunk + (if last then "" else " ") + "\""
  }

  function ChunkLines(chunks: seq<string>, indent: nat): seq<string> {
    seq(|chunks|, i requires 0 <= i < |chunks| => ChunkLine(chunks[i], i == |chunks| - 1, indent))
  }

  function RaiseBlock(indent: nat, exception: string, text: string): seq<string>
    requires indent + 11 <= LINE_LENGTH
  {
    [Spaces(indent) + "raise " + exception + "("]
    + (ChunkLines(Chunks(text, ChunkBudget(indent)), indent) + [Spaces(indent) + ")"])
  }

  lemma ChunkLinesFit(indent: nat, text: string)
    requires indent + 11 <= LINE_LENGTH
    ensures FitsBudget(ChunkLines(Chunks(text, ChunkBudget(indent)), indent))
  {
    ChunksLossless(text, ChunkBudget(indent));
    var chunks := Chunks(text, ChunkBudget(indent));
    hide Chunks, FitTokens;
    forall line | line in ChunkLines(chunks, indent) ensures |line| <= LINE_LENGTH {
      var i :| 0 <= i < |chunks| && line == ChunkLine(chunks[i], i == |chunks| - 1, indent);
      assert chunks[i] in chunks;
    }
  }

  /** Every line of a raise block after its header fits, whatever the message. */
  lemma RaiseBlockFits(indent: nat, exception: string, text: string)
    requires indent + 11 <= LINE_LENGTH
    ensures FitsBudget(RaiseBlock(indent, exception, text)[1..])
  {
    ChunkLinesFit(indent, text);
    hide ChunkLines, Chunks;
    var lines := ChunkLines(Chunks(text, ChunkBudget(indent)), indent);
    assert FitsBudget(lines + [Spaces(indent) + ")"]);
    assert RaiseBlock(indent, exception, text)[1..] == lines + [Spaces(indent) + ")"];
  }

  /** The budget has no slack: a full f-string chunk that is not the last is exactly 100 columns. */
  lemma ChunkBudgetTight(chunk: string, indent: nat)
    requires indent + 11 <= LINE_LENGTH && '{' in chunk && |chunk| == ChunkBudget(indent)
    ensures |ChunkLine(chunk, false, indent)| == LINE_LENGTH
    ensures |ChunkLine(chunk, true, indent)| == LINE_LENGTH - 1
  {
  }

  // ----- what the printed chunks say -----

  /** A chunk line as Python reads it: whether placeholders are filled in, and the text between the quotes. */
  function ChunkOn(line: string, indent: nat): (bool, string)
    requires |line| >= indent + 7
  {
    var rest := line[indent + 4..];
    (rest[0] == 'f', rest[if rest[0] == 'f' then 2 else 1..|rest| - 1])
  }

  lemma ChunkLineSays(chunk: string, last: bool, indent: nat)
    ensures var line := ChunkLine(chunk, last, indent);
      |line| >= indent + 6 && (chunk != "" || !last ==>
        ChunkOn(line, indent) == ('{' in chunk, if last then chunk else chunk + " "))
  {
    var said := if last then chunk else chunk + " ";
    var line, mark := ChunkLine(chunk, last, indent), if '{' in chunk then "f" else "";
    assert line == (Spaces(indent) + "    ") + (mark + ("\"" + (said + "\"")));
    var rest := mark + ("\"" + (said + "\""));
    assert line[indent + 4..] == rest;
    assert rest[|mark| + 1..|rest| - 1] == said;
    assert rest[0] == if '{' in chunk then 'f' else '\"';
  }

  /** The texts of the chunk lines, in order. */
  function Said(lines: seq<string>, indent: nat): seq<string>
    requires forall line <- lines :: |line| >= indent + 7
  {
    seq(|lines|, i requires 0 <= i < |lines| => assert lines[i] in lines; ChunkOn(lines[i], indent).1)
  }

  /**
   * A message's chunks put together are the clipped text, and a chunk is an f-string exactly where it has a
   * placeholder to fill in.
   */
  lemma ChunkLinesSay(text: string, indent: nat)
    requires indent + 11 <= LINE_LENGTH && SplitWords(text) != []
    ensures var lines, budget := ChunkLines(Chunks(text, ChunkBudget(indent)), indent), ChunkBudget(indent);
      && (forall line <- lines :: |line| >= indent + 7)
      && Concat(Said(lines, indent)) == FitTokens(text, budget)
      && forall line <- lines :: ChunkOn(line, indent).0 <==> '{' in ChunkOn(line, indent).1
  {
    var budget := ChunkBudget(indent);
    var chunks := Chunks(text, budget);
    ChunksLossless(text, budget);
    NoEmptyChunk(text, budget);
    hide Chunks, FitTokens, Concat;
    ChunksSay(chunks, indent);
  }

  lemma ChunksSay(chunks: seq<string>, indent: nat)
    requires forall c <- chunks :: c != ""
    ensures var lines := ChunkLines(chunks, indent);
      && (forall line <- lines :: |line| >= indent + 7)
      && Said(lines, indent) == Spaced(chunks)
      && forall line <- lines :: ChunkOn(line, indent).0 <==> '{' in ChunkOn(line, indent).1
  {
    hide ChunkLine, ChunkOn;
    var lines := ChunkLines(chunks, indent);
    forall i | 0 <= i < |lines|
      ensures |lines[i]| >= indent + 7 && ChunkOn(lines[i], indent) == ('{' in chunks[i], Spaced(chunks)[i])
      ensures '{' in chunks[i] <==> '{' in Spaced(chunks)[i]
    {
      assert chunks[i] in chunks;
      LongEnough(chunks[i], i == |chunks| - 1, indent);
      ChunkLineSays(chunks[i], i == |chunks| - 1, indent);
    }
  }

  lemma LongEnough(chunk: string, last: bool, indent: nat)
    requires chunk != ""
    ensures |ChunkLine(chunk, last, indent)| >= indent + 7
  {
  }

  lemma NoEmptyChunk(text: string, budget: nat)
    requires 3 <= budget && SplitWords(text) != []
    ensures forall c <- Chunks(text, budget) :: c != ""
  {
    var words := ClipWords(SplitWords(text), budget);
    assert words != [];
    FillLossless(words, budget);
    forall w | w in words ensures w != "" {
      var i :| 0 <= i < |words| && words[i] == w;
      assert SplitWords(text)[i] in SplitWords(text);
    }
    NoEmptyLine(words, budget);
  }

  lemma {:induction false} NoEmptyLine(words: seq<string>, width: nat)
    requires forall w <- words :: w != ""
    ensures forall line <- Fill(words, width) :: line != ""
    decreases |words|
  {
    if words != [] {
      var n := LineWords(words, width);
      assert words[0] in words && words[..n][0] == words[0];
      assert forall w <- words[n..] :: w in words;
      NoEmptyLine(words[n..], width);
    }
  }

  // ----- messages -----

  /** `message=...`: one f-string when it fits, else wrapped chunks. */
  function MessageLines(indent: nat, text: string): seq<string>
    requires indent + 11 <= LINE_LENGTH
  {
    var single := Spaces(indent) + "message=f\"" + text + "\",";
    if |single| <= LINE_LENGTH && '\n' !in text then [single]
    else [Spaces(indent) + "message=("] + (ChunkLines(Chunks(text, ChunkBudget(indent)),
        indent) + [Spaces(indent) + "),"])
  }

  /** Every line of a message fits, whatever the text. */
  lemma MessageFits(indent: nat, text: string)
    requires indent + 11 <= LINE_LENGTH
    ensures FitsBudget(MessageLines(indent, text))
  {
    ChunkLinesFit(indent, text);
    hide ChunkLines, Chunks;
    var lines := ChunkLines(Chunks(text, ChunkBudget(indent)), indent);
    assert FitsBudget([Spaces(indent) + "message=("] + (lines + [Spaces(indent) + "),"]));
  }

  // ----- literal assignments: what survives being inserted unescaped -----

  /** Characters that, after a backslash, leave the pair standing for itself. */
  predicate InertAfterBackslash(c: char) { c !in "\n\\'\"abfnrtv01234567xuUN" }

  /** Text that reads back as itself from between double quotes: no quote, and no backslash that means anything. */
  predicate Inert(s: string) {
    if s == "" then true
    else if s[0] == '\"' || s[0] == '\n' || s[0] == '\r' then false
    else if s[0] == '\\' then |s| >= 2 && InertAfterBackslash(s[1]) && Inert(s[2..])
    else Inert(s[1..])
  }

  function Quoted(chunk: string): string { "\"" + chunk + "\"" }

  /** Reading never lengthens a text, and keeps its length exactly when nothing in it is an escape. */
  lemma {:induction false} ReadInert(s: string)
    ensures var r := ReadChars(s + "\"", '\"');
      && (Inert(s) ==> r == Some(s))
      && (r.Some? ==> |r.value| <= |s| && (|r.value| == |s| ==> Inert(s)))
    decreases |s|
  {
    var t := s + "\"";
    if s != "" {
      if s[0] == '\\' {
        if |s| >= 2 {
          assert t[2..] == s[2..] + "\"" && t[1] == s[1];
          ReadInert(s[2..]);
          assert s == [s[0], s[1]] + s[2..];
          if s[1] == 'u' { ReadUnicode(s); } else { PairReads(s[1]); }
        } else {
          assert t[2..] == "" && ReadChars("", '\"').None?;
        }
      } else {
        assert t[1..] == s[1..] + "\"" && t[0] == s[0];
        ReadInert(s[1..]);
        assert s == [s[0]] + s[1..];
      }
    }
  }

  lemma PairReads(c: char)
    ensures |SimpleEscape(c)| <= 2
    ensures c !in "01234567xUNu" ==> (InertAfterBackslash(c) <==> |SimpleEscape(c)| == 2)
    ensures InertAfterBackslash(c) ==> SimpleEscape(c) == ['\\', c] && c !in "01234567xUNu"
  {
  }

  lemma {:induction false} ReadUnicode(s: string)
    requires |s| >= 2 && s[0] == '\\' && s[1] == 'u'
    ensures var r := ReadChars(s + "\"", '\"'); r.Some? ==> |r.value| < |s|
    decreases |s|, 0
  {
    var t := s + "\"";
    if |t| >= 6 {
      if |s| < 6 {
        assert t[5] == '\"' && t[2..6][3] == '\"';
      } else {
        assert t[6..] == s[6..] + "\"";
        ReadInert(s[6..]);
      }
    }
  }

  /** The plain lines of a literal assignment. */
  function PlainLines(parts: seq<string>, indent: nat): seq<string> {
    seq(|parts|, i requires 0 <= i < |parts| => Spaces(indent) + Quoted(parts[i]))
  }

  lemma ReadQuoted(s: string)
    ensures ReadLiteral(Quoted(s)) == ReadChars(s + "\"", '\"')
  {
    assert Quoted(s)[1..] == s + "\"";
  }

  lemma {:induction false} ReadPlainLines(parts: seq<string>, indent: nat)
    ensures var r := ReadLines(PlainLines(parts, indent), indent);
      && ((forall p <- parts :: Inert(p)) ==> r == Some(Concat(parts)))
      && (r.Some? ==> |r.value| <= |Concat(parts)| && (|r.value| == |Concat(parts)| ==> forall p <- parts :: Inert(p)))
  {
    hide Quoted, ReadLiteral, Inert, ReadChars;
    if parts != [] {
      var lines, rest := PlainLines(parts, indent), parts[1..];
      ReadPlainLines(rest, indent);
      assert lines[1..] == PlainLines(rest, indent);
      assert lines[0][indent..] == Quoted(parts[0]);
      ReadQuoted(parts[0]);
      ReadInert(parts[0]);
      assert parts == [parts[0]] + rest;
    }
  }

  predicate EndsInSpace(s: string) { s == "" || s[|s| - 1] == ' ' }

  lemma {:induction false} InertJoin(a: string, b: string)
    requires EndsInSpace(a)
    ensures Inert(a + b) <==> Inert(a) && Inert(b)
    decreases |a|
  {
    var t := a + b;
    if a == "" {
      assert t == b;
    } else if a[0] == '\\' {
      assert |a| >= 2 && t[2..] == a[2..] + b && t[1] == a[1];
      InertJoin(a[2..], b);
    } else {
      assert t[1..] == a[1..] + b;
      InertJoin(a[1..], b);
    }
  }

  lemma {:induction false} InertSpaced(chunks: seq<string>)
    ensures Inert(Concat(Spaced(chunks))) <==> forall p <- Spaced(chunks) :: Inert(p)
  {
    hide Inert;
    var spaced := Spaced(chunks);
    if |chunks| == 1 {
      assert spaced == [chunks[0]] && spaced[1..] == [];
      assert Concat(spaced) == chunks[0] + "" == chunks[0];
    } else if |chunks| > 1 {
      InertSpaced(chunks[1..]);
      assert spaced[1..] == Spaced(chunks[1..]);
      InertJoin(spaced[0], Concat(spaced[1..]));
      assert spaced == [spaced[0]] + spaced[1..];
    } else {
      assert Concat(spaced) == "" && Inert("") by { EmptyIsInert(); }
    }
  }

  lemma EmptyIsInert()
    ensures Inert("")
  {
  }

  function AssignmentHead(name: string, indent: nat): string { Spaces(indent) + name + " = " }

  /** `name = "..."` where one chunk fits on the line, else the chunks in parentheses. */
  function LiteralAssignment(name: string, text: string, indent: nat): seq<string>
    requires indent + 11 <= LINE_LENGTH
  {
    var chunks := Chunks(text, ChunkBudget(indent));
    var single := AssignmentHead(name, indent) + Quoted(chunks[0]);
    if |chunks| == 1 && |single| <= LINE_LENGTH then [single]
    else [AssignmentHead(name, indent) + "("] + PlainLines(Spaced(chunks), indent + 4) + [Spaces(indent) + ")"]
  }

  /** The value the lines assign to the name. */
  function ReadAssignment(lines: seq<string>, name: string, indent: nat): Option<string> {
    var head := AssignmentHead(name, indent);
    if |lines| == 1 then
      if head <= lines[0] then ReadLiteral(lines[0][|head|..]) else None
    else if |lines| >= 2 && lines[0] == head + "(" && lines[|lines| - 1] == Spaces(indent) + ")"
    then ReadLines(lines[1..|lines| - 1], indent + 4)
    else None
  }

  /**
   * A literal assignment assigns the clipped text exactly when nothing in the text needs escaping; and
   * every line after its first fits, as does the first where it is the only one.
   */
  lemma AssignmentReadsBackIff(name: string, text: string, indent: nat)
    requires indent + 11 <= LINE_LENGTH
    ensures var lines, clipped := LiteralAssignment(name, text, indent), FitTokens(text, ChunkBudget(indent));
      && (ReadAssignment(lines, name, indent) == Some(clipped) <==> Inert(clipped))
      && FitsBudget(if |lines| == 1 then lines else lines[1..])
  {
    var budget := ChunkBudget(indent);
    var chunks := Chunks(text, budget);
    ChunksLossless(text, budget);
    hide FitTokens, Chunks, Inert, ReadAssignment, Quoted, PlainLines, AssignmentHead, Concat, Spaced;
    if |chunks| == 1 && |AssignmentHead(name, indent) + Quoted(chunks[0])| <= LINE_LENGTH {
      SingleReadsBackIff(name, chunks, indent);
    } else {
      LongReadsBackIff(name, chunks, indent);
    }
  }

  lemma SingleReadsBackIff(name: string, chunks: seq<string>, indent: nat)
    requires |chunks| == 1
    ensures var lines := [AssignmentHead(name, indent) + Quoted(chunks[0])];
      ReadAssignment(lines, name, indent) == Some(Concat(Spaced(chunks))) <==> Inert(Concat(Spaced(chunks)))
  {
    hide Inert, ReadLiteral, ReadChars, Quoted, AssignmentHead;
    var head := AssignmentHead(name, indent);
    var single := head + Quoted(chunks[0]);
    assert head <= single && single[|head|..] == Quoted(chunks[0]);
    ReadQuoted(chunks[0]);
    ReadInert(chunks[0]);
    assert Spaced(chunks) == [chunks[0]] && [chunks[0]][1..] == [];
    assert Concat([chunks[0]]) == chunks[0] + "" == chunks[0];
  }

  lemma LongReadsBackIff(name: string, chunks: seq<string>, indent: nat)
    requires indent + 11 <= LINE_LENGTH && chunks != [] && forall c <- chunks :: |c| <= ChunkBudget(indent)
    ensures var lines :=
        [AssignmentHead(name, indent) + "("] + PlainLines(Spaced(chunks), indent + 4) + [Spaces(indent) + ")"];
      && (ReadAssignment(lines, name, indent) == Some(Concat(Spaced(chunks))) <==> Inert(Concat(Spaced(chunks))))
      && FitsBudget(lines[1..]) && |lines| > 1
  {
    hide Inert, ReadLines, ReadLiteral, ReadChars, Quoted, PlainLines, AssignmentHead, Concat, Spaced;
    var plain := PlainLines(Spaced(chunks), indent + 4);
    PlainLinesFit(chunks, indent);
    var lines := [AssignmentHead(name, indent) + "("] + plain + [Spaces(indent) + ")"];
    assert lines[1..|lines| - 1] == plain && lines[1..] == plain + [Spaces(indent) + ")"];
    ReadPlainLines(Spaced(chunks), indent + 4);
    InertSpaced(chunks);
  }

  lemma PlainLinesFit(chunks: seq<string>, indent: nat)
    requires indent + 11 <= LINE_LENGTH && forall c <- chunks :: |c| <= ChunkBudget(indent)
    ensures FitsBudget(PlainLines(Spaced(chunks), indent + 4))
    ensures |PlainLines(Spaced(chunks), indent + 4)| == |chunks|
  {
    var spaced := Spaced(chunks);
    forall line | line in PlainLines(spaced, indent + 4) ensures |line| <= LINE_LENGTH {
      var i :| 0 <= i < |spaced| && line == Spaces(indent + 4) + Quoted(spaced[i]);
      assert chunks[i] in chunks;
    }
  }

  /** A quote in the text is enough to lose it. */
  lemma {:induction false} QuoteIsNotInert(s: string)
    requires '\"' in s
    ensures !Inert(s)
    decreases |s|
  {
    if s[0] == '\\' {
      if |s| >= 2 && InertAfterBackslash(s[1]) { QuoteIsNotInert(s[2..]); }
    } else if s[0] != '\"' {
      QuoteIsNotInert(s[1..]);
    }
  }

  /** A text that is one quote is not assigned. */
  lemma LoneQuoteIsLost(name: string, indent: nat)
    requires indent + 11 <= LINE_LENGTH
    ensures FitTokens("\"", ChunkBudget(indent)) == "\""
    ensures ReadAssignment(LiteralAssignment(name, "\"", indent), name, indent) != Some("\"")
  {
    assert WordRun("\"") == 1 && "\""[1..] == "" && "\""[..1] == "\"";
    assert SplitWords("") == [];
    assert SplitWords("\"") == ["\""];
    assert FitTokens("\"", ChunkBudget(indent)) == "\"";
    hide FitTokens, LiteralAssignment, ReadAssignment, SplitWords;
    AssignmentReadsBackIff(name, "\"", indent);
    QuoteIsNotInert("\"");
  }

  // ----- clipping -----

  /** A word within the budget is kept; a longer one is cut to the budget and ends in an ellipsis. */
  lemma ClipShape(w: string, budget: nat)
    requires 3 <= budget
    ensures var c := ClipWord(w, budget);
      && (|w| <= budget ==> c == w)
      && (|w| > budget ==> |c| == budget && c[..budget - 3] == w[..budget - 3] && c[budget - 3..] == "...")
  {
  }

  /** Clipping keeps the number of words, and every word that fits. */
  lemma FitTokensOfWords(text: string, budget: nat)
    requires 3 <= budget && forall w <- SplitWords(text) :: |w| <= budget
    ensures FitTokens(text, budget) == Join(" ", SplitWords(text))
  {
    var words := SplitWords(text);
    hide SplitWords, Join;
    assert ClipWords(words, budget) == words by {
      forall i | 0 <= i < |words| ensures ClipWord(words[i], budget) == words[i] { assert words[i] in words; }
    }
  }
}
