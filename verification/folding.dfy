/** Folding text to one line of plain punctuation, and which texts that leaves as they are. */
module Folding {
  import opened Text

  /** Typographic punctuation folded to ASCII. */
  function FoldChar(c: char): string {
    match c as int
    case 0x2013 => "-"
    case 0x2014 => "-"
    case 0x2018 => "'"
    case 0x2019 => "'"
    case 0x201C => "\""
    case 0x201D => "\""
    case 0x2026 => "..."
    case 0x00A0 => " "
    case _ => [c]
  }

  function Translate(text: string): string {
    if text == "" then "" else FoldChar(text[0]) + Translate(text[1..])
  }

  /** What `str.split()` treats as white space. */
  predicate IsSpace(c: char) {
    var n := c as int;
    || 9 <= n <= 13 || 28 <= n <= 32 || n == 0x85 || n == 0xA0 || n == 0x1680
    || 0x2000 <= n <= 0x200A || n == 0x2028 || n == 0x2029 || n == 0x202F || n == 0x205F || n == 0x3000
  }

  predicate IsWordText(w: string) {
    w != "" && forall c <- w :: !IsSpace(c)
  }

  /** `text.split()`: the maximal runs of non-space characters. */
  function SplitWords(text: string): (words: seq<string>)
    ensures forall w <- words :: IsWordText(w)
  {
    if text == "" then []
    else if IsSpace(text[0]) then SplitWords(text[1..])
    else
      var n := WordRun(text);
      [text[..n]] + SplitWords(text[n..])
  }

  /** Length of the leading run of non-space characters. */
  function WordRun(text: string): (n: nat)
    ensures n <= |text| && forall i :: 0 <= i < n ==> !IsSpace(text[i])
    ensures text != "" && !IsSpace(text[0]) ==> n > 0
  {
    if text == "" || IsSpace(text[0]) then 0 else 1 + WordRun(text[1..])
  }

  function FoldedWords(text: string): seq<string> { SplitWords(Translate(text)) }

  /** `ascii_fold`: folded punctuation, single spaces. */
  function AsciiFold(text: string): string { Join(" ", FoldedWords(text)) }

  // ----- what folding leaves alone -----

  /** No folded punctuation, and white space only as single spaces between words. */
  predicate IsPlain(text: string) {
    && (forall c <- text :: PlainChar(c))
    && (text != "" ==> text[0] != ' ' && text[|text| - 1] != ' ')
    && (forall i :: 0 <= i < |text| - 1 ==> !(text[i] == ' ' && text[i + 1] == ' '))
  }

  predicate PlainChar(c: char) { FoldChar(c) == [c] && (IsSpace(c) ==> c == ' ') }

  lemma {:induction false} TranslateFixes(text: string)
    requires forall c <- text :: PlainChar(c)
    ensures Translate(text) == text
  {
    if text != "" {
      assert text[0] in text;
      TranslateFixes(text[1..]);
      assert text == [text[0]] + text[1..];
    }
  }

  lemma {:induction false} RunEnds(text: string)
    ensures WordRun(text) < |text| ==> IsSpace(text[WordRun(text)])
  {
    hide IsSpace;
    if text != "" && !IsSpace(text[0]) { RunEnds(text[1..]); }
  }

  lemma {:induction false} WordsOfPlain(text: string)
    requires IsPlain(text)
    ensures Join(" ", SplitWords(text)) == text
    ensures text != "" ==> SplitWords(text) != []
    decreases |text|
  {
    if text != "" {
      RunEnds(text);
      PlainStart(text);
      var n := WordRun(text);
      if n < |text| {
        PlainTail(text, n);
        WordsOfPlain(text[n + 1..]);
        hide IsSpace, IsPlain, WordRun;
        FirstWord(text, n, SplitWords(text[n + 1..]));
      } else {
        hide IsSpace, IsPlain, WordRun;
        assert text[..n] == text && text[n..] == "";
        assert SplitWords(text) == [text] + SplitWords("");
      }
    }
  }

  lemma PlainStart(text: string)
    requires IsPlain(text) && text != ""
    ensures !IsSpace(text[0])
    ensures forall i :: 0 <= i < |text| && IsSpace(text[i]) ==> text[i] == ' '
  {
    hide IsSpace, FoldChar;
    forall i | 0 <= i < |text| && IsSpace(text[i]) ensures text[i] == ' ' { assert PlainChar(text[i]); }
  }

  /** A first word, one space, and the rest. */
  lemma FirstWord(text: string, n: nat, rest: seq<string>)
    requires text != "" && !IsSpace(text[0]) && n == WordRun(text) < |text| && IsSpace(' ') && text[n] == ' '
    requires rest == SplitWords(text[n + 1..]) && rest != [] && Join(" ", rest) == text[n + 1..]
    ensures SplitWords(text) == [text[..n]] + rest && Join(" ", SplitWords(text)) == text
  {
    hide IsSpace, WordRun, SplitWords;
    assert SplitWords(text) == [text[..n]] + SplitWords(text[n..]) by { FirstSplit(text); }
    assert text[n..][1..] == text[n + 1..];
    assert SplitWords(text[n..]) == rest by { SpaceSplit(text[n..]); }
    var words := [text[..n]] + rest;
    assert words[0] == text[..n] && words[1..] == rest;
    assert Join(" ", words) == text[..n] + " " + Join(" ", rest);
  }

  lemma FirstSplit(text: string)
    requires text != "" && !IsSpace(text[0])
    ensures SplitWords(text) == [text[..WordRun(text)]] + SplitWords(text[WordRun(text)..])
  {
    hide IsSpace, WordRun;
  }

  lemma SpaceSplit(text: string)
    requires text != "" && IsSpace(text[0])
    ensures SplitWords(text) == SplitWords(text[1..])
  {
    hide IsSpace, WordRun;
  }

  lemma PlainTail(text: string, n: nat)
    requires IsPlain(text) && n < |text| && IsSpace(text[n])
    ensures text[n] == ' ' && n + 1 < |text| && IsPlain(text[n + 1..])
  {
    hide FoldChar, IsSpace;
    assert PlainChar(text[n]);
    hide PlainChar;
    assert text[n + 1] != ' ';
  }

  lemma PlainIsFixed(text: string)
    requires IsPlain(text)
    ensures AsciiFold(text) == text
  {
    hide SplitWords, Join, PlainChar;
    TranslateFixes(text);
    WordsOfPlain(text);
  }

  lemma {:induction false} TranslateIsFolded(text: string)
    ensures forall c <- Translate(text) :: FoldChar(c) == [c]
  {
    if text != "" { TranslateIsFolded(text[1..]); }
  }

  lemma {:induction false} WordsKeepChars(text: string, w: string, c: char)
    requires w in SplitWords(text) && c in w
    ensures c in text
    decreases |text|
  {
    hide IsSpace;
    if text != "" {
      if IsSpace(text[0]) {
        WordsKeepChars(text[1..], w, c);
      } else {
        var n := WordRun(text);
        if w != text[..n] { WordsKeepChars(text[n..], w, c); }
      }
    }
  }

  lemma {:induction false} JoinedIsPlain(words: seq<string>)
    requires forall w <- words :: IsWordText(w) && forall c <- w :: PlainChar(c)
    ensures IsPlain(Join(" ", words)) && (words != [] ==> Join(" ", words) != "")
  {
    hide FoldChar, IsSpace;
    if |words| == 1 {
      WordIsPlain(words[0]);
    } else if words != [] {
      var rest := Join(" ", words[1..]);
      assert forall w <- words[1..] :: w in words;
      JoinedIsPlain(words[1..]);
      WordIsPlain(words[0]);
      PlainConcat(words[0], rest);
    }
  }

  lemma WordIsPlain(w: string)
    requires IsWordText(w) && forall c <- w :: PlainChar(c)
    ensures IsPlain(w)
  {
    assert IsSpace(' ');
    forall i | 0 <= i < |w| ensures w[i] != ' ' { assert w[i] in w && !IsSpace(w[i]); }
  }

  lemma PlainConcat(a: string, b: string)
    requires IsPlain(a) && IsPlain(b) && a != "" && b != ""
    ensures IsPlain(a + " " + b)
  {
    hide FoldChar;
    assert PlainChar(' ') by { SpaceIsPlain(); }
    hide PlainChar;
    var t := a + " " + b;
    forall c | c in t ensures PlainChar(c) { assert c in a || c == ' ' || c in b; }
    forall i | 0 <= i < |t| - 1 ensures !(t[i] == ' ' && t[i + 1] == ' ') {
      if i < |a| - 1 {
        assert t[i] == a[i] && t[i + 1] == a[i + 1];
      } else if i > |a| {
        assert t[i] == b[i - |a| - 1] && t[i + 1] == b[i - |a|];
      }
    }
  }

  lemma SpaceIsPlain()
    ensures PlainChar(' ')
  {
  }

  /** Whatever the text, what it folds to is plain. */
  lemma FoldIsPlain(text: string)
    ensures IsPlain(AsciiFold(text))
  {
    var words := FoldedWords(text);
    TranslateIsFolded(text);
    forall w, c | w in words && c in w ensures PlainChar(c) {
      WordsKeepChars(Translate(text), w, c);
    }
    hide SplitWords, Join, FoldChar, PlainChar, IsPlain;
    JoinedIsPlain(words);
  }

  /** Folding leaves a text as it is exactly when the text is plain. */
  lemma FoldFixesIff(text: string)
    ensures AsciiFold(text) == text <==> IsPlain(text)
  {
    hide AsciiFold, IsPlain;
    FoldIsPlain(text);
    if IsPlain(text) { PlainIsFixed(text); }
  }

  lemma FoldIdempotent(text: string)
    ensures AsciiFold(AsciiFold(text)) == AsciiFold(text)
  {
    hide AsciiFold, IsPlain;
    FoldIsPlain(text);
    PlainIsFixed(AsciiFold(text));
  }

  /** What sanitizing leaves of a name is plain. */
  lemma SnakeIsPlain(name: string)
    requires AllSnake(name)
    ensures IsPlain(name)
  {
    assert !IsSnake(' ');
    forall i | 0 <= i < |name| ensures PlainChar(name[i]) && name[i] != ' ' { assert name[i] in name; }
  }

  /** A name followed by a space folds to the name. */
  lemma TrailingSpaceFolds(name: string)
    requires AllSnake(name) && name != ""
    ensures AsciiFold(name + " ") == name
  {
    var text := name + " ";
    forall c | c in text ensures PlainChar(c) { assert c == ' ' || c in name; }
    TranslateFixes(text);
    RunBeforeSpace(name);
    assert text[..|name|] == name && text[|name|..] == " " && " "[1..] == "";
    assert SplitWords("") == [] && SplitWords(" ") == [];
    assert SplitWords(text) == [name] + SplitWords(" ");
  }

  lemma {:induction false} RunBeforeSpace(name: string)
    requires AllSnake(name)
    ensures WordRun(name + " ") == |name|
  {
    if name == "" {
      assert name + " " == " ";
    } else {
      assert (name + " ")[1..] == name[1..] + " " && (name + " ")[0] == name[0] && name[0] in name;
      RunBeforeSpace(name[1..]);
    }
  }

  // ----- what folding keeps -----

  /** The text without its white space. */
  function Visible(text: string): string {
    if text == "" then "" else (if IsSpace(text[0]) then "" else [text[0]]) + Visible(text[1..])
  }

  lemma {:induction false} VisibleConcat(a: string, b: string)
    ensures Visible(a + b) == Visible(a) + Visible(b)
  {
    hide IsSpace;
    if a == "" {
      assert a + b == b;
    } else {
      assert (a + b)[1..] == a[1..] + b;
      VisibleConcat(a[1..], b);
    }
  }

  lemma {:induction false} VisibleWords(text: string)
    ensures Visible(Join(" ", SplitWords(text))) == Visible(text)
    decreases |text|
  {
    hide IsSpace;
    if text != "" {
      if IsSpace(text[0]) {
        VisibleWords(text[1..]);
      } else {
        var n := WordRun(text);
        VisibleWords(text[n..]);
        assert text == text[..n] + text[n..];
        VisibleConcat(text[..n], text[n..]);
        VisibleJoin(text[..n], SplitWords(text[n..]));
      }
    }
  }

  lemma VisibleJoin(word: string, rest: seq<string>)
    ensures Visible(Join(" ", [word] + rest)) == Visible(word) + Visible(Join(" ", rest))
  {
    hide IsSpace, Visible;
    assert ([word] + rest)[1..] == rest;
    assert Visible(" ") == "" by { SpaceIsInvisible(); }
    VisibleConcat(word, " ");
    VisibleConcat(word + " ", Join(" ", rest));
    assert Visible("") == "" by { SpaceIsInvisible(); }
  }

  lemma SpaceIsInvisible()
    ensures Visible(" ") == "" && Visible("") == ""
  {
  }

  /** Folding keeps the text: apart from white space it only translates punctuation, character by character. */
  lemma FoldKeepsText(text: string)
    ensures Visible(AsciiFold(text)) == Visible(Translate(text))
    ensures Translate("") == ""
    ensures forall a, c, b :: text == a + [c] + b ==> Translate(text) == Translate(a) + FoldChar(c) + Translate(b)
  {
    hide SplitWords, Visible, FoldChar, Join;
    VisibleWords(Translate(text));
    forall a, c, b | text == a + [c] + b ensures Translate(text) == Translate(a) + FoldChar(c) + Translate(b) {
      TranslateAt(a, c, b);
    }
  }

  lemma {:induction false} TranslateAt(a: string, c: char, b: string)
    ensures Translate(a + [c] + b) == Translate(a) + FoldChar(c) + Translate(b)
  {
    hide FoldChar;
    var text := a + [c] + b;
    if a == "" {
      assert text[0] == c && text[1..] == b;
    } else {
      assert text[0] == a[0] && text[1..] == a[1..] + [c] + b;
      TranslateAt(a[1..], c, b);
    }
  }

  /** Dashes, curly quotes, the ellipsis and the hard space are folded, and nothing else is. */
  lemma FoldedMarks(c: char)
    ensures FoldChar(c) == "-" <==> c in "-\U{2013}\U{2014}"
    ensures FoldChar(c) == "'" <==> c in "'\U{2018}\U{2019}"
    ensures FoldChar(c) == "\"" <==> c in "\"\U{201C}\U{201D}"
    ensures FoldChar(c) == "..." <==> c == '\U{2026}'
    ensures FoldChar(c) == " " <==> c == ' ' || c == '\U{00A0}'
    ensures FoldChar(c) in ["-", "'", "\"", "...", " ", [c]]
  {
  }
}
