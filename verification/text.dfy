/** Characters, decimal numerals, splitting and joining: the string primitives the tools share. */
module Text {

  predicate IsUpper(c: char) { 'A' <= c <= 'Z' }

  predicate IsLower(c: char) { 'a' <= c <= 'z' }

  predicate IsDigit(c: char) { '0' <= c <= '9' }

  predicate IsAlnum(c: char) { IsUpper(c) || IsLower(c) || IsDigit(c) }

  predicate IsWord(c: char) { IsAlnum(c) || c == '_' }

  /** Lowercase letters, digits and underscores: all that is left of a name after sanitizing. */
  predicate IsSnake(c: char) { IsLower(c) || IsDigit(c) || c == '_' }

  function LowerChar(c: char): char {
    if IsUpper(c) then (c as int + 32) as char else c
  }

  function UpperChar(c: char): char {
    if IsLower(c) then (c as int - 32) as char else c
  }

  function Lower(s: string): string {
    seq(|s|, i requires 0 <= i < |s| => LowerChar(s[i]))
  }

  predicate AllDigits(s: string) { forall c <- s :: IsDigit(c) }

  predicate AllWord(s: string) { forall c <- s :: IsWord(c) }

  predicate AllSnake(s: string) { forall c <- s :: IsSnake(c) }

  /** A Python identifier over the ASCII alphabet. */
  predicate IsIdentifier(s: string) {
    s != "" && !IsDigit(s[0]) && AllWord(s)
  }

  function DigitChar(d: nat): char
    requires d < 10
  {
    ('0' as int + d) as char
  }

  /** The decimal numeral of `n`. */
  function Decimal(n: nat): (s: string)
    ensures s != "" && AllDigits(s)
  {
    if n < 10 then [DigitChar(n)] else Decimal(n / 10) + [DigitChar(n % 10)]
  }

  lemma {:induction false} DecimalInjective(m: nat, n: nat)
    requires Decimal(m) == Decimal(n)
    ensures m == n
  {
    var dm, dn := Decimal(m), Decimal(n);
    assert dm[|dm| - 1] == DigitChar(m % 10) && dn[|dn| - 1] == DigitChar(n % 10);
    if m >= 10 && n >= 10 {
      assert dm[..|dm| - 1] == Decimal(m / 10) && dn[..|dn| - 1] == Decimal(n / 10);
      DecimalInjective(m / 10, n / 10);
    }
  }

  /** `sep.join(parts)`. */
  function Join(sep: string, parts: seq<string>): string {
    if parts == [] then ""
    else if |parts| == 1 then parts[0]
    else parts[0] + sep + Join(sep, parts[1..])
  }

  /** `s.split(c)`: always at least one piece. */
  function Split(s: string, c: char): (parts: seq<string>)
    ensures |parts| >= 1
    ensures forall i :: 0 <= i < |parts| ==> c !in parts[i]
  {
    if s == "" then [""]
    else
      var rest := Split(s[1..], c);
      if s[0] == c then [""] + rest else [[s[0]] + rest[0]] + rest[1..]
  }

  lemma {:induction false} JoinSplit(s: string, c: char)
    ensures Join([c], Split(s, c)) == s
  {
    if s != "" {
      var rest := Split(s[1..], c);
      JoinSplit(s[1..], c);
      if s[0] == c {
        assert ([""] + rest)[1..] == rest;
      } else {
        var parts := [[s[0]] + rest[0]] + rest[1..];
        if |rest| > 1 {
          assert parts[1..] == rest[1..];
          assert Join([c], parts) == [s[0]] + (rest[0] + [c] + Join([c], rest[1..]));
        }
      }
    }
  }

  lemma {:induction false} SplitAt(a: string, b: string, c: char)
    requires c !in a
    ensures Split(a + [c] + b, c) == [a] + Split(b, c)
  {
    var s := a + [c] + b;
    if a == "" {
      assert s[1..] == b;
    } else {
      assert s[1..] == a[1..] + [c] + b && s[0] == a[0] && s[0] in a;
      SplitAt(a[1..], b, c);
      assert a == [a[0]] + a[1..];
    }
  }

  lemma {:induction false} SplitWithout(a: string, c: char)
    requires c !in a
    ensures Split(a, c) == [a]
  {
    if a != "" {
      assert a[0] in a;
      SplitWithout(a[1..], c);
      assert a == [a[0]] + a[1..];
    }
  }

  lemma {:induction false} SplitJoin(parts: seq<string>, c: char)
    requires parts != []
    requires forall i :: 0 <= i < |parts| ==> c !in parts[i]
    ensures Split(Join([c], parts), c) == parts
  {
    if |parts| == 1 {
      SplitWithout(parts[0], c);
    } else {
      var rest := parts[1..];
      assert forall i :: 0 <= i < |rest| ==> rest[i] == parts[i + 1];
      SplitJoin(rest, c);
      SplitAt(parts[0], Join([c], rest), c);
      assert parts == [parts[0]] + rest;
    }
  }

  lemma SplitStep(s: string, c: char)
    requires s != ""
    ensures var rest := Split(s[1..], c);
      Split(s, c) == if s[0] == c then [""] + rest else [[s[0]] + rest[0]] + rest[1..]
  {
  }

  lemma {:induction false} SplitConcat(a: string, b: string, c: char)
    ensures Split(a + [c] + b, c) == Split(a, c) + Split(b, c)
  {
    var s := a + [c] + b;
    if a == "" {
      assert s[1..] == b;
    } else {
      assert s[1..] == a[1..] + [c] + b && s[0] == a[0];
      SplitConcat(a[1..], b, c);
      SplitStep(s, c);
      SplitStep(a, c);
      hide Split;
      var rest, more := Split(a[1..], c), Split(b, c);
      if a[0] == c {
        Regrouped([""], rest, more);
      } else {
        assert (rest + more)[1..] == rest[1..] + more;
        Regrouped([[a[0]] + rest[0]], rest[1..], more);
      }
    }
  }

  lemma Regrouped<T>(a: seq<T>, b: seq<T>, c: seq<T>)
    ensures a + (b + c) == (a + b) + c
  {
  }

  lemma {:induction false} JoinConcat(sep: string, a: seq<string>, b: seq<string>)
    requires a != [] && b != []
    ensures Join(sep, a + b) == Join(sep, a) + sep + Join(sep, b)
  {
    if |a| == 1 {
      assert (a + b)[1..] == b;
    } else {
      assert (a + b)[1..] == a[1..] + b;
      JoinConcat(sep, a[1..], b);
    }
  }

  predicate OccursAt(text: string, part: string, i: nat) {
    i + |part| <= |text| && text[i..i + |part|] == part
  }

  predicate Contains(text: string, part: string) {
    exists i: nat :: i <= |text| && OccursAt(text, part, i)
  }

  /** `text.find(part, start)`. */
  function Find(text: string, part: string, start: nat): (r: int)
    requires start <= |text|
    ensures r == -1 || (start <= r <= |text| && OccursAt(text, part, r))
    ensures forall i: nat :: start <= i <= |text| && (r == -1 || i < r) ==> !OccursAt(text, part, i)
    decreases |text| - start
  {
    if OccursAt(text, part, start) then start
    else if start == |text| then -1
    else Find(text, part, start + 1)
  }

  /**
   * In text joined from lines, a line surrounded by newlines is found exactly when it is one of the
   * lines, and neither the first nor the last.
   */
  lemma ContainsLine(lines: seq<string>, line: string)
    requires lines != [] && (forall l <- lines :: '\n' !in l) && '\n' !in line
    ensures Contains(Join("\n", lines), "\n" + line + "\n") <==>
      exists i :: 0 < i < |lines| - 1 && lines[i] == line
  {
    hide Join, Split, OccursAt;
    if Contains(Join("\n", lines), "\n" + line + "\n") {
      var i := FoundLine(lines, line);
    }
    if i :| 0 < i < |lines| - 1 && lines[i] == line {
      InteriorLine(lines, i);
    }
  }

  lemma FoundLine(lines: seq<string>, line: string) returns (k: nat)
    requires lines != [] && (forall l <- lines :: '\n' !in l) && '\n' !in line
    requires Contains(Join("\n", lines), "\n" + line + "\n")
    ensures 0 < k < |lines| - 1 && lines[k] == line
  {
    hide Join, Split;
    var text, part := Join("\n", lines), "\n" + line + "\n";
    SplitJoin(lines, '\n');
    var i: nat :| i <= |text| && OccursAt(text, part, i);
    var a, b := text[..i], text[i + |part|..];
    assert text == a + part + b;
    assert part == ['\n'] + (line + ['\n']);
    assert text == a + ['\n'] + (line + ['\n'] + b);
    SplitConcat(a, line + ['\n'] + b, '\n');
    SplitAt(line, b, '\n');
    k := |Split(a, '\n')|;
  }

  lemma InteriorLine(lines: seq<string>, i: nat)
    requires 0 < i < |lines| - 1
    ensures Contains(Join("\n", lines), "\n" + lines[i] + "\n")
  {
    var line, after := [lines[i]], lines[i + 1..];
    assert lines == lines[..i] + (line + after);
    JoinConcat("\n", lines[..i], line + after);
    JoinConcat("\n", line, after);
    assert Join("\n", line) == lines[i];
    var a, l, b := Join("\n", lines[..i]), lines[i], Join("\n", after);
    hide Join;
    assert Join("\n", lines) == a + "\n" + (l + "\n" + b);
    OccursInside(a, "\n" + l + "\n", b);
    Regroup(a, "\n", l, b);
  }

  lemma Regroup(a: string, n: string, l: string, b: string)
    ensures a + n + (l + n + b) == a + (n + l + n) + b
  {
  }

  lemma OccursInside(a: string, part: string, b: string)
    ensures Contains(a + part + b, part)
  {
    var text := a + part + b;
    assert text[|a|..|a| + |part|] == part;
    assert OccursAt(text, part, |a|);
  }

  /** The line boundaries of `str.splitlines`. */
  predicate IsLineBreak(c: char) {
    var n := c as int;
    10 <= n <= 13 || 28 <= n <= 30 || n == 0x85 || n == 0x2028 || n == 0x2029
  }

  predicate Unbroken(s: string) { forall c <- s :: !IsLineBreak(c) }

  /** Length of the text before the first line boundary. */
  function LineRun(s: string): (n: nat)
    ensures n <= |s| && (n < |s| ==> IsLineBreak(s[n]))
  {
    if s == "" || IsLineBreak(s[0]) then 0 else 1 + LineRun(s[1..])
  }

  /** `s.splitlines()`: a carriage return and a newline count as one, and the last line may lack its end. */
  function SplitLines(s: string): seq<string> {
    if s == "" then []
    else
      var n := LineRun(s);
      if n == |s| then [s]
      else
        var end := if s[n] == '\r' && n + 1 < |s| && s[n + 1] == '\n' then n + 2 else n + 1;
        [s[..n]] + SplitLines(s[end..])
  }

  lemma {:induction false} UnbrokenRun(a: string, b: string)
    requires Unbroken(a)
    ensures LineRun(a + b) == |a| + LineRun(b)
  {
    if a == "" {
      assert a + b == b;
    } else {
      assert (a + b)[1..] == a[1..] + b && (a + b)[0] == a[0] && a[0] in a;
      UnbrokenRun(a[1..], b);
    }
  }

  lemma SplitFirstLine(a: string, b: string)
    requires Unbroken(a)
    ensures SplitLines(a + "\n" + b) == [a] + SplitLines(b)
    ensures a != "" ==> SplitLines(a) == [a]
  {
    var s := a + "\n" + b;
    assert s == a + ("\n" + b);
    UnbrokenRun(a, "\n" + b);
    assert s[..|a|] == a && s[|a| + 1..] == b && s[|a|] == '\n';
    UnbrokenRun(a, "");
    assert a + "" == a;
  }

  /** Unbroken lines joined by newlines are split off one by one, whatever follows them. */
  lemma {:induction false} SplitLeadingLines(lines: seq<string>, after: seq<string>)
    requires lines != [] && lines[|lines| - 1] != "" && forall l <- lines :: Unbroken(l)
    ensures SplitLines(Join("\n", lines + after)) == lines + if after == [] then [] else SplitLines(Join("\n", after))
  {
    hide SplitLines, Unbroken;
    var all, rest := lines + after, lines[1..];
    assert lines[0] in lines && forall l <- rest :: l in lines;
    assert all[1..] == rest + after && all[0] == lines[0];
    SplitFirstLine(lines[0], Join("\n", all[1..]));
    if |lines| == 1 {
      assert rest + after == after;
      if after == [] { assert all == [lines[0]]; }
    } else {
      SplitLeadingLines(rest, after);
      assert rest[|rest| - 1] == lines[|lines| - 1] && lines == [lines[0]] + rest;
    }
  }

  /** The number a decimal numeral stands for. */
  function DigitsValue(s: string): nat
    requires AllDigits(s)
  {
    if s == "" then 0
    else
      var last := s[|s| - 1];
      assert last in s && AllDigits(s[..|s| - 1]);
      10 * DigitsValue(s[..|s| - 1]) + (last as int - '0' as int)
  }

  lemma {:induction false} DecimalValue(n: nat)
    ensures DigitsValue(Decimal(n)) == n
  {
    var s := Decimal(n);
    if n >= 10 {
      assert s[..|s| - 1] == Decimal(n / 10);
      DecimalValue(n / 10);
    } else {
      assert s[..0] == "";
    }
  }

  /** Strict lexicographic order by code point: Python's `<` on `str`. */
  predicate Less(a: string, b: string) {
    b != "" && (a == "" || a[0] < b[0] || (a[0] == b[0] && Less(a[1..], b[1..])))
  }

  lemma {:induction false} LessTrichotomy(a: string, b: string)
    ensures a == b || Less(a, b) || Less(b, a)
    ensures !(Less(a, b) && Less(b, a))
    ensures !Less(a, a)
  {
    if a != "" {
      LessTrichotomy(a[1..], if b == "" then "" else b[1..]);
      if b != "" && a[0] == b[0] && a[1..] == b[1..] {
        assert a == [a[0]] + a[1..] && b == [b[0]] + b[1..];
      }
    }
  }

  lemma {:induction false} LessTransitive(a: string, b: string, c: string)
    requires Less(a, b) && Less(b, c)
    ensures Less(a, c)
  {
    if a != "" && a[0] == b[0] == c[0] {
      LessTransitive(a[1..], b[1..], c[1..]);
    }
  }

  /** The strings agree up to a place where the first ends or has the smaller character. */
  predicate FirstDiffersAt(a: string, b: string, n: nat) {
    && n <= |a| && n < |b| && a[..n] == b[..n]
    && (n == |a| || a[n] < b[n])
  }

  lemma {:induction false} LessIff(a: string, b: string)
    ensures Less(a, b) <==> exists n: nat :: FirstDiffersAt(a, b, n)
  {
    if Less(a, b) {
      if a != "" && !(a[0] < b[0]) {
        LessIff(a[1..], b[1..]);
        var n: nat :| FirstDiffersAt(a[1..], b[1..], n);
        assert a[..n + 1] == [a[0]] + a[1..][..n] && b[..n + 1] == [b[0]] + b[1..][..n];
        assert FirstDiffersAt(a, b, n + 1);
      } else {
        assert FirstDiffersAt(a, b, 0);
      }
    }
    if n: nat :| FirstDiffersAt(a, b, n) {
      if n > 0 {
        assert a[..n][0] == b[..n][0];
        assert a[1..][..n - 1] == a[..n][1..] && b[1..][..n - 1] == b[..n][1..];
        assert FirstDiffersAt(a[1..], b[1..], n - 1);
        LessIff(a[1..], b[1..]);
      }
    }
  }
}
