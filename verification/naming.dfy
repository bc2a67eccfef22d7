/** Identifier sanitizing and fresh-name generation of the model generator. */
module Naming {
  import opened Wrappers
  import opened Text

  // ----- snake_case -----

  /** `[^0-9A-Za-z]+` replaced by one underscore per run. */
  function FoldNonWord(s: string): string {
    if s == "" then ""
    else if IsAlnum(s[0]) then [s[0]] + FoldNonWord(s[1..])
    else "_" + FoldNonWord(s[NonWordRun(s)..])
  }

  /** Length of the leading run of non-alphanumeric characters. */
  function NonWordRun(s: string): (n: nat)
    ensures n <= |s|
    ensures s != "" && !IsAlnum(s[0]) ==> n > 0
    ensures n < |s| ==> IsAlnum(s[n])
  {
    if s == "" || IsAlnum(s[0]) then 0 else 1 + NonWordRun(s[1..])
  }

  /** Length of the leading run of lowercase letters. */
  function LowerRun(s: string): (n: nat)
    ensures n <= |s|
    ensures s != "" && IsLower(s[0]) ==> n > 0
  {
    if s == "" || !IsLower(s[0]) then 0 else 1 + LowerRun(s[1..])
  }

  /** `(.)([A-Z][a-z]+)` replaced by `\1_\2`, leftmost matches first, never overlapping. */
  function BreakBeforeWord(s: string): string {
    if s == "" then ""
    else if |s| >= 3 && IsUpper(s[1]) && IsLower(s[2]) then
      var end := 2 + LowerRun(s[2..]);
      [s[0]] + "_" + s[1..end] + BreakBeforeWord(s[end..])
    else [s[0]] + BreakBeforeWord(s[1..])
  }

  /** `([a-z0-9])([A-Z])` replaced by `\1_\2`. */
  function BreakCamel(s: string): string {
    if s == "" then ""
    else if |s| >= 2 && (IsLower(s[0]) || IsDigit(s[0])) && IsUpper(s[1]) then
      [s[0]] + "_" + [s[1]] + BreakCamel(s[2..])
    else [s[0]] + BreakCamel(s[1..])
  }

  /** `_+` replaced by `_`. */
  function CollapseUnderscores(s: string): string {
    if s == "" then ""
    else if |s| >= 2 && s[0] == '_' && s[1] == '_' then CollapseUnderscores(s[1..])
    else [s[0]] + CollapseUnderscores(s[1..])
  }

  function LStrip(s: string, c: char): string {
    if s != "" && s[0] == c then LStrip(s[1..], c) else s
  }

  function RStrip(s: string, c: char): string {
    if s != "" && s[|s| - 1] == c then RStrip(s[..|s| - 1], c) else s
  }

  function Strip(s: string, c: char): string {
    RStrip(LStrip(s, c), c)
  }

  function SnakeCase(name: string): string {
    Lower(Strip(CollapseUnderscores(BreakCamel(BreakBeforeWord(FoldNonWord(name)))), '_'))
  }

  /** No two underscores in a row. */
  predicate NoDoubled(s: string) {
    forall i :: 0 <= i < |s| - 1 ==> !(s[i] == '_' && s[i + 1] == '_')
  }

  /** Empty, or runs of lowercase letters and digits joined by single underscores. */
  predicate Canonical(s: string) {
    && AllSnake(s)
    && NoDoubled(s)
    && (s != "" ==> s[0] != '_' && s[|s| - 1] != '_')
  }

  lemma {:induction false} FoldNonWordIsWord(s: string)
    ensures AllWord(FoldNonWord(s))
    decreases |s|
  {
    if s != "" {
      if IsAlnum(s[0]) { FoldNonWordIsWord(s[1..]); } else { FoldNonWordIsWord(s[NonWordRun(s)..]); }
    }
  }

  lemma {:induction false} BreakBeforeWordIsWord(s: string)
    requires AllWord(s)
    ensures AllWord(BreakBeforeWord(s))
    decreases |s|
  {
    if s != "" {
      if |s| >= 3 && IsUpper(s[1]) && IsLower(s[2]) {
        BreakBeforeWordIsWord(s[2 + LowerRun(s[2..])..]);
      } else {
        BreakBeforeWordIsWord(s[1..]);
      }
    }
  }

  lemma {:induction false} BreakCamelIsWord(s: string)
    requires AllWord(s)
    ensures AllWord(BreakCamel(s))
    decreases |s|
  {
    if s != "" {
      if |s| >= 2 && (IsLower(s[0]) || IsDigit(s[0])) && IsUpper(s[1]) {
        BreakCamelIsWord(s[2..]);
      } else {
        BreakCamelIsWord(s[1..]);
      }
    }
  }

  lemma {:induction false} CollapseIsSingle(s: string)
    requires AllWord(s)
    ensures AllWord(CollapseUnderscores(s)) && NoDoubled(CollapseUnderscores(s))
    ensures s != "" ==> CollapseUnderscores(s) != "" && CollapseUnderscores(s)[0] == s[0]
  {
    if s != "" {
      CollapseIsSingle(s[1..]);
    }
  }

  lemma {:induction false} LStripShape(s: string)
    requires AllWord(s) && NoDoubled(s)
    ensures var r := LStrip(s, '_'); AllWord(r) && NoDoubled(r) && (r != "" ==> r[0] != '_')
  {
    if s != "" && s[0] == '_' { LStripShape(s[1..]); }
  }

  lemma {:induction false} RStripShape(s: string)
    requires AllWord(s) && NoDoubled(s) && (s != "" ==> s[0] != '_')
    ensures var r := RStrip(s, '_');
            AllWord(r) && NoDoubled(r) && (r != "" ==> r[0] != '_' && r[|r| - 1] != '_')
  {
    if s != "" && s[|s| - 1] == '_' { RStripShape(s[..|s| - 1]); }
  }

  /** Sanitizing always ends in canonical form. */
  lemma SnakeCaseCanonical(name: string)
    ensures Canonical(SnakeCase(name))
  {
    FoldNonWordIsWord(name);
    var a := BreakBeforeWord(FoldNonWord(name));
    BreakBeforeWordIsWord(FoldNonWord(name));
    BreakCamelIsWord(a);
    var b := BreakCamel(a);
    CollapseIsSingle(b);
    LStripShape(CollapseUnderscores(b));
    RStripShape(LStrip(CollapseUnderscores(b), '_'));
    var r := Strip(CollapseUnderscores(b), '_');
    forall i | 0 <= i < |Lower(r)| ensures IsSnake(Lower(r)[i]) && (Lower(r)[i] == '_' <==> r[i] == '_') {
      assert r[i] in r;
    }
  }

  /** On a canonical string every pass of the sanitizer is the identity. */
  lemma {:induction false} PassesFixCanonical(s: string)
    requires AllSnake(s) && NoDoubled(s)
    ensures BreakBeforeWord(s) == s && BreakCamel(s) == s && CollapseUnderscores(s) == s
  {
    if s != "" {
      PassesFixCanonical(s[1..]);
      assert s == [s[0]] + s[1..];
      assert |s| >= 2 ==> s[1] in s;
    }
  }

  lemma {:induction false} FoldFixesCanonical(s: string)
    requires AllSnake(s) && NoDoubled(s) && (s != "" ==> s[|s| - 1] != '_')
    ensures FoldNonWord(s) == s
  {
    if s != "" {
      FoldFixesCanonical(s[1..]);
      assert s == [s[0]] + s[1..];
      assert s[0] in s;
      if s[0] == '_' {
        assert s[1] in s && NonWordRun(s[1..]) == 0;
      }
    }
  }

  /** A canonical name is a fixed point, so sanitizing twice is sanitizing once. */
  lemma SnakeCaseFixesCanonical(s: string)
    requires Canonical(s)
    ensures SnakeCase(s) == s
  {
    FoldFixesCanonical(s);
    PassesFixCanonical(s);
    hide FoldNonWord, BreakBeforeWord, BreakCamel, CollapseUnderscores;
    assert LStrip(s, '_') == s && RStrip(s, '_') == s;
    assert Lower(s) == s by {
      assert forall i :: 0 <= i < |s| ==> s[i] in s;
    }
  }

  lemma SnakeCaseIdempotent(name: string)
    ensures SnakeCase(SnakeCase(name)) == SnakeCase(name)
  {
    SnakeCaseCanonical(name);
    SnakeCaseFixesCanonical(SnakeCase(name));
  }

  // ----- field names -----

  /** `keyword.iskeyword` or `keyword.issoftkeyword`. */
  const KEYWORDS: set<string> := {
    "False", "None", "True", "and", "as", "assert", "async", "await", "break", "class", "continue",
    "def", "del", "elif", "else", "except", "finally", "for", "from", "global", "if", "import", "in",
    "is", "lambda", "nonlocal", "not", "or", "pass", "raise", "return", "try", "while", "with",
    "yield", "_", "case", "match", "type"
  }

  const PYDANTIC_ATTRIBUTES: set<string> := {
    "construct", "copy", "dict", "from_orm", "json", "model_computed_fields", "model_config",
    "model_construct", "model_copy", "model_dump", "model_dump_json", "model_extra", "model_fields",
    "model_fields_set", "model_json_schema", "model_parametrized_name", "model_post_init",
    "model_rebuild", "model_validate", "model_validate_json", "model_validate_strings", "parse_file",
    "parse_obj", "parse_raw", "schema", "schema_json", "update_forward_refs", "validate"
  }

  /** Names a model field may not carry: keywords, the pydantic surface, and `self`. */
  predicate Reserved(name: string) {
    IsKeyword(name) || IsPydanticAttribute(name) || name == "self"
  }

  predicate IsKeyword(name: string) { name in KEYWORDS }

  predicate IsPydanticAttribute(name: string) { name in PYDANTIC_ATTRIBUTES }

  function PythonFieldName(wireName: string): string {
    var snake := SnakeCase(wireName);
    var base := if snake == "" then "field" else if IsDigit(snake[0]) then "field_" + snake else snake;
    var safe := if IsKeyword(base) || IsPydanticAttribute(base) then base + "_" else base;
    if safe == "self" then "self_" else safe
  }

  /** What a field may be called: a snake-case identifier starting with a letter, and not reserved. */
  predicate LegalFieldName(name: string) {
    name != "" && IsLower(name[0]) && AllSnake(name) && !Reserved(name)
  }

  /** No keyword ends in `Node`, and none ends in a digit. */
  lemma LongNodeNameNotKeyword(name: string)
    ensures !IsKeyword(name + "Node")
  {
    var out := name + "Node";
    assert out[|out| - 1] == 'e' && out[|out| - 2] == 'd' && out[|out| - 3] == 'o';
  }

  lemma KeywordEndsInLetter(name: string)
    requires IsKeyword(name) && |name| >= 2
    ensures IsLower(name[|name| - 1])
  {
  }

  /** Every reserved field-like name ends in a letter, or is the lone underscore. */
  lemma ReservedEndsInLetter(name: string)
    requires Reserved(name) && |name| >= 2
    ensures IsLower(name[|name| - 1])
  {
  }

  lemma PythonFieldNameLegal(wireName: string)
    ensures LegalFieldName(PythonFieldName(wireName))
  {
    hide IsKeyword, IsPydanticAttribute;
    var snake := SnakeCase(wireName);
    SnakeCaseCanonical(wireName);
    var base := if snake == "" then "field" else if IsDigit(snake[0]) then "field_" + snake else snake;
    assert AllSnake(base) && IsLower(base[0]) by {
      if snake != "" { assert snake[0] in snake; }
    }
    assert !Reserved(base + "_") by {
      if Reserved(base + "_") { ReservedEndsInLetter(base + "_"); }
    }
    var out := PythonFieldName(wireName);
    assert out == base || out == base + "_" || out == "self_";
    if base == "self" { assert base + "_" == "self_"; }
  }

  // ----- class names -----

  function Capitalize(part: string): string {
    if part == "" then "" else [UpperChar(part[0])] + part[1..]
  }

  /** `"".join(capitalized part for each nonempty part)`. */
  function JoinCapitalized(parts: seq<string>): string {
    if parts == [] then "" else Capitalize(parts[0]) + JoinCapitalized(parts[1..])
  }

  function CamelCase(name: string): string {
    JoinCapitalized(Split(SnakeCase(name), '_'))
  }

  function PythonClassName(hint: string): string {
    var camel := CamelCase(hint);
    var name := if camel == "" || IsDigit(camel[0]) then "Node" + camel else camel;
    if IsKeyword(name) then name + "Node" else name
  }

  /** What a class may be called: an identifier with a capital first letter, and not a keyword. */
  predicate LegalClassName(name: string) {
    name != "" && IsUpper(name[0]) && AllWord(name) && !IsKeyword(name)
  }

  predicate AllAlnum(s: string) { forall c <- s :: IsAlnum(c) }

  /** The pieces of a snake-case string carry lowercase letters and digits only. */
  lemma {:induction false} SplitSnake(s: string)
    requires AllSnake(s)
    ensures forall p <- Split(s, '_') :: forall c <- p :: IsLower(c) || IsDigit(c)
  {
    var parts := Split(s, '_');
    JoinSplit(s, '_');
    forall p, c | p in parts && c in p ensures IsLower(c) || IsDigit(c) {
      var i :| 0 <= i < |parts| && parts[i] == p;
      PieceOfJoin(parts, i, c);
    }
  }

  lemma {:induction false} PieceOfJoin(parts: seq<string>, i: nat, c: char)
    requires i < |parts| && c in parts[i]
    ensures c in Join("_", parts)
  {
    if i > 0 { PieceOfJoin(parts[1..], i - 1, c); }
  }

  lemma {:induction false} JoinCapitalizedShape(parts: seq<string>)
    requires forall p <- parts :: forall c <- p :: IsLower(c) || IsDigit(c)
    ensures var r := JoinCapitalized(parts);
            AllAlnum(r) && (r != "" ==> IsUpper(r[0]) || IsDigit(r[0]))
  {
    if parts != [] {
      assert forall p <- parts[1..] :: p in parts;
      JoinCapitalizedShape(parts[1..]);
      assert parts[0] in parts;
      var head := Capitalize(parts[0]);
      forall c | c in head ensures IsAlnum(c) {
        if c != head[0] { assert c in parts[0]; } else { assert parts[0][0] in parts[0]; }
      }
      if parts[0] != "" { assert parts[0][0] in parts[0]; }
    }
  }

  lemma PythonClassNameLegal(hint: string)
    ensures LegalClassName(PythonClassName(hint))
  {
    hide IsKeyword, SnakeCase, Split, JoinCapitalized;
    SnakeCaseCanonical(hint);
    SplitSnake(SnakeCase(hint));
    JoinCapitalizedShape(Split(SnakeCase(hint), '_'));
    var camel := CamelCase(hint);
    var name := if camel == "" || IsDigit(camel[0]) then "Node" + camel else camel;
    assert AllAlnum(name) && IsUpper(name[0]);
    var out := PythonClassName(hint);
    if IsKeyword(name) {
      LongNodeNameNotKeyword(name);
    }
  }

  // ----- fresh names -----

  /** The `n`-th spelling tried for a name: the name itself, then `_2`, `_3`, ... up to `_999`. */
  function Candidate(name: string, n: nat): string {
    if n <= 1 then name else name + "_" + Decimal(n)
  }

  const LAST_SUFFIX: nat := 999

  predicate IsFirstFree(r: string, name: string, taken: set<string>) {
    exists n: nat :: 1 <= n <= LAST_SUFFIX && FirstFreeAt(r, name, taken, n)
  }

  predicate FirstFreeAt(r: string, name: string, taken: set<string>, n: nat) {
    && r == Candidate(name, n)
    && r !in taken
    && forall k: nat :: 1 <= k < n ==> Candidate(name, k) in taken
  }

  /** Every spelling is taken: the one case in which disambiguation gives up. */
  predicate Exhausted(name: string, taken: set<string>) {
    forall k: nat :: 1 <= k <= LAST_SUFFIX ==> Candidate(name, k) in taken
  }

  /** First writer keeps the name; later collisions get `_2`, `_3`, ... */
  method Dedupe(name: string, taken: set<string>) returns (r: Option<string>, taken': set<string>)
    ensures r.Some? ==> IsFirstFree(r.value, name, taken) && taken' == taken + {r.value}
    ensures r.None? <==> Exhausted(name, taken)
    ensures r.None? ==> taken' == taken
  {
    assert Candidate(name, 1) == name;
    if name !in taken {
      assert FirstFreeAt(name, name, taken, 1);
      return Some(name), taken + {name};
    }
    var suffix := 2;
    while suffix < 1000
      invariant 2 <= suffix <= 1000
      invariant forall k: nat :: 1 <= k < suffix ==> Candidate(name, k) in taken
    {
      var candidate := name + "_" + Decimal(suffix);
      assert candidate == Candidate(name, suffix);
      if candidate !in taken {
        assert FirstFreeAt(candidate, name, taken, suffix);
        return Some(candidate), taken + {candidate};
      }
      suffix := suffix + 1;
    }
    return None, taken;
  }

  lemma CandidateInjective(name: string, m: nat, n: nat)
    requires 1 <= m && 1 <= n && Candidate(name, m) == Candidate(name, n)
    ensures m == n
  {
    var cm, cn := Candidate(name, m), Candidate(name, n);
    if m > 1 && n > 1 {
      assert cm[|name| + 1..] == Decimal(m) && cn[|name| + 1..] == Decimal(n);
      DecimalInjective(m, n);
    }
  }

  /** Giving up takes at least 999 names already in use. */
  lemma ExhaustedIsCrowded(name: string, taken: set<string>)
    requires Exhausted(name, taken)
    ensures |taken| >= LAST_SUFFIX
  {
    CandidatesCounted(name, taken, LAST_SUFFIX);
  }

  lemma {:induction false} CandidatesCounted(name: string, taken: set<string>, n: nat)
    requires forall k: nat :: 1 <= k <= n ==> Candidate(name, k) in taken
    ensures |taken| >= n
  {
    if n > 0 {
      var last := Candidate(name, n);
      forall k: nat | 1 <= k <= n - 1 ensures Candidate(name, k) in taken - {last} {
        if Candidate(name, k) == last { CandidateInjective(name, k, n); }
      }
      CandidatesCounted(name, taken - {last}, n - 1);
    }
  }

  /** Disambiguating a legal field name gives a legal field name. */
  lemma FreshFieldLegal(r: string, wireName: string, taken: set<string>)
    requires IsFirstFree(r, PythonFieldName(wireName), taken)
    ensures LegalFieldName(r) && r !in taken
  {
    hide IsKeyword, IsPydanticAttribute;
    PythonFieldNameLegal(wireName);
    var base := PythonFieldName(wireName);
    var n: nat :| 1 <= n <= LAST_SUFFIX && FirstFreeAt(r, base, taken, n);
    if n > 1 {
      var d := Decimal(n);
      assert IsDigit(d[|d| - 1]) by { assert d[|d| - 1] in d; }
      assert r[|r| - 1] == d[|d| - 1];
      if Reserved(r) { ReservedEndsInLetter(r); assert false; }
    }
  }

  lemma FreshClassLegal(r: string, hint: string, taken: set<string>)
    requires IsFirstFree(r, PythonClassName(hint), taken)
    ensures LegalClassName(r) && r !in taken
  {
    hide IsKeyword;
    PythonClassNameLegal(hint);
    var base := PythonClassName(hint);
    var n: nat :| 1 <= n <= LAST_SUFFIX && FirstFreeAt(r, base, taken, n);
    if n > 1 {
      var d := Decimal(n);
      assert IsDigit(d[|d| - 1]) by { assert d[|d| - 1] in d; }
      assert r[|r| - 1] == d[|d| - 1];
      if IsKeyword(r) { KeywordEndsInLetter(r); assert false; }
    }
  }
}
