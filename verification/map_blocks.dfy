/** Blocks of `properties` whose names are data: recognising them, and unifying their example values. */
module MapBlocks {
  import opened Text
  import opened JsonValues

  // ----- which property names are data -----

  predicate IsNePk(name: string) {
    var parts := Split(name, '.');
    && |parts| == 2
    && 1 <= |parts[0]| <= 10 && AllDigits(parts[0])
    && 1 <= |parts[1]| <= 10 && AllWord(parts[1])
  }

  predicate IsIpv4(name: string) {
    var parts := Split(name, '.');
    |parts| == 4 && forall p <- parts :: 1 <= |p| <= 3 && AllDigits(p)
  }

  /** A regular expression's `$` also matches just before a final newline. */
  function DropFinalNewline(name: string): string {
    if name != "" && name[|name| - 1] == '\n' then name[..|name| - 1] else name
  }

  predicate IsMapKey(name: string) {
    && name != ""
    && (|| AllDigits(name)
        || name[0] == '<'
        || name[|name| - 1] == '>'
        || IsNePk(DropFinalNewline(name))
        || IsIpv4(DropFinalNewline(name)))
  }

  /** A block is a mapping when every one of its names is data, a record otherwise. */
  predicate IsMapBlock(properties: seq<Member>) {
    properties != [] && forall m <- properties :: IsMapKey(m.key)
  }

  /** An appliance key spelled out: digits, a dot, and a short word, perhaps before a final newline. */
  predicate SpellsNePk(name: string, a: string, b: string) {
    && 1 <= |a| <= 10 && AllDigits(a) && 1 <= |b| <= 10 && AllWord(b)
    && (name == a + "." + b || name == a + "." + b + "\n")
  }

  /** An address spelled out: four groups of one to three digits, perhaps before a final newline. */
  predicate SpellsIpv4(name: string, groups: seq<string>) {
    && |groups| == 4 && (forall g <- groups :: 1 <= |g| <= 3 && AllDigits(g))
    && (name == Join(".", groups) || name == Join(".", groups) + "\n")
  }

  lemma NewlineDropped(body: string)
    requires body != "" && body[|body| - 1] != '\n'
    ensures DropFinalNewline(body) == body && DropFinalNewline(body + "\n") == body
  {
    assert (body + "\n")[..|body|] == body;
  }

  lemma NewlineKept(name: string)
    ensures name == DropFinalNewline(name) || name == DropFinalNewline(name) + "\n"
  {
  }

  lemma {:induction false} NePkIff(name: string)
    ensures IsNePk(DropFinalNewline(name)) <==> exists a, b :: SpellsNePk(name, a, b)
  {
    var body := DropFinalNewline(name);
    NewlineKept(name);
    JoinSplit(body, '.');
    var parts := Split(body, '.');
    if IsNePk(body) {
      assert parts == [parts[0], parts[1]] && [parts[0], parts[1]][1..] == [parts[1]];
      assert Join(".", parts) == parts[0] + "." + parts[1];
      assert SpellsNePk(name, parts[0], parts[1]);
    }
    if a, b :| SpellsNePk(name, a, b) { NePkSpelled(name, a, b); }
  }

  lemma {:induction false} NePkSpelled(name: string, a: string, b: string)
    requires SpellsNePk(name, a, b)
    ensures IsNePk(DropFinalNewline(name))
  {
    var s := a + ['.'] + b;
    assert b[|b| - 1] in b && s[|s| - 1] == b[|b| - 1];
    NewlineDropped(s);
    assert '.' !in a && '.' !in b;
    SplitAt(a, b, '.');
    SplitWithout(b, '.');
    hide Split;
  }

  lemma {:induction false} Ipv4Iff(name: string)
    ensures IsIpv4(DropFinalNewline(name)) <==> exists groups :: SpellsIpv4(name, groups)
  {
    var body := DropFinalNewline(name);
    NewlineKept(name);
    JoinSplit(body, '.');
    if IsIpv4(body) { assert SpellsIpv4(name, Split(body, '.')); }
    if groups :| SpellsIpv4(name, groups) {
      forall g | g in groups ensures '.' !in g && '\n' !in g && g != "" {}
      hide AllDigits;
      SplitJoin(groups, '.');
      LastOfJoin(groups);
      NewlineDropped(Join(".", groups));
    }
  }

  lemma {:induction false} LastOfJoin(groups: seq<string>)
    requires groups != [] && forall g <- groups :: g != "" && '\n' !in g
    ensures var j := Join(".", groups); j != "" && j[|j| - 1] != '\n'
  {
    assert groups[0] in groups && groups[0][|groups[0]| - 1] in groups[0];
    if |groups| > 1 {
      assert forall g <- groups[1..] :: g in groups;
      LastOfJoin(groups[1..]);
    }
  }

  /** A name is data exactly when it is all digits, bracketed on one side, an appliance key, or an address. */
  lemma MapKeyIff(name: string)
    ensures IsMapKey(name) <==>
      && name != ""
      && (|| (forall c <- name :: '0' <= c <= '9')
          || name[0] == '<' || name[|name| - 1] == '>'
          || (exists a, b :: SpellsNePk(name, a, b))
          || (exists groups :: SpellsIpv4(name, groups)))
  {
    NePkIff(name);
    Ipv4Iff(name);
    hide IsNePk, IsIpv4, SpellsNePk, SpellsIpv4, DropFinalNewline;
  }

  // ----- collapsing equal examples -----

  ghost function Markers(schemas: seq<Json>): set<Marker> {
    set s | s in schemas :: MarkerOf(s)
  }

  predicate Seen(schemas: seq<Json>, schema: Json) {
    exists s <- schemas :: MarkerOf(s) == MarkerOf(schema)
  }

  /** The first spelling of every distinct schema, in order. */
  function Distinct(schemas: seq<Json>): seq<Json> {
    if schemas == [] then []
    else
      var init := Distinct(schemas[..|schemas| - 1]);
      var last := schemas[|schemas| - 1];
      if Seen(init, last) then init else init + [last]
  }

  lemma {:induction false} DistinctMembers(schemas: seq<Json>)
    ensures forall s <- Distinct(schemas) :: s in schemas
    ensures schemas != [] ==> Distinct(schemas) != [] && Distinct(schemas)[0] == schemas[0]
  {
    hide MarkerOf;
    if schemas != [] {
      DistinctMembers(schemas[..|schemas| - 1]);
    }
  }

  lemma {:induction false} DistinctMarkers(schemas: seq<Json>)
    ensures Markers(Distinct(schemas)) == Markers(schemas)
    ensures |Distinct(schemas)| == |Markers(schemas)|
  {
    hide MarkerOf;
    if schemas != [] {
      var prefix, last := schemas[..|schemas| - 1], schemas[|schemas| - 1];
      DistinctMarkers(prefix);
      assert schemas == prefix + [last];
      MarkersAppend(prefix, last);
      MarkersAppend(Distinct(prefix), last);
      SeenByMarkers(Distinct(prefix), last);
      hide Markers;
    }
  }

  lemma SeenByMarkers(schemas: seq<Json>, schema: Json)
    ensures Seen(schemas, schema) <==> MarkerOf(schema) in Markers(schemas)
  {
    hide MarkerOf;
  }

  lemma DistinctCovers(schemas: seq<Json>)
    ensures forall s <- Distinct(schemas) :: s in schemas
    ensures Markers(Distinct(schemas)) == Markers(schemas)
    ensures |Distinct(schemas)| == |Markers(schemas)|
    ensures schemas != [] ==> Distinct(schemas) != [] && Distinct(schemas)[0] == schemas[0]
  {
    DistinctMembers(schemas);
    DistinctMarkers(schemas);
  }

  lemma MarkersAppend(schemas: seq<Json>, last: Json)
    ensures Markers(schemas + [last]) == Markers(schemas) + {MarkerOf(last)}
  {
    hide MarkerOf;
    assert last in schemas + [last];
    assert forall s :: s in schemas ==> s in schemas + [last];
  }

  // ----- merging examples property by property -----

  predicate HasProperties(schema: Json) {
    Get(schema, "properties").Some? && Get(schema, "properties").value.Obj?
  }

  function Properties(schema: Json): seq<Member>
    requires HasProperties(schema)
  {
    Get(schema, "properties").value.members
  }

  function SetDefault(acc: seq<Member>, m: Member): seq<Member> {
    if m.key in KeySet(acc) then acc else acc + [m]
  }

  function SetDefaults(acc: seq<Member>, ms: seq<Member>): seq<Member> {
    if ms == [] then acc
    else SetDefault(SetDefaults(acc, ms[..|ms| - 1]), ms[|ms| - 1])
  }

  /** Property-wise merge of object schemas, first spelling winning. */
  function Merged(schemas: seq<Json>): seq<Member>
    requires forall s <- schemas :: HasProperties(s)
  {
    if schemas == [] then []
    else
      assert forall s <- schemas[..|schemas| - 1] :: s in schemas;
      SetDefaults(Merged(schemas[..|schemas| - 1]), Properties(schemas[|schemas| - 1]))
  }

  lemma KeySetAppend(ms: seq<Member>, m: Member)
    ensures KeySet(ms + [m]) == KeySet(ms) + {m.key}
  {
    forall k | k in KeySet(ms) + {m.key} ensures k in KeySet(ms + [m]) {
      if k in KeySet(ms) {
        var i :| 0 <= i < |ms| && ms[i].key == k;
        assert (ms + [m])[i].key == k;
      } else {
        assert (ms + [m])[|ms|].key == k;
      }
    }
  }

  lemma {:induction false} SetDefaultsShape(acc: seq<Member>, ms: seq<Member>)
    requires UniqueKeys(acc)
    ensures var r := SetDefaults(acc, ms);
      && UniqueKeys(r)
      && KeySet(r) == KeySet(acc) + KeySet(ms)
      && acc <= r
      && forall i :: |acc| <= i < |r| ==> r[i] in ms && r[i].key !in KeySet(acc)
  {
    if ms != [] {
      var init, last := ms[..|ms| - 1], ms[|ms| - 1];
      SetDefaultsShape(acc, init);
      assert ms == init + [last];
      KeySetAppend(init, last);
      KeySetAppend(SetDefaults(acc, init), last);
      assert forall m <- init :: m in ms;
      assert last in ms;
    }
  }

  /** Every merged property is the spelling some example gave it; the first example always wins. */
  lemma {:induction false} MergedShape(schemas: seq<Json>)
    requires forall s <- schemas :: HasProperties(s)
    ensures UniqueKeys(Merged(schemas))
    ensures forall m <- Merged(schemas) :: exists s <- schemas :: m in Properties(s)
    ensures forall s <- schemas :: KeySet(Properties(s)) <= KeySet(Merged(schemas))
    ensures schemas != [] ==>
      forall m <- Merged(schemas) :: m.key in KeySet(Properties(schemas[0])) ==> m in Properties(schemas[0])
  {
    if schemas != [] {
      var init, last := schemas[..|schemas| - 1], schemas[|schemas| - 1];
      assert schemas == init + [last];
      MergedShape(init);
      var acc := Merged(init);
      SetDefaultsShape(acc, Properties(last));
      var r := Merged(schemas);
      forall m | m in r
        ensures exists s <- schemas :: m in Properties(s)
        ensures m.key in KeySet(Properties(schemas[0])) ==> m in Properties(schemas[0])
      {
        var i :| 0 <= i < |r| && r[i] == m;
        if i < |acc| {
          assert m in acc;
          var s :| s in init && m in Properties(s);
          assert s in schemas;
        } else {
          assert last in schemas && m in Properties(last);
        }
      }
    }
  }

  // ----- sorting -----

  predicate SortedKeys(ms: seq<Member>) {
    forall i, j :: 0 <= i < j < |ms| ==> Less(ms[i].key, ms[j].key)
  }

  function InsertMember(m: Member, ms: seq<Member>): seq<Member> {
    if ms == [] then [m]
    else if Less(m.key, ms[0].key) then [m] + ms
    else [ms[0]] + InsertMember(m, ms[1..])
  }

  /** `sorted(d.items())` for a dict: keys are distinct, so values never decide. */
  function SortMembers(ms: seq<Member>): seq<Member> {
    if ms == [] then [] else InsertMember(ms[0], SortMembers(ms[1..]))
  }

  lemma {:induction false} InsertShape(m: Member, ms: seq<Member>)
    requires SortedKeys(ms) && m.key !in KeySet(ms)
    ensures var r := InsertMember(m, ms);
      SortedKeys(r) && KeySet(r) == KeySet(ms) + {m.key} && forall x :: x in r <==> x == m || x in ms
  {
    if ms == [] {
      assert KeySet([m]) == {m.key} by { assert [m][0].key == m.key; }
    } else {
      var rest := ms[1..];
      assert ms == [ms[0]] + rest;
      forall k ensures k in KeySet(rest) ==> k in KeySet(ms) {
        if k in KeySet(rest) { var i :| 0 <= i < |rest| && rest[i].key == k; assert ms[i + 1].key == k; }
      }
      assert ms[0].key in KeySet(ms);
      LessTrichotomy(m.key, ms[0].key);
      if Less(m.key, ms[0].key) {
        forall j | 0 <= j < |ms| ensures Less(m.key, ms[j].key) {
          if j > 0 { LessTransitive(m.key, ms[0].key, ms[j].key); }
        }
      } else {
        InsertShape(m, rest);
        var ins := InsertMember(m, rest);
        forall i | 0 <= i < |ins| ensures Less(ms[0].key, ins[i].key) {
          assert ins[i] in ins;
          if ins[i] != m {
            var j :| 0 <= j < |rest| && rest[j] == ins[i];
            assert ms[j + 1] == ins[i];
          }
        }
      }
      KeySetByMembership(InsertMember(m, ms), ms, m);
    }
  }

  lemma KeySetByMembership(r: seq<Member>, ms: seq<Member>, m: Member)
    requires forall x :: x in r <==> x == m || x in ms
    ensures KeySet(r) == KeySet(ms) + {m.key}
  {
    forall k | k in KeySet(r) ensures k in KeySet(ms) + {m.key} {
      var i :| 0 <= i < |r| && r[i].key == k;
      assert r[i] in r;
    }
    forall k | k in KeySet(ms) + {m.key} ensures k in KeySet(r) {
      if k == m.key { assert m in r; } else {
        var i :| 0 <= i < |ms| && ms[i].key == k;
        assert ms[i] in r;
      }
    }
  }

  lemma {:induction false} SortShape(ms: seq<Member>)
    requires UniqueKeys(ms)
    ensures var r := SortMembers(ms);
      SortedKeys(r) && UniqueKeys(r) && KeySet(r) == KeySet(ms) && forall x :: x in r <==> x in ms
  {
    if ms != [] {
      var rest := ms[1..];
      assert ms == [ms[0]] + rest;
      SortShape(rest);
      assert ms[0].key !in KeySet(rest);
      InsertShape(ms[0], SortMembers(rest));
      KeySetByMembership(ms, rest, ms[0]);
      var r := SortMembers(ms);
      forall i, j | 0 <= i < j < |r| ensures r[i].key != r[j].key {
        LessTrichotomy(r[i].key, r[j].key);
      }
    }
  }

  lemma AtMember(ms: seq<Member>, m: Member)
    requires UniqueKeys(ms) && m in ms
    ensures m.key in KeySet(ms) && At(ms, m.key) == m.value
  {
    var i :| 0 <= i < |ms| && ms[i] == m;
    AtIndex(ms, i);
  }

  // ----- the single schema for a map's values -----

  const ANYTHING: Json := Obj([])

  function ObjectSchema(properties: seq<Member>): Json {
    Obj([Member("type", Str("object")), Member("properties", Obj(properties))])
  }

  function Unify(schemas: seq<Json>): Json {
    var distinct := Distinct(schemas);
    if distinct == [] then ANYTHING
    else if |distinct| == 1 then distinct[0]
    else if forall s <- distinct :: HasProperties(s) then ObjectSchema(SortMembers(Merged(distinct)))
    else ANYTHING
  }

  /** The source's loops compute `Unify`. */
  method UnifyMapValues(schemas: seq<Json>) returns (r: Json)
    ensures r == Unify(schemas)
  {
    var distinct: seq<Json> := [];
    for i := 0 to |schemas|
      invariant distinct == Distinct(schemas[..i])
    {
      assert schemas[..i + 1][..i] == schemas[..i];
      if !Seen(distinct, schemas[i]) {
        distinct := distinct + [schemas[i]];
      }
    }
    assert schemas[..|schemas|] == schemas;
    if distinct == [] { return ANYTHING; }
    if |distinct| == 1 { return distinct[0]; }
    if !forall s <- distinct :: HasProperties(s) { return ANYTHING; }
    var merged: seq<Member> := [];
    for i := 0 to |distinct|
      invariant forall s <- distinct[..i] :: HasProperties(s)
      invariant merged == Merged(distinct[..i])
    {
      assert distinct[..i + 1][..i] == distinct[..i];
      assert forall s <- distinct[..i + 1] :: s in distinct;
      var properties := Properties(distinct[i]);
      ghost var before := merged;
      for j := 0 to |properties|
        invariant merged == SetDefaults(before, properties[..j])
      {
        assert properties[..j + 1][..j] == properties[..j];
        merged := SetDefault(merged, properties[j]);
      }
      assert properties[..|properties|] == properties;
    }
    assert distinct[..|distinct|] == distinct;
    r := ObjectSchema(SortMembers(merged));
  }

  lemma ObjectSchemaProperties(properties: seq<Member>)
    ensures HasProperties(ObjectSchema(properties)) && Properties(ObjectSchema(properties)) == properties
  {
    var ms := ObjectSchema(properties).members;
    assert ms[1].key == "properties" && UniqueKeys(ms);
    AtIndex(ms, 1);
  }

  lemma PropertiesValid(schema: Json)
    requires ValidJson(schema) && HasProperties(schema)
    ensures UniqueKeys(Properties(schema)) && forall m <- Properties(schema) :: ValidJson(m.value)
  {
    GetValid(schema, "properties");
  }

  lemma UnifyValid(schemas: seq<Json>)
    requires forall s <- schemas :: ValidJson(s)
    ensures ValidJson(Unify(schemas))
  {
    var distinct := Distinct(schemas);
    DistinctCovers(schemas);
    if |distinct| >= 2 && forall s <- distinct :: HasProperties(s) {
      MergedShape(distinct);
      SortShape(Merged(distinct));
      forall m | m in SortMembers(Merged(distinct)) ensures ValidJson(m.value) {
        var s :| s in distinct && m in Properties(s);
        PropertiesValid(s);
      }
    }
  }

  /** Depth of a schema's property, as seen from the schema. */
  lemma PropertyDepth(schema: Json, m: Member)
    requires HasProperties(schema) && m in Properties(schema)
    ensures Depth(m.value) + 2 <= Depth(schema)
  {
    AtDepth(schema.members, "properties");
    var ps := Properties(schema);
    var i :| 0 <= i < |ps| && ps[i] == m;
    MemberDepth(ps, i);
  }

  lemma MergedDepth(schemas: seq<Json>, d: nat)
    requires schemas != [] && forall s <- schemas :: HasProperties(s) && Depth(s) <= d
    ensures d >= 2 && Depth(ObjectSchema(SortMembers(Merged(schemas)))) <= d
  {
    hide Get, Merged, SortMembers;
    MergedShape(schemas);
    var merged := Merged(schemas);
    SortShape(merged);
    var sorted := SortMembers(merged);
    PropertiesDepth(schemas[0]);
    assert schemas[0] in schemas;
    forall i | 0 <= i < |sorted| ensures Depth(sorted[i].value) <= d - 2 {
      assert sorted[i] in sorted;
      var s :| s in schemas && sorted[i] in Properties(s);
      PropertyDepth(s, sorted[i]);
    }
    ObjectSchemaDepth(sorted, d - 2);
  }

  lemma PropertiesDepth(schema: Json)
    requires HasProperties(schema)
    ensures Depth(schema) >= 2
  {
    AtDepth(schema.members, "properties");
  }

  /**
   * The unified schema is not a part of any example, yet never nests deeper than the deepest one
   * (or than the empty schema, when no example nests at all).
   */
  lemma UnifyDepth(schemas: seq<Json>, d: nat)
    requires 1 <= d && forall s <- schemas :: Depth(s) <= d
    ensures Depth(Unify(schemas)) <= d
  {
    hide Depth, HasProperties, Merged, SortMembers;
    DistinctMembers(schemas);
    assert Depth(ANYTHING) == 1 by { AnythingDepth(); }
    if |Distinct(schemas)| >= 2 && forall s <- Distinct(schemas) :: HasProperties(s) {
      MergedDepth(Distinct(schemas), d);
    }
  }

  lemma AnythingDepth()
    ensures Depth(ANYTHING) == 1
  {
  }

  lemma ObjectSchemaDepth(properties: seq<Member>, d: nat)
    requires forall i :: 0 <= i < |properties| ==> Depth(properties[i].value) <= d
    ensures Depth(ObjectSchema(properties)) <= d + 2
  {
    MembersDepthBound(properties, d);
    MembersDepthBound(ObjectSchema(properties).members, d + 1);
  }

  // ----- when the merge is independent of order -----

  /** Two examples that both document a property spell it the same, key order aside. */
  ghost predicate SharedAgree(schemas: seq<Json>) {
    forall s, t, k ::
      s in schemas && t in schemas && HasProperties(s) && HasProperties(t)
      && k in KeySet(Properties(s)) && k in KeySet(Properties(t))
      ==> MarkerOf(At(Properties(s), k)) == MarkerOf(At(Properties(t), k))
  }

  /** The examples are merged: at least two differ, and all of them list properties. */
  ghost predicate Merges(schemas: seq<Json>) {
    |Distinct(schemas)| >= 2 && forall s <- Distinct(schemas) :: HasProperties(s)
  }

  ghost predicate BlockAgrees(schemas: seq<Json>) {
    Merges(schemas) ==> SharedAgree(schemas)
  }

  lemma MarkerHasProperties(s: Json, t: Json)
    requires MarkerOf(s) == MarkerOf(t)
    ensures HasProperties(s) == HasProperties(t)
    ensures HasProperties(s) ==>
      && KeySet(Properties(s)) == KeySet(Properties(t))
      && forall k <- KeySet(Properties(s)) ::
           MarkerOf(At(Properties(s), k)) == MarkerOf(At(Properties(t), k))
  {
    MarkerGet(s, t, "properties");
    if HasProperties(s) {
      MarkerMembers(Get(s, "properties").value, Get(t, "properties").value);
    } else if HasProperties(t) {
      MarkerMembers(Get(t, "properties").value, Get(s, "properties").value);
    }
  }

  /** Each example has a counterpart with the same marker in any list with the same markers. */
  lemma Counterpart(xs: seq<Json>, ys: seq<Json>, x: Json) returns (y: Json)
    requires Markers(xs) == Markers(ys) && x in xs
    ensures y in ys && MarkerOf(y) == MarkerOf(x)
  {
    assert MarkerOf(x) in Markers(xs);
    y :| y in ys && MarkerOf(y) == MarkerOf(x);
  }

  lemma MergesByMarkers(xs: seq<Json>, ys: seq<Json>)
    requires Markers(xs) == Markers(ys)
    ensures |Distinct(xs)| == |Distinct(ys)|
    ensures Merges(xs) ==> Merges(ys)
    ensures (forall s <- Distinct(xs) :: HasProperties(s)) ==> forall s <- Distinct(ys) :: HasProperties(s)
  {
    DistinctCovers(xs);
    DistinctCovers(ys);
    if forall s <- Distinct(xs) :: HasProperties(s) {
      forall y | y in Distinct(ys) ensures HasProperties(y) {
        var x := Counterpart(Distinct(ys), Distinct(xs), y);
        MarkerHasProperties(x, y);
      }
    }
  }

  /** Whatever order the examples come in, the merged spelling of a property has their common marker. */
  lemma MergedMarker(xs: seq<Json>, s: Json, k: string)
    requires (forall x <- xs :: HasProperties(x)) && SharedAgree(xs)
    requires s in xs && k in KeySet(Properties(s))
    requires forall x <- xs :: UniqueKeys(Properties(x))
    ensures k in KeySet(SortMembers(Merged(xs)))
    ensures MarkerOf(At(SortMembers(Merged(xs)), k)) == MarkerOf(At(Properties(s), k))
  {
    MergedShape(xs);
    var merged := Merged(xs);
    SortShape(merged);
    var sorted := SortMembers(merged);
    assert k in KeySet(sorted);
    var i := IndexOf(sorted, k);
    assert sorted[i] in sorted;
    var x :| x in xs && sorted[i] in Properties(x);
    AtMember(Properties(x), sorted[i]);
    AtMember(sorted, sorted[i]);
  }

  lemma SharedAgreeDistinct(xs: seq<Json>)
    requires SharedAgree(xs)
    ensures SharedAgree(Distinct(xs))
  {
    DistinctCovers(xs);
  }

  lemma SharedAgreeByMarkers(xs: seq<Json>, ys: seq<Json>)
    requires Markers(xs) == Markers(ys) && SharedAgree(xs)
    ensures SharedAgree(ys)
  {
    forall s, t, k | s in ys && t in ys && HasProperties(s) && HasProperties(t)
      && k in KeySet(Properties(s)) && k in KeySet(Properties(t))
      ensures MarkerOf(At(Properties(s), k)) == MarkerOf(At(Properties(t), k))
    {
      var s' := Counterpart(ys, xs, s);
      var t' := Counterpart(ys, xs, t);
      MarkerHasProperties(s, s');
      MarkerHasProperties(t, t');
      assert MarkerOf(At(Properties(s'), k)) == MarkerOf(At(Properties(t'), k));
    }
  }

  /** Merged property lists over the same markers: same names, same markers. */
  lemma MergedByMarkers(xs: seq<Json>, ys: seq<Json>)
    requires Markers(xs) == Markers(ys) && SharedAgree(xs)
    requires forall x <- xs :: HasProperties(x) && UniqueKeys(Properties(x))
    requires forall y <- ys :: HasProperties(y) && UniqueKeys(Properties(y))
    ensures MarkerOf(ObjectSchema(SortMembers(Merged(xs)))) == MarkerOf(ObjectSchema(SortMembers(Merged(ys))))
  {
    SharedAgreeByMarkers(xs, ys);
    MergedKeysByMarkers(xs, ys);
    MergedKeysByMarkers(ys, xs);
    var a, b := SortMembers(Merged(xs)), SortMembers(Merged(ys));
    forall k | k in KeySet(a) ensures MarkerOf(At(a, k)) == MarkerOf(At(b, k)) {
      var x := MergedSource(xs, k);
      MergedMarker(xs, x, k);
      var y := Counterpart(xs, ys, x);
      MarkerHasProperties(x, y);
      MergedMarker(ys, y, k);
    }
    MarkerFromMembers(Obj(a), Obj(b));
    ObjectSchemaMarker(a, b);
  }

  lemma MergedSource(xs: seq<Json>, k: string) returns (x: Json)
    requires (forall x <- xs :: HasProperties(x))
    requires k in KeySet(SortMembers(Merged(xs)))
    ensures x in xs && k in KeySet(Properties(x))
  {
    MergedShape(xs);
    SortShape(Merged(xs));
    var sorted := SortMembers(Merged(xs));
    var i := IndexOf(sorted, k);
    assert sorted[i] in sorted;
    x :| x in xs && sorted[i] in Properties(x);
  }

  lemma MergedKeysByMarkers(xs: seq<Json>, ys: seq<Json>)
    requires Markers(xs) == Markers(ys)
    requires (forall x <- xs :: HasProperties(x)) && (forall y <- ys :: HasProperties(y))
    ensures KeySet(SortMembers(Merged(xs))) <= KeySet(SortMembers(Merged(ys)))
  {
    MergedShape(ys);
    SortShape(Merged(ys));
    forall k | k in KeySet(SortMembers(Merged(xs))) ensures k in KeySet(SortMembers(Merged(ys))) {
      var x := MergedSource(xs, k);
      var y := Counterpart(xs, ys, x);
      MarkerHasProperties(x, y);
    }
  }

  lemma ObjectSchemaMarker(a: seq<Member>, b: seq<Member>)
    requires MarkerOf(Obj(a)) == MarkerOf(Obj(b))
    ensures MarkerOf(ObjectSchema(a)) == MarkerOf(ObjectSchema(b))
  {
    var ma, mb := ObjectSchema(a).members, ObjectSchema(b).members;
    assert UniqueKeys(ma) && UniqueKeys(mb);
    forall k | k in KeySet(ma) ensures k in KeySet(mb) && MarkerOf(At(ma, k)) == MarkerOf(At(mb, k)) {
      var i := IndexOf(ma, k);
      assert mb[i].key == k;
      AtIndex(ma, i);
      AtIndex(mb, i);
    }
    forall k | k in KeySet(mb) ensures k in KeySet(ma) {
      var i := IndexOf(mb, k);
      assert ma[i].key == k;
    }
    assert KeySet(ma) == KeySet(mb);
    MarkerFromMembers(ObjectSchema(a), ObjectSchema(b));
  }

  lemma UnifyMergedByMarkers(xs: seq<Json>, ys: seq<Json>)
    requires Markers(xs) == Markers(ys) && SharedAgree(xs) && Merges(xs) && Merges(ys)
    requires (forall x <- xs :: ValidJson(x)) && (forall y <- ys :: ValidJson(y))
    ensures MarkerOf(Unify(xs)) == MarkerOf(Unify(ys))
  {
    hide MarkerOf, SharedAgree, Get;
    var dx, dy := Distinct(xs), Distinct(ys);
    DistinctCovers(xs);
    DistinctCovers(ys);
    SharedAgreeDistinct(xs);
    forall s | s in dx ensures UniqueKeys(Properties(s)) { PropertiesValid(s); }
    forall s | s in dy ensures UniqueKeys(Properties(s)) { PropertiesValid(s); }
    MergedByMarkers(dx, dy);
  }

  lemma UnifySingleByMarkers(xs: seq<Json>, ys: seq<Json>)
    requires Markers(xs) == Markers(ys) && |Distinct(xs)| == 1
    ensures |Distinct(ys)| == 1 && MarkerOf(Unify(xs)) == MarkerOf(Unify(ys))
  {
    hide MarkerOf;
    DistinctMarkers(xs);
    DistinctMarkers(ys);
    assert Distinct(xs)[0] in Distinct(xs);
    assert MarkerOf(Distinct(xs)[0]) in Markers(Distinct(ys));
  }

  /** Agreeing examples unify to one schema, key order aside, however they are ordered or repeated. */
  lemma UnifyByMarkers(xs: seq<Json>, ys: seq<Json>)
    requires Markers(xs) == Markers(ys) && BlockAgrees(xs)
    requires (forall x <- xs :: ValidJson(x)) && (forall y <- ys :: ValidJson(y))
    ensures MarkerOf(Unify(xs)) == MarkerOf(Unify(ys))
    ensures BlockAgrees(ys)
  {
    hide MarkerOf, SharedAgree, ValidJson, HasProperties, Merged, SortMembers;
    MergesByMarkers(xs, ys);
    MergesByMarkers(ys, xs);
    if |Distinct(xs)| == 1 {
      UnifySingleByMarkers(xs, ys);
    } else if Merges(xs) {
      SharedAgreeByMarkers(xs, ys);
      UnifyMergedByMarkers(xs, ys);
    }
  }

  /** Putting one example first makes its spelling of `k` the merged one. */
  lemma FirstSpellingWins(xs: seq<Json>, s: Json, k: string)
    requires Merges(xs) && s in xs && HasProperties(s) && k in KeySet(Properties(s))
    requires forall x <- xs :: ValidJson(x)
    ensures Markers([s] + xs) == Markers(xs)
    ensures var u := Unify([s] + xs);
      HasProperties(u) && k in KeySet(Properties(u)) && At(Properties(u), k) == At(Properties(s), k)
  {
    var ys := [s] + xs;
    assert Markers(ys) == Markers(xs) by {
      forall m | m in Markers(xs) ensures m in Markers(ys) {
        var x :| x in xs && MarkerOf(x) == m;
        assert x in ys;
      }
    }
    DistinctCovers(xs);
    DistinctCovers(ys);
    MergesByMarkers(xs, ys);
    var d := Distinct(ys);
    assert d[0] == s;
    MergedShape(d);
    SortShape(Merged(d));
    var sorted := SortMembers(Merged(d));
    ObjectSchemaProperties(sorted);
    assert k in KeySet(sorted);
    var i := IndexOf(sorted, k);
    assert sorted[i] in sorted && sorted[i] in Merged(d);
    PropertiesValid(s);
    AtMember(Properties(s), sorted[i]);
    AtMember(sorted, sorted[i]);
  }

  /** No reordering or repetition of the examples changes what they unify to, key order aside. */
  ghost predicate OrderFree(xs: seq<Json>) {
    forall ys :: Markers(ys) == Markers(xs) && (forall y <- ys :: ValidJson(y))
      ==> MarkerOf(Unify(ys)) == MarkerOf(Unify(xs))
  }

  lemma DisagreementShows(xs: seq<Json>, s: Json, t: Json, k: string)
    requires Merges(xs) && s in xs && t in xs && HasProperties(s) && HasProperties(t)
    requires k in KeySet(Properties(s)) && k in KeySet(Properties(t))
    requires MarkerOf(At(Properties(s), k)) != MarkerOf(At(Properties(t), k))
    requires forall x <- xs :: ValidJson(x)
    ensures Markers([s] + xs) == Markers(xs) == Markers([t] + xs)
    ensures MarkerOf(Unify([s] + xs)) != MarkerOf(Unify([t] + xs))
  {
    FirstSpellingWins(xs, s, k);
    FirstSpellingWins(xs, t, k);
    if MarkerOf(Unify([s] + xs)) == MarkerOf(Unify([t] + xs)) {
      MarkerHasProperties(Unify([s] + xs), Unify([t] + xs));
    }
  }

  lemma BreaksOrder(xs: seq<Json>, s: Json, t: Json, k: string)
    requires Merges(xs) && s in xs && t in xs && HasProperties(s) && HasProperties(t)
    requires k in KeySet(Properties(s)) && k in KeySet(Properties(t))
    requires MarkerOf(At(Properties(s), k)) != MarkerOf(At(Properties(t), k))
    requires forall x <- xs :: ValidJson(x)
    ensures !OrderFree(xs)
  {
    hide Merges, Unify, MarkerOf, ValidJson, HasProperties, Markers;
    DisagreementShows(xs, s, t, k);
    assert forall y <- [s] + xs :: ValidJson(y);
    assert forall y <- [t] + xs :: ValidJson(y);
  }

  lemma AgreeingIsOrderFree(xs: seq<Json>)
    requires BlockAgrees(xs) && forall x <- xs :: ValidJson(x)
    ensures OrderFree(xs)
  {
    forall ys | Markers(ys) == Markers(xs) && (forall y <- ys :: ValidJson(y))
      ensures MarkerOf(Unify(ys)) == MarkerOf(Unify(xs))
    {
      UnifyByMarkers(xs, ys);
    }
  }

  /**
   * Exactly when the merge does not depend on the order or repetition of its examples: when examples
   * that are merged agree on every property they share.
   */
  lemma MergeOrderFreeIffAgree(xs: seq<Json>)
    requires forall x <- xs :: ValidJson(x)
    ensures BlockAgrees(xs) <==> OrderFree(xs)
  {
    hide OrderFree, Merges, MarkerOf;
    if BlockAgrees(xs) {
      AgreeingIsOrderFree(xs);
    } else {
      var s, t, k :| s in xs && t in xs && HasProperties(s) && HasProperties(t)
        && k in KeySet(Properties(s)) && k in KeySet(Properties(t))
        && MarkerOf(At(Properties(s), k)) != MarkerOf(At(Properties(t), k));
      BreaksOrder(xs, s, t, k);
    }
  }

  /** Some example is not the first one in another key order. */
  predicate Differ(schemas: seq<Json>) {
    exists s <- schemas :: MarkerOf(s) != MarkerOf(schemas[0])
  }

  /**
   * What examples unify to: one of them where they are the same up to key order, nothing known where two
   * differ and one has no property list, and else a sorted record of what the first to mention a name says.
   */
  lemma UnifyCases(schemas: seq<Json>)
    requires forall s <- schemas :: ValidJson(s)
    ensures schemas == [] ==> Unify(schemas) == ANYTHING
    ensures schemas != [] && (forall s <- schemas :: MarkerOf(s) == MarkerOf(schemas[0])) ==>
      Unify(schemas) == schemas[0]
    ensures Differ(schemas) && (exists s <- schemas :: !HasProperties(s)) ==>
      Unify(schemas) == ANYTHING
    ensures Differ(schemas) && (forall s <- schemas :: HasProperties(s)) ==>
      var u := Unify(schemas);
      && HasProperties(u) && u == ObjectSchema(Properties(u)) && SortedKeys(Properties(u))
      && (forall k :: k in KeySet(Properties(u)) <==> exists s <- schemas :: k in KeySet(Properties(s)))
  {
    DistinctCovers(schemas);
    hide MarkerOf, Merged, SortMembers, Get;
    if schemas != [] {
      if forall s <- schemas :: MarkerOf(s) == MarkerOf(schemas[0]) {
        assert Markers(schemas) == {MarkerOf(schemas[0])} by { assert schemas[0] in schemas; }
      }
      if s :| s in schemas && MarkerOf(s) != MarkerOf(schemas[0]) {
        TwoMarkers(schemas, s);
        if x :| x in schemas && !HasProperties(x) {
          var y := Counterpart(schemas, Distinct(schemas), x);
          MarkerHasProperties(x, y);
        }
        if forall x <- schemas :: HasProperties(x) { UnifyKeys(schemas); }
      }
    }
  }

  lemma {:induction false} TwoMarkers(schemas: seq<Json>, s: Json)
    requires schemas != [] && s in schemas && MarkerOf(s) != MarkerOf(schemas[0])
    ensures |Distinct(schemas)| >= 2
  {
    hide MarkerOf, Distinct;
    DistinctCovers(schemas);
    var a, b := MarkerOf(schemas[0]), MarkerOf(s);
    assert schemas[0] in schemas && a in Markers(schemas) && b in Markers(schemas);
    var rest := Markers(schemas) - {a};
    assert b in rest && |rest| == |Markers(schemas)| - 1;
  }

  lemma UnifyKeys(schemas: seq<Json>)
    requires |Distinct(schemas)| >= 2 && forall s <- schemas :: HasProperties(s) && ValidJson(s)
    ensures var u := Unify(schemas);
      && HasProperties(u) && u == ObjectSchema(Properties(u)) && SortedKeys(Properties(u))
      && (forall k :: k in KeySet(Properties(u)) <==> exists s <- schemas :: k in KeySet(Properties(s)))
  {
    DistinctCovers(schemas);
    hide MarkerOf, Get, HasProperties, Distinct;
    var d := Distinct(schemas);
    MergedShape(d);
    SortShape(Merged(d));
    ObjectSchemaProperties(SortMembers(Merged(d)));
    var ps := SortMembers(Merged(d));
    forall s, k | s in schemas && k in KeySet(Properties(s)) ensures k in KeySet(ps) {
      var y := Counterpart(schemas, d, s);
      MarkerHasProperties(s, y);
    }
    forall k | k in KeySet(ps) ensures exists s <- schemas :: k in KeySet(Properties(s)) {
      var x := MergedSource(d, k);
    }
  }
}
