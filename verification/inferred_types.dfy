/** What a model inferred from an example payload accepts, told from the example alone. */
module InferredTypes {
  import opened Wrappers
  import opened Text
  import opened JsonValues
  import opened MapBlocks
  import opened WireTypes
  import opened Settling
  import opened Acceptance
  import opened Inference

  // ----- inference commutes with sorting and with merging -----

  lemma InferKeys(ms: seq<Member>)
    ensures KeySet(InferMembers(ms)) == KeySet(ms)
  {
    hide InferSchema;
    var inferred := InferMembers(ms);
    assert forall i :: 0 <= i < |ms| ==> inferred[i].key == ms[i].key;
  }

  lemma InferAppend(ms: seq<Member>, m: Member)
    ensures InferMembers(ms + [m]) == InferMembers(ms) + [Member(m.key, InferSchema(m.value))]
    ensures InferMembers([m] + ms) == [Member(m.key, InferSchema(m.value))] + InferMembers(ms)
  {
    hide InferSchema;
  }

  lemma {:induction false} InsertInfer(m: Member, ms: seq<Member>)
    ensures InsertMember(Member(m.key, InferSchema(m.value)), InferMembers(ms)) == InferMembers(InsertMember(m, ms))
  {
    hide InferSchema, Less;
    InferAppend(ms, m);
    if ms == [] {
      assert InferMembers([m]) == [Member(m.key, InferSchema(m.value))];
    } else {
      InsertInfer(m, ms[1..]);
      assert ms == [ms[0]] + ms[1..];
      InferAppend(ms[1..], ms[0]);
      InferAppend(InsertMember(m, ms[1..]), ms[0]);
      assert InferMembers(ms)[1..] == InferMembers(ms[1..]);
    }
  }

  lemma {:induction false} SortInfer(ms: seq<Member>)
    ensures SortMembers(InferMembers(ms)) == InferMembers(SortMembers(ms))
  {
    hide InferSchema, InsertMember;
    if ms == [] {
      assert InferMembers([]) == [];
    } else {
      SortInfer(ms[1..]);
      InsertInfer(ms[0], SortMembers(ms[1..]));
      assert InferMembers(ms)[1..] == InferMembers(ms[1..]);
    }
  }

  lemma {:induction false} SetDefaultsInfer(acc: seq<Member>, ms: seq<Member>)
    ensures SetDefaults(InferMembers(acc), InferMembers(ms)) == InferMembers(SetDefaults(acc, ms))
  {
    hide InferSchema;
    if ms != [] {
      var init, last := ms[..|ms| - 1], ms[|ms| - 1];
      SetDefaultsInfer(acc, init);
      assert InferMembers(ms)[..|ms| - 1] == InferMembers(init);
      InferKeys(SetDefaults(acc, init));
      InferAppend(SetDefaults(acc, init), last);
    }
  }

  predicate AllObjects(vs: seq<Json>) { forall v <- vs :: v.Obj? }

  /** The objects laid over one another, the first value of every key staying. */
  function Overlaid(vs: seq<Json>): seq<Member>
    requires AllObjects(vs)
  {
    if vs == [] then []
    else
      assert forall v <- vs[..|vs| - 1] :: v in vs;
      SetDefaults(Overlaid(vs[..|vs| - 1]), SortMembers(vs[|vs| - 1].members))
  }

  /** Some object has the key with this value, and no earlier one has the key. */
  ghost predicate FirstWith(vs: seq<Json>, m: Member) {
    exists i: nat :: i < |vs| && vs[i].Obj? && m in vs[i].members && NoneBefore(vs, i, m.key)
  }

  predicate NoneBefore(vs: seq<Json>, i: nat, k: string)
    requires i <= |vs|
  {
    forall j :: 0 <= j < i ==> vs[j].Obj? && k !in KeySet(vs[j].members)
  }

  /** A key is overlaid with a value exactly where the first object that has the key gives it that value. */
  lemma {:induction false} OverlaidIff(vs: seq<Json>)
    requires AllObjects(vs) && forall v <- vs :: ValidJson(v)
    ensures UniqueKeys(Overlaid(vs))
    ensures forall m :: m in Overlaid(vs) <==> FirstWith(vs, m)
    ensures forall k :: k in KeySet(Overlaid(vs)) <==> exists v <- vs :: k in KeySet(v.members)
  {
    if vs != [] {
      var init, last := vs[..|vs| - 1], vs[|vs| - 1];
      assert vs == init + [last] && last in vs;
      OverlaidIff(init);
      OverlaidGrows(init, last);
    }
  }

  lemma {:induction false} OverlaidGrows(init: seq<Json>, last: Json)
    requires AllObjects(init + [last]) && AllObjects(init) && ValidJson(last) && last.Obj?
    requires UniqueKeys(Overlaid(init))
    requires forall m :: m in Overlaid(init) <==> FirstWith(init, m)
    requires forall k :: k in KeySet(Overlaid(init)) <==> exists v <- init :: k in KeySet(v.members)
    ensures var r := Overlaid(init + [last]);
      && UniqueKeys(r)
      && (forall m :: m in r <==> FirstWith(init + [last], m))
      && forall k :: k in KeySet(r) <==> exists v <- init + [last] :: k in KeySet(v.members)
  {
    var vs := init + [last];
    assert vs[..|vs| - 1] == init;
    var acc, ms := Overlaid(init), SortMembers(last.members);
    SortShape(last.members);
    SetDefaultsMembers(acc, ms);
    assert Overlaid(vs) == SetDefaults(acc, ms);
    hide SetDefaults, ValidJson, SortMembers, UniqueKeys, KeySet, Overlaid;
    forall m ensures m in SetDefaults(acc, ms) <==> FirstWith(vs, m) {
      FirstWithStep(init, last, m);
      assert m.key in KeySet(acc) <==> exists v <- init :: m.key in KeySet(v.members);
      if forall j :: 0 <= j < |init| ==> m.key !in KeySet(init[j].members) {
        assert NoneBefore(init, |init|, m.key);
      }
    }
  }

  lemma FirstWithStep(init: seq<Json>, last: Json, m: Member)
    requires last.Obj? && AllObjects(init)
    ensures FirstWith(init + [last], m) <==>
        FirstWith(init, m) || (m in last.members && NoneBefore(init, |init|, m.key))
  {
    hide KeySet;
    var vs := init + [last];
    if FirstWith(init, m) {
      var i: nat :| i < |init| && init[i].Obj? && m in init[i].members && NoneBefore(init, i, m.key);
      assert vs[i] == init[i] && NoneBefore(vs, i, m.key);
    }
    if m in last.members && NoneBefore(init, |init|, m.key) {
      assert vs[|init|] == last && NoneBefore(vs, |init|, m.key);
    }
    if FirstWith(vs, m) {
      var i: nat :| i < |vs| && vs[i].Obj? && m in vs[i].members && NoneBefore(vs, i, m.key);
      assert forall j :: 0 <= j < i ==> vs[j] == init[j];
      if i < |init| { assert vs[i] == init[i] && NoneBefore(init, i, m.key); }
      else { assert NoneBefore(init, |init|, m.key); }
    }
  }

  lemma {:induction false} SetDefaultsMembers(acc: seq<Member>, ms: seq<Member>)
    requires UniqueKeys(acc) && UniqueKeys(ms)
    ensures UniqueKeys(SetDefaults(acc, ms)) && KeySet(SetDefaults(acc, ms)) == KeySet(acc) + KeySet(ms)
    ensures forall m :: m in SetDefaults(acc, ms) <==> m in acc || (m in ms && m.key !in KeySet(acc))
  {
    SetDefaultsShape(acc, ms);
    if ms != [] {
      var init, last := ms[..|ms| - 1], ms[|ms| - 1];
      SetDefaultsMembers(acc, init);
      assert ms == init + [last];
      assert last.key !in KeySet(init);
      KeySetAppend(init, last);
    }
  }

  // ----- one schema for many -----

  lemma {:induction false} AbsorbedDefaults(acc: seq<Member>, ms: seq<Member>)
    requires KeySet(ms) <= KeySet(acc)
    ensures SetDefaults(acc, ms) == acc
  {
    if ms != [] {
      var init, last := ms[..|ms| - 1], ms[|ms| - 1];
      assert ms == init + [last];
      KeySetAppend(init, last);
      AbsorbedDefaults(acc, init);
    }
  }

  /** Schemas seen before add nothing to a merge. */
  lemma {:induction false} MergedDistinct(schemas: seq<Json>)
    requires forall s <- schemas :: HasProperties(s)
    ensures forall s <- Distinct(schemas) :: HasProperties(s)
    ensures Merged(Distinct(schemas)) == Merged(schemas)
  {
    hide MarkerOf, HasProperties;
    DistinctMembers(schemas);
    if schemas != [] {
      var init, last := schemas[..|schemas| - 1], schemas[|schemas| - 1];
      assert forall s <- init :: s in schemas;
      MergedDistinct(init);
      DistinctMembers(init);
      var d := Distinct(init);
      if Seen(d, last) {
        var s :| s in d && MarkerOf(s) == MarkerOf(last);
        MarkerHasProperties(s, last);
        MergedShape(d);
        AbsorbedDefaults(Merged(d), Properties(last));
      } else {
        assert (d + [last])[..|d|] == d;
      }
    }
  }

  lemma {:induction false} SortFixes(ms: seq<Member>)
    requires SortedKeys(ms)
    ensures SortMembers(ms) == ms
  {
    if ms != [] { SortFixes(ms[1..]); }
  }

  /** The values of a map block, each as its inferred schema. */
  function Schemas(vs: seq<Json>): seq<Json> {
    seq(|vs|, i requires 0 <= i < |vs| => InferSchema(vs[i]))
  }

  lemma ObjectInfers(v: Json)
    requires v.Obj?
    ensures HasProperties(InferSchema(v)) && Properties(InferSchema(v)) == InferMembers(SortMembers(v.members))
    ensures InferSchema(v) == ObjectSchema(InferMembers(SortMembers(v.members)))
  {
    SortInfer(v.members);
    ObjectSchemaProperties(InferMembers(SortMembers(v.members)));
  }

  lemma {:induction false} MergedInfers(vs: seq<Json>)
    requires AllObjects(vs)
    ensures forall s <- Schemas(vs) :: HasProperties(s)
    ensures Merged(Schemas(vs)) == InferMembers(Overlaid(vs))
  {
    hide InferSchema, HasProperties, Get, SortMembers;
    forall s | s in Schemas(vs) ensures HasProperties(s) {
      var i :| 0 <= i < |Schemas(vs)| && Schemas(vs)[i] == s;
      assert vs[i] in vs;
      ObjectInfers(vs[i]);
    }
    if vs == [] {
      assert InferMembers([]) == [];
    } else {
      var init, last := vs[..|vs| - 1], vs[|vs| - 1];
      assert forall v <- init :: v in vs;
      assert last in vs;
      MergedInfers(init);
      assert Schemas(vs)[..|vs| - 1] == Schemas(init);
      ObjectInfers(last);
      SetDefaultsInfer(Overlaid(init), SortMembers(last.members));
    }
  }

  /** Unifying what objects infer is inferring what the objects overlaid are. */
  lemma UnifyInfers(vs: seq<Json>)
    requires vs != [] && AllObjects(vs) && forall v <- vs :: ValidJson(v)
    ensures Unify(Schemas(vs)) == InferSchema(Obj(Overlaid(vs)))
  {
    hide InferSchema, HasProperties, Get, Merged, SortMembers, ValidJson, Overlaid;
    var ss := Schemas(vs);
    MergedInfers(vs);
    MergedDistinct(ss);
    DistinctMembers(ss);
    ObjectInfers(Obj(Overlaid(vs)));
    SortInfer(Overlaid(vs));
    var d := Distinct(ss);
    if |d| == 1 {
      assert d == [ss[0]] && vs[0] in vs && ss[0] == InferSchema(vs[0]);
      ObjectInfers(vs[0]);
      SortedOnce(vs[0]);
      MergedOne(ss[0]);
    }
  }

  lemma SortedOnce(v: Json)
    requires v.Obj? && ValidJson(v)
    ensures var ps := InferMembers(SortMembers(v.members)); UniqueKeys(ps) && SortMembers(ps) == ps
  {
    SortShape(v.members);
    hide InferSchema;
    assert SortedKeys(InferMembers(SortMembers(v.members)));
    SortFixes(InferMembers(SortMembers(v.members)));
  }

  lemma MergedOne(s: Json)
    requires HasProperties(s) && UniqueKeys(Properties(s))
    ensures Merged([s]) == Properties(s)
  {
    assert [s][..0] == [];
    assert Merged([]) == [];
    DefaultsOfNothing(Properties(s));
  }

  lemma {:induction false} DefaultsOfNothing(ms: seq<Member>)
    requires UniqueKeys(ms)
    ensures SetDefaults([], ms) == ms
  {
    if ms != [] {
      var init, last := ms[..|ms| - 1], ms[|ms| - 1];
      DefaultsOfNothing(init);
      assert ms == init + [last];
      assert last.key !in KeySet(init);
    }
  }

  // ----- when two examples infer one schema -----

  /** The element a list is judged by: its first, or null where it has none. */
  function First(items: seq<Json>): Json { if items == [] then Null else items[0] }

  /** Examples of one shape: one kind, one shape under each key, one shape of the first elements. */
  predicate SameShape(a: Json, b: Json)
    decreases Depth(a)
  {
    match (a, b)
    case (Null, Null) => true
    case (Bool(_), Bool(_)) => true
    case (Int(_), Int(_)) => true
    case (Real(_), Real(_)) => true
    case (Str(_), Str(_)) => true
    case (Arr(xs), Arr(ys)) =>
      FirstDepth(xs);
      SameShape(First(xs), First(ys))
    case (Obj(ms), Obj(ns)) =>
      KeySet(ms) == KeySet(ns) && forall k <- KeySet(ms) :: (AtDepth(ms, k); SameShape(At(ms, k), At(ns, k)))
    case _ => false
  }

  lemma FirstDepth(items: seq<Json>)
    ensures Depth(First(items)) < Depth(Arr(items))
  {
    if items != [] { ItemDepth(items, 0); }
  }

  lemma TypeMarker(name: string)
    ensures MarkerOf(TypeSchema(name)) == MObj(map["type" := MStr(name)])
  {
    var ms := TypeSchema(name).members;
    assert ms[0].key == "type" && KeySet(ms) == {"type"};
    AtIndex(ms, 0);
  }

  lemma ListMarker(item: Json)
    ensures MarkerOf(ListSchema(item)) == MObj(map["type" := MStr("array"), "items" := MarkerOf(item)])
  {
    var ms := ListSchema(item).members;
    assert ms[0].key == "type" && ms[1].key == "items" && KeySet(ms) == {"type", "items"};
    AtIndex(ms, 0);
    AtIndex(ms, 1);
  }

  lemma ObjectMarker(ps: seq<Member>)
    ensures MarkerOf(ObjectSchema(ps)) == MObj(map["type" := MStr("object"), "properties" := MarkerOf(Obj(ps))])
  {
    var ms := ObjectSchema(ps).members;
    assert ms[0].key == "type" && ms[1].key == "properties" && KeySet(ms) == {"type", "properties"};
    AtIndex(ms, 0);
    AtIndex(ms, 1);
  }

  /** The marker an example's schema has, one level deep. */
  lemma InferMarker(v: Json)
    ensures MarkerOf(InferSchema(v)) ==
      match v
      case Null => MObj(map[])
      case Bool(_) => MObj(map["type" := MStr("boolean")])
      case Int(_) => MObj(map["type" := MStr("integer")])
      case Real(_) => MObj(map["type" := MStr("number")])
      case Str(_) => MObj(map["type" := MStr("string")])
      case Arr(items) => MObj(map["type" := MStr("array"), "items" := MarkerOf(InferSchema(First(items)))])
      case Obj(ms) =>
        MObj(map["type" := MStr("object"), "properties" := MarkerOf(Obj(SortMembers(InferMembers(ms))))])
  {
    hide MarkerOf;
    match v
    case Null => NothingMarker();
    case Bool(_) => TypeMarker("boolean");
    case Int(_) => TypeMarker("integer");
    case Real(_) => TypeMarker("number");
    case Str(_) => TypeMarker("string");
    case Arr(items) => ListMarker(InferSchema(First(items)));
    case Obj(ms) => ObjectMarker(SortMembers(InferMembers(ms)));
  }

  lemma NothingMarker()
    ensures MarkerOf(ANYTHING) == MObj(map[])
  {
  }

  /** Under each key of an example, the inferred property list holds what the value infers. */
  lemma InferredAt(ms: seq<Member>, k: string)
    requires UniqueKeys(ms) && k in KeySet(ms)
    ensures var ps := SortMembers(InferMembers(ms)); KeySet(ps) == KeySet(ms) && At(ps, k) == InferSchema(At(ms, k))
  {
    InferredProperties(ms);
    hide InferSchema, SortMembers, InferMembers;
    var m := ms[IndexOf(ms, k)];
    assert m in ms && m.key == k;
    AtMember(SortMembers(InferMembers(ms)), Member(k, InferSchema(m.value)));
  }

  /** What stands under a key of a document's marker. */
  function Under(m: Marker, key: string): Option<Marker> {
    if m.MObj? && key in m.fields then Some(m.fields[key]) else None
  }

  function Tag(v: Json): Option<Marker> {
    match v
    case Null => None
    case Bool(_) => Some(MStr("boolean"))
    case Int(_) => Some(MStr("integer"))
    case Real(_) => Some(MStr("number"))
    case Str(_) => Some(MStr("string"))
    case Arr(_) => Some(MStr("array"))
    case Obj(_) => Some(MStr("object"))
  }

  lemma InferTag(v: Json)
    ensures Under(MarkerOf(InferSchema(v)), "type") == Tag(v)
    ensures v.Arr? ==> Under(MarkerOf(InferSchema(v)), "items") == Some(MarkerOf(InferSchema(First(v.items))))
    ensures v.Obj? ==>
      Under(MarkerOf(InferSchema(v)), "properties") == Some(MarkerOf(Obj(SortMembers(InferMembers(v.members)))))
  {
    InferMarker(v);
    hide MarkerOf, InferSchema, InferMembers, SortMembers;
  }

  /** Two examples infer one schema exactly when they have one shape. */
  lemma {:induction false} ShapeIff(a: Json, b: Json)
    requires ValidJson(a) && ValidJson(b)
    ensures MarkerOf(InferSchema(a)) == MarkerOf(InferSchema(b)) <==> SameShape(a, b)
    decreases Depth(a)
  {
    InferMarker(a);
    InferMarker(b);
    InferTag(a);
    InferTag(b);
    hide MarkerOf, InferSchema, InferMembers, SortMembers;
    match (a, b)
    case (Arr(xs), Arr(ys)) =>
      FirstDepth(xs);
      ShapeIff(First(xs), First(ys));
    case (Obj(ms), Obj(ns)) =>
      forall k | k in KeySet(ms) && k in KeySet(ns)
        ensures MarkerOf(InferSchema(At(ms, k))) == MarkerOf(InferSchema(At(ns, k)))
          <==> SameShape(At(ms, k), At(ns, k))
      {
        AtDepth(ms, k);
        ShapeIff(At(ms, k), At(ns, k));
      }
      ObjectsAlike(ms, ns);
    case _ =>
  }

  lemma ObjectsAlike(ms: seq<Member>, ns: seq<Member>)
    requires UniqueKeys(ms) && UniqueKeys(ns)
    ensures MarkerOf(Obj(SortMembers(InferMembers(ms)))) == MarkerOf(Obj(SortMembers(InferMembers(ns)))) <==>
      && KeySet(ms) == KeySet(ns)
      && forall k <- KeySet(ms) :: MarkerOf(InferSchema(At(ms, k))) == MarkerOf(InferSchema(At(ns, k)))
  {
    var ps, qs := SortMembers(InferMembers(ms)), SortMembers(InferMembers(ns));
    InferredProperties(ms);
    InferredProperties(ns);
    forall k | k in KeySet(ms) ensures At(ps, k) == InferSchema(At(ms, k)) { InferredAt(ms, k); }
    forall k | k in KeySet(ns) ensures At(qs, k) == InferSchema(At(ns, k)) { InferredAt(ns, k); }
    hide MarkerOf, InferSchema, InferMembers, SortMembers, At, IndexOf, KeySet;
    SameObject(Obj(ps), Obj(qs));
  }

  // ----- what an inferred type accepts -----

  /**
   * The one example the values of a map block stand for: objects laid over one another, or the first of
   * values that all have one shape. Where there is none, anything goes.
   */
  function Common(vs: seq<Json>): Option<Json>
    requires vs != []
  {
    if AllObjects(vs) then Some(Obj(Overlaid(vs)))
    else if forall v <- vs :: SameShape(vs[0], v) then Some(vs[0])
    else None
  }

  lemma OverlaidDepth(vs: seq<Json>, d: nat)
    requires AllObjects(vs) && forall v <- vs :: ValidJson(v) && Depth(v) <= d
    requires vs != []
    ensures Depth(Obj(Overlaid(vs))) <= d
  {
    OverlaidIff(vs);
    hide Overlaid, ValidJson, KeySet;
    var ms := Overlaid(vs);
    assert vs[0] in vs && Depth(vs[0]) >= 1;
    forall i | 0 <= i < |ms| ensures Depth(ms[i].value) <= d - 1 {
      assert FirstWith(vs, ms[i]);
      var j: nat :| j < |vs| && vs[j].Obj? && ms[i] in vs[j].members && NoneBefore(vs, j, ms[i].key);
      assert vs[j] in vs;
      var k :| 0 <= k < |vs[j].members| && vs[j].members[k] == ms[i];
      MemberDepth(vs[j].members, k);
    }
    MembersDepthBound(ms, d - 1);
  }

  /** The values of a block, in the order of its sorted keys. */
  lemma BlockValues(members: seq<Member>)
    requires ValidJson(Obj(members)) && members != []
    ensures var vs := Values(SortMembers(members));
      && vs != [] && (forall v <- vs :: ValidJson(v) && Depth(v) < Depth(Obj(members)))
      && Values(SortMembers(InferMembers(members))) == Schemas(vs)
  {
    SortShape(members);
    SortInfer(members);
    assert members[0] in SortMembers(members);
    hide InferSchema, SortMembers;
    var sorted := SortMembers(members);
    forall v | v in Values(sorted) ensures ValidJson(v) && Depth(v) < Depth(Obj(members)) {
      var i :| 0 <= i < |sorted| && Values(sorted)[i] == v;
      assert sorted[i] in members;
      var j :| 0 <= j < |members| && members[j] == sorted[i];
      MemberDepth(members, j);
    }
  }

  lemma CommonShape(vs: seq<Json>, d: nat)
    requires vs != [] && forall v <- vs :: ValidJson(v) && Depth(v) < d
    ensures Common(vs).Some? ==> ValidJson(Common(vs).value) && Depth(Common(vs).value) < d
  {
    assert vs[0] in vs;
    hide Overlaid;
    if AllObjects(vs) {
      OverlaidIff(vs);
      OverlaidDepth(vs, d - 1);
      forall m | m in Overlaid(vs) ensures ValidJson(m.value) {
        var j: nat :| j < |vs| && vs[j].Obj? && m in vs[j].members && NoneBefore(vs, j, m.key);
        assert vs[j] in vs;
      }
    }
  }

  lemma FewerSchemas(vs: seq<Json>)
    requires vs != [] && forall v <- vs :: ValidJson(v)
    ensures |Distinct(Schemas(vs))| <= 1 <==> forall v <- vs :: SameShape(vs[0], v)
  {
    hide InferSchema, MarkerOf, SameShape, ValidJson;
    var ss := Schemas(vs);
    DistinctCovers(ss);
    assert vs[0] in vs && ss[0] in ss;
    forall v | v in vs ensures SameShape(vs[0], v) <==> MarkerOf(ss[0]) == MarkerOf(InferSchema(v)) {
      ShapeIff(vs[0], v);
    }
    assert MarkerOf(ss[0]) in Markers(ss);
    if forall v <- vs :: SameShape(vs[0], v) {
      forall m | m in Markers(ss) ensures m == MarkerOf(ss[0]) {
        var s :| s in ss && MarkerOf(s) == m;
        var i :| 0 <= i < |ss| && ss[i] == s;
        assert vs[i] in vs;
      }
      assert Markers(ss) == {MarkerOf(ss[0])};
    }
    if |Distinct(ss)| <= 1 {
      forall v | v in vs ensures SameShape(vs[0], v) {
        var i :| 0 <= i < |vs| && vs[i] == v;
        assert ss[i] in ss && MarkerOf(ss[i]) in Markers(ss);
        OneElement(Markers(ss), MarkerOf(ss[0]), MarkerOf(ss[i]));
      }
    }
  }

  lemma OneElement<T>(s: set<T>, a: T, b: T)
    requires |s| <= 1 && a in s && b in s
    ensures a == b
  {
    if a != b { assert |{a, b}| <= |s| by { SubsetSize({a, b}, s); } }
  }

  lemma {:induction false} SubsetSize<T>(a: set<T>, b: set<T>)
    requires a <= b
    ensures |a| <= |b|
  {
    assert b == a + (b - a);
  }

  /** What a map block's examples unify to is what their common example infers. */
  lemma UnifyIsCommon(vs: seq<Json>)
    requires vs != [] && forall v <- vs :: ValidJson(v)
    ensures Unify(Schemas(vs)) == if Common(vs).Some? then InferSchema(Common(vs).value) else ANYTHING
  {
    hide InferSchema, HasProperties, Overlaid, Merged, SortMembers, SameShape, ValidJson;
    if AllObjects(vs) {
      UnifyInfers(vs);
    } else {
      var ss := Schemas(vs);
      FewerSchemas(vs);
      DistinctCovers(ss);
      var v :| v in vs && !v.Obj?;
      var i :| 0 <= i < |vs| && vs[i] == v;
      NonObjectHasNoProperties(v);
      assert ss[i] in ss && !HasProperties(ss[i]);
      var d := Counterpart(ss, Distinct(ss), ss[i]);
      MarkerHasProperties(ss[i], d);
    }
  }

  /**
   * The payloads an example stands for: scalars of its kind, lists of elements like its first one, objects
   * whose values under the example's own names are like the example's, or null. Under data-like keys the
   * values are like the block's common example, and a null, an empty list or object says nothing more.
   */
  predicate LooksLike(v: Json, w: Json)
    requires ValidJson(v)
    decreases Depth(v)
  {
    match v
    case Null => true
    case Bool(_) => w.Bool?
    case Int(_) => w.Int?
    case Real(_) => w.Real? || w.Int?
    case Str(_) => w.Str?
    case Arr(items) =>
      FirstDepth(items);
      w.Arr? && forall x <- w.items :: LooksLike(First(items), x)
    case Obj(members) =>
      if members == [] then w.Obj?
      else if IsMapBlock(members) then
        BlockValues(members);
        var common := Common(Values(SortMembers(members)));
        CommonShape(Values(SortMembers(members)), Depth(v));
        w.Obj? && (common.Some? ==> forall m <- w.members :: LooksLike(common.value, m.value))
      else
        w.Obj? && forall m <- w.members :: m.key in KeySet(members) && !IsMapKey(m.key) ==>
          (AtDepth(members, m.key); m.value.Null? || LooksLike(At(members, m.key), m.value))
  }

  /** The type inferred from an example accepts exactly the payloads that look like the example. */
  lemma {:induction false} InferredAcceptsIff(v: Json, w: Json, allOptional: bool)
    requires ValidJson(v)
    ensures Accepts(TypeOf(InferSchema(v), allOptional), w) <==> LooksLike(v, w)
    decreases Depth(v)
  {
    match v
    case Obj(members) =>
      if members == [] {
        EmptyAccepts(w, allOptional);
      } else if IsMapBlock(members) {
        BlockAccepts(members, w, allOptional);
        var vs := Values(SortMembers(members));
        BlockValues(members);
        CommonShape(vs, Depth(v));
        if w.Obj? && Common(vs).Some? {
          forall m | m in w.members
            ensures Accepts(TypeOf(InferSchema(Common(vs).value), allOptional), m.value) <==>
              LooksLike(Common(vs).value, m.value)
          {
            InferredAcceptsIff(Common(vs).value, m.value, allOptional);
          }
        }
      } else {
        RecordAccepts(members, w, allOptional);
        if w.Obj? {
          forall m | m in w.members && m.key in KeySet(members)
            ensures Accepts(TypeOf(InferSchema(At(members, m.key)), allOptional), m.value) <==>
              LooksLike(At(members, m.key), m.value)
          {
            AtDepth(members, m.key);
            InferredAcceptsIff(At(members, m.key), m.value, allOptional);
          }
        }
      }
    case Arr(items) =>
      ListAccepts(items, w, allOptional);
      FirstDepth(items);
      if w.Arr? {
        forall x | x in w.items
          ensures Accepts(TypeOf(InferSchema(First(items)), allOptional), x) <==> LooksLike(First(items), x)
        {
          InferredAcceptsIff(First(items), x, allOptional);
        }
      }
    case _ => ScalarAccepts(v, w, allOptional);
  }

  lemma EmptyAccepts(w: Json, allOptional: bool)
    ensures Accepts(TypeOf(InferSchema(Obj([])), allOptional), w) <==> w.Obj?
  {
    var s := InferSchema(Obj([]));
    assert s == ObjectSchema([]);
    ClassifyObjectSchema([]);
    NodeMeaning(s, allOptional);
    hide Classify, TypeOf, InferSchema, ObjectSchema, Agreeing;
    assert TypeOf(s, allOptional) == WDict(WAny);
  }

  lemma {:induction false} ScalarAccepts(v: Json, w: Json, allOptional: bool)
    requires !v.Obj? && !v.Arr?
    ensures Accepts(TypeOf(InferSchema(v), allOptional), w) <==>
      match v
      case Null => true
      case Bool(_) => w.Bool?
      case Int(_) => w.Int?
      case Real(_) => w.Real? || w.Int?
      case _ => w.Str?
  {
    hide TypeOf, TypeSchema, Accepts;
    match v
    case Null => AnythingAccepts(w, allOptional);
    case Bool(_) => NamedAccepts("boolean", w, allOptional);
    case Int(_) => NamedAccepts("integer", w, allOptional);
    case Real(_) => NamedAccepts("number", w, allOptional);
    case Str(_) => NamedAccepts("string", w, allOptional);
  }

  lemma {:induction false} NamedAccepts(name: string, w: Json, allOptional: bool)
    requires ScalarNamed(name).Some?
    ensures Accepts(TypeOf(TypeSchema(name), allOptional), w) <==> ScalarFits(ScalarNamed(name).value, w)
  {
    ClassifyTypeSchema(name);
    NodeMeaning(TypeSchema(name), allOptional);
    hide Classify, TypeOf, TypeSchema, Agreeing, ScalarNamed, ScalarFits;
  }

  lemma AnythingAccepts(w: Json, allOptional: bool)
    ensures TypeOf(ANYTHING, allOptional) == WAny && Accepts(TypeOf(ANYTHING, allOptional), w)
  {
  }

  lemma ListAccepts(items: seq<Json>, w: Json, allOptional: bool)
    ensures Accepts(TypeOf(InferSchema(Arr(items)), allOptional), w) <==>
      w.Arr? && forall x <- w.items :: Accepts(TypeOf(InferSchema(First(items)), allOptional), x)
  {
    var s := InferSchema(Arr(items));
    assert s == ListSchema(InferSchema(First(items)));
    ClassifyListSchema(InferSchema(First(items)));
    NodeMeaning(s, allOptional);
    hide Classify, TypeOf, InferSchema, ListSchema, Agreeing;
  }

  lemma {:induction false} BlockAccepts(members: seq<Member>, w: Json, allOptional: bool)
    requires ValidJson(Obj(members)) && members != [] && IsMapBlock(members)
    ensures var common := (BlockValues(members); Common(Values(SortMembers(members))));
      Accepts(TypeOf(InferSchema(Obj(members)), allOptional), w) <==>
        w.Obj? && (common.Some? ==>
          forall m <- w.members :: Accepts(TypeOf(InferSchema(common.value), allOptional), m.value))
  {
    var ps := SortMembers(InferMembers(members));
    var s := InferSchema(Obj(members));
    assert s == ObjectSchema(ps);
    InferredProperties(members);
    IsMapBlockKeys(ps);
    IsMapBlockKeys(members);
    ClassifyObjectSchema(ps);
    BlockValues(members);
    UnifyIsCommon(Values(SortMembers(members)));
    MapTypeOf(s, allOptional);
    AnythingAccepts(w, allOptional);
    hide Classify, TypeOf, InferSchema, ObjectSchema, Unify, SortMembers, InferMembers, IsMapBlock, Common;
  }

  /** The record type of an example: one optional field per name that is not data. */
  lemma {:induction false} RecordInferred(members: seq<Member>, allOptional: bool)
    requires ValidJson(Obj(members)) && members != [] && !IsMapBlock(members)
    ensures var t := TypeOf(InferSchema(Obj(members)), allOptional);
      && t.WRecord? && t.fields.Keys == FieldKeys(members)
      && forall k <- FieldKeys(members) ::
           t.fields[k] == WireField(TypeOf(InferSchema(At(members, k)), allOptional), false)
  {
    var ps := SortMembers(InferMembers(members));
    var s := InferSchema(Obj(members));
    assert s == ObjectSchema(ps);
    InferredProperties(members);
    IsMapBlockKeys(ps);
    IsMapBlockKeys(members);
    ClassifyObjectSchema(ps);
    forall k | k in KeySet(members) ensures At(ps, k) == InferSchema(At(members, k)) { InferredAt(members, k); }
    hide Classify, TypeOf, InferSchema, ObjectSchema, SortMembers, InferMembers, IsMapBlock, IsMapKey, At, KeySet,
      ValidJson;
    RecordTypeOf(s, allOptional);
  }

  lemma {:induction false} RecordAccepts(members: seq<Member>, w: Json, allOptional: bool)
    requires ValidJson(Obj(members)) && members != [] && !IsMapBlock(members)
    ensures Accepts(TypeOf(InferSchema(Obj(members)), allOptional), w) <==>
      w.Obj? && forall m <- w.members :: m.key in KeySet(members) && !IsMapKey(m.key) ==>
        m.value.Null? || Accepts(TypeOf(InferSchema(At(members, m.key)), allOptional), m.value)
  {
    RecordInferred(members, allOptional);
    hide TypeOf, InferSchema, IsMapBlock, IsMapKey, At, KeySet, ValidJson;
  }
}
