/** JSON documents as Python holds them: objects keep insertion order and never repeat a key. */
module JsonValues {
  import opened Wrappers

  datatype Json =
    | Null
    | Bool(b: bool)
    | Int(n: int)
    | Real(x: real)
    | Str(s: string)
    | Arr(items: seq<Json>)
    | Obj(members: seq<Member>)

  datatype Member = Member(key: string, value: Json)

  predicate UniqueKeys(ms: seq<Member>) {
    forall i, j :: 0 <= i < j < |ms| ==> ms[i].key != ms[j].key
  }

  /** What every Python `dict` tree satisfies: no object repeats a key, at any level. */
  predicate ValidJson(j: Json) {
    match j
    case Arr(items) => forall x <- items :: ValidJson(x)
    case Obj(members) => UniqueKeys(members) && forall m <- members :: ValidJson(m.value)
    case _ => true
  }

  function KeySet(ms: seq<Member>): set<string> {
    set i | 0 <= i < |ms| :: ms[i].key
  }

  function IndexOf(ms: seq<Member>, key: string): (i: nat)
    requires key in KeySet(ms)
    ensures i < |ms| && ms[i].key == key
  {
    if ms[0].key == key then 0
    else
      assert key in KeySet(ms[1..]) by {
        var i :| 0 <= i < |ms| && ms[i].key == key;
        assert ms[1..][i - 1].key == key;
      }
      1 + IndexOf(ms[1..], key)
  }

  /** `d[key]`. */
  function At(ms: seq<Member>, key: string): (v: Json)
    requires key in KeySet(ms)
    ensures exists i :: 0 <= i < |ms| && ms[i] == Member(key, v)
  {
    ms[IndexOf(ms, key)].value
  }

  lemma AtIndex(ms: seq<Member>, i: nat)
    requires UniqueKeys(ms) && i < |ms|
    ensures ms[i].key in KeySet(ms) && At(ms, ms[i].key) == ms[i].value
  {
    var j := IndexOf(ms, ms[i].key);
    assert j == i;
  }

  /** `d.get(key)`, where a JSON `null` reads as absent because both are Python's `None`. */
  function Get(j: Json, key: string): Option<Json> {
    if j.Obj? && key in KeySet(j.members) && At(j.members, key) != Null
    then Some(At(j.members, key))
    else None
  }

  predicate HasKey(j: Json, key: string) {
    j.Obj? && key in KeySet(j.members)
  }

  lemma GetValid(j: Json, key: string)
    requires ValidJson(j) && Get(j, key).Some?
    ensures ValidJson(Get(j, key).value)
  {
    var i :| 0 <= i < |j.members| && j.members[i] == Member(key, At(j.members, key));
    assert j.members[i] in j.members;
  }

  // ----- updating -----

  /** `d[key] = value`: in place where the key is there, at the end where it is not. */
  function SetMember(ms: seq<Member>, key: string, value: Json): seq<Member> {
    if key in KeySet(ms) then ms[IndexOf(ms, key) := Member(key, value)] else ms + [Member(key, value)]
  }

  lemma SameKeySet(ms: seq<Member>, rs: seq<Member>)
    requires UniqueKeys(ms) && |rs| == |ms| && forall j :: 0 <= j < |ms| ==> rs[j].key == ms[j].key
    ensures UniqueKeys(rs) && KeySet(rs) == KeySet(ms)
  {
    forall k | k in KeySet(ms) ensures k in KeySet(rs) { assert rs[IndexOf(ms, k)].key == k; }
    forall k | k in KeySet(rs) ensures k in KeySet(ms) { assert ms[IndexOf(rs, k)].key == k; }
  }

  lemma SetMemberSpec(ms: seq<Member>, key: string, value: Json)
    requires UniqueKeys(ms) && key in KeySet(ms)
    ensures var r := SetMember(ms, key, value);
      && UniqueKeys(r) && KeySet(r) == KeySet(ms) && At(r, key) == value
      && forall k <- KeySet(ms) :: k != key ==> At(r, k) == At(ms, k)
  {
    var i := IndexOf(ms, key);
    var r := ms[i := Member(key, value)];
    SameKeySet(ms, r);
    AtIndex(r, i);
    hide KeySet, UniqueKeys;
    forall k | k in KeySet(ms) && k != key ensures At(r, k) == At(ms, k) {
      var j := IndexOf(ms, k);
      assert r[j] == ms[j];
      AtIndex(r, j);
    }
  }

  lemma SetMemberSame(ms: seq<Member>, key: string)
    requires key in KeySet(ms)
    ensures SetMember(ms, key, At(ms, key)) == ms
  {
  }

  // ----- nesting depth -----

  function Max(a: nat, b: nat): nat { if a < b then b else a }

  function Depth(j: Json): nat {
    match j
    case Arr(items) => 1 + ItemsDepth(items)
    case Obj(members) => 1 + MembersDepth(members)
    case _ => 0
  }

  function ItemsDepth(items: seq<Json>): nat {
    if items == [] then 0 else Max(Depth(items[0]), ItemsDepth(items[1..]))
  }

  function MembersDepth(ms: seq<Member>): nat {
    if ms == [] then 0 else Max(Depth(ms[0].value), MembersDepth(ms[1..]))
  }

  lemma {:induction false} MemberDepth(ms: seq<Member>, i: nat)
    requires i < |ms|
    ensures Depth(ms[i].value) <= MembersDepth(ms)
  {
    if i > 0 {
      MemberDepth(ms[1..], i - 1);
    }
  }

  lemma {:induction false} ItemDepth(items: seq<Json>, i: nat)
    requires i < |items|
    ensures Depth(items[i]) <= ItemsDepth(items)
  {
    if i > 0 {
      ItemDepth(items[1..], i - 1);
    }
  }

  lemma {:induction false} MembersDepthBound(ms: seq<Member>, d: nat)
    requires forall i :: 0 <= i < |ms| ==> Depth(ms[i].value) <= d
    ensures MembersDepth(ms) <= d
  {
    if ms != [] {
      MembersDepthBound(ms[1..], d);
    }
  }

  lemma AtDepth(ms: seq<Member>, key: string)
    requires key in KeySet(ms)
    ensures Depth(At(ms, key)) < Depth(Obj(ms))
  {
    MemberDepth(ms, IndexOf(ms, key));
  }

  // ----- order-insensitive markers -----

  /** `json.dumps(j, sort_keys=True)`: equal exactly when two documents differ only in key order. */
  datatype Marker =
    | MNull
    | MBool(b: bool)
    | MInt(n: int)
    | MReal(x: real)
    | MStr(s: string)
    | MArr(items: seq<Marker>)
    | MObj(fields: map<string, Marker>)

  function MarkerOf(j: Json): Marker {
    match j
    case Null => MNull
    case Bool(b) => MBool(b)
    case Int(n) => MInt(n)
    case Real(x) => MReal(x)
    case Str(s) => MStr(s)
    case Arr(items) => MArr(seq(|items|, i requires 0 <= i < |items| => MarkerOf(items[i])))
    case Obj(members) =>
      MObj(map k | k in KeySet(members) :: MarkerOf(members[IndexOf(members, k)].value))
  }

  /** Two objects with one marker have the same keys, and one marker under each key. */
  lemma MarkerMembers(a: Json, b: Json)
    requires MarkerOf(a) == MarkerOf(b) && a.Obj?
    ensures b.Obj? && KeySet(a.members) == KeySet(b.members)
    ensures forall k <- KeySet(a.members) :: MarkerOf(At(a.members, k)) == MarkerOf(At(b.members, k))
  {
    var ma, mb := MarkerOf(a).fields, MarkerOf(b).fields;
    assert ma.Keys == KeySet(a.members) && mb.Keys == KeySet(b.members);
    forall k | k in KeySet(a.members)
      ensures MarkerOf(At(a.members, k)) == MarkerOf(At(b.members, k))
    {
      assert ma[k] == MarkerOf(At(a.members, k)) && mb[k] == MarkerOf(At(b.members, k));
    }
  }

  lemma MarkerFromMembers(a: Json, b: Json)
    requires a.Obj? && b.Obj? && KeySet(a.members) == KeySet(b.members)
    requires forall k <- KeySet(a.members) :: MarkerOf(At(a.members, k)) == MarkerOf(At(b.members, k))
    ensures MarkerOf(a) == MarkerOf(b)
  {
    var ma, mb := MarkerOf(a).fields, MarkerOf(b).fields;
    assert ma.Keys == mb.Keys;
    forall k | k in ma ensures ma[k] == mb[k] {
      assert ma[k] == MarkerOf(At(a.members, k)) && mb[k] == MarkerOf(At(b.members, k));
    }
    assert ma == mb;
  }

  lemma MarkerItems(a: Json, b: Json)
    requires MarkerOf(a) == MarkerOf(b) && a.Arr?
    ensures b.Arr? && |a.items| == |b.items|
    ensures forall i :: 0 <= i < |a.items| ==> MarkerOf(a.items[i]) == MarkerOf(b.items[i])
  {
    var ma, mb := MarkerOf(a).items, MarkerOf(b).items;
    assert |ma| == |a.items| && |mb| == |b.items|;
    forall i | 0 <= i < |a.items| ensures MarkerOf(a.items[i]) == MarkerOf(b.items[i]) {
      assert ma[i] == MarkerOf(a.items[i]) && mb[i] == MarkerOf(b.items[i]);
    }
  }

  lemma MarkerGet(a: Json, b: Json, key: string)
    requires MarkerOf(a) == MarkerOf(b)
    ensures HasKey(a, key) == HasKey(b, key)
    ensures Get(a, key).Some? == Get(b, key).Some?
    ensures Get(a, key).Some? ==> MarkerOf(Get(a, key).value) == MarkerOf(Get(b, key).value)
  {
    if a.Obj? {
      MarkerMembers(a, b);
      if key in KeySet(a.members) {
        assert MarkerOf(At(a.members, key)) == MarkerOf(At(b.members, key));
      }
    }
  }

  // ----- Python's equality -----

  /** The document with every boolean and integer written as the real it equals. */
  function Numbered(j: Json): Json {
    match j
    case Bool(b) => Real(if b then 1.0 else 0.0)
    case Int(n) => Real(n as real)
    case Arr(items) => Arr(seq(|items|, i requires 0 <= i < |items| => Numbered(items[i])))
    case Obj(members) =>
      Obj(seq(|members|, i requires 0 <= i < |members| => Member(members[i].key, Numbered(members[i].value))))
    case _ => j
  }

  /** `a == b` on parsed JSON: key order does not matter, and 1, 1.0 and true are one value. */
  predicate PyEqual(a: Json, b: Json) { MarkerOf(Numbered(a)) == MarkerOf(Numbered(b)) }

  // ----- what the two comparisons mean -----

  /** Two documents that differ in key order at most, compared value by value. */
  predicate SameJson(a: Json, b: Json) {
    match (a, b)
    case (Null, Null) => true
    case (Bool(x), Bool(y)) => x == y
    case (Int(x), Int(y)) => x == y
    case (Real(x), Real(y)) => x == y
    case (Str(x), Str(y)) => x == y
    case (Arr(xs), Arr(ys)) => |xs| == |ys| && forall i :: 0 <= i < |xs| ==> SameJson(xs[i], ys[i])
    case (Obj(ms), Obj(ns)) =>
      && KeySet(ms) == KeySet(ns)
      && forall k <- KeySet(ms) :: SameJson(ms[IndexOf(ms, k)].value, ns[IndexOf(ns, k)].value)
    case _ => false
  }

  /** Markers are equal exactly for documents that differ in key order at most. */
  lemma {:induction false} MarkerExact(a: Json, b: Json)
    ensures MarkerOf(a) == MarkerOf(b) <==> SameJson(a, b)
  {
    match (a, b)
    case (Arr(xs), Arr(ys)) =>
      if |xs| == |ys| {
        forall i | 0 <= i < |xs| ensures MarkerOf(xs[i]) == MarkerOf(ys[i]) <==> SameJson(xs[i], ys[i]) {
          MarkerExact(xs[i], ys[i]);
        }
      }
      SameItems(a, b);
    case (Obj(ms), Obj(ns)) =>
      if KeySet(ms) == KeySet(ns) {
        forall k | k in KeySet(ms)
          ensures MarkerOf(At(ms, k)) == MarkerOf(At(ns, k))
            <==> SameJson(ms[IndexOf(ms, k)].value, ns[IndexOf(ns, k)].value)
        {
          MarkerExact(ms[IndexOf(ms, k)].value, ns[IndexOf(ns, k)].value);
        }
      }
      SameObject(a, b);
    case _ =>
  }

  lemma SameItems(a: Json, b: Json)
    requires a.Arr? && b.Arr?
    ensures MarkerOf(a) == MarkerOf(b) <==>
      |a.items| == |b.items| && forall i :: 0 <= i < |a.items| ==> MarkerOf(a.items[i]) == MarkerOf(b.items[i])
  {
    if MarkerOf(a) == MarkerOf(b) {
      MarkerItems(a, b);
    } else if |a.items| == |b.items| {
      assert MarkerOf(a).items != MarkerOf(b).items;
    }
  }

  lemma SameObject(a: Json, b: Json)
    requires a.Obj? && b.Obj?
    ensures MarkerOf(a) == MarkerOf(b) <==>
      && KeySet(a.members) == KeySet(b.members)
      && forall k <- KeySet(a.members) :: MarkerOf(At(a.members, k)) == MarkerOf(At(b.members, k))
  {
    if MarkerOf(a) == MarkerOf(b) {
      MarkerMembers(a, b);
    } else if KeySet(a.members) == KeySet(b.members)
      && forall k <- KeySet(a.members) :: MarkerOf(At(a.members, k)) == MarkerOf(At(b.members, k)) {
      MarkerFromMembers(a, b);
    }
  }

  /** The number a document is to Python, booleans included. */
  function NumberOf(j: Json): Option<real> {
    match j
    case Bool(b) => Some(if b then 1.0 else 0.0)
    case Int(n) => Some(n as real)
    case Real(x) => Some(x)
    case _ => None
  }

  /** Documents with equal numbers in the same places, and otherwise the same up to key order. */
  predicate PySame(a: Json, b: Json) {
    match (a, b)
    case (Null, Null) => true
    case (Str(x), Str(y)) => x == y
    case (Arr(xs), Arr(ys)) => |xs| == |ys| && forall i :: 0 <= i < |xs| ==> PySame(xs[i], ys[i])
    case (Obj(ms), Obj(ns)) =>
      && KeySet(ms) == KeySet(ns)
      && forall k <- KeySet(ms) :: PySame(ms[IndexOf(ms, k)].value, ns[IndexOf(ns, k)].value)
    case _ => NumberOf(a).Some? && NumberOf(a) == NumberOf(b)
  }

  lemma {:induction false} NumberedAt(ms: seq<Member>, k: string)
    requires k in KeySet(ms)
    ensures var ns := Numbered(Obj(ms)).members;
      k in KeySet(ns) && IndexOf(ns, k) == IndexOf(ms, k) && At(ns, k) == Numbered(ms[IndexOf(ms, k)].value)
  {
    var ns := Numbered(Obj(ms)).members;
    assert ns[0] == Member(ms[0].key, Numbered(ms[0].value));
    if ms[0].key != k {
      var i :| 0 <= i < |ms| && ms[i].key == k;
      assert ms[1..][i - 1].key == k;
      NumberedAt(ms[1..], k);
      assert Numbered(Obj(ms[1..])).members == ns[1..];
    }
    assert ns[IndexOf(ms, k)].key == k;
  }

  lemma NumberedKeys(ms: seq<Member>)
    ensures KeySet(Numbered(Obj(ms)).members) == KeySet(ms)
  {
    var ns := Numbered(Obj(ms)).members;
    forall k | k in KeySet(ms) ensures k in KeySet(ns) { assert ns[IndexOf(ms, k)].key == k; }
    forall k | k in KeySet(ns) ensures k in KeySet(ms) { assert ms[IndexOf(ns, k)].key == k; }
  }

  /** `==` on parsed JSON is equality of values, numbers compared as numbers. */
  lemma {:induction false} PyEqualExact(a: Json, b: Json)
    ensures PyEqual(a, b) <==> PySame(a, b)
  {
    match (a, b)
    case (Arr(xs), Arr(ys)) =>
      if |xs| == |ys| {
        forall i | 0 <= i < |xs|
          ensures MarkerOf(Numbered(a).items[i]) == MarkerOf(Numbered(b).items[i]) <==> PySame(xs[i], ys[i])
        {
          PyEqualExact(xs[i], ys[i]);
        }
      }
      SameItems(Numbered(a), Numbered(b));
    case (Obj(ms), Obj(ns)) =>
      NumberedKeys(ms);
      NumberedKeys(ns);
      if KeySet(ms) == KeySet(ns) {
        forall k | k in KeySet(ms)
          ensures MarkerOf(At(Numbered(a).members, k)) == MarkerOf(At(Numbered(b).members, k))
            <==> PySame(ms[IndexOf(ms, k)].value, ns[IndexOf(ns, k)].value)
        {
          NumberedAt(ms, k);
          NumberedAt(ns, k);
          PyEqualExact(ms[IndexOf(ms, k)].value, ns[IndexOf(ns, k)].value);
        }
      }
      SameObject(Numbered(a), Numbered(b));
    case _ =>
  }
}
