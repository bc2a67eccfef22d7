/** Indexing a specification by endpoint and schema, and diffing two of them. */
module SpecDiff {
  import opened Wrappers
  import opened Text
  import opened JsonValues
  import opened Ordering
  import opened Sanitizing
  import opened Baselines

  // ----- endpoint keys -----

  const HTTP_METHODS := ["get", "put", "post", "delete", "options", "head", "patch", "trace"]

  function Upper(s: string): string {
    seq(|s|, i requires 0 <= i < |s| => UpperChar(s[i]))
  }

  function EndpointKey(verb: string, path: string): string { Upper(verb) + " " + path }

  /** `s.partition(" ")`: what precedes the first space and what follows it. */
  function Partition(s: string): (string, string) {
    if s == "" then ("", "")
    else if s[0] == ' ' then ("", s[1..])
    else ([s[0]] + Partition(s[1..]).0, Partition(s[1..]).1)
  }

  predicate AllLower(s: string) { forall c <- s :: IsLower(c) }

  lemma {:induction false} PartitionAt(head: string, tail: string)
    requires ' ' !in head
    ensures Partition(head + " " + tail) == (head, tail)
  {
    var s := head + " " + tail;
    if head == "" {
      assert s[1..] == tail;
    } else {
      assert s[1..] == head[1..] + " " + tail && s[0] == head[0] && head[0] in head;
      PartitionAt(head[1..], tail);
      assert head == [head[0]] + head[1..];
    }
  }

  /** The sort key gives an endpoint's verb and path back. */
  lemma PartitionReadsKey(verb: string, path: string)
    requires AllLower(verb)
    ensures Partition(EndpointKey(verb, path)) == (Upper(verb), path)
  {
    forall c | c in Upper(verb) ensures c != ' ' {
      var i :| 0 <= i < |Upper(verb)| && Upper(verb)[i] == c;
      assert verb[i] in verb;
    }
    PartitionAt(Upper(verb), path);
  }

  lemma EndpointKeyInjective(verb: string, path: string, verb': string, path': string)
    requires AllLower(verb) && AllLower(verb') && EndpointKey(verb, path) == EndpointKey(verb', path')
    ensures verb == verb' && path == path'
  {
    PartitionReadsKey(verb, path);
    PartitionReadsKey(verb', path');
    hide Partition, EndpointKey;
    forall i | 0 <= i < |verb| ensures verb[i] == verb'[i] {
      assert Upper(verb)[i] == Upper(verb')[i] && verb[i] in verb && verb'[i] in verb';
    }
  }

  lemma VerbsAreLower()
    ensures forall v <- HTTP_METHODS :: AllLower(v)
  {
  }

  // ----- the endpoint index -----

  /** An operation together with the parameters its path shares; nothing where the spec has no such operation. */
  function EffectiveOperation(spec: Doc, verb: string, path: string): Option<Json> {
    var paths := Get(Obj(spec), "paths");
    if paths.None? || !HasKey(paths.value, path) then None
    else
      var item := At(paths.value.members, path);
      if !HasKey(item, verb) then None else Some(Payload(item, verb))
  }

  function Payload(item: Json, verb: string): Json
    requires HasKey(item, verb)
  {
    var operation := [Member("operation", At(item.members, verb))];
    var shared := Get(item, "parameters");
    Obj(if shared.Some? then operation + [Member("pathParameters", shared.value)] else operation)
  }

  type Index = map<string, Marker>

  function ItemIndex(path: string, item: Json, verbs: seq<string>): Index {
    if verbs == [] then map[]
    else
      var before, verb := ItemIndex(path, item, verbs[..|verbs| - 1]), verbs[|verbs| - 1];
      if HasKey(item, verb) then before[EndpointKey(verb, path) := MarkerOf(Payload(item, verb))] else before
  }

  function PathIndex(paths: seq<Member>): Index {
    if paths == [] then map[]
    else
      var last := paths[|paths| - 1];
      PathIndex(paths[..|paths| - 1]) + ItemIndex(last.key, last.value, HTTP_METHODS)
  }

  function EndpointIndex(spec: Doc): Index {
    var paths := Get(Obj(spec), "paths");
    if paths.Some? && paths.value.Obj? then PathIndex(paths.value.members) else map[]
  }

  /** The index as the tool builds it. */
  method BuildEndpointIndex(spec: Doc) returns (index: Index)
    ensures index == EndpointIndex(spec)
  {
    hide MarkerOf, Payload, EndpointKey, HTTP_METHODS, HasKey;
    index := map[];
    var paths := Get(Obj(spec), "paths");
    if paths.None? || !paths.value.Obj? { return; }
    var items := paths.value.members;
    for i := 0 to |items|
      invariant index == PathIndex(items[..i])
    {
      var path, item := items[i].key, items[i].value;
      ghost var before := index;
      for j := 0 to |HTTP_METHODS|
        invariant index == before + ItemIndex(path, item, HTTP_METHODS[..j])
      {
        var verb := HTTP_METHODS[j];
        assert HTTP_METHODS[..j + 1][..j] == HTTP_METHODS[..j] && HTTP_METHODS[..j + 1][j] == verb;
        if HasKey(item, verb) {
          index := index[EndpointKey(verb, path) := MarkerOf(Payload(item, verb))];
        }
      }
      assert HTTP_METHODS[..|HTTP_METHODS|] == HTTP_METHODS;
      assert items[..i + 1][..i] == items[..i] && items[..i + 1][i] == items[i];
    }
    assert items[..|items|] == items;
  }

  lemma {:induction false} ItemIndexExact(path: string, item: Json, verbs: seq<string>, verb: string, path': string)
    requires AllLower(verb) && forall v <- verbs :: AllLower(v)
    ensures EndpointKey(verb, path') in ItemIndex(path, item, verbs) <==>
      path' == path && verb in verbs && HasKey(item, verb)
    ensures EndpointKey(verb, path') in ItemIndex(path, item, verbs) ==>
      ItemIndex(path, item, verbs)[EndpointKey(verb, path')] == MarkerOf(Payload(item, verb))
  {
    hide MarkerOf, Payload, EndpointKey, AllLower, HasKey;
    if verbs != [] {
      var init, last := verbs[..|verbs| - 1], verbs[|verbs| - 1];
      assert verbs == init + [last];
      ItemIndexExact(path, item, init, verb, path');
      if EndpointKey(verb, path') == EndpointKey(last, path) {
        EndpointKeyInjective(verb, path', last, path);
      }
    }
  }

  lemma {:induction false} PathIndexExact(paths: seq<Member>, verb: string, path: string)
    requires UniqueKeys(paths) && verb in HTTP_METHODS
    ensures EndpointKey(verb, path) in PathIndex(paths) <==> path in KeySet(paths) && HasKey(At(paths, path), verb)
    ensures EndpointKey(verb, path) in PathIndex(paths) ==>
      PathIndex(paths)[EndpointKey(verb, path)] == MarkerOf(Payload(At(paths, path), verb))
  {
    hide MarkerOf, Payload, EndpointKey, AllLower, HasKey, ItemIndex, HTTP_METHODS;
    VerbsAreLower();
    if paths != [] {
      var n := |paths| - 1;
      var init, last := paths[..n], paths[n];
      PathIndexExact(init, verb, path);
      ItemIndexExact(last.key, last.value, HTTP_METHODS, verb, path);
      AtIndex(paths, n);
      assert forall i :: 0 <= i < n ==> init[i] == paths[i] && init[i].key in KeySet(init);
      if path in KeySet(init) {
        var i := IndexOf(init, path);
        AtIndex(init, i);
        AtIndex(paths, i);
      } else if path in KeySet(paths) {
        var i := IndexOf(paths, path);
        assert i == n;
      }
    }
  }

  /** The index answers for every verb and path exactly as looking the operation up does. */
  lemma IndexExact(spec: Doc, verb: string, path: string)
    requires ValidJson(Obj(spec)) && verb in HTTP_METHODS
    ensures EndpointKey(verb, path) in EndpointIndex(spec) <==> EffectiveOperation(spec, verb, path).Some?
    ensures EndpointKey(verb, path) in EndpointIndex(spec) ==>
      EndpointIndex(spec)[EndpointKey(verb, path)] == MarkerOf(EffectiveOperation(spec, verb, path).value)
  {
    hide MarkerOf, Payload, EndpointKey, PathIndex, HTTP_METHODS;
    var paths := Get(Obj(spec), "paths");
    if paths.Some? && paths.value.Obj? {
      GetValid(Obj(spec), "paths");
      PathIndexExact(paths.value.members, verb, path);
    }
  }

  predicate IsEndpointKey(key: string) {
    exists verb <- HTTP_METHODS :: key == EndpointKey(verb, Partition(key).1)
  }

  lemma {:induction false} ItemKeysAreEndpoints(path: string, item: Json, verbs: seq<string>)
    requires forall v <- verbs :: v in HTTP_METHODS
    ensures forall k <- ItemIndex(path, item, verbs) :: IsEndpointKey(k)
  {
    hide MarkerOf, Payload, EndpointKey, HasKey, HTTP_METHODS, Partition;
    VerbsAreLower();
    if verbs != [] {
      ItemKeysAreEndpoints(path, item, verbs[..|verbs| - 1]);
      PartitionReadsKey(verbs[|verbs| - 1], path);
    }
  }

  lemma {:induction false} KeysAreEndpoints(paths: seq<Member>)
    ensures forall k <- PathIndex(paths) :: IsEndpointKey(k)
  {
    hide IsEndpointKey, ItemIndex, HTTP_METHODS;
    if paths != [] {
      KeysAreEndpoints(paths[..|paths| - 1]);
      ItemKeysAreEndpoints(paths[|paths| - 1].key, paths[|paths| - 1].value, HTTP_METHODS);
    }
  }

  /** Two endpoint indices are equal iff every operation is there in both or neither, with one content. */
  lemma SameIndexIff(a: Doc, b: Doc)
    requires ValidJson(Obj(a)) && ValidJson(Obj(b))
    ensures EndpointIndex(a) == EndpointIndex(b) <==>
      forall verb, path :: verb in HTTP_METHODS ==> SameOperation(a, b, verb, path)
  {
    hide MarkerOf, EffectiveOperation, EndpointKey, EndpointIndex, HTTP_METHODS, IsEndpointKey;
    var ia, ib := EndpointIndex(a), EndpointIndex(b);
    if ia == ib {
      forall verb, path | verb in HTTP_METHODS ensures SameOperation(a, b, verb, path) {
        IndexExact(a, verb, path);
        IndexExact(b, verb, path);
      }
    }
    if forall verb, path :: verb in HTTP_METHODS ==> SameOperation(a, b, verb, path) {
      IndexWithin(a, b);
      assert forall verb, path :: verb in HTTP_METHODS ==> SameOperation(b, a, verb, path) by {
        forall verb, path | verb in HTTP_METHODS ensures SameOperation(b, a, verb, path) {
          assert SameOperation(a, b, verb, path);
        }
      }
      IndexWithin(b, a);
      assert ia.Keys == ib.Keys;
    }
  }

  predicate SameOperation(a: Doc, b: Doc, verb: string, path: string) {
    var x, y := EffectiveOperation(a, verb, path), EffectiveOperation(b, verb, path);
    x.Some? == y.Some? && (x.Some? ==> MarkerOf(x.value) == MarkerOf(y.value))
  }

  lemma IndexWithin(a: Doc, b: Doc)
    requires ValidJson(Obj(a)) && ValidJson(Obj(b))
    requires forall verb, path :: verb in HTTP_METHODS ==> SameOperation(a, b, verb, path)
    ensures forall k <- EndpointIndex(a) :: k in EndpointIndex(b) && EndpointIndex(b)[k] == EndpointIndex(a)[k]
  {
    hide MarkerOf, EffectiveOperation, EndpointKey, PathIndex, HTTP_METHODS, Partition;
    forall k | k in EndpointIndex(a) ensures k in EndpointIndex(b) && EndpointIndex(b)[k] == EndpointIndex(a)[k] {
      KeysAreEndpoints(Get(Obj(a), "paths").value.members);
      hide EndpointIndex;
      var verb :| verb in HTTP_METHODS && k == EndpointKey(verb, Partition(k).1);
      var path := Partition(k).1;
      IndexExact(a, verb, path);
      IndexExact(b, verb, path);
      assert SameOperation(a, b, verb, path);
    }
  }

  // ----- schemas and metadata -----

  /** `components.schemas`, or `definitions` where that is not an object. */
  function Schemas(spec: Doc): seq<Member> {
    var components := Get(Obj(spec), "components");
    var schemas := if components.Some? then Get(components.value, "schemas") else None;
    var found := if schemas.Some? && schemas.value.Obj? then schemas else Get(Obj(spec), "definitions");
    if found.Some? && found.value.Obj? then found.value.members else []
  }

  function SchemaIndex(spec: Doc): Index {
    map name | name in KeySet(Schemas(spec)) :: MarkerOf(At(Schemas(spec), name))
  }

  const METADATA_FIELDS := ["openapi", "swagger", "info.title", "info.version", "servers", "basePath", "host"]

  /** `node.get(part)` down a path of keys, `None` where there is no object to look in. */
  function Lookup(node: Json, parts: seq<string>): Json {
    if parts == [] then node
    else if HasKey(node, parts[0]) then Lookup(At(node.members, parts[0]), parts[1..])
    else Null
  }

  function Dotted(spec: Doc, field: string): Json { Lookup(Obj(spec), Split(field, '.')) }

  lemma LookupOne(node: Json, a: string)
    ensures Lookup(node, [a]) == if HasKey(node, a) then At(node.members, a) else Null
  {
    assert [a][1..] == [];
  }

  lemma LookupTwo(node: Json, a: string, b: string)
    ensures var inner := Get(node, a);
      Lookup(node, [a, b]) == if inner.Some? && HasKey(inner.value, b) then At(inner.value.members, b) else Null
  {
    assert [a, b][1..] == [b];
    if HasKey(node, a) { LookupOne(At(node.members, a), b); }
    assert Lookup(node, [a, b]) == if HasKey(node, a) then Lookup(At(node.members, a), [b]) else Null;
    hide Lookup;
  }

  /** The schema index is the content of `components.schemas`, or else of `definitions`, or else empty. */
  lemma SchemaIndexExact(spec: Doc)
    ensures var schemas, definitions := Lookup(Obj(spec), ["components", "schemas"]),
        Lookup(Obj(spec), ["definitions"]);
      SchemaIndex(spec) ==
        if schemas.Obj? then MarkerOf(schemas).fields
        else if definitions.Obj? then MarkerOf(definitions).fields
        else map[]
  {
    hide SchemaIndex, Schemas, Lookup;
    SchemasFound(spec);
    IndexIsMarker(spec);
    FoundMarker(Lookup(Obj(spec), ["components", "schemas"]), Lookup(Obj(spec), ["definitions"]), Schemas(spec));
  }

  lemma FoundMarker(schemas: Json, definitions: Json, found: seq<Member>)
    requires found == if schemas.Obj? then schemas.members else if definitions.Obj? then definitions.members else []
    ensures MarkerOf(Obj(found)).fields ==
      if schemas.Obj? then MarkerOf(schemas).fields
      else if definitions.Obj? then MarkerOf(definitions).fields
      else map[]
  {
    assert schemas.Obj? ==> schemas == Obj(schemas.members);
    assert definitions.Obj? ==> definitions == Obj(definitions.members);
    assert KeySet([]) == {};
  }

  lemma IndexIsMarker(spec: Doc)
    ensures SchemaIndex(spec) == MarkerOf(Obj(Schemas(spec))).fields
  {
    hide Schemas;
  }

  lemma SchemasFound(spec: Doc)
    ensures var schemas, definitions := Lookup(Obj(spec), ["components", "schemas"]),
        Lookup(Obj(spec), ["definitions"]);
      Schemas(spec) == if schemas.Obj? then schemas.members else if definitions.Obj? then definitions.members else []
  {
    LookupTwo(Obj(spec), "components", "schemas");
    LookupOne(Obj(spec), "definitions");
    hide Lookup;
  }

  datatype Change = Change(field: string, baseline: Json, fetched: Json)

  function Changes(baseline: Doc, fetched: Doc, fields: seq<string>): seq<Change> {
    if fields == [] then []
    else
      var before, field := Changes(baseline, fetched, fields[..|fields| - 1]), fields[|fields| - 1];
      var was, now := Dotted(baseline, field), Dotted(fetched, field);
      if PyEqual(was, now) then before else before + [Change(field, was, now)]
  }

  lemma {:induction false} NoChangesIff(baseline: Doc, fetched: Doc, fields: seq<string>)
    ensures Changes(baseline, fetched, fields) == [] <==>
      forall f <- fields :: PyEqual(Dotted(baseline, f), Dotted(fetched, f))
  {
    hide PyEqual, Dotted;
    if fields != [] {
      var init, last := fields[..|fields| - 1], fields[|fields| - 1];
      NoChangesIff(baseline, fetched, init);
      assert fields == init + [last];
    }
  }

  // ----- the delta of two indices -----

  datatype Delta = Delta(added: set<string>, removed: set<string>, changed: set<string>)

  function DeltaOf(base: Index, next: Index): Delta {
    Delta(next.Keys - base.Keys, base.Keys - next.Keys, set k | k in base && k in next && base[k] != next[k])
  }

  function Apply(base: Index, delta: Delta, values: Index): Index
    requires delta.added + delta.changed <= values.Keys
  {
    (base - delta.removed) + map k | k in delta.added + delta.changed :: values[k]
  }

  /**
   * A delta is exact: its three parts are disjoint, it rebuilds the new index from the old one and
   * nothing but the values it names, and read backwards it is the delta of the swapped indices.
   */
  lemma DeltaExact(base: Index, next: Index)
    ensures var d := DeltaOf(base, next);
      && d.added !! d.removed && d.added !! d.changed && d.removed !! d.changed
      && Apply(base, d, next) == next
      && DeltaOf(next, base) == Delta(d.removed, d.added, d.changed)
      && (d == Delta({}, {}, {}) <==> base == next)
  {
    var d := DeltaOf(base, next);
    assert DeltaOf(next, base).changed == d.changed;
    if d == Delta({}, {}, {}) {
      assert base.Keys == next.Keys by {
        assert base.Keys <= next.Keys + d.removed && next.Keys <= base.Keys + d.added;
      }
      forall k | k in base ensures base[k] == next[k] {
        assert k !in d.changed;
      }
      assert base == next;
    }
  }

  // ----- the report -----

  /** Endpoints compare by path, then by verb. */
  predicate EndpointLess(a: string, b: string) {
    var (va, pa) := Partition(a);
    var (vb, pb) := Partition(b);
    Less(pa, pb) || (pa == pb && Less(va, vb))
  }

  lemma EndpointOrder(a: string, b: string)
    requires IsEndpointKey(a) && IsEndpointKey(b)
    ensures !EndpointLess(a, a) && (a == b || EndpointLess(a, b) || EndpointLess(b, a))
  {
    hide Less, EndpointKey, Partition, HTTP_METHODS;
    VerbsAreLower();
    var va :| va in HTTP_METHODS && a == EndpointKey(va, Partition(a).1);
    var vb :| vb in HTTP_METHODS && b == EndpointKey(vb, Partition(b).1);
    PartitionReadsKey(va, Partition(a).1);
    PartitionReadsKey(vb, Partition(b).1);
    LessTrichotomy(Partition(a).1, Partition(b).1);
    LessTrichotomy(Partition(a).0, Partition(b).0);
    LessTrichotomy(Partition(a).1, Partition(a).1);
    LessTrichotomy(Partition(a).0, Partition(a).0);
    if Partition(a) == Partition(b) { RebuiltFromParts(va, vb, a, b); }
  }

  lemma RebuiltFromParts(va: string, vb: string, a: string, b: string)
    requires AllLower(va) && AllLower(vb) && Partition(a) == Partition(b)
    requires a == EndpointKey(va, Partition(a).1) && b == EndpointKey(vb, Partition(b).1)
    ensures a == b
  {
    hide Partition;
    PartitionReadsKey(va, Partition(a).1);
    PartitionReadsKey(vb, Partition(b).1);
  }

  /** On endpoint keys the order is total, because path and verb together tell keys apart. */
  lemma EndpointOrderIsTotal(items: set<string>)
    requires forall k <- items :: IsEndpointKey(k)
    ensures TotalOn(items, EndpointLess)
  {
    forall a, b | a in items && b in items ensures !EndpointLess(a, a) &&
        (a == b || EndpointLess(a, b) || EndpointLess(b, a)) {
      EndpointOrder(a, b);
    }
    forall a, b, c | a in items && b in items && c in items && EndpointLess(a, b) && EndpointLess(b, c)
      ensures EndpointLess(a, c)
    {
      EndpointLessTransitive(a, b, c);
    }
  }

  lemma EndpointLessTransitive(a: string, b: string, c: string)
    requires EndpointLess(a, b) && EndpointLess(b, c)
    ensures EndpointLess(a, c)
  {
    hide Less, Partition;
    var (va, pa) := Partition(a);
    var (vb, pb) := Partition(b);
    var (vc, pc) := Partition(c);
    if Less(pa, pb) && Less(pb, pc) { LessTransitive(pa, pb, pc); }
    if Less(va, vb) && Less(vb, vc) { LessTransitive(va, vb, vc); }
  }

  datatype Report = Report(
    added: seq<string>, removed: seq<string>, changed: seq<string>,
    schemasAdded: seq<string>, schemasRemoved: seq<string>, schemasChanged: seq<string>,
    metadata: seq<Change>)

  predicate Drift(r: Report) {
    r.added != [] || r.removed != [] || r.changed != []
    || r.schemasAdded != [] || r.schemasRemoved != [] || r.schemasChanged != [] || r.metadata != []
  }

  /** The report of two specifications: each part of each delta, in its one order. */
  ghost predicate IsReport(r: Report, baseline: Doc, fetched: Doc) {
    var endpoints := DeltaOf(EndpointIndex(baseline), EndpointIndex(fetched));
    var schemas := DeltaOf(SchemaIndex(baseline), SchemaIndex(fetched));
    && IsSorting(r.added, endpoints.added, EndpointLess)
    && IsSorting(r.removed, endpoints.removed, EndpointLess)
    && IsSorting(r.changed, endpoints.changed, EndpointLess)
    && IsSorting(r.schemasAdded, schemas.added, Less)
    && IsSorting(r.schemasRemoved, schemas.removed, Less)
    && IsSorting(r.schemasChanged, schemas.changed, Less)
    && r.metadata == Changes(baseline, fetched, METADATA_FIELDS)
  }

  lemma IndexKeysAreEndpoints(spec: Doc)
    ensures forall k <- EndpointIndex(spec) :: IsEndpointKey(k)
  {
    hide IsEndpointKey, PathIndex;
    var paths := Get(Obj(spec), "paths");
    if paths.Some? && paths.value.Obj? { KeysAreEndpoints(paths.value.members); }
  }

  method DiffSpecs(baseline: Doc, fetched: Doc) returns (r: Report)
    ensures IsReport(r, baseline, fetched)
  {
    hide EndpointIndex, SchemaIndex, Less, EndpointLess, IsEndpointKey, IsSorting, TotalOn, Dotted, PyEqual,
      METADATA_FIELDS;
    var baseEps := BuildEndpointIndex(baseline);
    var newEps := BuildEndpointIndex(fetched);
    IndexKeysAreEndpoints(baseline);
    IndexKeysAreEndpoints(fetched);
    var endpoints := DeltaOf(baseEps, newEps);
    EndpointOrderIsTotal(endpoints.added);
    EndpointOrderIsTotal(endpoints.removed);
    EndpointOrderIsTotal(endpoints.changed);
    var added := Sorted(endpoints.added, EndpointLess);
    var removed := Sorted(endpoints.removed, EndpointLess);
    var changed := Sorted(endpoints.changed, EndpointLess);
    var schemas := DeltaOf(SchemaIndex(baseline), SchemaIndex(fetched));
    LessIsTotal(schemas.added);
    LessIsTotal(schemas.removed);
    LessIsTotal(schemas.changed);
    var schemasAdded := Sorted(schemas.added, Less);
    var schemasRemoved := Sorted(schemas.removed, Less);
    var schemasChanged := Sorted(schemas.changed, Less);
    var metadata: seq<Change> := [];
    for i := 0 to |METADATA_FIELDS|
      invariant metadata == Changes(baseline, fetched, METADATA_FIELDS[..i])
    {
      var field := METADATA_FIELDS[i];
      assert METADATA_FIELDS[..i + 1][..i] == METADATA_FIELDS[..i] && METADATA_FIELDS[..i + 1][i] == field;
      var was, now := Dotted(baseline, field), Dotted(fetched, field);
      if !PyEqual(was, now) { metadata := metadata + [Change(field, was, now)]; }
    }
    assert METADATA_FIELDS[..|METADATA_FIELDS|] == METADATA_FIELDS;
    r := Report(added, removed, changed, schemasAdded, schemasRemoved, schemasChanged, metadata);
  }

  /** Two specifications have one report. */
  lemma ReportUnique(r: Report, t: Report, baseline: Doc, fetched: Doc)
    requires IsReport(r, baseline, fetched) && IsReport(t, baseline, fetched)
    ensures r == t
  {
    hide EndpointIndex, SchemaIndex, Less, EndpointLess, IsEndpointKey, IsSorting, TotalOn, Changes, METADATA_FIELDS;
    IndexKeysAreEndpoints(baseline);
    IndexKeysAreEndpoints(fetched);
    var endpoints := DeltaOf(EndpointIndex(baseline), EndpointIndex(fetched));
    var schemas := DeltaOf(SchemaIndex(baseline), SchemaIndex(fetched));
    EndpointOrderIsTotal(endpoints.added);
    EndpointOrderIsTotal(endpoints.removed);
    EndpointOrderIsTotal(endpoints.changed);
    LessIsTotal(schemas.added);
    LessIsTotal(schemas.removed);
    LessIsTotal(schemas.changed);
    SortingUnique(r.added, t.added, endpoints.added, EndpointLess);
    SortingUnique(r.removed, t.removed, endpoints.removed, EndpointLess);
    SortingUnique(r.changed, t.changed, endpoints.changed, EndpointLess);
    SortingUnique(r.schemasAdded, t.schemasAdded, schemas.added, Less);
    SortingUnique(r.schemasRemoved, t.schemasRemoved, schemas.removed, Less);
    SortingUnique(r.schemasChanged, t.schemasChanged, schemas.changed, Less);
  }

  /** No drift iff the endpoint indices, the schema indices and every metadata field agree. */
  lemma NoDriftIff(r: Report, baseline: Doc, fetched: Doc)
    requires IsReport(r, baseline, fetched)
    ensures !Drift(r) <==>
      && EndpointIndex(baseline) == EndpointIndex(fetched)
      && SchemaIndex(baseline) == SchemaIndex(fetched)
      && forall f <- METADATA_FIELDS :: PyEqual(Dotted(baseline, f), Dotted(fetched, f))
  {
    hide EndpointIndex, SchemaIndex, Less, EndpointLess, IsSorting, Dotted, PyEqual, METADATA_FIELDS, Changes, Apply;
    var endpoints := DeltaOf(EndpointIndex(baseline), EndpointIndex(fetched));
    var schemas := DeltaOf(SchemaIndex(baseline), SchemaIndex(fetched));
    DeltaExact(EndpointIndex(baseline), EndpointIndex(fetched));
    DeltaExact(SchemaIndex(baseline), SchemaIndex(fetched));
    NoChangesIff(baseline, fetched, METADATA_FIELDS);
    SortingEmpty(r.added, endpoints.added, EndpointLess);
    SortingEmpty(r.removed, endpoints.removed, EndpointLess);
    SortingEmpty(r.changed, endpoints.changed, EndpointLess);
    SortingEmpty(r.schemasAdded, schemas.added, Less);
    SortingEmpty(r.schemasRemoved, schemas.removed, Less);
    SortingEmpty(r.schemasChanged, schemas.changed, Less);
    hide DeltaOf;
  }

  // ----- the report over the raw documents -----

  /** The operations a path item may hold. */
  const OPERATIONS: set<string> := {"get", "put", "post", "delete", "options", "head", "patch", "trace"}

  lemma OperationsAreMethods()
    ensures forall v :: v in OPERATIONS <==> v in HTTP_METHODS
  {
  }

  /** The specification has an operation under this verb and path. */
  predicate HasOperation(spec: Doc, verb: string, path: string) {
    var paths := Get(Obj(spec), "paths");
    paths.Some? && HasKey(paths.value, path) && HasKey(At(paths.value.members, path), verb)
  }

  function ItemAt(spec: Doc, verb: string, path: string): Json
    requires HasOperation(spec, verb, path)
  {
    At(Get(Obj(spec), "paths").value.members, path)
  }

  /** Both documents hold the same, key order aside, or neither holds anything. */
  ghost predicate SameOptional(a: Option<Json>, b: Option<Json>) {
    a.Some? == b.Some? && (a.Some? ==> SameJson(a.value, b.value))
  }

  /** The operation's own content is the same, and so are the parameters its path shares. */
  ghost predicate SameContent(a: Doc, b: Doc, verb: string, path: string)
    requires HasOperation(a, verb, path) && HasOperation(b, verb, path)
  {
    var x, y := ItemAt(a, verb, path), ItemAt(b, verb, path);
    && SameJson(At(x.members, verb), At(y.members, verb))
    && SameOptional(Get(x, "parameters"), Get(y, "parameters"))
  }

  /** Two payloads have one marker exactly when operation and shared parameters are the same. */
  lemma PayloadExact(x: Json, y: Json, verb: string)
    requires HasKey(x, verb) && HasKey(y, verb)
    ensures MarkerOf(Payload(x, verb)) == MarkerOf(Payload(y, verb)) <==>
      && SameJson(At(x.members, verb), At(y.members, verb))
      && SameOptional(Get(x, "parameters"), Get(y, "parameters"))
  {
    PayloadParts(x, verb);
    PayloadParts(y, verb);
    MarkerExact(At(x.members, verb), At(y.members, verb));
    if Get(x, "parameters").Some? && Get(y, "parameters").Some? {
      MarkerExact(Get(x, "parameters").value, Get(y, "parameters").value);
    }
    hide MarkerOf, Payload, SameJson, Get;
    SameObject(Payload(x, verb), Payload(y, verb));
    assert "operation" != "pathParameters" by { assert "operation"[0] != "pathParameters"[0]; }
  }

  lemma PayloadParts(item: Json, verb: string)
    requires HasKey(item, verb)
    ensures var p, shared := Payload(item, verb), Get(item, "parameters");
      && p.Obj? && KeySet(p.members) == (if shared.Some? then {"operation", "pathParameters"} else {"operation"})
      && At(p.members, "operation") == At(item.members, verb)
      && (shared.Some? ==> At(p.members, "pathParameters") == shared.value)
  {
    var p, shared := Payload(item, verb), Get(item, "parameters");
    assert p.members[0] == Member("operation", At(item.members, verb));
    if shared.Some? {
      assert p.members[1] == Member("pathParameters", shared.value);
      assert UniqueKeys(p.members) by { assert "operation"[0] != "pathParameters"[0]; }
      AtIndex(p.members, 1);
    }
    hide Get;
  }

  /** What the index says of an operation, over the raw documents. */
  lemma IndexedIff(a: Doc, b: Doc, verb: string, path: string)
    requires ValidJson(Obj(a)) && ValidJson(Obj(b)) && verb in OPERATIONS
    ensures EndpointKey(verb, path) in EndpointIndex(a) <==> HasOperation(a, verb, path)
    ensures HasOperation(a, verb, path) && HasOperation(b, verb, path) ==>
      EndpointKey(verb, path) in EndpointIndex(b)
      && (EndpointIndex(a)[EndpointKey(verb, path)] == EndpointIndex(b)[EndpointKey(verb, path)] <==>
          SameContent(a, b, verb, path))
  {
    OperationsAreMethods();
    IndexExact(a, verb, path);
    IndexExact(b, verb, path);
    if HasOperation(a, verb, path) && HasOperation(b, verb, path) {
      PayloadExact(ItemAt(a, verb, path), ItemAt(b, verb, path), verb);
    }
    hide EndpointIndex, MarkerOf, Payload, SameJson, Get, EndpointKey, SameOptional;
  }

  /**
   * The endpoints of a report: what only the fetched document has, what only the baseline has, and what
   * both have with another operation or other shared parameters.
   */
  lemma ReportedEndpoints(r: Report, baseline: Doc, fetched: Doc, verb: string, path: string)
    requires IsReport(r, baseline, fetched) && ValidJson(Obj(baseline)) && ValidJson(Obj(fetched))
    requires verb in OPERATIONS
    ensures var key := EndpointKey(verb, path);
      && (key in r.added <==> !HasOperation(baseline, verb, path) && HasOperation(fetched, verb, path))
      && (key in r.removed <==> HasOperation(baseline, verb, path) && !HasOperation(fetched, verb, path))
      && (key in r.changed <==>
            HasOperation(baseline, verb, path) && HasOperation(fetched, verb, path)
            && !SameContent(baseline, fetched, verb, path))
  {
    IndexedIff(baseline, fetched, verb, path);
    IndexedIff(fetched, baseline, verb, path);
    hide EndpointIndex, SchemaIndex, EndpointLess, Less, HasOperation, SameContent, EndpointKey, Changes,
      METADATA_FIELDS, OPERATIONS, ValidJson;
  }

  /** A report names nothing but endpoints, ordered by path and then by verb. */
  lemma ReportedAreEndpoints(r: Report, baseline: Doc, fetched: Doc)
    requires IsReport(r, baseline, fetched)
    ensures forall k <- r.added + r.removed + r.changed :: IsEndpointKey(k)
  {
    IndexKeysAreEndpoints(baseline);
    IndexKeysAreEndpoints(fetched);
    hide EndpointIndex, SchemaIndex, EndpointLess, Less, IsEndpointKey, Changes, METADATA_FIELDS;
    var e := DeltaOf(EndpointIndex(baseline), EndpointIndex(fetched));
    forall k | k in r.added + r.removed + r.changed ensures IsEndpointKey(k) {
      assert k in e.added || k in e.removed || k in e.changed;
    }
  }

  lemma EndpointOrderIs(verb: string, path: string, verb': string, path': string)
    requires AllLower(verb) && AllLower(verb')
    ensures EndpointLess(EndpointKey(verb, path), EndpointKey(verb', path')) <==>
      Less(path, path') || (path == path' && Less(Upper(verb), Upper(verb')))
  {
    hide Less, EndpointKey, Partition;
    PartitionReadsKey(verb, path);
    PartitionReadsKey(verb', path');
  }

  /** The places of the metadata fields. */
  function MetadataPath(field: string): seq<string> {
    match field
    case "info.title" => ["info", "title"]
    case "info.version" => ["info", "version"]
    case _ => [field]
  }

  const METADATA: set<string> := {"openapi", "swagger", "info.title", "info.version", "servers", "basePath", "host"}

  lemma MetadataPlaces()
    ensures forall f :: f in METADATA <==> f in METADATA_FIELDS
    ensures forall f <- METADATA :: Split(f, '.') == MetadataPath(f)
  {
    FlatFields();
    DottedFields();
    hide Split;
  }

  lemma FlatFields()
    ensures forall f <- ["openapi", "swagger", "servers", "basePath", "host"] ::
      Split(f, '.') == [f] && MetadataPath(f) == [f]
  {
    hide Split, MetadataPath;
    FlatField("openapi");
    FlatField("swagger");
    FlatField("servers");
    FlatField("basePath");
    FlatField("host");
  }

  lemma FlatField(f: string)
    requires '.' !in f
    ensures Split(f, '.') == [f] && MetadataPath(f) == [f]
  {
    SplitWithout(f, '.');
    hide Split;
    assert "info.title"[4] == '.' && "info.version"[4] == '.';
  }

  lemma DottedFields()
    ensures forall f <- ["info.title", "info.version"] :: Split(f, '.') == MetadataPath(f)
  {
    assert '.' !in "info" && '.' !in "title" && '.' !in "version";
    assert "info" + ['.'] + "title" == "info.title" && "info" + ['.'] + "version" == "info.version";
    DotBetween("info", "title");
    DotBetween("info", "version");
    hide Split;
  }

  lemma DotBetween(a: string, b: string)
    requires '.' !in a && '.' !in b
    ensures Split(a + ['.'] + b, '.') == [a, b]
  {
    SplitWithout(b, '.');
    SplitAt(a, b, '.');
  }

  /** The value under a key of a document, or under a key of that; null where there is none. */
  function Direct(spec: Doc, key: string): Json { if key in KeySet(spec) then At(spec, key) else Null }

  function Inside(spec: Doc, key: string, inner: string): Json {
    var holder := Direct(spec, key);
    if holder.Obj? && inner in KeySet(holder.members) then At(holder.members, inner) else Null
  }

  /** Where each metadata field stands in a document. */
  function MetadataOf(spec: Doc, field: string): Json {
    match field
    case "info.title" => Inside(spec, "info", "title")
    case "info.version" => Inside(spec, "info", "version")
    case _ => Direct(spec, field)
  }

  lemma MetadataFound(spec: Doc, field: string)
    requires field in METADATA
    ensures Dotted(spec, field) == MetadataOf(spec, field)
  {
    MetadataPlaces();
    hide Split, Lookup;
    LookupOne(Obj(spec), field);
    LookupTwo(Obj(spec), "info", "title");
    LookupTwo(Obj(spec), "info", "version");
  }

  /** A metadata field is reported, with both values, exactly when it differs as Python compares them. */
  lemma ReportedMetadata(r: Report, baseline: Doc, fetched: Doc, c: Change)
    requires IsReport(r, baseline, fetched)
    ensures c in r.metadata <==>
      && c.field in METADATA
      && c.baseline == MetadataOf(baseline, c.field) && c.fetched == MetadataOf(fetched, c.field)
      && !PySame(c.baseline, c.fetched)
  {
    MetadataPlaces();
    PyEqualExact(c.baseline, c.fetched);
    if c.field in METADATA {
      MetadataFound(baseline, c.field);
      MetadataFound(fetched, c.field);
    }
    hide Split, METADATA_FIELDS, METADATA, MetadataPath, MetadataOf, Dotted, PyEqual, PySame, Lookup, EndpointIndex,
      SchemaIndex;
    ChangesExact(baseline, fetched, METADATA_FIELDS, c);
  }

  /** The schemas a document publishes: those of OpenAPI 3, or of Swagger 2 where the former is no object. */
  function Published(spec: Doc): seq<Member> {
    var schemas := Inside(spec, "components", "schemas");
    if schemas.Obj? then schemas.members
    else if Direct(spec, "definitions").Obj? then Direct(spec, "definitions").members
    else []
  }

  lemma PublishedIndex(spec: Doc)
    ensures SchemaIndex(spec).Keys == KeySet(Published(spec))
    ensures forall name <- KeySet(Published(spec)) :: SchemaIndex(spec)[name] == MarkerOf(At(Published(spec), name))
  {
    LookupTwo(Obj(spec), "components", "schemas");
    LookupOne(Obj(spec), "definitions");
    SchemasFound(spec);
    hide Lookup, Schemas, MarkerOf;
    assert Schemas(spec) == Published(spec);
  }

  /**
   * The schemas of a report: what only the fetched document publishes, what only the baseline does, and what
   * both publish with other content, each list in the order of the names.
   */
  lemma ReportedSchemas(r: Report, baseline: Doc, fetched: Doc, name: string)
    requires IsReport(r, baseline, fetched)
    ensures var was, now := Published(baseline), Published(fetched);
      && (name in r.schemasAdded <==> name !in KeySet(was) && name in KeySet(now))
      && (name in r.schemasRemoved <==> name in KeySet(was) && name !in KeySet(now))
      && (name in r.schemasChanged <==>
            name in KeySet(was) && name in KeySet(now) && !SameJson(At(was, name), At(now, name)))
    ensures Ascending(r.schemasAdded) && Ascending(r.schemasRemoved) && Ascending(r.schemasChanged)
  {
    PublishedIndex(baseline);
    PublishedIndex(fetched);
    var was, now := Published(baseline), Published(fetched);
    if name in KeySet(was) && name in KeySet(now) { MarkerExact(At(was, name), At(now, name)); }
    hide Published, SchemaIndex, EndpointIndex, MarkerOf, SameJson, KeySet, Less;
  }

  predicate Ascending(names: seq<string>) {
    forall i, j :: 0 <= i < j < |names| ==> Less(names[i], names[j])
  }

  lemma {:induction false} ChangesExact(baseline: Doc, fetched: Doc, fields: seq<string>, c: Change)
    ensures c in Changes(baseline, fetched, fields) <==>
      && c.field in fields && c.baseline == Dotted(baseline, c.field) && c.fetched == Dotted(fetched, c.field)
      && !PyEqual(c.baseline, c.fetched)
  {
    hide PyEqual, Dotted;
    if fields != [] {
      var init, last := fields[..|fields| - 1], fields[|fields| - 1];
      ChangesExact(baseline, fetched, init, c);
      assert fields == init + [last];
    }
  }

  /** The order the fields are reported in. */
  function Rank(field: string): nat {
    match field
    case "openapi" => 0
    case "swagger" => 1
    case "info.title" => 2
    case "info.version" => 3
    case "servers" => 4
    case "basePath" => 5
    case _ => 6
  }

  lemma RanksAreOrder()
    ensures forall n :: 0 <= n < |METADATA_FIELDS| ==> Rank(METADATA_FIELDS[n]) == n
  {
  }

  /** Changes in that order, each field at most once. */
  predicate InOrder(changes: seq<Change>) {
    forall i, j :: 0 <= i < j < |changes| ==> Rank(changes[i].field) < Rank(changes[j].field)
  }

  /** Reported metadata fields come in that order, each at most once. */
  lemma {:induction false} MetadataInOrder(r: Report, baseline: Doc, fetched: Doc)
    requires IsReport(r, baseline, fetched)
    ensures InOrder(r.metadata)
  {
    RanksAreOrder();
    hide Rank, InOrder, EndpointIndex, SchemaIndex;
    ChangesInOrder(baseline, fetched, METADATA_FIELDS, |METADATA_FIELDS|);
    assert METADATA_FIELDS[..|METADATA_FIELDS|] == METADATA_FIELDS;
  }

  lemma {:induction false} ChangesInOrder(baseline: Doc, fetched: Doc, fields: seq<string>, n: nat)
    requires n <= |fields| && forall i :: 0 <= i < |fields| ==> Rank(fields[i]) == i
    ensures var cs := Changes(baseline, fetched, fields[..n]);
      InOrder(cs) && forall c <- cs :: Rank(c.field) < n
  {
    hide Rank, Dotted, PyEqual;
    if n > 0 {
      ChangesInOrder(baseline, fetched, fields, n - 1);
      assert fields[..n][..n - 1] == fields[..n - 1] && fields[..n][n - 1] == fields[n - 1];
      var before := Changes(baseline, fetched, fields[..n - 1]);
      forall i | 0 <= i < |before| ensures Rank(before[i].field) < n - 1 { assert before[i] in before; }
    }
  }

  /**
   * No drift exactly when both documents have the same operations with the same content, their schema
   * blocks hold the same, and every metadata field is equal as Python compares them.
   */
  lemma InSyncIff(r: Report, baseline: Doc, fetched: Doc)
    requires IsReport(r, baseline, fetched) && ValidJson(Obj(baseline)) && ValidJson(Obj(fetched))
    ensures !Drift(r) <==>
      && (forall verb, path :: verb in OPERATIONS ==> Unchanged(baseline, fetched, verb, path))
      && SamePublished(Published(baseline), Published(fetched))
      && forall f <- METADATA :: PySame(MetadataOf(baseline, f), MetadataOf(fetched, f))
  {
    NoDriftIff(r, baseline, fetched);
    SameIndexIff(baseline, fetched);
    MetadataPlaces();
    OperationsAreMethods();
    SameSchemasIff(baseline, fetched);
    forall f | f in METADATA
      ensures PyEqual(Dotted(baseline, f), Dotted(fetched, f)) <==>
        PySame(MetadataOf(baseline, f), MetadataOf(fetched, f))
    {
      MetadataFound(baseline, f);
      MetadataFound(fetched, f);
      PyEqualExact(Dotted(baseline, f), Dotted(fetched, f));
    }
    forall verb, path | verb in OPERATIONS
      ensures SameOperation(baseline, fetched, verb, path) <==> Unchanged(baseline, fetched, verb, path)
    {
      UnchangedIff(baseline, fetched, verb, path);
    }
    hide PyEqual, PySame, Lookup, Dotted, MetadataPath, METADATA, METADATA_FIELDS, OPERATIONS, HTTP_METHODS,
      EndpointIndex, SchemaIndex, SameOperation, Unchanged, IsReport, Drift, ValidJson, SamePublished, Published,
      MetadataOf;
  }

  /** The same names, each with the same content. */
  predicate SamePublished(a: seq<Member>, b: seq<Member>) {
    KeySet(a) == KeySet(b) && forall name <- KeySet(a) :: SameJson(At(a, name), At(b, name))
  }

  lemma {:induction false} SameSchemasIff(a: Doc, b: Doc)
    ensures SchemaIndex(a) == SchemaIndex(b) <==> SamePublished(Published(a), Published(b))
  {
    PublishedIndex(a);
    PublishedIndex(b);
    hide Published, SchemaIndex, MarkerOf, SameJson, KeySet, At, SamePublished;
    SameIndices(SchemaIndex(a), SchemaIndex(b), Published(a), Published(b));
  }

  lemma {:induction false} SameIndices(x: Index, y: Index, a: seq<Member>, b: seq<Member>)
    requires x.Keys == KeySet(a) && forall name <- x.Keys :: x[name] == MarkerOf(At(a, name))
    requires y.Keys == KeySet(b) && forall name <- y.Keys :: y[name] == MarkerOf(At(b, name))
    ensures x == y <==> SamePublished(a, b)
  {
    hide MarkerOf, SameJson, KeySet, At, IndexOf;
    forall name | name in x.Keys && name in y.Keys ensures x[name] == y[name] <==> SameJson(At(a, name), At(b, name)) {
      MarkerExact(At(a, name), At(b, name));
    }
  }

  ghost predicate Unchanged(a: Doc, b: Doc, verb: string, path: string) {
    && (HasOperation(a, verb, path) <==> HasOperation(b, verb, path))
    && (HasOperation(a, verb, path) && HasOperation(b, verb, path) ==> SameContent(a, b, verb, path))
  }

  lemma UnchangedIff(a: Doc, b: Doc, verb: string, path: string)
    ensures SameOperation(a, b, verb, path) <==> Unchanged(a, b, verb, path)
  {
    if HasOperation(a, verb, path) && HasOperation(b, verb, path) {
      PayloadExact(ItemAt(a, verb, path), ItemAt(b, verb, path), verb);
    }
    hide MarkerOf, Payload, SameJson, Get, SameOptional;
  }

  // ----- update, then diff -----

  ghost predicate ReportsNoDrift(baseline: Doc, fetched: Doc) {
    forall r :: IsReport(r, baseline, fetched) ==> !Drift(r)
  }

  /**
   * After any run that had a good update of a target, from a directory with at most one baseline of
   * it, fetching the same API again, from that deployment or from any other, reports no drift
   * against the one baseline the directory holds.
   */
  lemma InSyncAfterUpdate(files: Files, updates: seq<Update>, target: Target, render: Json -> string, again: Doc)
    requires LastGood(updates, target).Some? && |Matches(files, target)| <= 1
    requires UniqueKeys(again) && UniqueKeys(LastGood(updates, target).value.fetched)
    requires SameApi(LastGood(updates, target).value.fetched, again)
    ensures var after := Run(files, updates, render);
      var dest := DestName(LastGood(updates, target).value.fetched, target, render);
      && Matches(after, target) == {dest}
      && SanitizeSpec(after[dest], Placeholder(target)).Some? && SanitizeSpec(again, Placeholder(target)).Some?
      && ReportsNoDrift(SanitizeSpec(after[dest], Placeholder(target)).value.doc,
          SanitizeSpec(again, Placeholder(target)).value.doc)
  {
    hide EndpointIndex, SchemaIndex, IsReport, Drift, Dotted, METADATA_FIELDS, SameApi, Placeholder, SanitizeSpec, Run,
      LastGood, IsBaseline, DestName;
    var after := Run(files, updates, render);
    var u := LastGood(updates, target).value;
    RunOutcome(files, updates, target, render);
    MatchesOfBaseline(files, target);
    MatchesOfBaseline(after, target);
    var dest := DestName(u.fetched, target, render);
    assert dest in Baseline(after, target) && after[dest] == SanitizedDoc(u).value;
    SanitizeSpecIdempotent(u.fetched, target);
    SanitizeSpecHostBlind(u.fetched, again, target);
    var doc := SanitizedDoc(u).value;
    forall r | IsReport(r, doc, doc) ensures !Drift(r) { NoDriftIff(r, doc, doc); }
  }
}
