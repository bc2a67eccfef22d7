/**
 * Validating a payload into emitted models by alias and dumping it back. Field types are followed through
 * the class table; undocumented keys are kept as extras; only fields that were set are dumped.
 */
module AliasTable {
  import opened Wrappers
  import opened JsonValues
  import opened MapBlocks
  import opened ClassTable
  import opened Folding
  import opened Aliases
  import opened Coercion

  datatype Loaded =
    | Plain(json: Json)
    | LoadedList(elements: seq<Loaded>)
    | LoadedDict(entries: seq<Entry>)
    | LoadedRecord(fields: seq<Entry>, extras: seq<Member>)

  /** A dict entry, or a field that was set, under the name it is dumped as. */
  datatype Entry = Entry(key: string, value: Loaded)

  /** Where a field finds its value: under its alias, else under its own Python name. */
  function SourceKey(f: FieldSpec, keys: set<string>): Option<string> {
    if Alias(f) in keys then Some(Alias(f))
    else if f.pythonName in keys then Some(f.pythonName)
    else None
  }

  function Extras(fields: seq<FieldSpec>, ms: seq<Member>): seq<Member> {
    ExtrasFrom(fields, ms, KeySet(ms))
  }

  function ExtrasFrom(fields: seq<FieldSpec>, ms: seq<Member>, keys: set<string>): seq<Member> {
    if ms == [] then []
    else if (exists f <- fields :: SourceKey(f, keys) == Some(ms[0].key)) then ExtrasFrom(fields, ms[1..], keys)
    else [ms[0]] + ExtrasFrom(fields, ms[1..], keys)
  }

  /** The model a payload becomes, where validation accepts it; numbers become text in record fields only. */
  function Load(lax: Lax, numbersToStr: bool, cs: seq<ClassSpec>, e: TypeExpr, v: Json): Loaded
    decreases |cs|, e
  {
    match e
    case AnyType => Plain(v)
    case ScalarType(scalar) =>
      var read := Coerce(lax, numbersToStr, scalar, v);
      Plain(if read.Some? then read.value else v)
    case ListType(item) =>
      if v.Arr? then
        LoadedList(seq(|v.items|, i requires 0 <= i < |v.items| => Load(lax, numbersToStr, cs, item, v.items[i])))
      else Plain(v)
    case DictType(value) =>
      if v.Obj? then
        LoadedDict(seq(|v.members|, i requires 0 <= i < |v.members| =>
          Entry(v.members[i].key, Load(lax, numbersToStr, cs, value, v.members[i].value))))
      else Plain(v)
    case ClassRef(name) =>
      if cs == [] then Plain(v)
      else
        var last, earlier := cs[|cs| - 1], cs[..|cs| - 1];
        if last.name != name then Load(lax, numbersToStr, earlier, e, v)
        else LoadClass(lax, earlier, last, v)
  }

  function LoadClass(lax: Lax, cs: seq<ClassSpec>, c: ClassSpec, v: Json): Loaded
    decreases |cs|, c
  {
    match c
    case RootClass(_, rootType) => Load(lax, false, cs, rootType, v)
    case RecordClass(_, fields) =>
      if v.Obj? then LoadedRecord(LoadFields(lax, cs, fields, |fields|, v.members), Extras(fields, v.members))
      else Plain(v)
  }

  /** The first `n` fields that found a value. */
  function LoadFields(lax: Lax, cs: seq<ClassSpec>, fields: seq<FieldSpec>, n: nat, ms: seq<Member>): seq<Entry>
    requires n <= |fields|
    decreases |cs|, fields, n
  {
    if n == 0 then []
    else
      var f := fields[n - 1];
      var earlier := LoadFields(lax, cs, fields, n - 1, ms);
      match SourceKey(f, KeySet(ms))
      case None => earlier
      case Some(key) =>
        earlier + [Entry(Alias(f), LoadField(lax, cs, f, At(ms, key)))]
  }

  /** An optional field takes null as it is. */
  function LoadField(lax: Lax, cs: seq<ClassSpec>, f: FieldSpec, v: Json): Loaded
    decreases |cs|, f
  {
    if !f.required && v.Null? then Plain(v) else Load(lax, true, cs, f.typeExpr, v)
  }

  /** Validation accepts the payload; where it does not, it raises. */
  predicate Validates(lax: Lax, numbersToStr: bool, cs: seq<ClassSpec>, e: TypeExpr, v: Json)
    decreases |cs|, e
  {
    match e
    case AnyType => true
    case ScalarType(scalar) => Coerce(lax, numbersToStr, scalar, v).Some?
    case ListType(item) => v.Arr? && forall x <- v.items :: Validates(lax, numbersToStr, cs, item, x)
    case DictType(value) => v.Obj? && forall m <- v.members :: Validates(lax, numbersToStr, cs, value, m.value)
    case ClassRef(name) =>
      if cs == [] then true
      else
        var last, earlier := cs[|cs| - 1], cs[..|cs| - 1];
        if last.name != name then Validates(lax, numbersToStr, earlier, e, v)
        else ValidatesClass(lax, earlier, last, v)
  }

  predicate ValidatesClass(lax: Lax, cs: seq<ClassSpec>, c: ClassSpec, v: Json)
    decreases |cs|, c
  {
    match c
    case RootClass(_, rootType) => Validates(lax, false, cs, rootType, v)
    case RecordClass(_, fields) => v.Obj? && ValidatesFields(lax, cs, fields, v.members)
  }

  /** Every field finds a value that validates, or may do without one. */
  predicate ValidatesFields(lax: Lax, cs: seq<ClassSpec>, fields: seq<FieldSpec>, ms: seq<Member>)
    decreases |cs|, fields
  {
    forall i :: 0 <= i < |fields| ==>
      var key := SourceKey(fields[i], KeySet(ms));
      if key.None? then !fields[i].required else ValidatesField(lax, cs, fields[i], At(ms, key.value))
  }

  predicate ValidatesField(lax: Lax, cs: seq<ClassSpec>, f: FieldSpec, v: Json)
    decreases |cs|, f
  {
    (!f.required && v.Null?) || Validates(lax, true, cs, f.typeExpr, v)
  }

  /** One `out[key] = value` after another: a key written twice keeps the later value. */
  function Written(ms: seq<Member>): seq<Member> {
    if ms == [] then []
    else SetMember(Written(ms[..|ms| - 1]), ms[|ms| - 1].key, ms[|ms| - 1].value)
  }

  /** Dumping by alias, unset fields left out. */
  function Dump(l: Loaded): Json {
    match l
    case Plain(json) => json
    case LoadedList(elements) =>
      Arr(seq(|elements|, i requires 0 <= i < |elements| => Dump(elements[i])))
    case LoadedDict(entries) => Obj(DumpEntries(entries))
    case LoadedRecord(fields, extras) => Obj(Written(DumpEntries(fields)) + extras)
  }

  function DumpEntries(entries: seq<Entry>): seq<Member> {
    seq(|entries|, i requires 0 <= i < |entries| => Member(entries[i].key, Dump(entries[i].value)))
  }

  // ----- when loading and dumping is the identity -----

  /** No key is a field's Python name while the field's alias is missing. */
  predicate NotShadowed(fields: seq<FieldSpec>, keys: set<string>) {
    forall f <- fields :: Alias(f) in keys || f.pythonName !in keys
  }

  /**
   * The payload is already in the model's own form: at every record no key shadows a field, required
   * fields are there, and every value a field, a list or a dict reaches has its type's own JSON kind.  Where
   * fields share an alias the last one speaks for it, and the others need only accept the value.
   */
  predicate Native(lax: Lax, cs: seq<ClassSpec>, e: TypeExpr, v: Json)
    decreases |cs|, e
  {
    match e
    case AnyType => true
    case ScalarType(scalar) => OwnKind(scalar, v)
    case ListType(item) => v.Arr? && forall x <- v.items :: Native(lax, cs, item, x)
    case DictType(value) => v.Obj? && forall m <- v.members :: Native(lax, cs, value, m.value)
    case ClassRef(name) =>
      if cs == [] then true
      else
        var last, earlier := cs[|cs| - 1], cs[..|cs| - 1];
        if last.name != name then Native(lax, earlier, e, v) else NativeClass(lax, earlier, last, v)
  }

  predicate NativeClass(lax: Lax, cs: seq<ClassSpec>, c: ClassSpec, v: Json)
    decreases |cs|, c
  {
    match c
    case RootClass(_, rootType) => Native(lax, cs, rootType, v)
    case RecordClass(_, fields) => v.Obj? && NativeFields(lax, cs, fields, v.members)
  }

  predicate NativeFields(lax: Lax, cs: seq<ClassSpec>, fields: seq<FieldSpec>, ms: seq<Member>)
    decreases |cs|, fields
  {
    && NotShadowed(fields, KeySet(ms))
    && forall i :: 0 <= i < |fields| ==>
         if Alias(fields[i]) !in KeySet(ms) then !fields[i].required
         else if Overridden(fields, i) then ValidatesField(lax, cs, fields[i], At(ms, Alias(fields[i])))
         else NativeField(lax, cs, fields[i], At(ms, Alias(fields[i])))
  }

  predicate NativeField(lax: Lax, cs: seq<ClassSpec>, f: FieldSpec, v: Json)
    decreases |cs|, f
  {
    (!f.required && v.Null?) || Native(lax, cs, f.typeExpr, v)
  }

  /** What is dumped differs from what was loaded in key order at most. */
  predicate RoundTrips(l: Loaded, v: Json) {
    MarkerOf(Dump(l)) == MarkerOf(v)
  }

  /** Validation accepts the payload, and dumping the model gives it back. */
  predicate Survives(lax: Lax, numbersToStr: bool, cs: seq<ClassSpec>, e: TypeExpr, v: Json) {
    Validates(lax, numbersToStr, cs, e, v) && RoundTrips(Load(lax, numbersToStr, cs, e, v), v)
  }

  // ----- what a record dumps -----

  /** The members a loaded record dumps. */
  function RecordMembers(lax: Lax, cs: seq<ClassSpec>, fields: seq<FieldSpec>, ms: seq<Member>): seq<Member> {
    FieldMembers(lax, cs, fields, |fields|, ms) + Extras(fields, ms)
  }

  /** What the first `n` fields write. */
  function FieldMembers(lax: Lax, cs: seq<ClassSpec>, fields: seq<FieldSpec>, n: nat, ms: seq<Member>): seq<Member>
    requires n <= |fields|
  {
    Written(DumpEntries(LoadFields(lax, cs, fields, n, ms)))
  }

  lemma {:induction false} ExtrasShape(fields: seq<FieldSpec>, ms: seq<Member>, keys: set<string>)
    requires UniqueKeys(ms)
    ensures UniqueKeys(ExtrasFrom(fields, ms, keys))
    ensures forall m :: m in ExtrasFrom(fields, ms, keys) <==>
      m in ms && !exists f <- fields :: SourceKey(f, keys) == Some(m.key)
  {
    if ms != [] {
      hide SourceKey;
      var rest := ms[1..];
      assert ms == [ms[0]] + rest;
      ExtrasShape(fields, rest, keys);
      forall m | m in ExtrasFrom(fields, rest, keys) ensures m.key != ms[0].key {
        var i :| 0 <= i < |rest| && rest[i] == m;
        assert ms[i + 1] == m;
      }
    }
  }

  /** A field writes the value it found under its alias. */
  lemma FieldWrites(lax: Lax, cs: seq<ClassSpec>, fields: seq<FieldSpec>, n: nat, ms: seq<Member>)
    requires 0 < n <= |fields|
    ensures var f, earlier := fields[n - 1], FieldMembers(lax, cs, fields, n - 1, ms);
      FieldMembers(lax, cs, fields, n, ms) ==
        if SourceKey(f, KeySet(ms)).Some?
        then SetMember(earlier, Alias(f), Dump(LoadField(lax, cs, f, At(ms, SourceKey(f, KeySet(ms)).value))))
        else earlier
  {
    hide Alias, LoadField, Dump, SetMember;
    var f, earlier := fields[n - 1], LoadFields(lax, cs, fields, n - 1, ms);
    if SourceKey(f, KeySet(ms)).Some? {
      var last := Entry(Alias(f), LoadField(lax, cs, f, At(ms, SourceKey(f, KeySet(ms)).value)));
      assert LoadFields(lax, cs, fields, n, ms) == earlier + [last];
      hide LoadFields, SourceKey, KeySet;
      WritesLast(earlier, last);
    }
  }

  lemma WritesLast(entries: seq<Entry>, last: Entry)
    ensures Written(DumpEntries(entries + [last])) ==
      SetMember(Written(DumpEntries(entries)), last.key, Dump(last.value))
  {
    hide SetMember, Dump;
    var ms := DumpEntries(entries + [last]);
    assert ms[..|ms| - 1] == DumpEntries(entries);
  }

  lemma SetMemberShape(ms: seq<Member>, key: string, value: Json)
    requires UniqueKeys(ms)
    ensures var r := SetMember(ms, key, value);
      && UniqueKeys(r) && KeySet(r) == KeySet(ms) + {key} && At(r, key) == value
      && forall k <- KeySet(ms) :: k != key ==> At(r, k) == At(ms, k)
  {
    if key in KeySet(ms) {
      SetMemberSpec(ms, key, value);
    } else {
      var r := ms + [Member(key, value)];
      KeySetAppend(ms, Member(key, value));
      forall i | 0 <= i < |ms| ensures ms[i].key in KeySet(ms) {}
      assert UniqueKeys(r);
      hide KeySet, UniqueKeys;
      AtIndex(r, |ms|);
      forall k | k in KeySet(ms) && k != key ensures At(r, k) == At(ms, k) {
        var i := IndexOf(ms, k);
        AtIndex(r, i);
      }
    }
  }

  /** What field `i` writes, where it found a value. */
  function FieldValue(lax: Lax, cs: seq<ClassSpec>, fields: seq<FieldSpec>, ms: seq<Member>, i: nat): Json
    requires i < |fields| && SourceKey(fields[i], KeySet(ms)).Some?
  {
    Dump(LoadField(lax, cs, fields[i], At(ms, SourceKey(fields[i], KeySet(ms)).value)))
  }

  /** Some of the first `n` fields found a value and has the alias. */
  predicate SetAs(fields: seq<FieldSpec>, n: nat, keys: set<string>, alias: string)
    requires n <= |fields|
  {
    exists i :: 0 <= i < n && Alias(fields[i]) == alias && SourceKey(fields[i], keys).Some?
  }

  /** None of the first `n` fields after field `i` has its alias. */
  predicate LastAmong(fields: seq<FieldSpec>, n: nat, i: nat)
    requires i < n <= |fields|
  {
    forall j :: i < j < n ==> Alias(fields[j]) != Alias(fields[i])
  }

  /** Members with one entry per alias, the last field of an alias deciding its value. */
  ghost predicate WritesFields(lax: Lax, cs: seq<ClassSpec>, fields: seq<FieldSpec>, n: nat, ms: seq<Member>,
                         w: seq<Member>)
    requires n <= |fields|
  {
    && UniqueKeys(w)
    && (forall k :: k in KeySet(w) <==> SetAs(fields, n, KeySet(ms), k))
    && (forall i :: 0 <= i < n && SourceKey(fields[i], KeySet(ms)).Some? && LastAmong(fields, n, i) ==>
          Alias(fields[i]) in KeySet(w) && At(w, Alias(fields[i])) == FieldValue(lax, cs, fields, ms, i))
  }

  lemma {:induction false} FieldMembersShape(lax: Lax, cs: seq<ClassSpec>, fields: seq<FieldSpec>, n: nat,
          ms: seq<Member>)
    requires n <= |fields|
    ensures WritesFields(lax, cs, fields, n, ms, FieldMembers(lax, cs, fields, n, ms))
  {
    hide WritesFields, FieldMembers, SourceKey, Alias, Dump, Load, LoadField, LoadFields, Written;
    if n == 0 {
      NothingWritten(lax, cs, fields, ms);
    } else {
      FieldMembersShape(lax, cs, fields, n - 1, ms);
      NextWritten(lax, cs, fields, n, ms);
    }
  }

  lemma NothingWritten(lax: Lax, cs: seq<ClassSpec>, fields: seq<FieldSpec>, ms: seq<Member>)
    ensures WritesFields(lax, cs, fields, 0, ms, FieldMembers(lax, cs, fields, 0, ms))
  {
    hide SourceKey, Alias, Dump, LoadField, At;
    assert LoadFields(lax, cs, fields, 0, ms) == [];
    assert FieldMembers(lax, cs, fields, 0, ms) == [];
  }

  lemma NextWritten(lax: Lax, cs: seq<ClassSpec>, fields: seq<FieldSpec>, n: nat, ms: seq<Member>)
    requires 0 < n <= |fields|
    requires WritesFields(lax, cs, fields, n - 1, ms, FieldMembers(lax, cs, fields, n - 1, ms))
    ensures WritesFields(lax, cs, fields, n, ms, FieldMembers(lax, cs, fields, n, ms))
  {
    hide FieldMembers, WritesFields, SetMember, KeySet, SourceKey, Alias, At, Dump, LoadField;
    FieldWrites(lax, cs, fields, n, ms);
    if SourceKey(fields[n - 1], KeySet(ms)).Some? {
      FieldSet(lax, cs, fields, n, ms, FieldMembers(lax, cs, fields, n - 1, ms));
    } else {
      FieldUnset(lax, cs, fields, n, ms, FieldMembers(lax, cs, fields, n - 1, ms));
    }
  }

  lemma FieldUnset(lax: Lax, cs: seq<ClassSpec>, fields: seq<FieldSpec>, n: nat, ms: seq<Member>, w: seq<Member>)
    requires 0 < n <= |fields| && WritesFields(lax, cs, fields, n - 1, ms, w)
    requires SourceKey(fields[n - 1], KeySet(ms)).None?
    ensures WritesFields(lax, cs, fields, n, ms, w)
  {
    hide Alias, SourceKey, FieldValue, KeySet, UniqueKeys, At;
    forall i | 0 <= i < n - 1 && LastAmong(fields, n, i) ensures LastAmong(fields, n - 1, i) {}
    forall k ensures SetAs(fields, n, KeySet(ms), k) <==> SetAs(fields, n - 1, KeySet(ms), k) {}
  }

  lemma FieldSet(lax: Lax, cs: seq<ClassSpec>, fields: seq<FieldSpec>, n: nat, ms: seq<Member>, w: seq<Member>)
    requires 0 < n <= |fields| && WritesFields(lax, cs, fields, n - 1, ms, w)
    requires SourceKey(fields[n - 1], KeySet(ms)).Some?
    ensures WritesFields(lax, cs, fields, n, ms,
        SetMember(w, Alias(fields[n - 1]), FieldValue(lax, cs, fields, ms, n - 1)))
  {
    hide Alias, SourceKey, FieldValue, KeySet, UniqueKeys, At, SetMember;
    var alias := Alias(fields[n - 1]);
    SetMemberShape(w, alias, FieldValue(lax, cs, fields, ms, n - 1));
    var r := SetMember(w, alias, FieldValue(lax, cs, fields, ms, n - 1));
    NextSetAs(fields, n, KeySet(ms));
    assert forall k :: k in KeySet(r) <==> SetAs(fields, n, KeySet(ms), k);
    hide SetAs;
    forall i | 0 <= i < n && SourceKey(fields[i], KeySet(ms)).Some? && LastAmong(fields, n, i)
      ensures Alias(fields[i]) in KeySet(r) && At(r, Alias(fields[i])) == FieldValue(lax, cs, fields, ms, i)
    {
      if i < n - 1 {
        assert Alias(fields[i]) != alias && LastAmong(fields, n - 1, i);
        assert At(r, Alias(fields[i])) == At(w, Alias(fields[i]));
      }
    }
  }

  lemma NextSetAs(fields: seq<FieldSpec>, n: nat, keys: set<string>)
    requires 0 < n <= |fields| && SourceKey(fields[n - 1], keys).Some?
    ensures forall k :: SetAs(fields, n, keys, k) <==> SetAs(fields, n - 1, keys, k) || k == Alias(fields[n - 1])
  {
    hide Alias, SourceKey;
  }

  /** A shadowing key surfaces under an alias the payload never had. */
  lemma ShadowedDiffers(lax: Lax, cs: seq<ClassSpec>, fields: seq<FieldSpec>, ms: seq<Member>)
    requires !NotShadowed(fields, KeySet(ms))
    ensures MarkerOf(Obj(RecordMembers(lax, cs, fields, ms))) != MarkerOf(Obj(ms))
  {
    hide Alias, LoadField, LoadFields, Dump, Extras, FieldMembers, MarkerOf;
    var f :| f in fields && Alias(f) !in KeySet(ms) && f.pythonName in KeySet(ms);
    var i :| 0 <= i < |fields| && fields[i] == f;
    assert SetAs(fields, |fields|, KeySet(ms), Alias(f));
    FieldMembersShape(lax, cs, fields, |fields|, ms);
    var w, out := FieldMembers(lax, cs, fields, |fields|, ms), RecordMembers(lax, cs, fields, ms);
    var j :| 0 <= j < |w| && w[j].key == Alias(f);
    assert out[j].key == Alias(f) && Alias(f) in KeySet(out);
    if MarkerOf(Obj(out)) == MarkerOf(Obj(ms)) {
      MarkerMembers(Obj(out), Obj(ms));
    }
  }

  /** Without shadowing a field finds its value under its alias, or not at all. */
  lemma SourceIsAlias(fields: seq<FieldSpec>, keys: set<string>, i: nat)
    requires NotShadowed(fields, keys) && i < |fields|
    ensures SourceKey(fields[i], keys) == if Alias(fields[i]) in keys then Some(Alias(fields[i])) else None
  {
    assert fields[i] in fields;
  }

  /** Without shadowing the extras are the members no field has for its alias. */
  lemma UnshadowedExtras(fields: seq<FieldSpec>, ms: seq<Member>)
    requires UniqueKeys(ms) && NotShadowed(fields, KeySet(ms))
    ensures UniqueKeys(Extras(fields, ms))
    ensures forall m :: m in Extras(fields, ms) <==>
      m in ms && forall i :: 0 <= i < |fields| ==> Alias(fields[i]) != m.key
  {
    hide Alias, NotShadowed, SourceKey;
    ExtrasShape(fields, ms, KeySet(ms));
    forall i | 0 <= i < |fields|
      ensures SourceKey(fields[i], KeySet(ms)) ==
        if Alias(fields[i]) in KeySet(ms) then Some(Alias(fields[i])) else None
    {
      SourceIsAlias(fields, KeySet(ms), i);
    }
    forall m | m in ms
      ensures (exists f <- fields :: SourceKey(f, KeySet(ms)) == Some(m.key)) <==>
        exists i :: 0 <= i < |fields| && Alias(fields[i]) == m.key
    {
      var j :| 0 <= j < |ms| && ms[j] == m;
      assert m.key in KeySet(ms);
      if i :| 0 <= i < |fields| && Alias(fields[i]) == m.key { assert fields[i] in fields; }
    }
  }

  /** Without shadowing the fields write exactly the aliases the payload has. */
  lemma UnshadowedFields(lax: Lax, cs: seq<ClassSpec>, fields: seq<FieldSpec>, ms: seq<Member>)
    requires NotShadowed(fields, KeySet(ms))
    ensures var w := FieldMembers(lax, cs, fields, |fields|, ms);
      && UniqueKeys(w)
      && (forall k :: k in KeySet(w) <==> k in KeySet(ms) && exists i :: 0 <= i < |fields| && Alias(fields[i]) == k)
      && (forall i :: 0 <= i < |fields| && Alias(fields[i]) in KeySet(ms) && !Overridden(fields, i) ==>
           Alias(fields[i]) in KeySet(w)
           && At(w, Alias(fields[i])) == Dump(LoadField(lax, cs, fields[i], At(ms, Alias(fields[i])))))
  {
    hide Alias, NotShadowed, SourceKey, Dump, LoadField, FieldMembers, UniqueKeys;
    FieldMembersShape(lax, cs, fields, |fields|, ms);
    forall i | 0 <= i < |fields|
      ensures SourceKey(fields[i], KeySet(ms)) ==
        if Alias(fields[i]) in KeySet(ms) then Some(Alias(fields[i])) else None
    {
      SourceIsAlias(fields, KeySet(ms), i);
    }
    hide KeySet, At;
    var w := FieldMembers(lax, cs, fields, |fields|, ms);
    forall k ensures k in KeySet(w) <==>
      k in KeySet(ms) && exists i :: 0 <= i < |fields| && Alias(fields[i]) == k
    {
      assert k in KeySet(w) <==> SetAs(fields, |fields|, KeySet(ms), k);
    }
  }

  /** Without shadowing, the dumped record has exactly the payload's keys, each once. */
  lemma UnshadowedKeys(lax: Lax, cs: seq<ClassSpec>, fields: seq<FieldSpec>, ms: seq<Member>)
    requires UniqueKeys(ms) && NotShadowed(fields, KeySet(ms))
    ensures var out := RecordMembers(lax, cs, fields, ms); UniqueKeys(out) && KeySet(out) == KeySet(ms)
  {
    hide Alias, NotShadowed, FieldMembers, Extras, LoadField, Dump, At;
    UnshadowedFields(lax, cs, fields, ms);
    UnshadowedExtras(fields, ms);
    JoinedKeys(FieldMembers(lax, cs, fields, |fields|, ms), Extras(fields, ms), ms);
  }

  /** Two lists of members whose keys split those of a third. */
  lemma JoinedKeys(w: seq<Member>, extras: seq<Member>, ms: seq<Member>)
    requires UniqueKeys(w) && UniqueKeys(extras) && KeySet(w) <= KeySet(ms)
    requires forall m :: m in extras <==> m in ms && m.key !in KeySet(w)
    ensures UniqueKeys(w + extras) && KeySet(w + extras) == KeySet(ms)
  {
    var out := w + extras;
    forall i | 0 <= i < |w| ensures w[i].key in KeySet(w) {}
    forall i | 0 <= i < |extras| ensures extras[i].key !in KeySet(w) && extras[i].key in KeySet(ms) {
      assert extras[i] in extras;
      var j :| 0 <= j < |ms| && ms[j] == extras[i];
    }
    forall k | k in KeySet(ms) ensures k in KeySet(out) {
      if k in KeySet(w) {
        assert out[IndexOf(w, k)].key == k;
      } else {
        var m := ms[IndexOf(ms, k)];
        assert m in ms && m in extras;
        var j :| 0 <= j < |extras| && extras[j] == m;
        assert out[|w| + j].key == k;
      }
    }
    forall k | k in KeySet(out) ensures k in KeySet(ms) {
      var i := IndexOf(out, k);
      assert out[i] == if i < |w| then w[i] else extras[i - |w|];
    }
  }

  /** A key that is no field's alias is dumped as it came; under an alias, its last field's value. */
  lemma RecordAt(lax: Lax, cs: seq<ClassSpec>, fields: seq<FieldSpec>, ms: seq<Member>, k: string)
    requires UniqueKeys(ms) && NotShadowed(fields, KeySet(ms)) && k in KeySet(ms)
    ensures k in KeySet(RecordMembers(lax, cs, fields, ms))
    ensures (forall i :: 0 <= i < |fields| ==> Alias(fields[i]) != k) ==>
      At(RecordMembers(lax, cs, fields, ms), k) == At(ms, k)
    ensures forall i :: 0 <= i < |fields| && Alias(fields[i]) == k && !Overridden(fields, i) ==>
      At(RecordMembers(lax, cs, fields, ms), k) == Dump(LoadField(lax, cs, fields[i], At(ms, k)))
  {
    hide Alias, NotShadowed, FieldMembers, Extras, LoadField, Dump, Overridden;
    UnshadowedFields(lax, cs, fields, ms);
    UnshadowedExtras(fields, ms);
    UnshadowedKeys(lax, cs, fields, ms);
    var w, extras := FieldMembers(lax, cs, fields, |fields|, ms), Extras(fields, ms);
    var out := RecordMembers(lax, cs, fields, ms);
    assert out == w + extras;
    hide RecordMembers, UniqueKeys, KeySet;
    if forall i :: 0 <= i < |fields| ==> Alias(fields[i]) != k {
      var m := ms[IndexOf(ms, k)];
      assert m in ms && m in extras && m in out;
      AtMember(out, m);
    }
    forall i | 0 <= i < |fields| && Alias(fields[i]) == k && !Overridden(fields, i)
      ensures At(out, k) == Dump(LoadField(lax, cs, fields[i], At(ms, k)))
    {
      var j := IndexOf(w, k);
      assert out[j] == w[j];
      AtIndex(out, j);
    }
  }

  // ----- the theorem -----

  /**
   * Validating by alias and dumping by alias is the identity, key order aside, exactly on the payloads
   * already in the model's own form, for every class table and whatever the spelling rules of lax
   * validation are.
   */
  lemma {:induction false} LoadDumpIffNative(lax: Lax, numbersToStr: bool, cs: seq<ClassSpec>, e: TypeExpr, v: Json)
    requires ValidJson(v)
    ensures Survives(lax, numbersToStr, cs, e, v) <==> Native(lax, cs, e, v)
    decreases |cs|, e
  {
    hide Load, Dump, Validates, Native, Survives, RoundTrips;
    match e
    case AnyType => LeafSurvives(lax, numbersToStr, cs, e, v);
    case ScalarType(scalar) => LeafSurvives(lax, numbersToStr, cs, e, v);
    case ListType(item) => ListRoundTrips(lax, numbersToStr, cs, item, v);
    case DictType(value) => DictRoundTrips(lax, numbersToStr, cs, value, v);
    case ClassRef(name) =>
      if cs == [] {
        LeafSurvives(lax, numbersToStr, cs, e, v);
      } else {
        var last, earlier := cs[|cs| - 1], cs[..|cs| - 1];
        if last.name != name {
          SkipsLast(lax, numbersToStr, cs, name, v);
          LoadDumpIffNative(lax, numbersToStr, earlier, e, v);
        } else if last.RootClass? {
          RootUnfolds(lax, numbersToStr, cs, name, v);
          LoadDumpIffNative(lax, false, earlier, last.rootType, v);
        } else {
          RecordUnfolds(lax, numbersToStr, cs, name, v);
          if v.Obj? { RecordRoundTrips(lax, earlier, last.fields, v); }
          RecordSurvives(lax, numbersToStr, cs, name, v);
        }
      }
  }

  lemma LeafSurvives(lax: Lax, numbersToStr: bool, cs: seq<ClassSpec>, e: TypeExpr, v: Json)
    requires e.AnyType? || e.ScalarType? || (e.ClassRef? && cs == [])
    ensures Survives(lax, numbersToStr, cs, e, v) <==> Native(lax, cs, e, v)
  {
    if e.ScalarType? { CoerceKeepsIff(lax, numbersToStr, e.scalar, v); }
  }

  lemma SkipsLast(lax: Lax, numbersToStr: bool, cs: seq<ClassSpec>, name: string, v: Json)
    requires cs != [] && cs[|cs| - 1].name != name
    ensures var earlier, e := cs[..|cs| - 1], ClassRef(name);
      && (Survives(lax, numbersToStr, cs, e, v) <==> Survives(lax, numbersToStr, earlier, e, v))
      && (Native(lax, cs, e, v) <==> Native(lax, earlier, e, v))
  {
  }

  lemma RootUnfolds(lax: Lax, numbersToStr: bool, cs: seq<ClassSpec>, name: string, v: Json)
    requires cs != [] && cs[|cs| - 1].name == name && cs[|cs| - 1].RootClass?
    ensures var earlier, root := cs[..|cs| - 1], cs[|cs| - 1].rootType;
      && (Survives(lax, numbersToStr, cs, ClassRef(name), v) <==> Survives(lax, false, earlier, root, v))
      && (Native(lax, cs, ClassRef(name), v) <==> Native(lax, earlier, root, v))
  {
    var earlier, last := cs[..|cs| - 1], cs[|cs| - 1];
    assert Load(lax, numbersToStr, cs, ClassRef(name), v) == LoadClass(lax, earlier, last, v);
    assert LoadClass(lax, earlier, last, v) == Load(lax, false, earlier, last.rootType, v);
    assert Validates(lax, numbersToStr, cs, ClassRef(name), v) == ValidatesClass(lax, earlier, last, v);
    hide Dump, MarkerOf, Load, LoadClass;
  }

  lemma RecordSurvives(lax: Lax, numbersToStr: bool, cs: seq<ClassSpec>, name: string, v: Json)
    requires cs != [] && cs[|cs| - 1].name == name && cs[|cs| - 1].RecordClass?
    ensures var earlier, fields := cs[..|cs| - 1], cs[|cs| - 1].fields;
      Survives(lax, numbersToStr, cs, ClassRef(name), v) <==>
      v.Obj? && ValidatesFields(lax, earlier, fields, v.members)
      && MarkerOf(Obj(RecordMembers(lax, earlier, fields, v.members))) == MarkerOf(v)
  {
    RecordUnfolds(lax, numbersToStr, cs, name, v);
    hide Load, Dump, Validates, Native, MarkerOf, RecordMembers;
  }

  lemma RecordUnfolds(lax: Lax, numbersToStr: bool, cs: seq<ClassSpec>, name: string, v: Json)
    requires cs != [] && cs[|cs| - 1].name == name && cs[|cs| - 1].RecordClass?
    ensures var earlier, fields := cs[..|cs| - 1], cs[|cs| - 1].fields;
      && (Native(lax, cs, ClassRef(name), v) <==> v.Obj? && NativeFields(lax, earlier, fields, v.members))
      && (Validates(lax, numbersToStr, cs, ClassRef(name), v) <==>
          v.Obj? && ValidatesFields(lax, earlier, fields, v.members))
      && (v.Obj? ==>
            Dump(Load(lax, numbersToStr, cs, ClassRef(name), v)) == Obj(RecordMembers(lax, earlier, fields, v.members)))
  {
    hide ValidatesFields, NativeFields, Extras;
    var earlier, last := cs[..|cs| - 1], cs[|cs| - 1];
    if v.Obj? {
      var set_ := LoadFields(lax, earlier, last.fields, |last.fields|, v.members);
      assert Load(lax, numbersToStr, cs, ClassRef(name), v) == LoadClass(lax, earlier, last, v);
      assert LoadClass(lax, earlier, last, v) == LoadedRecord(set_, Extras(last.fields, v.members));
      hide Load, LoadClass;
    }
  }

  lemma {:induction false} ListRoundTrips(lax: Lax, numbersToStr: bool, cs: seq<ClassSpec>, item: TypeExpr, v: Json)
    requires ValidJson(v)
    ensures Survives(lax, numbersToStr, cs, ListType(item), v) <==> Native(lax, cs, ListType(item), v)
    decreases |cs|, ListType(item), 0
  {
    if !v.Arr? { return; }
    var l := Load(lax, numbersToStr, cs, ListType(item), v);
    var d := Dump(l);
    forall i | 0 <= i < |v.items|
      ensures Validates(lax, numbersToStr, cs, item, v.items[i]) && MarkerOf(d.items[i]) == MarkerOf(v.items[i])
        <==> Native(lax, cs, item, v.items[i])
    {
      assert v.items[i] in v.items;
      LoadDumpIffNative(lax, numbersToStr, cs, item, v.items[i]);
    }
    ListByIndex(lax, numbersToStr, cs, item, v);
    hide Load, Dump, Native, Validates;
    SameItems(d, v);
  }

  lemma ListByIndex(lax: Lax, numbersToStr: bool, cs: seq<ClassSpec>, item: TypeExpr, v: Json)
    requires v.Arr?
    ensures Native(lax, cs, ListType(item), v) <==> forall i :: 0 <= i < |v.items| ==> Native(lax, cs, item, v.items[i])
    ensures Validates(lax, numbersToStr, cs, ListType(item), v) <==>
      forall i :: 0 <= i < |v.items| ==> Validates(lax, numbersToStr, cs, item, v.items[i])
  {
    assert forall i :: 0 <= i < |v.items| ==> v.items[i] in v.items;
  }

  lemma {:induction false} DictRoundTrips(lax: Lax, numbersToStr: bool, cs: seq<ClassSpec>, value: TypeExpr, v: Json)
    requires ValidJson(v)
    ensures Survives(lax, numbersToStr, cs, DictType(value), v) <==> Native(lax, cs, DictType(value), v)
    decreases |cs|, DictType(value), 0
  {
    if v.Obj? {
      forall i | 0 <= i < |v.members|
        ensures Survives(lax, numbersToStr, cs, value, v.members[i].value)
          <==> Native(lax, cs, value, v.members[i].value)
      {
        assert v.members[i] in v.members;
        LoadDumpIffNative(lax, numbersToStr, cs, value, v.members[i].value);
      }
      hide Survives, Native;
      DictSurvives(lax, numbersToStr, cs, value, v);
      DictByIndex(lax, numbersToStr, cs, value, v);
    }
  }

  lemma DictByIndex(lax: Lax, numbersToStr: bool, cs: seq<ClassSpec>, value: TypeExpr, v: Json)
    requires v.Obj?
    ensures Native(lax, cs, DictType(value), v) <==>
      forall i :: 0 <= i < |v.members| ==> Native(lax, cs, value, v.members[i].value)
    ensures Validates(lax, numbersToStr, cs, DictType(value), v) <==>
      forall i :: 0 <= i < |v.members| ==> Validates(lax, numbersToStr, cs, value, v.members[i].value)
  {
    assert forall i :: 0 <= i < |v.members| ==> v.members[i] in v.members;
  }

  /** A dict survives exactly when every value does. */
  lemma DictSurvives(lax: Lax, numbersToStr: bool, cs: seq<ClassSpec>, value: TypeExpr, v: Json)
    requires ValidJson(v) && v.Obj?
    ensures Survives(lax, numbersToStr, cs, DictType(value), v) <==>
      forall i :: 0 <= i < |v.members| ==> Survives(lax, numbersToStr, cs, value, v.members[i].value)
  {
    assert UniqueKeys(v.members);
    DumpedDict(lax, numbersToStr, cs, value, v);
    var d := Dump(Load(lax, numbersToStr, cs, DictType(value), v));
    SameMembers(d.members, v.members);
    assert MarkerOf(d) == MarkerOf(v) <==>
        SameValuesAt(d.members, v.members) by { hide Load, Dump, MarkerOf, ValidJson; }
    hide Load, Dump, MarkerOf, ValidJson, UniqueKeys, SameValuesAt;
    DictByIndex(lax, numbersToStr, cs, value, v);
    hide Validates;
    forall i | 0 <= i < |v.members|
      ensures Survives(lax, numbersToStr, cs, value, v.members[i].value) <==>
        Validates(lax, numbersToStr, cs, value, v.members[i].value)
        && MarkerOf(d.members[i].value) == MarkerOf(v.members[i].value)
    {
    }
    SameValuesEach(d.members, v.members);
  }

  predicate SameValuesAt(ns: seq<Member>, ms: seq<Member>)
    requires |ns| == |ms|
  {
    forall i :: 0 <= i < |ms| ==> MarkerOf(ns[i].value) == MarkerOf(ms[i].value)
  }

  lemma SameValuesEach(ns: seq<Member>, ms: seq<Member>)
    requires |ns| == |ms|
    ensures SameValuesAt(ns, ms) <==> forall i :: 0 <= i < |ms| ==> MarkerOf(ns[i].value) == MarkerOf(ms[i].value)
  {
    hide MarkerOf;
  }

  /** Two blocks with the same keys in the same places. */
  lemma SameMembers(ns: seq<Member>, ms: seq<Member>)
    requires UniqueKeys(ms) && |ns| == |ms| && forall i :: 0 <= i < |ms| ==> ns[i].key == ms[i].key
    ensures MarkerOf(Obj(ns)) == MarkerOf(Obj(ms)) <==> SameValuesAt(ns, ms)
  {
    SameKeySet(ms, ns);
    SameObject(Obj(ns), Obj(ms));
    hide MarkerOf;
    forall i | 0 <= i < |ms| ensures At(ns, ms[i].key) == ns[i].value && At(ms, ms[i].key) == ms[i].value {
      AtIndex(ns, i);
      AtIndex(ms, i);
    }
    hide At;
    forall k | k in KeySet(ms) ensures exists i :: 0 <= i < |ms| && ms[i].key == k {}
  }

  lemma DumpedDict(lax: Lax, numbersToStr: bool, cs: seq<ClassSpec>, value: TypeExpr, v: Json)
    requires v.Obj?
    ensures var d := Dump(Load(lax, numbersToStr, cs, DictType(value), v));
      && d.Obj? && |d.members| == |v.members|
      && forall i :: 0 <= i < |v.members| ==>
        d.members[i] == Member(v.members[i].key, Dump(Load(lax, numbersToStr, cs, value, v.members[i].value)))
  {
    var l := Load(lax, numbersToStr, cs, DictType(value), v);
    assert Dump(l) == Obj(DumpEntries(l.entries));
  }

  lemma {:induction false} FieldRoundTrips(lax: Lax, cs: seq<ClassSpec>, f: FieldSpec, v: Json)
    requires ValidJson(v)
    ensures ValidatesField(lax, cs, f, v) && MarkerOf(Dump(LoadField(lax, cs, f, v))) == MarkerOf(v) <==>
        NativeField(lax, cs, f, v)
    decreases |cs|, f, 0
  {
    if f.required || !v.Null? {
      LoadDumpIffNative(lax, true, cs, f.typeExpr, v);
    }
  }

  predicate KeyValidates(lax: Lax, cs: seq<ClassSpec>, fields: seq<FieldSpec>, ms: seq<Member>, k: string)
    requires k in KeySet(ms)
  {
    forall i :: 0 <= i < |fields| && Alias(fields[i]) == k ==> ValidatesField(lax, cs, fields[i], At(ms, k))
  }

  /** Every field of an alias accepts its value, and the last one has it in its own form. */
  predicate KeyNative(lax: Lax, cs: seq<ClassSpec>, fields: seq<FieldSpec>, ms: seq<Member>, k: string)
    requires k in KeySet(ms)
  {
    forall i :: 0 <= i < |fields| && Alias(fields[i]) == k ==>
      if Overridden(fields, i) then ValidatesField(lax, cs, fields[i], At(ms, k))
      else NativeField(lax, cs, fields[i], At(ms, k))
  }

  lemma {:induction false} KeyRoundTrips(lax: Lax, cs: seq<ClassSpec>, fields: seq<FieldSpec>, ms: seq<Member>,
          k: string)
    requires UniqueKeys(ms) && NotShadowed(fields, KeySet(ms)) && k in KeySet(ms) && ValidJson(At(ms, k))
    ensures k in KeySet(RecordMembers(lax, cs, fields, ms))
    ensures KeyNative(lax, cs, fields, ms, k) <==>
      KeyValidates(lax, cs, fields, ms, k)
      && MarkerOf(At(RecordMembers(lax, cs, fields, ms), k)) == MarkerOf(At(ms, k))
    decreases |cs|, fields, 0
  {
    hide Alias, LoadField, Dump, NativeField, ValidatesField, RecordMembers, NotShadowed, MarkerOf, Overridden, KeySet;
    RecordAt(lax, cs, fields, ms, k);
    forall i | 0 <= i < |fields|
      ensures ValidatesField(lax, cs, fields[i], At(ms, k))
        && MarkerOf(Dump(LoadField(lax, cs, fields[i], At(ms, k)))) == MarkerOf(At(ms, k))
        <==> NativeField(lax, cs, fields[i], At(ms, k))
    {
      FieldRoundTrips(lax, cs, fields[i], At(ms, k));
    }
    if i :| 0 <= i < |fields| && Alias(fields[i]) == k {
      var j := LastWithAlias(fields, i);
    }
  }

  lemma {:induction false} RecordRoundTrips(lax: Lax, cs: seq<ClassSpec>, fields: seq<FieldSpec>, v: Json)
    requires ValidJson(v) && v.Obj?
    ensures ValidatesFields(lax, cs, fields, v.members)
      && MarkerOf(Obj(RecordMembers(lax, cs, fields, v.members))) == MarkerOf(v)
      <==> NativeFields(lax, cs, fields, v.members)
    decreases |cs|, fields, 1
  {
    var ms := v.members;
    var out := RecordMembers(lax, cs, fields, ms);
    if !NotShadowed(fields, KeySet(ms)) {
      ShadowedDiffers(lax, cs, fields, ms);
    } else {
      hide RecordMembers, MarkerOf, Alias, Overridden, KeyValidates, KeyNative;
      UnshadowedKeys(lax, cs, fields, ms);
      forall k | k in KeySet(ms)
        ensures KeyValidates(lax, cs, fields, ms, k) && MarkerOf(At(out, k)) == MarkerOf(At(ms, k))
          <==> KeyNative(lax, cs, fields, ms, k)
      {
        assert ms[IndexOf(ms, k)] in ms;
        KeyRoundTrips(lax, cs, fields, ms, k);
      }
      RecordByKey(lax, cs, fields, ms);
      SameObject(Obj(out), v);
    }
  }

  predicate RequiredThere(fields: seq<FieldSpec>, keys: set<string>) {
    forall i :: 0 <= i < |fields| && fields[i].required ==> Alias(fields[i]) in keys
  }

  /** Both conditions on a record, key by key. */
  lemma RecordByKey(lax: Lax, cs: seq<ClassSpec>, fields: seq<FieldSpec>, ms: seq<Member>)
    requires NotShadowed(fields, KeySet(ms))
    ensures ValidatesFields(lax, cs, fields, ms) <==>
      RequiredThere(fields, KeySet(ms)) && forall k <- KeySet(ms) :: KeyValidates(lax, cs, fields, ms, k)
    ensures NativeFields(lax, cs, fields, ms) <==>
      RequiredThere(fields, KeySet(ms)) && forall k <- KeySet(ms) :: KeyNative(lax, cs, fields, ms, k)
  {
    hide Alias, NativeField, ValidatesField, NotShadowed, Overridden, KeySet, SourceKey;
    forall i | 0 <= i < |fields|
      ensures SourceKey(fields[i], KeySet(ms)) ==
        if Alias(fields[i]) in KeySet(ms) then Some(Alias(fields[i])) else None
    {
      SourceIsAlias(fields, KeySet(ms), i);
    }
    if forall k <- KeySet(ms) :: KeyValidates(lax, cs, fields, ms, k) {
      forall i | 0 <= i < |fields| && Alias(fields[i]) in KeySet(ms)
        ensures ValidatesField(lax, cs, fields[i], At(ms, Alias(fields[i])))
      {
        assert KeyValidates(lax, cs, fields, ms, Alias(fields[i]));
      }
    }
    if forall k <- KeySet(ms) :: KeyNative(lax, cs, fields, ms, k) {
      forall i | 0 <= i < |fields| && Alias(fields[i]) in KeySet(ms)
        ensures if Overridden(fields, i) then ValidatesField(lax, cs, fields[i], At(ms, Alias(fields[i])))
          else NativeField(lax, cs, fields[i], At(ms, Alias(fields[i])))
      {
        assert KeyNative(lax, cs, fields, ms, Alias(fields[i]));
      }
    }
  }

  /**
   * For the records the emitter makes, of plain names, the condition speaks of wire names only: no wire
   * name is missing while its Python name is there, and each field's value is in its own form.
   */
  lemma EmittedNativeIff(lax: Lax, cs: seq<ClassSpec>, fields: seq<FieldSpec>, ms: seq<Member>)
    requires FieldsOk(fields) && forall k <- WireNames(fields) :: IsPlain(k)
    ensures NativeFields(lax, cs, fields, ms) <==>
      && (forall i :: 0 <= i < |fields| ==> fields[i].wireName in KeySet(ms) || fields[i].pythonName !in KeySet(ms))
      && forall i :: 0 <= i < |fields| ==>
           if fields[i].wireName in KeySet(ms) then NativeField(lax, cs, fields[i], At(ms, fields[i].wireName))
           else !fields[i].required
  {
    hide Alias, IsPlain, NativeField, ValidatesField, Overridden, KeySet, FieldsOk, WireNames;
    AliasesKeptIff(fields);
    assert forall i :: 0 <= i < |fields| ==> fields[i] in fields;
  }
}
