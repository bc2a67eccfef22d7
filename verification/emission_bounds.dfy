/** How many classes a schema can need, and when a record of it can run out of field names. */
module EmissionBounds {
  import opened JsonValues
  import opened MapBlocks
  import opened WireTypes
  import opened Naming
  import opened ClassTable

  /** The records the emitter reaches, each counted as often as it is reached. */
  ghost function Records(schema: Json): nat
    decreases Depth(schema), 1, 0
  {
    ChildDepth(schema);
    match Classify(schema)
    case ListNode(item) => Records(item)
    case MapNode(values) => Records(Unify(values))
    case RecordNode(properties, _) => 1 + RecordsIn(properties, Depth(schema))
    case DictNode(value) => Records(value)
    case _ => 0
  }

  /** The records under the kept names of a block whose values are less deep than `d`. */
  ghost function RecordsIn(ms: seq<Member>, d: nat): nat
    requires forall m <- ms :: Depth(m.value) < d
    decreases d, 0, |ms|
  {
    if ms == [] then 0
    else
      var init, last := ms[..|ms| - 1], ms[|ms| - 1];
      RecordsIn(init, d) + if IsMapKey(last.key) then 0 else Records(last.value)
  }

  const FIELD_LIMIT: nat := 1000

  /** Some record the emitter reaches keeps a thousand properties. */
  ghost predicate Crowded(schema: Json)
    decreases Depth(schema)
  {
    ChildDepth(schema);
    match Classify(schema)
    case ListNode(item) => Crowded(item)
    case MapNode(values) => Crowded(Unify(values))
    case RecordNode(properties, _) =>
      |FieldKeys(properties)| >= FIELD_LIMIT || exists m <- properties :: !IsMapKey(m.key) && Crowded(m.value)
    case DictNode(value) => Crowded(value)
    case _ => false
  }

  /** What a part of a schema needs, the schema needs. */
  lemma PartBounds(schema: Json)
    ensures match Classify(schema)
      case ListNode(item) => Records(item) == Records(schema) && (Crowded(item) ==> Crowded(schema))
      case MapNode(values) =>
        Records(Unify(values)) == Records(schema) && (Crowded(Unify(values)) ==> Crowded(schema))
      case DictNode(value) => Records(value) == Records(schema) && (Crowded(value) ==> Crowded(schema))
      case RecordNode(properties, _) =>
        && (forall m <- properties :: Depth(m.value) < Depth(schema))
        && Records(schema) == 1 + RecordsIn(properties, Depth(schema))
        && (forall m <- properties :: !IsMapKey(m.key) && Crowded(m.value) ==> Crowded(schema))
        && (|FieldKeys(properties)| >= FIELD_LIMIT ==> Crowded(schema))
      case _ => Records(schema) == 0
  {
    ChildDepth(schema);
    hide Classify, IsMapKey, FieldKeys, Unify;
  }

  /** One more property adds the records under it, and no prefix has more than the block. */
  lemma NextRecords(ms: seq<Member>, d: nat, i: nat)
    requires (forall m <- ms :: Depth(m.value) < d) && i < |ms|
    ensures (forall m <- ms[..i] :: Depth(m.value) < d) && (forall m <- ms[..i + 1] :: Depth(m.value) < d)
    ensures RecordsIn(ms[..i + 1], d) == RecordsIn(ms[..i], d) + if IsMapKey(ms[i].key) then 0 else Records(ms[i].value)
    ensures RecordsIn(ms[..i + 1], d) <= RecordsIn(ms, d)
  {
    hide IsMapKey, Depth, Records;
    assert ms[..i + 1][..i] == ms[..i];
    RecordsGrow(ms, d, i + 1);
  }

  lemma {:induction false} RecordsGrow(ms: seq<Member>, d: nat, n: nat)
    requires (forall m <- ms :: Depth(m.value) < d) && n <= |ms|
    ensures (forall m <- ms[..n] :: Depth(m.value) < d) && RecordsIn(ms[..n], d) <= RecordsIn(ms, d)
    decreases |ms|
  {
    hide IsMapKey, Depth, Records;
    if n == |ms| {
      assert ms[..n] == ms;
    } else {
      var init := ms[..|ms| - 1];
      assert init[..n] == ms[..n];
      RecordsGrow(init, d, n);
    }
  }

  /** A record with a field whose every spelling an earlier field has taken keeps a thousand properties. */
  lemma TakenIsCrowded(properties: seq<Member>, i: nat, base: string, taken: set<string>)
    requires UniqueKeys(properties) && i < |properties| && !IsMapKey(properties[i].key)
    requires Exhausted(base, taken) && |taken| <= |FieldKeys(properties[..i])|
    ensures |FieldKeys(properties)| >= FIELD_LIMIT
  {
    hide IsMapKey, Exhausted;
    ExhaustedIsCrowded(base, taken);
    var earlier, k := FieldKeys(properties[..i]), properties[i].key;
    assert k in KeySet(properties);
    assert k !in KeySet(properties[..i]) by {
      forall j | 0 <= j < i ensures properties[..i][j].key != k { assert properties[j].key != k; }
    }
    forall x | x in earlier + {k} ensures x in FieldKeys(properties) {
      if x != k { assert properties[IndexOf(properties[..i], x)].key == x; }
    }
    SubsetSize(earlier + {k}, FieldKeys(properties));
  }

  lemma {:induction false} SubsetSize<T>(a: set<T>, b: set<T>)
    requires a <= b
    ensures |a| <= |b|
    decreases a
  {
    if a != {} {
      var x :| x in a;
      SubsetSize(a - {x}, b - {x});
    }
  }

  /** The names a table has handed out are no more than its classes and the module's own. */
  lemma {:induction false} NamesCounted(cs: seq<ClassSpec>)
    ensures |MODULE_SYMBOLS + ClassNames(cs)| <= |cs| + 5
    decreases |cs|
  {
    if cs == [] {
      assert MODULE_SYMBOLS + ClassNames(cs) == MODULE_SYMBOLS;
      SymbolsCounted();
    } else {
      var init, last := cs[..|cs| - 1], cs[|cs| - 1];
      NamesCounted(init);
      assert cs == init + [last];
      ClassNamesAppend(init, last);
      assert MODULE_SYMBOLS + ClassNames(cs) == MODULE_SYMBOLS + ClassNames(init) + {last.name};
    }
  }

  lemma SymbolsCounted()
    ensures |MODULE_SYMBOLS| <= 5
  {
    var s: set<string> := {};
    s := s + {"Any"};
    s := s + {"Field"};
    s := s + {"RootModel"};
    s := s + {"GeneratedModel"};
    s := s + {"annotations"};
    assert MODULE_SYMBOLS == s;
  }

  /** A class whose every spelling is taken comes after some 994 others. */
  lemma NamesRunOut(cs: seq<ClassSpec>, base: string)
    requires Exhausted(base, MODULE_SYMBOLS + ClassNames(cs))
    ensures |cs| + 5 >= LAST_SUFFIX
  {
    hide Exhausted, ClassNames;
    ExhaustedIsCrowded(base, MODULE_SYMBOLS + ClassNames(cs));
    NamesCounted(cs);
  }
}
