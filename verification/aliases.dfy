/** The alias a field is emitted with, and when it is the field's wire name. */
module Aliases {
  import opened Wrappers
  import opened Literals
  import opened Folding
  import opened Naming
  import opened ClassTable

  /** What the emitted model calls the field on the wire: a renamed field's wire name is folded first. */
  function Alias(f: FieldSpec): string {
    if f.pythonName == f.wireName then f.wireName else AsciiFold(f.wireName)
  }

  /** The literal an alias is printed as is read back as that alias. */
  lemma AliasAsPrinted(f: FieldSpec)
    requires f.pythonName != f.wireName
    ensures ReadLiteral(RawLiteral(AsciiFold(f.wireName))) == Some(Alias(f))
  {
    hide AsciiFold, RawLiteral, ReadLiteral;
    ReadRawLiteral(AsciiFold(f.wireName));
  }

  /** A name kept as it is needs no folding, so under legal names folding alone decides. */
  lemma AliasOfLegal(f: FieldSpec)
    requires LegalFieldName(f.pythonName)
    ensures Alias(f) == AsciiFold(f.wireName)
    ensures Alias(f) == f.wireName <==> IsPlain(f.wireName)
  {
    hide AsciiFold, IsPlain, Reserved;
    FoldFixesIff(f.wireName);
    if f.pythonName == f.wireName { SnakeIsPlain(f.wireName); }
  }

  /** A later field is emitted with the same alias, so what it dumps replaces what this one does. */
  predicate Overridden(fields: seq<FieldSpec>, i: nat) {
    i < |fields| && exists j :: i < j < |fields| && Alias(fields[j]) == Alias(fields[i])
  }

  /** The last field with the alias of a given one. */
  lemma LastWithAlias(fields: seq<FieldSpec>, i: nat) returns (j: nat)
    requires i < |fields|
    ensures i <= j < |fields| && Alias(fields[j]) == Alias(fields[i]) && !Overridden(fields, j)
    decreases |fields| - i
  {
    hide Alias;
    j := i;
    if Overridden(fields, i) {
      var k :| i < k < |fields| && Alias(fields[k]) == Alias(fields[i]);
      j := LastWithAlias(fields, k);
    }
  }

  /**
   * The aliases of an emitted record are the names its schema documents exactly when folding leaves each
   * of those names alone, which is a test on the schema; then no two fields share one.
   */
  lemma AliasesKeptIff(fields: seq<FieldSpec>)
    requires FieldsOk(fields)
    ensures (forall i :: 0 <= i < |fields| ==> Alias(fields[i]) == fields[i].wireName)
      <==> (forall k <- WireNames(fields) :: IsPlain(k))
    ensures (forall k <- WireNames(fields) :: IsPlain(k)) ==>
      forall i :: 0 <= i < |fields| ==> !Overridden(fields, i)
  {
    hide Alias, IsPlain, LegalFieldName, IsFirstFree;
    FieldNamesSound(fields);
    forall i | 0 <= i < |fields|
      ensures fields[i].wireName in WireNames(fields)
      ensures Alias(fields[i]) == fields[i].wireName <==> IsPlain(fields[i].wireName)
    {
      AliasOfLegal(fields[i]);
    }
  }

  /** Names that fold to one text share one alias, under two Python names. */
  lemma FoldedAlikeCollide(f: FieldSpec, g: FieldSpec)
    requires LegalFieldName(f.pythonName) && LegalFieldName(g.pythonName)
    ensures Alias(f) == Alias(g) <==> AsciiFold(f.wireName) == AsciiFold(g.wireName)
  {
    hide Alias, AsciiFold, LegalFieldName;
    AliasOfLegal(f);
    AliasOfLegal(g);
  }
}
