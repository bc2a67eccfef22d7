/** Sorting a set by a key that tells its elements apart: one result, however the set is walked. */
module Ordering {
  import opened Text

  ghost predicate TotalOn(items: set<string>, less: (string, string) -> bool) {
    && (forall a <- items :: !less(a, a))
    && (forall a <- items, b <- items :: a == b || less(a, b) || less(b, a))
    && (forall a <- items, b <- items, c <- items :: less(a, b) && less(b, c) ==> less(a, c))
  }

  /** The elements of the set, each once, strictly ascending. */
  ghost predicate IsSorting(r: seq<string>, items: set<string>, less: (string, string) -> bool) {
    && (forall x :: x in r <==> x in items)
    && (forall i, j :: 0 <= i < j < |r| ==> less(r[i], r[j]))
  }

  lemma SortingEmpty(r: seq<string>, items: set<string>, less: (string, string) -> bool)
    requires IsSorting(r, items, less)
    ensures r == [] <==> items == {}
  {
    if r != [] { assert r[0] in items; }
  }

  lemma SortingFirst(r: seq<string>, items: set<string>, less: (string, string) -> bool)
    requires IsSorting(r, items, less) && TotalOn(items, less) && r != []
    ensures r[0] in items && r[0] !in r[1..] && IsSorting(r[1..], items - {r[0]}, less)
    ensures forall x <- items :: x != r[0] ==> less(r[0], x)
  {
    forall x | x in items && x != r[0] ensures less(r[0], x) {
      var i :| 0 <= i < |r| && r[i] == x;
    }
    assert r[0] in r && r[0] in items;
    assert forall i :: 0 < i < |r| ==> less(r[0], r[i]) && r[i] != r[0];
    forall x ensures x in r[1..] <==> x in items - {r[0]} {
      assert x in r <==> x == r[0] || x in r[1..];
    }
  }

  /** A set has one sorting. */
  lemma {:induction false} SortingUnique(r: seq<string>, t: seq<string>, items: set<string>,
          less: (string, string) -> bool)
    requires IsSorting(r, items, less) && IsSorting(t, items, less) && TotalOn(items, less)
    ensures r == t
  {
    SortingEmpty(r, items, less);
    SortingEmpty(t, items, less);
    if r != [] {
      SortingFirst(r, items, less);
      SortingFirst(t, items, less);
      assert r[0] == t[0];
      SortingUnique(r[1..], t[1..], items - {r[0]}, less);
      assert r == [r[0]] + r[1..] && t == [t[0]] + t[1..];
    }
  }

  lemma InsertedSorts(r: seq<string>, items: set<string>, less: (string, string) -> bool, x: string, at: nat)
    requires IsSorting(r, items, less) && TotalOn(items + {x}, less) && x !in items && at <= |r|
    requires (forall i :: 0 <= i < at ==> less(r[i], x)) && (at < |r| ==> !less(r[at], x))
    ensures IsSorting(r[..at] + [x] + r[at..], items + {x}, less)
  {
    var s := r[..at] + [x] + r[at..];
    forall y ensures y in s <==> y in items + {x} {
      assert r == r[..at] + r[at..];
    }
    forall i | at <= i < |r| ensures less(x, r[i]) {
      assert r[at] in r && r[i] in r;
      assert i > at ==> less(r[at], r[i]);
    }
    forall i, j | 0 <= i < j < |s| ensures less(s[i], s[j]) {
    }
  }

  /** Sorting a set walked in an arbitrary order: the result is the one sorting it has. */
  method Sorted(items: set<string>, less: (string, string) -> bool) returns (r: seq<string>)
    requires TotalOn(items, less)
    ensures IsSorting(r, items, less)
    ensures forall t :: IsSorting(t, items, less) ==> t == r
  {
    r := [];
    var rest := items;
    while rest != {}
      invariant rest <= items && IsSorting(r, items - rest, less)
    {
      var x :| x in rest;
      var at := 0;
      while at < |r| && less(r[at], x)
        invariant at <= |r| && forall i :: 0 <= i < at ==> less(r[i], x)
      {
        at := at + 1;
      }
      InsertedSorts(r, items - rest, less, x, at);
      r := r[..at] + [x] + r[at..];
      rest := rest - {x};
      assert items - rest == (items - (rest + {x})) + {x};
    }
    assert items - rest == items;
    forall t | IsSorting(t, items, less) ensures t == r { SortingUnique(r, t, items, less); }
  }

  lemma LessIsTotal(items: set<string>)
    ensures TotalOn(items, Less)
  {
    hide Less;
    forall a, b | a in items && b in items ensures !Less(a, a) && (a == b || Less(a, b) || Less(b, a)) {
      LessTrichotomy(a, b);
    }
    forall a, b, c | a in items && b in items && c in items && Less(a, b) && Less(b, c) ensures Less(a, c) {
      LessTransitive(a, b, c);
    }
  }
}
