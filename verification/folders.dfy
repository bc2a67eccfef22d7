/** Folder paths from parent pointers: a walk that survives cycles and bounds its depth. */
module Folders {
  import opened Wrappers

  const MAX_FOLDER_DEPTH: nat := 16

  datatype Folder = Folder(name: string, parent: Option<string>)

  type FolderTable = map<string, Folder>

  /** A listed folder. Entries that are not objects or carry no string id are not listed. */
  datatype Listed = Listed(id: string, folder: Folder)

  function TableOf(listing: seq<Listed>): FolderTable {
    if listing == [] then map[]
    else TableOf(listing[..|listing| - 1])[listing[|listing| - 1].id := listing[|listing| - 1].folder]
  }

  /** Ids met walking up from `current`, leaf first, stopping before an unknown or repeated folder. */
  function Climb(table: FolderTable, current: Option<string>, seen: set<string>): (ids: seq<string>)
    ensures forall id <- ids :: id in table && id !in seen
    decreases table.Keys - seen
  {
    if current.None? || current.value !in table || current.value in seen then []
    else [current.value] + Climb(table, table[current.value].parent, seen + {current.value})
  }

  /** The whole ancestor chain of a folder, itself first. */
  function Ancestors(table: FolderTable, id: string): seq<string> {
    Climb(table, Some(id), {})
  }

  function Names(table: FolderTable, ids: seq<string>): seq<string>
    requires forall id <- ids :: id in table
  {
    seq(|ids|, i requires 0 <= i < |ids| => table[ids[i]].name)
  }

  function Reverse<T>(xs: seq<T>): seq<T> {
    if xs == [] then [] else Reverse(xs[1..]) + [xs[0]]
  }

  function Bounded(ids: seq<string>): seq<string> {
    if |ids| <= MAX_FOLDER_DEPTH then ids else ids[..MAX_FOLDER_DEPTH]
  }

  /** The root-first name path: the leaf-side end of the ancestor chain, sixteen folders at most. */
  function PathOf(table: FolderTable, id: string): seq<string> {
    assert forall x <- Bounded(Ancestors(table, id)) :: x in Ancestors(table, id);
    Reverse(Names(table, Bounded(Ancestors(table, id))))
  }

  lemma ClimbStep(table: FolderTable, current: string, seen: set<string>)
    requires current in table && current !in seen
    ensures Climb(table, Some(current), seen) == [current] + Climb(table, table[current].parent, seen + {current})
  {
  }

  /** One walk of the source's loop, from one folder. */
  method Walk(table: FolderTable, id: string) returns (path: seq<string>)
    requires id in table
    ensures path == PathOf(table, id)
  {
    var names: seq<string> := [];
    var current: Option<string> := Some(id);
    var seen: set<string> := {};
    ghost var all := Ancestors(table, id);
    while current.Some? && current.value in table && |names| < MAX_FOLDER_DEPTH
      invariant |names| <= |all| && |names| <= MAX_FOLDER_DEPTH
      invariant all[|names|..] == Climb(table, current, seen)
      invariant names == Names(table, all[..|names|])
      invariant seen <= table.Keys
      decreases table.Keys - seen, current.Some?
    {
      if current.value in seen { break; }
      ClimbStep(table, current.value, seen);
      assert all[|names|] == current.value;
      assert all[..|names| + 1] == all[..|names|] + [current.value];
      seen := seen + {current.value};
      names := names + [table[current.value].name];
      current := table[current.value].parent;
    }
    assert Bounded(all) == all[..|names|];
    path := Reverse(names);
  }

  /** Every listed folder gets its path; the last listing of an id wins. */
  method FolderPaths(listing: seq<Listed>) returns (resolved: map<string, seq<string>>)
    ensures resolved.Keys == TableOf(listing).Keys
    ensures forall id <- resolved.Keys :: resolved[id] == PathOf(TableOf(listing), id)
  {
    var table: FolderTable := map[];
    for i := 0 to |listing|
      invariant table == TableOf(listing[..i])
    {
      assert listing[..i + 1][..i] == listing[..i];
      table := table[listing[i].id := listing[i].folder];
    }
    assert listing[..|listing|] == listing;
    resolved := map[];
    var todo := table.Keys;
    while todo != {}
      invariant todo <= table.Keys && resolved.Keys == table.Keys - todo
      invariant forall id <- resolved.Keys :: resolved[id] == PathOf(table, id)
    {
      var id :| id in todo;
      var path := Walk(table, id);
      resolved := resolved[id := path];
      todo := todo - {id};
    }
  }

  // ----- what the walk guarantees -----

  lemma {:induction false} ClimbDistinct(table: FolderTable, current: Option<string>, seen: set<string>)
    ensures forall i, j :: 0 <= i < j < |Climb(table, current, seen)| ==>
      Climb(table, current, seen)[i] != Climb(table, current, seen)[j]
    decreases table.Keys - seen
  {
    if current.Some? && current.value in table && current.value !in seen {
      var rest := Climb(table, table[current.value].parent, seen + {current.value});
      ClimbDistinct(table, table[current.value].parent, seen + {current.value});
      assert forall id <- rest :: id != current.value;
    }
  }

  lemma {:induction false} ReverseLength<T>(xs: seq<T>)
    ensures |Reverse(xs)| == |xs|
  {
    if xs != [] { ReverseLength(xs[1..]); }
  }

  /** On any parent graph, cycles included: sixteen names at most, no folder twice, its own name last. */
  lemma PathSound(table: FolderTable, id: string)
    requires id in table
    ensures 1 <= |PathOf(table, id)| <= MAX_FOLDER_DEPTH
    ensures PathOf(table, id)[|PathOf(table, id)| - 1] == table[id].name
    ensures forall i, j :: 0 <= i < j < |Ancestors(table, id)| ==> Ancestors(table, id)[i] != Ancestors(table, id)[j]
  {
    ClimbDistinct(table, Some(id), {});
    var ids := Bounded(Ancestors(table, id));
    assert Ancestors(table, id)[0] == id;
    ReverseLength(Names(table, ids));
  }

  /**
   * Forbidding one more folder cuts the climb just before that folder: nothing changes if it was not
   * on the way, and the climb gets shorter if it was.
   */
  lemma {:induction false} ClimbAvoiding(table: FolderTable, current: Option<string>, seen: set<string>, f: string)
    ensures f !in Climb(table, current, seen) ==> Climb(table, current, seen + {f}) == Climb(table, current, seen)
    ensures f in Climb(table, current, seen) ==> |Climb(table, current, seen + {f})| < |Climb(table, current, seen)|
    decreases table.Keys - seen
  {
    if current.Some? && current.value in table && current.value !in seen {
      ClimbStep(table, current.value, seen);
      if current.value != f {
        ClimbStep(table, current.value, seen + {f});
        ClimbAvoiding(table, table[current.value].parent, seen + {current.value}, f);
        assert seen + {current.value} + {f} == seen + {f} + {current.value};
      }
    }
  }

  lemma AncestorsOfChild(table: FolderTable, f: string, p: string)
    requires f in table && table[f].parent == Some(p)
    ensures f !in Ancestors(table, p) ==> Ancestors(table, f) == [f] + Ancestors(table, p)
    ensures f in Ancestors(table, p) ==> |Ancestors(table, f)| <= |Ancestors(table, p)|
  {
    ClimbStep(table, f, {});
    assert {} + {f} == {f};
    ClimbAvoiding(table, Some(p), {}, f);
  }

  /**
   * The natural law of paths, "my parent's path and then my name", holds exactly for a folder that is
   * not its own ancestor and whose chain is within the depth bound.
   */
  lemma PathLawIff(table: FolderTable, f: string, p: string)
    requires f in table && p in table && table[f].parent == Some(p)
    ensures PathOf(table, f) == PathOf(table, p) + [table[f].name]
      <==> f !in Ancestors(table, p) && |Ancestors(table, f)| <= MAX_FOLDER_DEPTH
  {
    AncestorsOfChild(table, f, p);
    var af, ap := Ancestors(table, f), Ancestors(table, p);
    ReverseLength(Names(table, Bounded(af)));
    ReverseLength(Names(table, Bounded(ap)));
    if f !in ap && |af| <= MAX_FOLDER_DEPTH {
      assert Names(table, af)[1..] == Names(table, ap);
    }
  }

  // ----- what a path is made of -----

  /** The i-th listing is the last of this id. */
  predicate LastListed(listing: seq<Listed>, id: string, i: int) {
    0 <= i < |listing| && listing[i].id == id && forall j :: i < j < |listing| ==> listing[j].id != id
  }

  /** The last listing of an id is the one that counts. */
  lemma {:induction false} TableIs(listing: seq<Listed>, id: string)
    ensures id in TableOf(listing) <==> exists x <- listing :: x.id == id
    ensures id in TableOf(listing) ==>
        exists i :: LastListed(listing, id, i) && TableOf(listing)[id] == listing[i].folder
  {
    if listing != [] {
      var n := |listing| - 1;
      var init := listing[..n];
      TableIs(init, id);
      assert listing == init + [listing[n]];
      if listing[n].id != id && id in TableOf(init) {
        var i :| LastListed(init, id, i) && TableOf(init)[id] == init[i].folder;
        assert listing[i] == init[i];
        assert forall j :: i < j < n ==> listing[j] == init[j];
        assert LastListed(listing, id, i);
      }
    }
  }

  /** A climb follows the parent pointers and stops only at a folder without a listed, unseen parent. */
  lemma {:induction false} ClimbFollows(table: FolderTable, id: string, seen: set<string>)
    requires id in table && id !in seen
    ensures var ids := Climb(table, Some(id), seen);
      && ids != [] && ids[0] == id
      && (forall i :: 0 <= i < |ids| - 1 ==> table[ids[i]].parent == Some(ids[i + 1]))
      && (var top := table[ids[|ids| - 1]].parent;
          top.None? || top.value !in table || top.value in seen || top.value in ids)
    decreases table.Keys - seen
  {
    var parent := table[id].parent;
    var ids := Climb(table, Some(id), seen);
    ClimbStep(table, id, seen);
    if parent.Some? && parent.value in table && parent.value !in seen + {id} {
      ClimbFollows(table, parent.value, seen + {id});
      var rest := Climb(table, parent, seen + {id});
      assert ids == [id] + rest;
      forall i | 0 <= i < |ids| - 1 ensures table[ids[i]].parent == Some(ids[i + 1]) {
        if i > 0 { assert ids[i] == rest[i - 1] && ids[i + 1] == rest[i]; }
      }
      assert ids[|ids| - 1] == rest[|rest| - 1];
    } else {
      assert ids == [id];
    }
  }

  lemma {:induction false} ReverseAt<T>(xs: seq<T>, i: nat)
    requires i < |xs|
    ensures |Reverse(xs)| == |xs| && Reverse(xs)[|xs| - 1 - i] == xs[i]
  {
    ReverseLength(xs);
    ReverseLength(xs[1..]);
    if i > 0 { ReverseAt(xs[1..], i - 1); }
  }

  /** The path names the folder and up to fifteen ancestors, following parent pointers, root first. */
  lemma PathNamesAncestors(table: FolderTable, id: string)
    requires id in table
    ensures var ids, path := Ancestors(table, id), PathOf(table, id);
      && |path| == (if |ids| <= MAX_FOLDER_DEPTH then |ids| else MAX_FOLDER_DEPTH)
      && (forall i :: 0 <= i < |path| ==> path[|path| - 1 - i] == table[ids[i]].name)
      && ids[0] == id && (forall i :: 0 <= i < |ids| - 1 ==> table[ids[i]].parent == Some(ids[i + 1]))
      && (var top := table[ids[|ids| - 1]].parent; top.None? || top.value !in table || top.value in ids)
  {
    ClimbFollows(table, id, {});
    var ids := Ancestors(table, id);
    var names := Names(table, Bounded(ids));
    ReverseLength(names);
    forall i | 0 <= i < |names| ensures Reverse(names)[|names| - 1 - i] == table[ids[i]].name {
      ReverseAt(names, i);
    }
  }
}
