/**
 * `nest-api/mock/fixtures.ts`: the items of a transfer enumerated from the tree,
 * and the counters its row carries.
 *
 * An item is named relative to the directory holding the selection.  The
 * theorems say that nothing below the selection is missing, nothing is there
 * twice, and every item finds the directory it goes into among the items.
 */
module Transfers {
  import opened Orders
  import opened Paths
  import opened Corpus
  import opened Disk
  import opened Sums

  datatype ItemKind = FileItem | DirectoryItem | SymlinkItem
  datatype Status = Done | Skipped | Failed | Pending
  datatype Conflict = Ask | Overwrite | Skip | Rename
  datatype Item = Item(name: Path, kind: ItemKind, bytes: nat, status: Status, conflict: Option<Conflict>)

  /** `rel === top || rel.startsWith(top + "/")`: below the empty selection there is nothing. */
  predicate Selected(top: Path, rel: Path) {
    rel == top || (top != [] && top < rel)
  }

  /** `posix.dirname(top)`, with `"."` read as no prefix at all. */
  function Holder(top: Path): (r: Path)
    ensures r <= top
  {
    if top == [] then [] else Parent(top)
  }

  function NameOf(top: Path, rel: Path): (r: Path)
    requires Selected(top, rel)
    ensures Holder(top) + r == rel
  {
    rel[|Holder(top)|..]
  }

  /** The strings agree: the slice past the prefix and its slash is the tail of the segments. */
  lemma {:induction false} NameIsTheTail(holder: Path, rel: Path)
    requires holder != [] && holder < rel
    ensures |Join(holder)| + 1 <= |Join(rel)| && Join(rel)[|Join(holder)| + 1..] == Join(rel[|holder|..])
  {
    assert rel == holder + rel[|holder|..];
    JoinConcat(holder, rel[|holder|..]);
  }

  function DirItem(top: Path, d: FlatDir): Item
    requires Selected(top, d.rel)
  {
    Item(NameOf(top, d.rel), DirectoryItem, 0, Done, None)
  }

  function EntryItem(top: Path, e: FlatEntry): Item
    requires Selected(top, e.rel)
  {
    var link := e.spec.kind.Symlink?;
    Item(NameOf(top, e.rel), if link then SymlinkItem else FileItem, if link then 0 else e.size, Done, None)
  }

  function DirItems(top: Path, ds: seq<FlatDir>): seq<Item> {
    if ds == [] then []
    else (if Selected(top, ds[0].rel) then [DirItem(top, ds[0])] else []) + DirItems(top, ds[1..])
  }

  function EntryItems(top: Path, es: seq<FlatEntry>): seq<Item> {
    if es == [] then []
    else (if Selected(top, es[0].rel) then [EntryItem(top, es[0])] else []) + EntryItems(top, es[1..])
  }

  function ItemsOf(top: Path, flat: FlatTree): seq<Item> {
    DirItems(top, flat.dirs) + EntryItems(top, flat.entries)
  }

  function ByName(before: (Path, Path) -> bool): (Item, Item) -> bool {
    (x: Item, y: Item) => before(x.name, y.name)
  }

  /** The items of the selection, in some order. */
  ghost predicate Enumerates(top: Path, flat: FlatTree, items: seq<Item>) {
    multiset(items) == multiset(ItemsOf(top, flat))
  }

  lemma DirItemsStep(top: Path, ds: seq<FlatDir>, i: nat)
    requires i < |ds|
    ensures DirItems(top, ds[i..])
         == (if Selected(top, ds[i].rel) then [DirItem(top, ds[i])] else []) + DirItems(top, ds[i + 1..])
  {
    assert ds[i..][0] == ds[i] && ds[i..][1..] == ds[i + 1..];
  }

  lemma EntryItemsStep(top: Path, es: seq<FlatEntry>, i: nat)
    requires i < |es|
    ensures EntryItems(top, es[i..])
         == (if Selected(top, es[i].rel) then [EntryItem(top, es[i])] else []) + EntryItems(top, es[i + 1..])
  {
    assert es[i..][0] == es[i] && es[i..][1..] == es[i + 1..];
  }

  /** Nothing is enumerated past the end. */
  lemma ItemsEnd(top: Path, ds: seq<FlatDir>, es: seq<FlatEntry>)
    ensures DirItems(top, ds[|ds|..]) == [] && EntryItems(top, es[|es|..]) == []
  {
  }

  lemma EnumeratesSorted(top: Path, flat: FlatTree, pushed: seq<Item>, items: seq<Item>)
    requires pushed == DirItems(top, flat.dirs) + EntryItems(top, flat.entries)
    requires multiset(items) == multiset(pushed)
    ensures Enumerates(top, flat, items)
  {
  }

  method TransferItems(top: Path, flat: FlatTree, before: (Path, Path) -> bool) returns (items: seq<Item>)
    ensures Enumerates(top, flat, items)
    ensures Total(before) ==> InOrder(ByName(before), items)
  {
    ItemsEnd(top, flat.dirs, flat.entries);
    var pushed: seq<Item> := [];
    hide *;
    assert flat.dirs[0..] == flat.dirs && flat.entries[0..] == flat.entries;
    for i := 0 to |flat.dirs|
      invariant pushed + DirItems(top, flat.dirs[i..]) == DirItems(top, flat.dirs)
    {
      var d := flat.dirs[i];
      DirItemsStep(top, flat.dirs, i);
      if Selected(top, d.rel) { pushed := pushed + [DirItem(top, d)]; }
    }
    assert pushed == pushed + [] == DirItems(top, flat.dirs);
    ghost var done := pushed;
    for i := 0 to |flat.entries|
      invariant pushed + EntryItems(top, flat.entries[i..]) == done + EntryItems(top, flat.entries)
    {
      var e := flat.entries[i];
      EntryItemsStep(top, flat.entries, i);
      if Selected(top, e.rel) { pushed := pushed + [EntryItem(top, e)]; }
    }
    assert pushed == pushed + [] == done + EntryItems(top, flat.entries);
    items := Sort(ByName(before), pushed);
    EnumeratesSorted(top, flat, pushed, items);
    if Total(before) {
      NamesSortWeakly(before, Elements(pushed));
      SortInOrder(ByName(before), pushed);
    }
  }

  lemma NamesSortWeakly(before: (Path, Path) -> bool, s: set<Item>)
    requires Total(before)
    ensures WeakOn(ByName(before), s)
  {
    forall x, y | x in s && y in s && ByName(before)(x, y) ensures !ByName(before)(y, x) {
      assert before(x.name, y.name) && !before(x.name, x.name);
    }
    forall x, y, z | x in s && y in s && z in s && !ByName(before)(y, x) && !ByName(before)(z, y)
      ensures !ByName(before)(z, x)
    {
      assert x.name == y.name || before(x.name, y.name);
      assert y.name == z.name || before(y.name, z.name);
    }
  }

  // ------------------------------------------------------------------ which items there are

  lemma {:induction false} DirItemsMembers(top: Path, ds: seq<FlatDir>, x: Item)
    ensures x in DirItems(top, ds) <==> exists d :: d in ds && Selected(top, d.rel) && x == DirItem(top, d)
  {
    if ds != [] { DirItemsMembers(top, ds[1..], x); }
  }

  lemma {:induction false} EntryItemsMembers(top: Path, es: seq<FlatEntry>, x: Item)
    ensures x in EntryItems(top, es) <==> exists e :: e in es && Selected(top, e.rel) && x == EntryItem(top, e)
  {
    if es != [] { EntryItemsMembers(top, es[1..], x); }
  }

  lemma ItemsMembers(top: Path, flat: FlatTree, items: seq<Item>, x: Item)
    requires Enumerates(top, flat, items)
    ensures x in items <==> x in DirItems(top, flat.dirs) || x in EntryItems(top, flat.entries)
  {
    MembersByMultiset(items, ItemsOf(top, flat));
  }

  /** A path of the tree under the selection is an item's, and an item's path is one of those. */
  lemma ItemsCoverSelection(top: Path, flat: FlatTree, items: seq<Item>, rel: Path)
    requires Enumerates(top, flat, items)
    ensures (exists x :: x in items && x.kind.DirectoryItem? && Holder(top) + x.name == rel)
      <==> Selected(top, rel) && HasDir(flat, rel)
    ensures (exists x :: x in items && !x.kind.DirectoryItem? && Holder(top) + x.name == rel)
      <==> Selected(top, rel) && HasEntry(flat, rel)
  {
    if Selected(top, rel) && HasDir(flat, rel) {
      var d :| d in flat.dirs && d.rel == rel;
      DirItemsMembers(top, flat.dirs, DirItem(top, d));
      ItemsMembers(top, flat, items, DirItem(top, d));
    }
    if Selected(top, rel) && HasEntry(flat, rel) {
      var e :| e in flat.entries && e.rel == rel;
      EntryItemsMembers(top, flat.entries, EntryItem(top, e));
      ItemsMembers(top, flat, items, EntryItem(top, e));
    }
    forall x | x in items && Holder(top) + x.name == rel
      ensures Selected(top, rel) && if x.kind.DirectoryItem? then HasDir(flat, rel) else HasEntry(flat, rel)
    {
      ItemsMembers(top, flat, items, x);
      DirItemsMembers(top, flat.dirs, x);
      EntryItemsMembers(top, flat.entries, x);
    }
  }

  /** No selected path is a file and a directory at once. */
  ghost predicate Apart(top: Path, flat: FlatTree) {
    forall e | e in flat.entries && Selected(top, e.rel) :: !HasDir(flat, e.rel)
  }

  ghost predicate DistinctNames(items: seq<Item>) {
    forall i, j | 0 <= i < j < |items| :: items[i].name != items[j].name
  }

  lemma {:induction false} DirItemsDistinct(top: Path, ds: seq<FlatDir>)
    requires forall i, j | 0 <= i < j < |ds| :: ds[i].rel != ds[j].rel
    ensures Distinct(DirItems(top, ds))
  {
    if ds != [] {
      DirItemsDistinct(top, ds[1..]);
      if Selected(top, ds[0].rel) {
        DirItemsMembers(top, ds[1..], DirItem(top, ds[0]));
        forall d | d in ds[1..] && Selected(top, d.rel) ensures DirItem(top, d).name != DirItem(top, ds[0]).name {
          assert Holder(top) + NameOf(top, d.rel) != Holder(top) + NameOf(top, ds[0].rel);
        }
      }
    }
  }

  lemma {:induction false} EntryItemsDistinct(top: Path, es: seq<FlatEntry>)
    requires DistinctRels(es)
    ensures Distinct(EntryItems(top, es))
  {
    if es != [] {
      EntryItemsDistinct(top, es[1..]);
      if Selected(top, es[0].rel) {
        EntryItemsMembers(top, es[1..], EntryItem(top, es[0]));
        forall e | e in es[1..] && Selected(top, e.rel) ensures EntryItem(top, e).name != EntryItem(top, es[0]).name {
          assert Holder(top) + NameOf(top, e.rel) != Holder(top) + NameOf(top, es[0].rel);
        }
      }
    }
  }

  lemma ItemsDistinct(top: Path, flat: FlatTree, items: seq<Item>)
    requires Shaped(flat) && Enumerates(top, flat, items)
    ensures Distinct(items)
  {
    var ds, es := DirItems(top, flat.dirs), EntryItems(top, flat.entries);
    DirItemsDistinct(top, flat.dirs);
    EntryItemsDistinct(top, flat.entries);
    forall i, j | 0 <= i < |ds| && 0 <= j < |es| ensures ds[i] != es[j] {
      DirItemsMembers(top, flat.dirs, ds[i]);
      EntryItemsMembers(top, flat.entries, es[j]);
    }
    DistinctByMultiset(ItemsOf(top, flat), items);
  }

  /** One name, one path: two items of one kind that share it are one item. */
  lemma SameNameSameKind(top: Path, flat: FlatTree, items: seq<Item>, x: Item, y: Item)
    requires Shaped(flat) && Enumerates(top, flat, items)
    requires x in items && y in items && x.name == y.name && (x.kind.DirectoryItem? <==> y.kind.DirectoryItem?)
    ensures x == y
  {
    ItemsMembers(top, flat, items, x);
    ItemsMembers(top, flat, items, y);
    DirItemsMembers(top, flat.dirs, x);
    DirItemsMembers(top, flat.dirs, y);
    EntryItemsMembers(top, flat.entries, x);
    EntryItemsMembers(top, flat.entries, y);
  }

  lemma SameNameApart(top: Path, flat: FlatTree, items: seq<Item>, x: Item, y: Item)
    requires Enumerates(top, flat, items) && Apart(top, flat)
    requires x in items && y in items && x.name == y.name
    ensures x.kind.DirectoryItem? <==> y.kind.DirectoryItem?
  {
    ItemsCoverSelection(top, flat, items, Holder(top) + x.name);
  }

  lemma TwoOfAName(items: seq<Item>, i: nat, j: nat)
    requires i < |items| && j < |items| && i != j && items[i].name == items[j].name
    ensures !DistinctNames(items)
  {
  }

  /** A selected path that is both gives two items of one name. */
  lemma ClashIsTwoItems(top: Path, flat: FlatTree, items: seq<Item>, rel: Path)
    requires Enumerates(top, flat, items)
    requires Selected(top, rel) && HasDir(flat, rel) && HasEntry(flat, rel)
    ensures !DistinctNames(items)
  {
    hide *;
    ItemsCoverSelection(top, flat, items, rel);
    var x :| x in items && x.kind.DirectoryItem? && Holder(top) + x.name == rel;
    var y :| y in items && !y.kind.DirectoryItem? && Holder(top) + y.name == rel;
    assert x.name == rel[|Holder(top)|..] == y.name;
    var i :| 0 <= i < |items| && items[i] == x;
    var j :| 0 <= j < |items| && items[j] == y;
    TwoOfAName(items, i, j);
  }

  /** Names are distinct exactly when no selected file takes the place of a directory. */
  lemma NamesDistinctWhenApart(top: Path, flat: FlatTree, items: seq<Item>)
    requires Shaped(flat) && Enumerates(top, flat, items)
    ensures DistinctNames(items) <==> Apart(top, flat)
  {
    ItemsDistinct(top, flat, items);
    if Apart(top, flat) {
      forall i, j | 0 <= i < j < |items| ensures items[i].name != items[j].name {
        if items[i].name == items[j].name {
          SameNameApart(top, flat, items, items[i], items[j]);
          SameNameSameKind(top, flat, items, items[i], items[j]);
        }
      }
    } else {
      var e :| e in flat.entries && Selected(top, e.rel) && HasDir(flat, e.rel);
      ClashIsTwoItems(top, flat, items, e.rel);
    }
  }

  // ------------------------------------------------------------------ parents

  /** Not `./x`, whose holder `posix.dirname` folds away. */
  predicate PlainTop(top: Path) {
    |top| == 2 ==> top[0] != "."
  }

  lemma SameTail(holder: Path, a: Path, b: Path)
    requires holder + a == holder + b
    ensures a == b
  {
    assert a == (holder + a)[|holder|..];
  }

  /** The path one up from a proper part of the selection is selected, and is a directory of the tree. */
  lemma UpIsSelected(top: Path, flat: FlatTree, rel: Path)
    requires Shaped(flat) && PlainTop(top) && Selected(top, rel)
    requires |rel| > |Holder(top)| + 1
    requires HasDir(flat, rel) || HasEntry(flat, rel)
    ensures Selected(top, Up(rel)) && HasDir(flat, Up(rel))
  {
    assert top != [] && top < rel;
    assert top <= Up(rel) && Up(rel) != [];
  }

  lemma UpOfName(top: Path, name: Path)
    requires name != []
    ensures Up(Holder(top) + name) == Holder(top) + name[..|name| - 1]
  {
    var h := Holder(top);
    assert (h + name)[..|h + name| - 1] == h + name[..|name| - 1];
  }

  /** Every item below another path has the directory it goes into among the items. */
  lemma ItemsClosedUnderParents(top: Path, flat: FlatTree, items: seq<Item>, x: Item)
    requires Shaped(flat) && Enumerates(top, flat, items) && PlainTop(top)
    requires x in items && |x.name| > 1
    ensures exists y :: y in items && y.kind.DirectoryItem? && y.name == x.name[..|x.name| - 1]
  {
    var rel, up := Holder(top) + x.name, x.name[..|x.name| - 1];
    ItemsCoverSelection(top, flat, items, rel);
    assert Selected(top, rel) && (HasDir(flat, rel) || HasEntry(flat, rel));
    UpIsSelected(top, flat, rel);
    UpOfName(top, x.name);
    hide *;
    ItemsCoverSelection(top, flat, items, Up(rel));
    var y :| y in items && y.kind.DirectoryItem? && Holder(top) + y.name == Up(rel);
    SameTail(Holder(top), y.name, up);
  }

  lemma ShortIsTop(top: Path, rel: Path)
    requires PlainTop(top) && Selected(top, rel)
    ensures |rel| <= |Holder(top)| + 1 <==> rel == top
  {
  }

  /** Exactly one path has an item with no slash in its name: the selection itself. */
  lemma {:induction false} OneTopLevel(top: Path, flat: FlatTree, items: seq<Item>)
    requires Shaped(flat) && Enumerates(top, flat, items) && PlainTop(top)
    requires HasDir(flat, top) || HasEntry(flat, top)
    ensures exists x :: x in items && |x.name| <= 1
    ensures forall x | x in items && |x.name| <= 1 :: Holder(top) + x.name == top
  {
    assert Selected(top, top);
    hide *;
    ItemsCoverSelection(top, flat, items, top);
    var x :| x in items && Holder(top) + x.name == top;
    ShortIsTop(top, top);
    assert |x.name| <= 1;
    forall y | y in items && |y.name| <= 1 ensures Holder(top) + y.name == top {
      ItemsCoverSelection(top, flat, items, Holder(top) + y.name);
      ShortIsTop(top, Holder(top) + y.name);
    }
  }

  // ------------------------------------------------------------------ the counters

  datatype Totals = Totals(bytesTotal: int, bytesDone: int, itemsTotal: nat, itemsDone: int, moved: int, failed: int)

  function Planned(x: Item): int { if x.conflict == Some(Skip) then 0 else x.bytes }
  function Carried(x: Item): int { if x.status == Done then x.bytes else 0 }
  function Settled(x: Item): int { if x.status == Done || x.status == Skipped then 1 else 0 }
  function Is(s: Status): Item -> int { (x: Item) => if x.status == s then 1 else 0 }

  function TotalsOf(items: seq<Item>): Totals {
    Totals(Sum(Planned, items), Sum(Carried, items), |items|,
           Sum(Settled, items), Sum(Is(Done), items), Sum(Is(Failed), items))
  }

  method TransferTotals(items: seq<Item>) returns (t: Totals)
    ensures t == TotalsOf(items)
  {
    var bytesTotal, bytesDone, itemsDone, moved, failed := 0, 0, 0, 0, 0;
    for i := 0 to |items|
      invariant bytesTotal + Sum(Planned, items[i..]) == Sum(Planned, items)
      invariant bytesDone + Sum(Carried, items[i..]) == Sum(Carried, items)
      invariant itemsDone + Sum(Settled, items[i..]) == Sum(Settled, items)
      invariant moved + Sum(Is(Done), items[i..]) == Sum(Is(Done), items)
      invariant failed + Sum(Is(Failed), items[i..]) == Sum(Is(Failed), items)
    {
      var item := items[i];
      assert items[i..][0] == item && items[i..][1..] == items[i + 1..];
      if item.conflict != Some(Skip) { bytesTotal := bytesTotal + item.bytes; }
      if item.status == Done {
        bytesDone := bytesDone + item.bytes;
        moved := moved + 1;
      }
      if item.status == Done || item.status == Skipped { itemsDone := itemsDone + 1; }
      if item.status == Failed { failed := failed + 1; }
    }
    t := Totals(bytesTotal, bytesDone, |items|, itemsDone, moved, failed);
  }

  /** Apparent bytes of the regular files at or under the selection. */
  function SelectedBytes(top: Path, es: seq<FlatEntry>): nat {
    if es == [] then 0
    else (if Selected(top, es[0].rel) && !es[0].spec.kind.Symlink? then es[0].size else 0) + SelectedBytes(top, es[1..])
  }

  lemma {:induction false} DirItemsSums(top: Path, ds: seq<FlatDir>)
    ensures Sum(Planned, DirItems(top, ds)) == 0 && Sum(Carried, DirItems(top, ds)) == 0
    ensures forall x | x in DirItems(top, ds) :: x.status == Done
  {
    if ds != [] {
      DirItemsSums(top, ds[1..]);
      var x := DirItems(top, ds);
      if Selected(top, ds[0].rel) {
        assert x[0] == DirItem(top, ds[0]) && x[1..] == DirItems(top, ds[1..]);
      } else {
        assert x == DirItems(top, ds[1..]);
      }
    }
  }

  lemma {:induction false} EntryItemsSums(top: Path, es: seq<FlatEntry>)
    ensures Sum(Planned, EntryItems(top, es)) == SelectedBytes(top, es)
    ensures Sum(Carried, EntryItems(top, es)) == SelectedBytes(top, es)
    ensures forall x | x in EntryItems(top, es) :: x.status == Done
  {
    if es != [] {
      EntryItemsSums(top, es[1..]);
      var x := EntryItems(top, es);
      if Selected(top, es[0].rel) {
        assert x[0] == EntryItem(top, es[0]) && x[1..] == EntryItems(top, es[1..]);
      } else {
        assert x == EntryItems(top, es[1..]);
      }
    }
  }

  lemma {:induction false} AllDone(items: seq<Item>)
    requires forall x | x in items :: x.status == Done
    ensures Sum(Settled, items) == |items| && Sum(Is(Done), items) == |items| && Sum(Is(Failed), items) == 0
  {
    if items != [] { AllDone(items[1..]); }
  }

  /**
   * A job enumerated from the tree is finished: every item moved, none failed,
   * and both byte counts are the selected files' sizes, each once.
   */
  lemma EnumeratedTotals(top: Path, flat: FlatTree, items: seq<Item>)
    requires Enumerates(top, flat, items)
    ensures TotalsOf(items) == Totals(SelectedBytes(top, flat.entries), SelectedBytes(top, flat.entries),
                                      |items|, |items|, |items|, 0)
  {
    var ds, es := DirItems(top, flat.dirs), EntryItems(top, flat.entries);
    DirItemsSums(top, flat.dirs);
    EntryItemsSums(top, flat.entries);
    SumConcat(Planned, ds, es);
    SumConcat(Carried, ds, es);
    SumByMultiset(Planned, items, ds + es);
    SumByMultiset(Carried, items, ds + es);
    MembersByMultiset(items, ds + es);
    AllDone(items);
  }

  /** Bytes of items to be skipped and yet done, and of items neither done nor to be skipped. */
  function Unplanned(x: Item): int { if x.status == Done && x.conflict == Some(Skip) then x.bytes else 0 }
  function Outstanding(x: Item): int { if x.status != Done && x.conflict != Some(Skip) then x.bytes else 0 }

  /**
   * In any job the counters fit together: every item is settled, failed or
   * pending, and the bytes done differ from the total by what was done unplanned
   * less what is outstanding.
   */
  lemma {:induction false} TotalsFit(items: seq<Item>)
    ensures Sum(Settled, items) == Sum(Is(Done), items) + Sum(Is(Skipped), items)
    ensures Sum(Settled, items) + Sum(Is(Failed), items) + Sum(Is(Pending), items) == |items|
    ensures Sum(Carried, items) - Sum(Planned, items) == Sum(Unplanned, items) - Sum(Outstanding, items)
  {
    if items != [] { TotalsFit(items[1..]); }
  }

  /** A single item, skipped by its conflict and yet done, is carried outside the total. */
  lemma DoneBeyondTotal(name: Path, bytes: nat)
    requires bytes > 0
    ensures var t := TotalsOf([Item(name, FileItem, bytes, Done, Some(Skip))]); t.bytesTotal < t.bytesDone
  {
    var x := Item(name, FileItem, bytes, Done, Some(Skip));
    assert [x][1..] == [];
    assert Sum(Planned, [x]) == 0 && Sum(Carried, [x]) == bytes;
  }
}
