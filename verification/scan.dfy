/**
 * From the manifest to the figure in the scan: `flatten`, `writeTree`,
 * `walkDisk` and `duRecords` read one after the other.
 */
module Scan {
  import opened Orders
  import opened Paths
  import opened Corpus
  import opened Disk
  import opened Du

  function TotalSize(entries: seq<FlatEntry>): nat {
    if entries == [] then 0 else TotalSize(entries[..|entries| - 1]) + entries[|entries| - 1].size
  }

  function LinkBytes(entries: seq<FlatEntry>): nat {
    if entries == [] then 0
    else
      var last := entries[|entries| - 1];
      LinkBytes(entries[..|entries| - 1]) + if last.spec.kind.Symlink? then last.size else 0
  }

  lemma {:induction false} SizesSplit(entries: seq<FlatEntry>)
    ensures TotalSize(entries) == ApparentBytes(entries) + LinkBytes(entries)
  {
    if entries != [] { SizesSplit(entries[..|entries| - 1]); }
  }

  function DirRels(dirs: seq<FlatDir>, n: nat): set<Path>
    requires n <= |dirs|
  {
    set k | 0 <= k < n :: dirs[k].rel
  }

  function EntryRels(entries: seq<FlatEntry>, n: nat): set<Path>
    requires n <= |entries|
  {
    set k | 0 <= k < n :: entries[k].rel
  }

  lemma DirCharged(flat: FlatTree, anchorMs: int, t: Tree, k: nat)
    requires Shaped(flat) && WrittenAs(flat, anchorMs, t) && k < |flat.dirs|
    ensures flat.dirs[k].rel in Seen(t) && Charge(Seen(t), flat.dirs[k].rel) == DIR_BLOCK
    ensures flat.dirs[k].rel !in DirRels(flat.dirs, k)
    ensures DirRels(flat.dirs, k + 1) == DirRels(flat.dirs, k) + {flat.dirs[k].rel}
  {
    assert flat.dirs[k] in flat.dirs;
  }

  lemma EntryCharged(flat: FlatTree, anchorMs: int, t: Tree, k: nat)
    requires Shaped(flat) && WrittenAs(flat, anchorMs, t) && k < |flat.entries|
    ensures flat.entries[k].rel in Seen(t) && Charge(Seen(t), flat.entries[k].rel) == flat.entries[k].size
    ensures flat.entries[k].rel !in EntryRels(flat.entries, k)
    ensures EntryRels(flat.entries, k + 1) == EntryRels(flat.entries, k) + {flat.entries[k].rel}
  {
    assert flat.entries[k] in flat.entries;
    DeclaredSizes(flat, anchorMs, t, flat.entries[k]);
  }

  lemma {:induction false} SumOfDirs(flat: FlatTree, anchorMs: int, t: Tree, n: nat)
    requires Shaped(flat) && WrittenAs(flat, anchorMs, t) && n <= |flat.dirs|
    ensures DirRels(flat.dirs, n) <= Seen(t).Keys
    ensures Sum(Seen(t), DirRels(flat.dirs, n)) == n * DIR_BLOCK
  {
    hide Shaped, WrittenAs, Charge;
    if n > 0 {
      SumOfDirs(flat, anchorMs, t, n - 1);
      DirCharged(flat, anchorMs, t, n - 1);
      hide *;
      SumAdd(Seen(t), DirRels(flat.dirs, n - 1), flat.dirs[n - 1].rel);
    }
  }

  lemma {:induction false} SumOfEntries(flat: FlatTree, anchorMs: int, t: Tree, n: nat)
    requires Shaped(flat) && WrittenAs(flat, anchorMs, t) && n <= |flat.entries|
    ensures EntryRels(flat.entries, n) <= Seen(t).Keys
    ensures Sum(Seen(t), EntryRels(flat.entries, n)) == TotalSize(flat.entries[..n])
  {
    hide Shaped, WrittenAs, Charge, Seen, Sum;
    if n == 0 {
      NothingCharged(Seen(t), flat.entries);
    } else {
      SumOfEntries(flat, anchorMs, t, n - 1);
      EntryCharged(flat, anchorMs, t, n - 1);
      assert flat.entries[..n][..n - 1] == flat.entries[..n - 1];
      SumAdd(Seen(t), EntryRels(flat.entries, n - 1), flat.entries[n - 1].rel);
    }
  }

  lemma NothingCharged(known: Known, entries: seq<FlatEntry>)
    ensures EntryRels(entries, 0) == {} && Sum(known, {}) == 0
  {}

  lemma WrittenIsClosed(flat: FlatTree, anchorMs: int, t: Tree)
    requires Shaped(flat) && WrittenAs(flat, anchorMs, t) && HasDir(flat, [])
    ensures TreeClosed(t)
  {
    forall q | q in t && q != [] ensures Up(q) in t && t[Up(q)].Dir? {
      if HasDir(flat, q) {
        assert HasDir(flat, Up(q));
      } else {
        var e :| e in flat.entries && e.rel == q;
        assert HasDir(flat, Up(q));
      }
    }
  }

  /**
   * The total a scan of the written tree reports is the manifest's own: a block
   * for every directory of the flattened spec, and every declared size.
   */
  lemma {:induction false} ScanTotalIsManifest(before: (Path, Path) -> bool, flat: FlatTree, anchorMs: int,
                                               t: Tree, walked: seq<Walked>)
    requires Total(before) && Shaped(flat) && NoClash(flat) && WrittenAs(flat, anchorMs, t) && HasDir(flat, [])
    requires Lists(t, AtOrUnder(Seen(t), []), walked)
    ensures Visit(before, KnownOf(walked), []).bytes
         == |flat.dirs| * DIR_BLOCK + ApparentBytes(flat.entries) + LinkBytes(flat.entries)
  {
    WrittenIsClosed(flat, anchorMs, t);
    SeenClosed(t);
    WalkIsKnown(t, walked);
    VisitMeans(before, Seen(t), [], []);
    var ds, es := DirRels(flat.dirs, |flat.dirs|), EntryRels(flat.entries, |flat.entries|);
    SumOfDirs(flat, anchorMs, t, |flat.dirs|);
    SumOfEntries(flat, anchorMs, t, |flat.entries|);
    assert flat.entries[..|flat.entries|] == flat.entries;
    SizesSplit(flat.entries);
    PathsSplit(flat, anchorMs, t);
    SumUnion(Seen(t), ds, es);
  }

  lemma PathsSplit(flat: FlatTree, anchorMs: int, t: Tree)
    requires NoClash(flat) && WrittenAs(flat, anchorMs, t) && HasDir(flat, [])
    ensures AtOrUnder(Seen(t), []) == DirRels(flat.dirs, |flat.dirs|) + EntryRels(flat.entries, |flat.entries|)
    ensures DirRels(flat.dirs, |flat.dirs|) !! EntryRels(flat.entries, |flat.entries|)
  {
    forall p ensures p in DirRels(flat.dirs, |flat.dirs|) <==> HasDir(flat, p) {
      if d :| d in flat.dirs && d.rel == p {
        var k :| 0 <= k < |flat.dirs| && flat.dirs[k] == d;
        assert flat.dirs[k].rel == p;
      }
      if p in DirRels(flat.dirs, |flat.dirs|) {
        var k :| 0 <= k < |flat.dirs| && flat.dirs[k].rel == p;
        assert flat.dirs[k] in flat.dirs;
      }
    }
    forall p ensures p in EntryRels(flat.entries, |flat.entries|) <==> HasEntry(flat, p) {
      if e :| e in flat.entries && e.rel == p {
        var k :| 0 <= k < |flat.entries| && flat.entries[k] == e;
        assert flat.entries[k].rel == p;
      }
      if p in EntryRels(flat.entries, |flat.entries|) {
        var k :| 0 <= k < |flat.entries| && flat.entries[k].rel == p;
        assert flat.entries[k] in flat.entries;
      }
    }
    assert forall q :: q in AtOrUnder(Seen(t), []) <==> q in t;
  }
}
