/**
 * The duplicates a loaded scan reports: `contentKey` of `nest-api/mock/corpus.ts`
 * and `confirmFromContent` of `nest-api/mock/load.ts`.
 *
 * Copies are told by a key taken from the manifest, not by reading the files.
 * The count is one less than the copies of each key, which is the paths less
 * the different keys; against the bytes on disk it never promises too much.
 */
module Duplicates {
  import opened Paths
  import opened Corpus
  import opened Disk

  datatype ContentKey =
    | ZeroesKey(bytes: Size)
    | ImageKey(rel: Path)
    | TextKey(content: Bytes)
    | LinkKey(target: Bytes)
    | DirKey
    | UnknownKey(path: Path)

  function KeyOf(e: FlatEntry): ContentKey {
    match e.spec.kind
    case Sparse(bytes) => ZeroesKey(bytes)
    case Image(_, _) => ImageKey(e.rel)
    case Text(content) => TextKey(content)
    case Generated(lines) => TextKey(lines)
    case Symlink(target) => LinkKey(target)
    case Directory => DirKey
  }

  type Keys = map<Path, ContentKey>

  function KeysOf(entries: seq<FlatEntry>): Keys {
    if entries == [] then map[]
    else
      var last := entries[|entries| - 1];
      KeysOf(entries[..|entries| - 1])[last.rel := KeyOf(last)]
  }

  function KeyAt(keys: Keys, p: Path): ContentKey {
    if p in keys then keys[p] else UnknownKey(p)
  }

  /** Paths of one size, which may be copies of each other. */
  datatype Group = Group(bytes: nat, paths: seq<Path>)
  datatype Report = Report(candidates: nat, confirmed: nat, skipped: nat, reclaimable: int)

  function KeyList(keys: Keys, paths: seq<Path>): (r: seq<ContentKey>)
    ensures |r| == |paths|
  {
    seq(|paths|, i requires 0 <= i < |paths| => KeyAt(keys, paths[i]))
  }

  function Different<T>(xs: seq<T>): (r: set<T>)
  {
    set x | x in xs
  }

  /** The paths that would be left over if one of each key were kept. */
  function Spare(keys: Keys, paths: seq<Path>): int {
    |paths| - |Different(KeyList(keys, paths))|
  }

  function ConfirmedOf(keys: Keys, groups: seq<Group>): nat {
    if groups == [] then 0
    else
      var last := groups[|groups| - 1];
      ConfirmedOf(keys, groups[..|groups| - 1]) + if Spare(keys, last.paths) > 0 then 1 else 0
  }

  function ReclaimableOf(keys: Keys, groups: seq<Group>): int {
    if groups == [] then 0
    else
      var last := groups[|groups| - 1];
      ReclaimableOf(keys, groups[..|groups| - 1]) + Times(last.bytes, Spare(keys, last.paths))
  }

  // ------------------------------------------------------------------ counting

  /** How often each key occurs, as the loop over a group's paths counts it. */
  method CountKeys(keys: Keys, paths: seq<Path>) returns (byKey: map<ContentKey, nat>)
    ensures Counts(byKey, KeyList(keys, paths))
  {
    byKey := map[];
    ghost var list := KeyList(keys, paths);
    for i := 0 to |paths|
      invariant forall k :: k in byKey <==> k in list[..i]
      invariant forall k | k in byKey :: byKey[k] == multiset(list[..i])[k]
    {
      var key := KeyAt(keys, paths[i]);
      assert list[..i + 1] == list[..i] + [key];
      byKey := byKey[key := (if key in byKey then byKey[key] else 0) + 1];
    }
    assert list[..|paths|] == list;
  }

  /** The bytes of so many files of one size. */
  function Times(bytes: nat, files: int): int {
    bytes * files
  }

  lemma TimesMore(bytes: nat, a: int, b: int)
    ensures Times(bytes, a) + Times(bytes, b) == Times(bytes, a + b)
    ensures Times(bytes, 0) == 0
  {
  }

  /** The occurrences of the keys not looked at yet. */
  ghost predicate LeftFor(list: seq<ContentKey>, rest: set<ContentKey>, left: multiset<ContentKey>) {
    forall k :: left[k] == if k in rest then multiset(list)[k] else 0
  }

  /** With `rest` still to look at, `spare` files of the others' keys are copies. */
  ghost predicate Tallied(list: seq<ContentKey>, all: set<ContentKey>, rest: set<ContentKey>,
                          left: multiset<ContentKey>, spare: int) {
    rest <= all && LeftFor(list, rest, left) && spare >= 0 && spare + |left| - |rest| == |list| - |all|
  }

  lemma TallyFirst(list: seq<ContentKey>)
    ensures Tallied(list, Different(list), Different(list), multiset(list), 0)
  {
  }

  lemma TallyNext(list: seq<ContentKey>, all: set<ContentKey>, rest: set<ContentKey>,
                  left: multiset<ContentKey>, spare: int, k: ContentKey)
    requires Tallied(list, all, rest, left, spare) && k in rest && multiset(list)[k] >= 1
    ensures Tallied(list, all, rest - {k}, left[k := 0], spare + multiset(list)[k] - 1)
  {
    assert left[k] == multiset(list)[k];
    assert |left[k := 0]| == |left| - left[k];
  }

  lemma TallyLast(list: seq<ContentKey>, all: set<ContentKey>, left: multiset<ContentKey>, spare: int)
    requires Tallied(list, all, {}, left, spare)
    ensures spare == |list| - |all|
  {
    assert left == multiset{};
  }

  /** `byKey` counts the keys of `list`. */
  ghost predicate Counts(byKey: map<ContentKey, nat>, list: seq<ContentKey>) {
    byKey.Keys == Different(list) && forall k | k in byKey :: byKey[k] == multiset(list)[k]
  }

  lemma KeptCounts(byKey: map<ContentKey, nat>, list: seq<ContentKey>, k: ContentKey)
    requires Counts(byKey, list) && k in byKey
    ensures byKey[k] == multiset(list)[k] >= 1
  {
    assert k in list;
  }

  /** The loop over the counts: the bytes of all but one of every key that occurs twice or more. */
  method SumCopies(bytes: nat, byKey: map<ContentKey, nat>, ghost list: seq<ContentKey>)
    returns (confirmedHere: bool, reclaimable: int)
    requires Counts(byKey, list)
    ensures reclaimable == Times(bytes, |list| - |byKey.Keys|)
    ensures confirmedHere <==> |list| - |byKey.Keys| > 0
  {
    confirmedHere, reclaimable := false, 0;
    ghost var spare, left := 0, multiset(list);
    TallyFirst(list);
    TimesMore(bytes, 0, 0);
    var rest := byKey.Keys;
    hide *;
    while rest != {}
      invariant rest <= byKey.Keys
      invariant Tallied(list, byKey.Keys, rest, left, spare)
      invariant spare >= 0 && reclaimable == Times(bytes, spare) && (confirmedHere <==> spare > 0)
      decreases |rest|
    {
      var k :| k in rest;
      var count := byKey[k];
      KeptCounts(byKey, list, k);
      TallyNext(list, byKey.Keys, rest, left, spare, k);
      TimesMore(bytes, spare, count - 1);
      left, rest, spare := left[k := 0], rest - {k}, spare + count - 1;
      if count < 2 { continue; }
      confirmedHere := true;
      reclaimable := reclaimable + Times(bytes, count - 1);
    }
    TallyLast(list, byKey.Keys, left, spare);
  }

  /** One group. */
  method Reclaim(group: Group, keys: Keys) returns (confirmedHere: bool, reclaimable: int)
    ensures reclaimable == Times(group.bytes, Spare(keys, group.paths))
    ensures confirmedHere <==> Spare(keys, group.paths) > 0
  {
    var byKey := CountKeys(keys, group.paths);
    confirmedHere, reclaimable := SumCopies(group.bytes, byKey, KeyList(keys, group.paths));
  }

  method ConfirmFromContent(candidates: seq<Group>, droppedByBounds: nat, keys: Keys) returns (r: Report)
    ensures r == Report(|candidates|, ConfirmedOf(keys, candidates), droppedByBounds, ReclaimableOf(keys, candidates))
  {
    var confirmed, reclaimable := 0, 0;
    for i := 0 to |candidates|
      invariant confirmed == ConfirmedOf(keys, candidates[..i])
      invariant reclaimable == ReclaimableOf(keys, candidates[..i])
    {
      assert candidates[..i + 1][..i] == candidates[..i];
      var confirmedHere, bytes := Reclaim(candidates[i], keys);
      reclaimable := reclaimable + bytes;
      if confirmedHere { confirmed := confirmed + 1; }
    }
    assert candidates[..|candidates|] == candidates;
    r := Report(|candidates|, confirmed, droppedByBounds, reclaimable);
  }

  // ------------------------------------------------------------------ keys and bytes

  lemma {:induction false} KeysOfEntry(entries: seq<FlatEntry>, e: FlatEntry)
    requires DistinctRels(entries) && e in entries
    ensures e.rel in KeysOf(entries) && KeysOf(entries)[e.rel] == KeyOf(e)
  {
    var front, last := entries[..|entries| - 1], entries[|entries| - 1];
    if e != last {
      assert entries == front + [last];
      KeysOfEntry(front, e);
      var i :| 0 <= i < |front| && front[i] == e;
      assert entries[i].rel != entries[|entries| - 1].rel;
    }
  }

  predicate Regular(e: FlatEntry) {
    !e.spec.kind.Symlink? && !e.spec.kind.Directory?
  }

  function BytesOf(e: FlatEntry, anchorMs: int): Bytes
    requires Regular(e)
  {
    NodeOf(e, anchorMs).content
  }

  /** One key, one content: a picture's key is its own path, and zeroes of one length are the same zeroes. */
  lemma SameKeySameBytes(flat: FlatTree, anchorMs: int, e: FlatEntry, f: FlatEntry)
    requires Shaped(flat) && e in flat.entries && f in flat.entries && Regular(e) && Regular(f)
    requires KeyOf(e) == KeyOf(f)
    ensures BytesOf(e, anchorMs) == BytesOf(f, anchorMs)
  {
    if e.spec.kind.Image? {
      assert e == f;
    }
  }

  /** The bytes a file's spec stands for: a picture is drawn out with zeroes to its declared size. */
  function SpecBytes(e: FlatEntry): Bytes
    requires Regular(e)
  {
    match e.spec.kind
    case Text(content) => content
    case Generated(lines) => lines
    case Sparse(bytes) => Zeroes(Round(bytes))
    case Image(picture, declared) => Resized(picture, Max(Round(declared), |picture|))
  }

  predicate SpelledOut(e: FlatEntry) {
    e.spec.kind.Text? || e.spec.kind.Generated?
  }

  /**
   * Copies that the keys miss, kind by kind: two sparse files whose different
   * sizes round to one, two pictures that come out the same, and files of
   * different kinds that hold the same bytes.  Spelled-out files are never missed.
   */
  predicate Missed(e: FlatEntry, f: FlatEntry)
    requires Regular(e) && Regular(f)
  {
    if SpelledOut(e) && SpelledOut(f) then false
    else if e.spec.kind.Sparse? && f.spec.kind.Sparse? then
      e.spec.kind.bytes != f.spec.kind.bytes && Round(e.spec.kind.bytes) == Round(f.spec.kind.bytes)
    else if e.spec.kind.Image? && f.spec.kind.Image? then e.rel != f.rel && SpecBytes(e) == SpecBytes(f)
    else SpecBytes(e) == SpecBytes(f)
  }

  lemma BytesAreSpecs(flat: FlatTree, anchorMs: int, e: FlatEntry)
    requires Shaped(flat) && e in flat.entries && Regular(e)
    ensures BytesOf(e, anchorMs) == SpecBytes(e)
  {
  }

  lemma ZeroesTell(a: nat, b: nat)
    ensures Zeroes(a) == Zeroes(b) <==> a == b
  {
    assert |Zeroes(a)| == a && |Zeroes(b)| == b;
  }

  /** Key and bytes say the same of two files exactly unless they are such copies. */
  lemma KeysTellBytes(flat: FlatTree, anchorMs: int, e: FlatEntry, f: FlatEntry)
    requires Shaped(flat) && e in flat.entries && f in flat.entries && Regular(e) && Regular(f)
    ensures (KeyOf(e) == KeyOf(f) <==> BytesOf(e, anchorMs) == BytesOf(f, anchorMs)) <==> !Missed(e, f)
  {
    BytesAreSpecs(flat, anchorMs, e);
    BytesAreSpecs(flat, anchorMs, f);
    hide BytesOf, Resized, Zeroes;
    if e.spec.kind.Sparse? && f.spec.kind.Sparse? {
      ZeroesTell(Round(e.spec.kind.bytes), Round(f.spec.kind.bytes));
    } else if e.spec.kind.Image? && f.spec.kind.Image? && e.rel == f.rel {
      SameEntry(flat, e, f);
    }
  }

  lemma SameEntry(flat: FlatTree, e: FlatEntry, f: FlatEntry)
    requires DistinctRels(flat.entries) && e in flat.entries && f in flat.entries && e.rel == f.rel
    ensures e == f
  {
  }

  /** Two sparse files: the keys compare the declared sizes, the disk compares the rounded ones. */
  lemma SparseKeysTell(flat: FlatTree, anchorMs: int, e: FlatEntry, f: FlatEntry)
    requires Shaped(flat) && e in flat.entries && f in flat.entries && e.spec.kind.Sparse? && f.spec.kind.Sparse?
    ensures (KeyOf(e) == KeyOf(f) <==> BytesOf(e, anchorMs) == BytesOf(f, anchorMs))
      <==> e.spec.kind.bytes == f.spec.kind.bytes || Round(e.spec.kind.bytes) != Round(f.spec.kind.bytes)
  {
    KeysTellBytes(flat, anchorMs, e, f);
  }

  /** Sizes of 100.2 and 100.4 bytes: both files measure a hundred zeroes, under different keys. */
  lemma FractionsAreMissed(e: FlatEntry, f: FlatEntry, anchorMs: int)
    requires e.spec.kind == Sparse(100.2) && f.spec.kind == Sparse(100.4)
    requires e.size == SizeOf(e.spec) && f.size == SizeOf(f.spec)
    ensures e.size == 100 && f.size == 100
    ensures KeyOf(e) != KeyOf(f) && BytesOf(e, anchorMs) == BytesOf(f, anchorMs)
  {
    var a: Size, b: Size := 100.2, 100.4;
    assert Round(a) == 100 && Round(b) == 100;
  }

  /** An empty text and an empty sparse file hold the same nothing under different keys. */
  lemma EmptyFilesAreMissed(e: FlatEntry, f: FlatEntry, anchorMs: int)
    requires e.spec.kind == Text([]) && f.spec.kind == Sparse(0.0) && e.size == 0 && f.size == 0
    ensures KeyOf(e) != KeyOf(f) && BytesOf(e, anchorMs) == BytesOf(f, anchorMs)
  {
  }

  /** What the file at each path holds. */
  function BytesList(t: Tree, paths: seq<Path>): (r: seq<Bytes>)
    requires forall p | p in paths :: p in t && t[p].File?
    ensures |r| == |paths|
  {
    seq(|paths|, i requires 0 <= i < |paths| => t[paths[i]].content)
  }

  lemma DifferentSnoc<T>(xs: seq<T>, x: T)
    ensures |Different(xs + [x])| == |Different(xs)| + if x in xs then 0 else 1
  {
    var all := xs + [x];
    forall y ensures y in all <==> y in xs || y == x {
      if y in xs { var i :| 0 <= i < |xs| && xs[i] == y; assert all[i] == y; }
      assert all[|xs|] == x;
    }
    assert Different(all) == Different(xs) + {x};
  }

  /** Equal elements of `xs` stand over equal ones of `ys`. */
  ghost predicate Over<A, B>(xs: seq<A>, ys: seq<B>) {
    |xs| == |ys| && forall i, j | 0 <= i < j < |xs| && xs[i] == xs[j] :: ys[i] == ys[j]
  }

  /** Then `ys` has no more different ones. */
  lemma {:induction false} CoarserHasFewer<A, B>(xs: seq<A>, ys: seq<B>)
    requires Over(xs, ys)
    ensures |Different(ys)| <= |Different(xs)|
    decreases |xs|
  {
    if xs == [] {
      assert Different(ys) == {};
    } else {
      var n := |xs| - 1;
      var xs', ys', x, y := xs[..n], ys[..n], xs[n], ys[n];
      assert xs == xs' + [x] && ys == ys' + [y];
      assert Over(xs', ys');
      if x in xs' {
        var i :| 0 <= i < n && xs'[i] == x;
        assert xs[i] == xs[n] && ys'[i] == ys[i] == y;
      }
      hide *;
      CoarserHasFewer(xs', ys');
      DifferentSnoc(xs', x);
      DifferentSnoc(ys', y);
    }
  }

  lemma OverFront<A, B>(xs: seq<A>, x: A, ys: seq<B>, y: B)
    requires |xs| == |ys|
    ensures Over(xs + [x], ys + [y]) <==> Over(xs, ys) && forall i | 0 <= i < |xs| && xs[i] == x :: ys[i] == y
  {
    var all, under := xs + [x], ys + [y];
    if Over(all, under) {
      forall i, j | 0 <= i < j < |xs| && xs[i] == xs[j] ensures ys[i] == ys[j] {
        assert all[i] == all[j];
      }
      forall i | 0 <= i < |xs| && xs[i] == x ensures ys[i] == y {
        assert all[i] == all[|xs|];
      }
    }
  }

  /** As many different ones below as above: then the same stand over the same both ways. */
  lemma {:induction false} AsManyIsOverBack<A, B>(xs: seq<A>, ys: seq<B>)
    requires Over(xs, ys) && |Different(xs)| == |Different(ys)|
    ensures Over(ys, xs)
    decreases |xs|
  {
    if xs != [] {
      var n := |xs| - 1;
      var xs', ys', x, y := xs[..n], ys[..n], xs[n], ys[n];
      assert xs == xs' + [x] && ys == ys' + [y];
      OverFront(xs', x, ys', y);
      OverFront(ys', y, xs', x);
      CoarserHasFewer(xs', ys');
      DifferentSnoc(xs', x);
      DifferentSnoc(ys', y);
      if x in xs' {
        var j :| 0 <= j < n && xs'[j] == x;
        assert ys'[j] == y && y in ys';
        AsManyIsOverBack(xs', ys');
        forall i | 0 <= i < n && ys'[i] == y ensures xs'[i] == x {
          assert ys'[i] == ys'[j];
        }
      } else {
        assert y !in ys';
        AsManyIsOverBack(xs', ys');
      }
    }
  }

  /** The group's paths are regular files of the written tree. */
  ghost predicate Files(flat: FlatTree, paths: seq<Path>) {
    forall p | p in paths :: exists e :: e in flat.entries && e.rel == p && Regular(e)
  }

  lemma FilesAreWritten(flat: FlatTree, anchorMs: int, t: Tree, paths: seq<Path>)
    requires Shaped(flat) && WrittenAs(flat, anchorMs, t) && Files(flat, paths)
    ensures forall p | p in paths :: p in t && t[p].File?
  {
    forall p | p in paths ensures p in t && t[p].File? {
      var e :| e in flat.entries && e.rel == p && Regular(e);
    }
  }

  lemma KeysStandOverBytes(flat: FlatTree, anchorMs: int, t: Tree, paths: seq<Path>, p: Path, q: Path)
    requires Shaped(flat) && WrittenAs(flat, anchorMs, t) && Files(flat, paths) && p in paths && q in paths
    requires KeyAt(KeysOf(flat.entries), p) == KeyAt(KeysOf(flat.entries), q)
    ensures p in t && q in t && t[p].File? && t[q].File? && t[p].content == t[q].content
  {
    var e :| e in flat.entries && e.rel == p && Regular(e);
    var f :| f in flat.entries && f.rel == q && Regular(f);
    KeysOfEntry(flat.entries, e);
    KeysOfEntry(flat.entries, f);
    SameKeySameBytes(flat, anchorMs, e, f);
  }

  lemma KeysOverBytes(flat: FlatTree, anchorMs: int, t: Tree, paths: seq<Path>)
    requires Shaped(flat) && WrittenAs(flat, anchorMs, t) && Files(flat, paths)
    ensures forall p | p in paths :: p in t && t[p].File?
    ensures Over(KeyList(KeysOf(flat.entries), paths), BytesList(t, paths))
  {
    FilesAreWritten(flat, anchorMs, t, paths);
    var xs, ys := KeyList(KeysOf(flat.entries), paths), BytesList(t, paths);
    forall i, j | 0 <= i < j < |xs| && xs[i] == xs[j] ensures ys[i] == ys[j] {
      assert paths[i] in paths && paths[j] in paths;
      KeysStandOverBytes(flat, anchorMs, t, paths, paths[i], paths[j]);
    }
  }

  /**
   * A scan never counts more spare files than keeping one of each different
   * content on disk would leave over.
   */
  lemma {:induction false} NeverPromisesTooMuch(flat: FlatTree, anchorMs: int, t: Tree, group: Group)
    requires Shaped(flat) && WrittenAs(flat, anchorMs, t) && Files(flat, group.paths)
    ensures forall p | p in group.paths :: p in t && t[p].File?
    ensures Spare(KeysOf(flat.entries), group.paths) <= |group.paths| - |Different(BytesList(t, group.paths))|
  {
    KeysOverBytes(flat, anchorMs, t, group.paths);
    hide Over, Shaped, WrittenAs, Files;
    CoarserHasFewer(KeyList(KeysOf(flat.entries), group.paths), BytesList(t, group.paths));
  }

  /** No two of the group's files are copies that the keys miss. */
  ghost predicate NoneMissed(flat: FlatTree, paths: seq<Path>) {
    forall e, f | e in flat.entries && f in flat.entries && e.rel in paths && f.rel in paths
                  && Regular(e) && Regular(f) :: !Missed(e, f)
  }

  /** The entry behind a path of the group. */
  lemma EntryAt(flat: FlatTree, anchorMs: int, t: Tree, paths: seq<Path>, p: Path) returns (e: FlatEntry)
    requires Shaped(flat) && WrittenAs(flat, anchorMs, t) && Files(flat, paths) && p in paths
    ensures e in flat.entries && e.rel == p && Regular(e) && KeyAt(KeysOf(flat.entries), p) == KeyOf(e)
    ensures p in t && t[p].File? && t[p].content == BytesOf(e, anchorMs)
  {
    e :| e in flat.entries && e.rel == p && Regular(e);
    KeysOfEntry(flat.entries, e);
  }

  lemma BytesOverKeys(flat: FlatTree, anchorMs: int, t: Tree, paths: seq<Path>)
    requires Shaped(flat) && WrittenAs(flat, anchorMs, t) && Files(flat, paths)
    requires forall p | p in paths :: p in t && t[p].File?
    ensures Over(BytesList(t, paths), KeyList(KeysOf(flat.entries), paths)) <==> NoneMissed(flat, paths)
  {
    var xs, ys := BytesList(t, paths), KeyList(KeysOf(flat.entries), paths);
    if NoneMissed(flat, paths) {
      forall i, j | 0 <= i < j < |xs| && xs[i] == xs[j] ensures ys[i] == ys[j] {
        NotMissedAt(flat, anchorMs, t, paths, paths[i], paths[j]);
      }
    }
    if Over(xs, ys) {
      forall e, f | e in flat.entries && f in flat.entries && e.rel in paths && f.rel in paths
                    && Regular(e) && Regular(f)
        ensures !Missed(e, f)
      {
        KeysTellAt(flat, anchorMs, t, paths, e, f);
      }
    }
  }

  lemma NotMissedAt(flat: FlatTree, anchorMs: int, t: Tree, paths: seq<Path>, p: Path, q: Path)
    requires Shaped(flat) && WrittenAs(flat, anchorMs, t) && Files(flat, paths) && NoneMissed(flat, paths)
    requires p in paths && q in paths && p in t && q in t && t[p].File? && t[q].File? && t[p].content == t[q].content
    ensures KeyAt(KeysOf(flat.entries), p) == KeyAt(KeysOf(flat.entries), q)
  {
    var e := EntryAt(flat, anchorMs, t, paths, p);
    var f := EntryAt(flat, anchorMs, t, paths, q);
    KeysTellBytes(flat, anchorMs, e, f);
    hide Shaped, WrittenAs, Files, BytesOf, KeysOf, KeyOf;
    assert !Missed(e, f);
  }

  lemma KeysTellAt(flat: FlatTree, anchorMs: int, t: Tree, paths: seq<Path>, e: FlatEntry, f: FlatEntry)
    requires Shaped(flat) && WrittenAs(flat, anchorMs, t) && Files(flat, paths)
    requires forall p | p in paths :: p in t && t[p].File?
    requires Over(BytesList(t, paths), KeyList(KeysOf(flat.entries), paths))
    requires e in flat.entries && f in flat.entries && e.rel in paths && f.rel in paths && Regular(e) && Regular(f)
    ensures !Missed(e, f)
  {
    var xs, ys := BytesList(t, paths), KeyList(KeysOf(flat.entries), paths);
    KeysOfEntry(flat.entries, e);
    KeysOfEntry(flat.entries, f);
    assert t[e.rel].content == BytesOf(e, anchorMs) && t[f.rel].content == BytesOf(f, anchorMs);
    KeysTellBytes(flat, anchorMs, e, f);
    if BytesOf(e, anchorMs) == BytesOf(f, anchorMs) {
      var i :| 0 <= i < |paths| && paths[i] == e.rel;
      var j :| 0 <= j < |paths| && paths[j] == f.rel;
      hide Missed, BytesOf, KeysOf, KeyOf, Shaped, WrittenAs, Files;
      SameOver(xs, ys, i, j);
    } else {
      SameKeyApart(flat, anchorMs, e, f);
    }
  }

  lemma SameOver<A, B>(xs: seq<A>, ys: seq<B>, i: nat, j: nat)
    requires Over(xs, ys) && i < |xs| && j < |xs| && xs[i] == xs[j]
    ensures ys[i] == ys[j]
  {
  }

  lemma SameKeyApart(flat: FlatTree, anchorMs: int, e: FlatEntry, f: FlatEntry)
    requires Shaped(flat) && e in flat.entries && f in flat.entries && Regular(e) && Regular(f)
    requires BytesOf(e, anchorMs) != BytesOf(f, anchorMs)
    ensures KeyOf(e) != KeyOf(f)
  {
    if KeyOf(e) == KeyOf(f) { SameKeySameBytes(flat, anchorMs, e, f); }
  }

  /**
   * It is exactly what keeping one of each content would leave over, if and only
   * if no two of the group's files are copies that the keys miss.
   */
  lemma {:induction false} PromisesExactly(flat: FlatTree, anchorMs: int, t: Tree, group: Group)
    requires Shaped(flat) && WrittenAs(flat, anchorMs, t) && Files(flat, group.paths)
    ensures forall p | p in group.paths :: p in t && t[p].File?
    ensures Spare(KeysOf(flat.entries), group.paths) == |group.paths| - |Different(BytesList(t, group.paths))|
      <==> NoneMissed(flat, group.paths)
  {
    var paths := group.paths;
    KeysOverBytes(flat, anchorMs, t, paths);
    BytesOverKeys(flat, anchorMs, t, paths);
    var xs, ys := KeyList(KeysOf(flat.entries), paths), BytesList(t, paths);
    assert Spare(KeysOf(flat.entries), paths) == |paths| - |Different(xs)|;
    hide *;
    CoarserHasFewer(xs, ys);
    if |Different(xs)| == |Different(ys)| {
      AsManyIsOverBack(xs, ys);
    }
    if Over(ys, xs) {
      CoarserHasFewer(ys, xs);
    }
  }
}
