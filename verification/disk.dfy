/**
 * `nest-api/mock/tree.ts`, the writing half: one tree from one flattened spec.
 *
 * The filesystem is modelled as far as this code can tell: making an entry
 * updates the mtime of the directory holding it, truncating a file updates the
 * file's, and `chmod` and `utimes` update neither.  Which makes the outcome of
 * `WriteTree` worth proving: every time on disk is the declared one, although
 * almost every call on the way there disturbs some other time.
 */
module Disk {
  import opened Orders
  import opened Paths
  import opened Corpus

  datatype Node =
    | Dir(mode: int, mtime: int)
    | File(content: Bytes, mode: int, mtime: int)
    | Link(target: Bytes, mtime: int)

  /** A tree on disk, by path below its root; the root itself is `[]`. */
  type Tree = map<Path, Node>

  const DEFAULT_CREATE_MODE := 0x1A4

  /** `snapToSecond`: `Math.round` to a whole second. */
  function SnapToSecond(anchorMs: int, rel: int): int {
    (anchorMs + rel + 500) / 1000 * 1000
  }

  // ------------------------------------------------------------------ the calls

  function Up(p: Path): Path
    requires p != []
  {
    p[..|p| - 1]
  }

  function Zeroes(n: nat): Bytes {
    seq(n, _ => 0)
  }

  /** What `truncate` leaves of a content: cut, or extended with a hole that reads as zeroes. */
  function Resized(content: Bytes, size: nat): (r: Bytes)
    ensures |r| == size
  {
    if size <= |content| then content[..size] else content + Zeroes(size - |content|)
  }

  /** The directory at `p`, if it is one, has just been written to. */
  function Bump(t: Tree, p: Path, at: int): (r: Tree)
    ensures r.Keys == t.Keys
    ensures forall q | q in t && q != p :: r[q] == t[q]
  {
    if p in t && t[p].Dir? then t[p := Dir(t[p].mode, at)] else t
  }

  /** A new node in its parent directory. */
  function Create(t: Tree, p: Path, node: Node, at: int): Tree
    requires p != []
  {
    Bump(t[p := node], Up(p), at)
  }

  /** `mkdir` with `recursive`: whatever is missing on the way down. */
  function MkdirAll(t: Tree, p: Path, mode: int, at: int): Tree
    decreases |p|
  {
    if p in t || p == [] then t
    else Create(MkdirAll(t, Up(p), mode, at), p, Dir(mode, at), at)
  }

  function Chmod(t: Tree, p: Path, mode: int): Tree
    requires p in t && !t[p].Link?
  {
    t[p := t[p].(mode := mode)]
  }

  function Utimes(t: Tree, p: Path, when: int): Tree
    requires p in t
  {
    t[p := t[p].(mtime := when)]
  }

  /** Whether a file can be opened for writing at `p`: its parent is there and `p` is no directory. */
  predicate Writable(t: Tree, p: Path) {
    p != [] && Up(p) in t && t[Up(p)].Dir? && (p in t ==> t[p].File?)
  }

  function WriteFile(t: Tree, p: Path, content: Bytes, at: int): Tree
    requires Writable(t, p)
  {
    if p in t then t[p := File(content, t[p].mode, at)]
    else Create(t, p, File(content, DEFAULT_CREATE_MODE, at), at)
  }

  function Truncate(t: Tree, p: Path, size: nat, at: int): Tree
    requires p in t && t[p].File?
  {
    t[p := File(Resized(t[p].content, size), t[p].mode, at)]
  }

  // ------------------------------------------------------------------ what the tree must be

  /** The node a flattened entry describes. */
  function NodeOf(e: FlatEntry, anchorMs: int): (r: Node)
    ensures r.Dir? <==> e.spec.kind.Directory?
  {
    var when := SnapToSecond(anchorMs, e.mtime);
    match e.spec.kind
    case Symlink(target) => Link(target, when)
    case Text(content) => File(content, e.mode, when)
    case Generated(lines) => File(lines, e.mode, when)
    case Image(picture, _) => File(Resized(picture, e.size), e.mode, when)
    case Sparse(_) => File(Zeroes(e.size), e.mode, when)
    case Directory => Dir(e.mode, when)
  }

  ghost predicate HasDir(flat: FlatTree, p: Path) {
    exists d :: d in flat.dirs && d.rel == p
  }

  ghost predicate HasEntry(flat: FlatTree, p: Path) {
    exists e :: e in flat.entries && e.rel == p
  }

  /** What `flatten` guarantees of its result, as far as the writer needs it. */
  ghost predicate Shaped(flat: FlatTree) {
    && (forall i, j | 0 <= i < j < |flat.dirs| :: flat.dirs[i].rel != flat.dirs[j].rel)
    && DistinctRels(flat.entries)
    && (forall d | d in flat.dirs && d.rel != [] :: HasDir(flat, Up(d.rel)))
    && (forall e | e in flat.entries :: e.rel != [] && (Up(e.rel) == [] || HasDir(flat, Up(e.rel))))
    && (forall e | e in flat.entries :: e.size == SizeOf(e.spec) && !e.spec.kind.Directory?)
  }

  /** No file takes the place of a directory. */
  ghost predicate NoClash(flat: FlatTree) {
    forall e | e in flat.entries :: !HasDir(flat, e.rel)
  }

  /** The finished tree: these paths, these contents, modes and times, and nothing else. */
  ghost predicate WrittenAs(flat: FlatTree, anchorMs: int, t: Tree) {
    && (forall p :: p in t <==> p == [] || HasDir(flat, p) || HasEntry(flat, p))
    && (forall e | e in flat.entries :: e.rel in t && t[e.rel] == NodeOf(e, anchorMs))
    && (forall d | d in flat.dirs :: d.rel in t && t[d.rel].Dir?
          && t[d.rel].mtime == SnapToSecond(anchorMs, d.mtime)
          && (d.rel != [] ==> t[d.rel].mode == d.mode))
  }

  function ApparentBytes(entries: seq<FlatEntry>): nat {
    if entries == [] then 0
    else
      var last := entries[|entries| - 1];
      ApparentBytes(entries[..|entries| - 1]) + if last.spec.kind.Symlink? then 0 else last.size
  }

  // ------------------------------------------------------------------ directories

  /** Only directories so far, and every one of them wanted. */
  ghost predicate Skeleton(flat: FlatTree, t: Tree) {
    && [] in t
    && (forall p | p in t :: t[p].Dir? && (p == [] || HasDir(flat, p)))
  }

  ghost predicate ModesSet(dirs: seq<FlatDir>, n: nat, t: Tree)
    requires n <= |dirs|
  {
    forall k | 0 <= k < n && dirs[k].rel != [] :: dirs[k].rel in t && t[dirs[k].rel].Dir?
              && t[dirs[k].rel].mode == dirs[k].mode
  }

  lemma {:induction false} MkdirAllKeeps(flat: FlatTree, t: Tree, p: Path, mode: int, at: int)
    requires Shaped(flat) && Skeleton(flat, t) && (p == [] || HasDir(flat, p))
    ensures var r := MkdirAll(t, p, mode, at);
            Skeleton(flat, r) && p in r && forall q | q in t :: q in r && r[q].mode == t[q].mode
    decreases |p|
  {
    if p !in t && p != [] {
      var d :| d in flat.dirs && d.rel == p;
      MkdirAllKeeps(flat, t, Up(p), mode, at);
    }
  }

  lemma ChmodOne(flat: FlatTree, t: Tree, p: Path, mode: int)
    requires Skeleton(flat, t) && p in t && t[p].Dir?
    ensures var r := Chmod(t, p, mode);
            Skeleton(flat, r) && p in r && r[p].mode == mode && forall q | q in t && q != p :: q in r && r[q] == t[q]
  {
  }

  /** The directories noted so far keep their modes while only another one's mode changes. */
  lemma ModesExtend(dirs: seq<FlatDir>, n: nat, t: Tree, r: Tree)
    requires n < |dirs| && ModesSet(dirs, n, t) && OnlyDirs(t) && OnlyDirs(r)
    requires forall k | 0 <= k < n :: dirs[k].rel != dirs[n].rel
    requires dirs[n].rel in r && r[dirs[n].rel].mode == dirs[n].mode
    requires forall q | q in t && q != dirs[n].rel :: q in r && r[q].mode == t[q].mode
    ensures ModesSet(dirs, n + 1, r)
  {
    forall k | 0 <= k < n + 1 && dirs[k].rel != []
      ensures dirs[k].rel in r && r[dirs[k].rel].Dir? && r[dirs[k].rel].mode == dirs[k].mode
    {
      if k < n {
        var q := dirs[k].rel;
        assert q in t && t[q].mode == dirs[k].mode && q != dirs[n].rel;
      }
    }
  }

  ghost predicate OnlyDirs(t: Tree) {
    forall p | p in t :: t[p].Dir?
  }

  lemma SkeletonIsDirs(flat: FlatTree, t: Tree)
    requires Skeleton(flat, t)
    ensures OnlyDirs(t)
  {
  }

  lemma DirsApart(flat: FlatTree, n: nat)
    requires Shaped(flat) && n < |flat.dirs|
    ensures forall k | 0 <= k < n :: flat.dirs[k].rel != flat.dirs[n].rel
  {
  }

  lemma ModesNone(dirs: seq<FlatDir>, t: Tree)
    ensures ModesSet(dirs, 0, t)
  {
  }

  lemma ModesSkip(dirs: seq<FlatDir>, n: nat, t: Tree)
    requires n < |dirs| && dirs[n].rel == [] && ModesSet(dirs, n, t)
    ensures ModesSet(dirs, n + 1, t)
  {
  }

  /** One turn of the first loop: the directory is made, and its mode forced past the umask. */
  lemma DirMade(flat: FlatTree, n: nat, t: Tree, at: int)
    requires Shaped(flat) && Skeleton(flat, t) && n < |flat.dirs| && ModesSet(flat.dirs, n, t)
    requires flat.dirs[n].rel != []
    ensures flat.dirs[n].rel in MkdirAll(t, flat.dirs[n].rel, flat.dirs[n].mode, at)
    ensures var made := MkdirAll(t, flat.dirs[n].rel, flat.dirs[n].mode, at);
            made[flat.dirs[n].rel].Dir? &&
            var r := Chmod(made, flat.dirs[n].rel, flat.dirs[n].mode);
            Skeleton(flat, r) && ModesSet(flat.dirs, n + 1, r)
  {
    var d := flat.dirs[n];
    assert d in flat.dirs && HasDir(flat, d.rel);
    MkdirAllKeeps(flat, t, d.rel, d.mode, at);
    var made := MkdirAll(t, d.rel, d.mode, at);
    assert made[d.rel].Dir?;
    DirsApart(flat, n);
    SkeletonIsDirs(flat, t);
    ChmodOne(flat, made, d.rel, d.mode);
    SkeletonIsDirs(flat, Chmod(made, d.rel, d.mode));
    hide *;
    ModesExtend(flat.dirs, n, t, Chmod(made, d.rel, d.mode));
  }

  // ------------------------------------------------------------------ entries

  ghost predicate Placed(flat: FlatTree, n: nat, p: Path)
    requires n <= |flat.entries|
  {
    exists k :: 0 <= k < n && flat.entries[k].rel == p
  }

  /** The directories stand with their modes; the first `n` entries are finished, nothing else is there. */
  ghost predicate EntriesWritten(flat: FlatTree, anchorMs: int, n: nat, t: Tree)
    requires n <= |flat.entries|
  {
    && (forall p :: p in t <==> p == [] || HasDir(flat, p) || Placed(flat, n, p))
    && (forall p | p == [] || HasDir(flat, p) :: p in t && t[p].Dir?)
    && (forall d | d in flat.dirs && d.rel != [] :: d.rel in t && t[d.rel].Dir? && t[d.rel].mode == d.mode)
    && (forall k | 0 <= k < n ::
          flat.entries[k].rel in t && t[flat.entries[k].rel] == NodeOf(flat.entries[k], anchorMs))
  }

  lemma SkeletonDone(flat: FlatTree, anchorMs: int, t: Tree)
    requires Shaped(flat) && Skeleton(flat, t) && ModesSet(flat.dirs, |flat.dirs|, t)
    ensures EntriesWritten(flat, anchorMs, 0, t)
  {
    forall p | HasDir(flat, p) ensures p in t {
      var d :| d in flat.dirs && d.rel == p;
    }
  }

  /** `t'` is `t` with a node written at `p`, and its directory's time disturbed. */
  ghost predicate Added(t: Tree, t': Tree, p: Path, node: Node) {
    && p != [] && Up(p) in t
    && t'.Keys == t.Keys + {p}
    && t'[p] == node
    && (forall q | q in t && q != p && q != Up(p) :: t'[q] == t[q])
    && (t[Up(p)].Dir? ==> t'[Up(p)].Dir? && t'[Up(p)].mode == t[Up(p)].mode)
  }

  lemma EarlierEntryStands(flat: FlatTree, anchorMs: int, n: nat, t: Tree, t': Tree, k: nat)
    requires Shaped(flat) && k <= n < |flat.entries| && EntriesWritten(flat, anchorMs, n, t)
    requires Added(t, t', flat.entries[n].rel, NodeOf(flat.entries[n], anchorMs)) && t[Up(flat.entries[n].rel)].Dir?
    ensures flat.entries[k].rel in t' && t'[flat.entries[k].rel] == NodeOf(flat.entries[k], anchorMs)
  {
    hide HasDir, NodeOf;
    var x, e := flat.entries[k], flat.entries[n];
    if k < n {
      assert x in flat.entries && t[x.rel] == NodeOf(x, anchorMs);
      assert x.rel != e.rel && x.rel != Up(e.rel);
    }
  }

  lemma PathAdded(flat: FlatTree, anchorMs: int, n: nat, t: Tree, t': Tree, p: Path)
    requires n < |flat.entries| && EntriesWritten(flat, anchorMs, n, t)
    requires Added(t, t', flat.entries[n].rel, NodeOf(flat.entries[n], anchorMs))
    ensures p in t' <==> p == [] || HasDir(flat, p) || Placed(flat, n + 1, p)
  {
    hide HasDir, NodeOf;
    assert Placed(flat, n + 1, p) <==> Placed(flat, n, p) || p == flat.entries[n].rel;
  }

  lemma DirsStand(flat: FlatTree, anchorMs: int, n: nat, t: Tree, t': Tree)
    requires Shaped(flat) && n < |flat.entries| && EntriesWritten(flat, anchorMs, n, t)
    requires !HasDir(flat, flat.entries[n].rel)
    requires Added(t, t', flat.entries[n].rel, NodeOf(flat.entries[n], anchorMs)) && t[Up(flat.entries[n].rel)].Dir?
    ensures forall p | p == [] || HasDir(flat, p) :: p in t' && t'[p].Dir?
    ensures forall d | d in flat.dirs && d.rel != [] :: d.rel in t' && t'[d.rel].Dir? && t'[d.rel].mode == d.mode
  {
    var e := flat.entries[n];
    assert forall d | d in flat.dirs :: HasDir(flat, d.rel);
    hide HasDir, NodeOf;
    assert e.rel != [];
    forall d | d in flat.dirs && d.rel != [] ensures t'[d.rel].mode == d.mode {
      assert t[d.rel].Dir? && t[d.rel].mode == d.mode && d.rel != e.rel;
      assert d.rel == Up(e.rel) || t'[d.rel] == t[d.rel];
    }
  }

  /** Writing one more entry disturbs the time of its directory and nothing else. */
  lemma EntryAdded(flat: FlatTree, anchorMs: int, n: nat, t: Tree, t': Tree)
    requires Shaped(flat) && n < |flat.entries| && EntriesWritten(flat, anchorMs, n, t)
    requires !HasDir(flat, flat.entries[n].rel)
    requires Added(t, t', flat.entries[n].rel, NodeOf(flat.entries[n], anchorMs)) && t[Up(flat.entries[n].rel)].Dir?
    ensures EntriesWritten(flat, anchorMs, n + 1, t')
  {
    DirsStand(flat, anchorMs, n, t, t');
    hide HasDir, NodeOf, Shaped, Added, Placed;
    forall k | 0 <= k < n + 1
      ensures flat.entries[k].rel in t' && t'[flat.entries[k].rel] == NodeOf(flat.entries[k], anchorMs)
    {
      EarlierEntryStands(flat, anchorMs, n, t, t', k);
    }
    forall p ensures p in t' <==> p == [] || HasDir(flat, p) || Placed(flat, n + 1, p) {
      PathAdded(flat, anchorMs, n, t, t', p);
    }
  }

  // ------------------------------------------------------------------ directory times

  function Deeper(x: FlatDir, y: FlatDir): bool {
    |x.rel| > |y.rel|
  }

  ghost predicate TimesSet(flat: FlatTree, anchorMs: int, order: seq<FlatDir>, n: nat, before: Tree, t: Tree)
    requires n <= |order|
  {
    && t.Keys == before.Keys
    && (forall p | p in t && !HasDir(flat, p) :: t[p] == before[p])
    && (forall p | p in t && before[p].Dir? :: t[p].Dir? && t[p].mode == before[p].mode)
    && (forall k | 0 <= k < n :: order[k].rel in t && t[order[k].rel].mtime == SnapToSecond(anchorMs, order[k].mtime))
  }

  lemma DirStamped(flat: FlatTree, anchorMs: int, order: seq<FlatDir>, n: nat, before: Tree, t: Tree)
    requires n < |order| && TimesSet(flat, anchorMs, order, n, before, t)
    requires forall i, j | 0 <= i < j < |order| :: order[i].rel != order[j].rel
    requires order[n] in flat.dirs && order[n].rel in before && before[order[n].rel].Dir?
    ensures TimesSet(flat, anchorMs, order, n + 1, before,
                     Utimes(t, order[n].rel, SnapToSecond(anchorMs, order[n].mtime)))
  {
    assert HasDir(flat, order[n].rel);
    hide HasDir, SnapToSecond;
    var t' := Utimes(t, order[n].rel, SnapToSecond(anchorMs, order[n].mtime));
    forall k | 0 <= k < n + 1
      ensures order[k].rel in t' && t'[order[k].rel].mtime == SnapToSecond(anchorMs, order[k].mtime)
    {
      if k < n { assert order[k].rel != order[n].rel; }
    }
  }

  lemma Finished(flat: FlatTree, anchorMs: int, order: seq<FlatDir>, before: Tree, t: Tree)
    requires Shaped(flat) && NoClash(flat)
    requires EntriesWritten(flat, anchorMs, |flat.entries|, before)
    requires multiset(order) == multiset(flat.dirs)
    requires TimesSet(flat, anchorMs, order, |order|, before, t)
    ensures WrittenAs(flat, anchorMs, t)
  {
    MembersByMultiset(order, flat.dirs);
    forall p ensures p in t <==> p == [] || HasDir(flat, p) || HasEntry(flat, p) {
      if HasEntry(flat, p) {
        var e :| e in flat.entries && e.rel == p;
        var k :| 0 <= k < |flat.entries| && flat.entries[k] == e;
        assert flat.entries[k].rel == p;
      }
    }
    forall e | e in flat.entries ensures e.rel in t && t[e.rel] == NodeOf(e, anchorMs) {
      var k :| 0 <= k < |flat.entries| && flat.entries[k] == e;
      assert !HasDir(flat, e.rel);
    }
    forall d | d in flat.dirs
      ensures d.rel in t && t[d.rel].Dir? && t[d.rel].mtime == SnapToSecond(anchorMs, d.mtime)
      ensures d.rel != [] ==> t[d.rel].mode == d.mode
    {
      assert HasDir(flat, d.rel);
      assert d in order;
      var k :| 0 <= k < |order| && order[k] == d;
    }
  }

  // ------------------------------------------------------------------ the writer

  /** One directory of the disk, with a clock that every change moves. */
  class Volume {
    var tree: Tree
    var clock: int

    constructor (t: Tree)
      ensures tree == t
    {
      tree := t;
      clock := 0;
    }

    /** `rmSync` then `mkdirSync` on the root. */
    method Renew()
      modifies this
      ensures tree == map[[] := Dir(DEFAULT_DIR_MODE, old(clock))]
    {
      tree := map[[] := Dir(DEFAULT_DIR_MODE, clock)];
      clock := clock + 1;
    }

    method MakeDirs(flat: FlatTree)
      requires Shaped(flat) && Skeleton(flat, tree)
      modifies this
      ensures Skeleton(flat, tree) && ModesSet(flat.dirs, |flat.dirs|, tree)
    {
      ModesNone(flat.dirs, tree);
      hide *;
      for i := 0 to |flat.dirs|
        invariant Skeleton(flat, tree) && ModesSet(flat.dirs, i, tree)
      {
        var directory := flat.dirs[i];
        if directory.rel == [] {
          ModesSkip(flat.dirs, i, tree);
          continue;
        }
        DirMade(flat, i, tree, clock);
        tree := MkdirAll(tree, directory.rel, directory.mode, clock);
        tree := Chmod(tree, directory.rel, directory.mode);
        clock := clock + 1;
      }
    }

    /** The switch of the second loop: the bytes of a regular file, at a path nothing stands at. */
    method WriteContent(entry: FlatEntry, ghost anchorMs: int)
      requires entry.size == SizeOf(entry.spec) && !entry.spec.kind.Directory? && !entry.spec.kind.Symlink?
      requires Writable(tree, entry.rel) && entry.rel !in tree
      modifies `tree
      ensures entry.rel in tree && tree[entry.rel].File?
      ensures tree[entry.rel].content == NodeOf(entry, anchorMs).content
      ensures Added(old(tree), tree, entry.rel, tree[entry.rel])
    {
      var path := entry.rel;
      match entry.spec.kind {
        case Text(content) => tree := WriteFile(tree, path, content, clock);
        case Generated(lines) => tree := WriteFile(tree, path, lines, clock);
        case Image(picture, _) =>
          tree := WriteFile(tree, path, picture, clock);
          if entry.size > |picture| { tree := Truncate(tree, path, entry.size, clock + 1); }
        case Sparse(_) =>
          tree := WriteFile(tree, path, [], clock);
          tree := Truncate(tree, path, entry.size, clock + 1);
          assert [] + Zeroes(entry.size) == Zeroes(entry.size);
      }
    }

    /** One turn of the second loop: false where the filesystem call throws. */
    method WriteEntry(entry: FlatEntry, anchorMs: int) returns (ok: bool)
      requires entry.size == SizeOf(entry.spec) && !entry.spec.kind.Directory?
      requires entry.rel != [] && Up(entry.rel) in tree && tree[Up(entry.rel)].Dir?
      requires entry.rel in tree ==> tree[entry.rel].Dir?
      modifies this
      ensures ok <==> old(entry.rel !in tree)
      ensures ok ==> Added(old(tree), tree, entry.rel, NodeOf(entry, anchorMs))
    {
      var path := entry.rel;
      var when := SnapToSecond(anchorMs, entry.mtime);
      if entry.spec.kind.Symlink? {
        if path in tree { return false; } // EEXIST
        tree := Create(tree, path, Link(entry.spec.kind.target, clock), clock);
        tree := Utimes(tree, path, when);
        clock := clock + 1;
        return true;
      }
      if !Writable(tree, path) { return false; } // EISDIR
      WriteContent(entry, anchorMs);
      tree := Chmod(tree, path, entry.mode);
      tree := Utimes(tree, path, when);
      clock := clock + 2;
      return true;
    }

    /** Directories last: creating an entry updated the time of the directory holding it. */
    method StampDirs(flat: FlatTree, anchorMs: int) returns (ghost order: seq<FlatDir>)
      requires Shaped(flat) && forall d | d in flat.dirs :: d.rel in tree && tree[d.rel].Dir?
      modifies this
      ensures multiset(order) == multiset(flat.dirs)
      ensures TimesSet(flat, anchorMs, order, |order|, old(tree), tree)
    {
      var deepestFirst := Sort(Deeper, flat.dirs);
      order := deepestFirst;
      MembersByMultiset(order, flat.dirs);
      DistinctDirs(flat, order);
      for i := 0 to |deepestFirst|
        invariant TimesSet(flat, anchorMs, order, i, old(tree), tree)
      {
        var directory := deepestFirst[i];
        assert directory in flat.dirs;
        DirStamped(flat, anchorMs, order, i, old(tree), tree);
        tree := Utimes(tree, directory.rel, SnapToSecond(anchorMs, directory.mtime));
      }
    }

    /** `writeTree`: `None` when a filesystem call throws. */
    method WriteTree(flat: FlatTree, anchorMs: int) returns (bytes: Option<nat>)
      requires Shaped(flat)
      modifies this
      ensures bytes.Some? <==> NoClash(flat)
      ensures bytes.Some? ==> WrittenAs(flat, anchorMs, tree) && bytes.value == ApparentBytes(flat.entries)
    {
      Renew();
      MakeDirs(flat);
      SkeletonDone(flat, anchorMs, tree);

      var total := 0;
      BytesNone(flat.entries);
      hide *;
      for i := 0 to |flat.entries|
        invariant EntriesWritten(flat, anchorMs, i, tree)
        invariant NoneTaken(flat, i)
        invariant total == ApparentBytes(flat.entries[..i])
      {
        var entry := flat.entries[i];
        EntryFresh(flat, anchorMs, i, tree);
        BytesNext(flat, i);
        ghost var was := tree;
        var ok := WriteEntry(entry, anchorMs);
        if !ok { return None; }
        EntryAdded(flat, anchorMs, i, was, tree);
        if !entry.spec.kind.Symlink? { total := total + entry.size; }
      }
      AllWritten(flat);

      ghost var was := tree;
      ghost var order := StampDirs(flat, anchorMs);
      Finished(flat, anchorMs, order, was, tree);
      return Some(total);
    }
  }

  /** None of the first `n` entries takes the place of a directory. */
  ghost predicate NoneTaken(flat: FlatTree, n: nat)
    requires n <= |flat.entries|
  {
    forall k | 0 <= k < n :: !HasDir(flat, flat.entries[k].rel)
  }

  lemma BytesNone(entries: seq<FlatEntry>)
    ensures ApparentBytes(entries[..0]) == 0
    ensures forall flat: FlatTree | flat.entries == entries :: NoneTaken(flat, 0)
  {
  }

  lemma BytesNext(flat: FlatTree, n: nat)
    requires n < |flat.entries|
    ensures ApparentBytes(flat.entries[..n + 1])
         == ApparentBytes(flat.entries[..n]) + if flat.entries[n].spec.kind.Symlink? then 0 else flat.entries[n].size
    ensures NoneTaken(flat, n + 1) <==> NoneTaken(flat, n) && !HasDir(flat, flat.entries[n].rel)
    ensures HasDir(flat, flat.entries[n].rel) ==> !NoClash(flat)
  {
    assert flat.entries[..n + 1][..n] == flat.entries[..n];
    assert flat.entries[n] in flat.entries;
  }

  lemma AllWritten(flat: FlatTree)
    ensures flat.entries[..|flat.entries|] == flat.entries
    ensures NoneTaken(flat, |flat.entries|) <==> NoClash(flat)
  {
  }

  /** Where the next entry goes: into a standing directory, and never over an earlier entry. */
  lemma EntryFresh(flat: FlatTree, anchorMs: int, n: nat, t: Tree)
    requires Shaped(flat) && n < |flat.entries| && EntriesWritten(flat, anchorMs, n, t)
    ensures flat.entries[n].size == SizeOf(flat.entries[n].spec) && !flat.entries[n].spec.kind.Directory?
    ensures var e := flat.entries[n];
            e.rel != [] && Up(e.rel) in t && t[Up(e.rel)].Dir?
            && (e.rel in t <==> HasDir(flat, e.rel)) && (e.rel in t ==> t[e.rel].Dir?)
  {
    assert flat.entries[n] in flat.entries;
  }

  lemma DistinctDirs(flat: FlatTree, order: seq<FlatDir>)
    requires Shaped(flat) && multiset(order) == multiset(flat.dirs)
    ensures forall i, j | 0 <= i < j < |order| :: order[i].rel != order[j].rel
  {
    DistinctByMultiset(flat.dirs, order);
    MembersByMultiset(order, flat.dirs);
    forall i, j | 0 <= i < j < |order| ensures order[i].rel != order[j].rel {
      assert order[i] in flat.dirs && order[j] in flat.dirs && order[i] != order[j];
    }
  }

  // ------------------------------------------------------------------ consequences

  /** Every file on disk measures what `sizeOf` declared. */
  lemma DeclaredSizes(flat: FlatTree, anchorMs: int, t: Tree, e: FlatEntry)
    requires Shaped(flat) && WrittenAs(flat, anchorMs, t) && e in flat.entries
    ensures match t[e.rel]
            case File(content, mode, mtime) => |content| == e.size && mode == e.mode
            case Link(target, mtime) => |target| == e.size && e.spec.kind.Symlink?
            case Dir(_, _) => false
  {}

  lemma FlatIsShaped(before: (Path, Path) -> bool, spec: Keyed, flat: FlatTree)
    requires Total(before) && Rooted(spec) && DistinctKeys(spec) && NoDotHead(spec) && Describes(before, spec, flat)
    ensures Shaped(flat)
  {
    SortedRels(before, flat);
    FlatIsClosed(before, spec, flat);
    forall e | e in flat.entries ensures e.size == SizeOf(e.spec) && !e.spec.kind.Directory? {
      assert IsEntry(spec, |spec|, e);
    }
  }

  /** A file's path is a directory too exactly when another key goes through it. */
  lemma TakenWhenImplied(before: (Path, Path) -> bool, spec: Keyed, flat: FlatTree, i: nat)
    requires Total(before) && DistinctKeys(spec) && Describes(before, spec, flat)
    requires i < |spec| && !spec[i].file.kind.Directory?
    ensures HasDir(flat, spec[i].rel) <==> Implied(spec, |spec|, spec[i].rel)
    ensures EntryOf(spec[i].rel, spec[i].file) in flat.entries
  {
    var p := spec[i].rel;
    assert !Explicit(spec, |spec|, p);
    assert IsDir(spec, p) <==> Implied(spec, |spec|, p);
    assert IsEntry(spec, |spec|, EntryOf(p, spec[i].file));
  }

  lemma EntryHasKey(before: (Path, Path) -> bool, spec: Keyed, flat: FlatTree, e: FlatEntry) returns (i: nat)
    requires Describes(before, spec, flat) && e in flat.entries
    ensures i < |spec| && !spec[i].file.kind.Directory? && e == EntryOf(spec[i].rel, spec[i].file)
  {
    assert IsEntry(spec, |spec|, e);
    i :| 0 <= i < |spec| && !spec[i].file.kind.Directory? && e == EntryOf(spec[i].rel, spec[i].file);
  }

  /** The flattened manifest is a tree the writer accepts, exactly when it can be written. */
  lemma FlattenedIsShaped(before: (Path, Path) -> bool, spec: Keyed, flat: FlatTree)
    requires Total(before) && Rooted(spec) && DistinctKeys(spec) && NoDotHead(spec) && Describes(before, spec, flat)
    ensures Shaped(flat)
    ensures NoClash(flat) <==>
              forall i | 0 <= i < |spec| && !spec[i].file.kind.Directory? :: !Implied(spec, |spec|, spec[i].rel)
  {
    hide Shaped, HasDir, Implied, Describes, Total, Rooted, DistinctKeys, NoDotHead;
    FlatIsShaped(before, spec, flat);
    forall i | 0 <= i < |spec| && !spec[i].file.kind.Directory?
      ensures HasDir(flat, spec[i].rel) <==> Implied(spec, |spec|, spec[i].rel)
      ensures EntryOf(spec[i].rel, spec[i].file) in flat.entries
    {
      TakenWhenImplied(before, spec, flat, i);
    }
    if e :| e in flat.entries && HasDir(flat, e.rel) {
      var i := EntryHasKey(before, spec, flat, e);
    }
  }
}
