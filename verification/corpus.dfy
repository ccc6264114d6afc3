/**
 * `nest-api/mock/corpus.ts`: what the manifest's spec means as a tree.
 *
 * `Flatten` walks the spec once, noting each entry and every directory above
 * it, then pins the explicit directories' times again.  `Describes` says what
 * the outcome has to be without a loop and without an order, and `FlatIsUnique`
 * draws the consequence: the order of the manifest's keys cannot be seen.
 */
module Corpus {
  import opened Orders
  import opened Paths

  datatype Option<T> = None | Some(value: T)
  datatype Result<T> = Failure(reason: string) | Success(value: T)

  /** A declared size: the manifest may say `0.8 * MB`. */
  type Size = r: real | r >= 0.0 witness 0.0
  type Bytes = seq<bv8>

  /**
   * The kinds of `FileSpec`.  A generated file and a picture carry the bytes
   * their generator produces for their path.
   */
  datatype Kind =
    | Text(content: Bytes)
    | Generated(lines: Bytes)
    | Sparse(bytes: Size)
    | Image(picture: Bytes, declared: Size)
    | Symlink(target: Bytes)
    | Directory

  datatype FileSpec = FileSpec(kind: Kind, mtime: int, mode: Option<int>)

  /** `Object.entries(spec)`: raw key and file, in the manifest's order. */
  type TreeSpec = seq<(string, FileSpec)>

  /** One key normalised: its segments, the directories above it, its file. */
  datatype Key = Key(rel: Path, above: set<Path>, file: FileSpec)
  type Keyed = seq<Key>

  datatype FlatDir = FlatDir(rel: Path, mtime: int, mode: int)
  datatype FlatEntry = FlatEntry(rel: Path, spec: FileSpec, size: nat, mtime: int, mode: int)
  datatype FlatTree = FlatTree(dirs: seq<FlatDir>, entries: seq<FlatEntry>)

  const DEFAULT_FILE_MODE := 0x1A4 // 0o644
  const DEFAULT_DIR_MODE := 0x1ED // 0o755
  const SYMLINK_MODE := 0x1FF // 0o777

  /** `Math.round` on a non-negative number. */
  function Round(x: Size): nat {
    (x + 0.5).Floor
  }

  function Max(a: int, b: int): int {
    if a < b then b else a
  }

  /** The apparent size a file will have once written. */
  function SizeOf(spec: FileSpec): nat {
    match spec.kind
    case Text(content) => |content|
    case Generated(lines) => |lines|
    case Sparse(bytes) => Round(bytes)
    case Image(picture, declared) => Max(Round(declared), |picture|)
    case Symlink(target) => |target|
    case Directory => 0
  }

  function EntryOf(rel: Path, file: FileSpec): FlatEntry {
    var mode := if file.kind.Symlink? then SYMLINK_MODE
                else if file.mode.Some? then file.mode.value else DEFAULT_FILE_MODE;
    FlatEntry(rel, file, SizeOf(file), file.mtime, mode)
  }

  // ------------------------------------------------------------------ what the tree must be

  /** `normaliseRel` on every key. */
  function Normalised(spec: TreeSpec): (r: Keyed)
    ensures |r| == |spec| && Rooted(r)
  {
    seq(|spec|, i requires 0 <= i < |spec| => KeyOf(Segments(spec[i].0), spec[i].1))
  }

  function KeyOf(rel: Path, file: FileSpec): Key {
    Key(rel, Ancestors(rel), file)
  }

  /** The directories above each key are the ancestors of its path. */
  ghost predicate Rooted(spec: Keyed) {
    forall i | 0 <= i < |spec| :: spec[i].above == Ancestors(spec[i].rel)
  }

  /** `posix.dirname` of a relative path, with `"."` read as the root. */
  function Parent(rel: Path): (up: Path)
    requires rel != []
    ensures |up| < |rel|
  {
    var up := rel[..|rel| - 1];
    if up == ["."] then [] else up
  }

  /** Every directory that must exist for `rel` to exist. */
  function Ancestors(rel: Path): set<Path>
    decreases |rel|
  {
    if rel == [] then {} else {Parent(rel)} + Ancestors(Parent(rel))
  }

  /** No two keys name one path, and none names the root. */
  ghost predicate DistinctKeys(spec: Keyed) {
    && (forall i | 0 <= i < |spec| :: spec[i].rel != [])
    && (forall i, j | 0 <= i < j < |spec| :: spec[i].rel != spec[j].rel)
  }

  /** Among its first `n` keys, the spec says `p` is a directory. */
  ghost predicate Explicit(spec: Keyed, n: nat, p: Path)
    requires n <= |spec|
  {
    exists i :: 0 <= i < n && spec[i].rel == p && spec[i].file.kind.Directory?
  }

  /** Something among the first `n` keys lies below `p`. */
  ghost predicate Implied(spec: Keyed, n: nat, p: Path)
    requires n <= |spec|
  {
    exists i :: 0 <= i < n && p in spec[i].above
  }

  /** `mtime` is the newest of everything the first `n` keys put below `p`. */
  ghost predicate NewestBelow(spec: Keyed, n: nat, p: Path, mtime: int)
    requires n <= |spec|
  {
    && (exists i :: 0 <= i < n && p in spec[i].above && spec[i].file.mtime == mtime)
    && (forall i | 0 <= i < n && p in spec[i].above :: spec[i].file.mtime <= mtime)
  }

  function ModeOfDir(file: FileSpec): int {
    if file.mode.Some? then file.mode.value else DEFAULT_DIR_MODE
  }

  /** An explicit directory has its own time and mode; an implied one its newest descendant's time. */
  ghost predicate DirFits(spec: Keyed, d: FlatDir) {
    && (forall i | 0 <= i < |spec| && spec[i].rel == d.rel && spec[i].file.kind.Directory? ::
          d.mtime == spec[i].file.mtime && d.mode == ModeOfDir(spec[i].file))
    && (!Explicit(spec, |spec|, d.rel) ==>
          NewestBelow(spec, |spec|, d.rel, d.mtime) && d.mode == DEFAULT_DIR_MODE)
  }

  /** `e` is what one of the first `n` keys flattens to. */
  ghost predicate IsEntry(spec: Keyed, n: nat, e: FlatEntry)
    requires n <= |spec|
  {
    exists i :: 0 <= i < n && !spec[i].file.kind.Directory? && e == EntryOf(spec[i].rel, spec[i].file)
  }

  function ByDir(before: (Path, Path) -> bool): (FlatDir, FlatDir) -> bool {
    (x: FlatDir, y: FlatDir) => before(x.rel, y.rel)
  }

  function ByEntry(before: (Path, Path) -> bool): (FlatEntry, FlatEntry) -> bool {
    (x: FlatEntry, y: FlatEntry) => before(x.rel, y.rel)
  }

  ghost predicate IsDir(spec: Keyed, p: Path) {
    Explicit(spec, |spec|, p) || Implied(spec, |spec|, p)
  }

  /** What flattening means: which directories, which entries, and that both are sorted by path. */
  ghost predicate Describes(before: (Path, Path) -> bool, spec: Keyed, flat: FlatTree) {
    && Sorted(ByDir(before), flat.dirs)
    && Sorted(ByEntry(before), flat.entries)
    && (forall d | d in flat.dirs :: DirFits(spec, d) && IsDir(spec, d.rel))
    && (forall p: Path | IsDir(spec, p) :: exists d :: d in flat.dirs && d.rel == p)
    && (forall e :: e in flat.entries <==> IsEntry(spec, |spec|, e))
  }

  // ------------------------------------------------------------------ flatten, step by step

  type Noted = map<Path, FlatDir>

  /** `noteDir`: raise the directory's time, or make it with the default mode. */
  function NoteDir(dirs: Noted, rel: Path, mtime: int): Noted {
    if rel in dirs then
      if mtime > dirs[rel].mtime then dirs[rel := dirs[rel].(mtime := mtime)] else dirs
    else dirs[rel := FlatDir(rel, mtime, DEFAULT_DIR_MODE)]
  }

  function Raise(was: Noted, p: Path, mtime: int): FlatDir {
    if p in was then was[p].(mtime := Max(was[p].mtime, mtime)) else FlatDir(p, mtime, DEFAULT_DIR_MODE)
  }

  /** `dirs` is `was` after noting everything in `s` with one time. */
  ghost predicate Raised(was: Noted, dirs: Noted, s: set<Path>, mtime: int) {
    && dirs.Keys == was.Keys + s
    && (forall p | p in s :: dirs[p] == Raise(was, p, mtime))
    && (forall p | p in was && p !in s :: dirs[p] == was[p])
  }

  lemma RaisedNone(start: Noted, mtime: int)
    ensures Raised(start, start, {}, mtime)
  {}

  /** Noting a directory a second time with the same time changes nothing. */
  lemma RaisedStep(start: Noted, dirs: Noted, done: set<Path>, p: Path, mtime: int)
    requires Raised(start, dirs, done, mtime)
    ensures Raised(start, NoteDir(dirs, p, mtime), done + {p}, mtime)
  {}

  /** "Every ancestor exists, and each one is at least as new as this entry." */
  method NoteAncestors(start: Noted, rel: Path, mtime: int) returns (dirs: Noted)
    requires rel != []
    ensures Raised(start, dirs, Ancestors(rel), mtime)
  {
    hide Raised, NoteDir;
    RaisedNone(start, mtime);
    dirs := start;
    var parent := Parent(rel);
    ghost var done: set<Path> := {};
    while true
      invariant Ancestors(rel) == done + {parent} + Ancestors(parent)
      invariant Raised(start, dirs, done, mtime)
      decreases |parent|
    {
      RaisedStep(start, dirs, done, parent, mtime);
      dirs := NoteDir(dirs, parent, mtime);
      done := done + {parent};
      if parent == [] {
        assert Ancestors(rel) == done;
        break;
      }
      parent := Parent(parent);
    }
  }

  /** What the first loop has established once `n` keys are noted. */
  ghost predicate NotedFor(spec: Keyed, n: nat, dirs: Noted)
    requires n <= |spec|
  {
    && (forall p :: p in dirs <==> Explicit(spec, n, p) || Implied(spec, n, p))
    && (forall p | p in dirs && !Explicit(spec, n, p) ::
          NewestBelow(spec, n, p, dirs[p].mtime) && dirs[p].mode == DEFAULT_DIR_MODE)
    && (forall i | 0 <= i < n && spec[i].file.kind.Directory? ::
          spec[i].rel in dirs && dirs[spec[i].rel].mode == ModeOfDir(spec[i].file))
  }

  /** An explicit directory: noted, then given its own time and mode. */
  function OwnDir(dirs: Noted, rel: Path, file: FileSpec): (r: Noted)
    ensures rel in dirs || file.kind.Directory? ==> rel in r
  {
    if !file.kind.Directory? then dirs
    else
      var own := NoteDir(dirs, rel, file.mtime)[rel].(mtime := file.mtime);
      dirs[rel := if file.mode.Some? then own.(mode := file.mode.value) else own]
  }

  lemma NotedKeys(spec: Keyed, n: nat, dirs: Noted, dirs': Noted)
    requires n < |spec| && NotedFor(spec, n, dirs)
    requires Raised(OwnDir(dirs, spec[n].rel, spec[n].file), dirs', spec[n].above, spec[n].file.mtime)
    ensures forall p :: p in dirs' <==> Explicit(spec, n + 1, p) || Implied(spec, n + 1, p)
  {
    forall p ensures p in dirs' <==> Explicit(spec, n + 1, p) || Implied(spec, n + 1, p) {
      assert Explicit(spec, n + 1, p) <==> Explicit(spec, n, p) || (spec[n].rel == p && spec[n].file.kind.Directory?);
      assert Implied(spec, n + 1, p) <==> Implied(spec, n, p) || p in spec[n].above;
    }
  }

  lemma NotedTimes(spec: Keyed, n: nat, dirs: Noted, dirs': Noted, p: Path)
    requires n < |spec| && NotedFor(spec, n, dirs)
    requires Raised(OwnDir(dirs, spec[n].rel, spec[n].file), dirs', spec[n].above, spec[n].file.mtime)
    requires p in dirs' && !Explicit(spec, n + 1, p)
    ensures NewestBelow(spec, n + 1, p, dirs'[p].mtime) && dirs'[p].mode == DEFAULT_DIR_MODE
  {
    var rel, file := spec[n].rel, spec[n].file;
    assert !Explicit(spec, n, p) && !(rel == p && file.kind.Directory?);
    assert p in OwnDir(dirs, rel, file) <==> p in dirs;
    if p in dirs {
      var k :| 0 <= k < n && p in spec[k].above && spec[k].file.mtime == dirs[p].mtime;
      assert OwnDir(dirs, rel, file)[p] == dirs[p];
      assert 0 <= k < n + 1 && 0 <= n < n + 1;
      if p in spec[n].above {
        assert dirs'[p] == Raise(OwnDir(dirs, rel, file), p, file.mtime);
        if file.mtime > dirs[p].mtime { assert dirs'[p].mtime == spec[n].file.mtime; }
      }
    } else {
      assert p in spec[n].above;
    }
  }

  lemma NotedModes(spec: Keyed, n: nat, dirs: Noted, dirs': Noted, k: nat)
    requires n < |spec| && DistinctKeys(spec) && NotedFor(spec, n, dirs)
    requires Raised(OwnDir(dirs, spec[n].rel, spec[n].file), dirs', spec[n].above, spec[n].file.mtime)
    requires k <= n && spec[k].file.kind.Directory?
    ensures spec[k].rel in dirs' && dirs'[spec[k].rel].mode == ModeOfDir(spec[k].file)
  {
    var own := OwnDir(dirs, spec[n].rel, spec[n].file);
    var p := spec[k].rel;
    if k < n {
      assert p in dirs && p != spec[n].rel;
      assert own[p] == dirs[p];
    } else {
      assert !Explicit(spec, n, p);
      assert NoteDir(dirs, p, spec[n].file.mtime)[p].mode == DEFAULT_DIR_MODE;
      assert own[p].mode == ModeOfDir(spec[n].file);
    }
  }

  lemma NotedExtends(spec: Keyed, n: nat, dirs: Noted, dirs': Noted)
    requires n < |spec| && DistinctKeys(spec)
    requires NotedFor(spec, n, dirs)
    requires Raised(OwnDir(dirs, spec[n].rel, spec[n].file), dirs', spec[n].above, spec[n].file.mtime)
    ensures NotedFor(spec, n + 1, dirs')
  {
    NotedKeys(spec, n, dirs, dirs');
    forall p | p in dirs' && !Explicit(spec, n + 1, p)
      ensures NewestBelow(spec, n + 1, p, dirs'[p].mtime) && dirs'[p].mode == DEFAULT_DIR_MODE
    {
      NotedTimes(spec, n, dirs, dirs', p);
    }
    forall k | 0 <= k < n + 1 && spec[k].file.kind.Directory?
      ensures spec[k].rel in dirs' && dirs'[spec[k].rel].mode == ModeOfDir(spec[k].file)
    {
      NotedModes(spec, n, dirs, dirs', k);
    }
  }

  /** The entries the first `n` keys push, in their order. */
  ghost predicate PushedBy(spec: Keyed, n: nat, entries: seq<FlatEntry>)
    requires n <= |spec|
  {
    && (forall e :: e in entries <==> IsEntry(spec, n, e))
    && (DistinctKeys(spec) ==> DistinctRels(entries))
  }

  ghost predicate DistinctRels(entries: seq<FlatEntry>) {
    forall x, y | 0 <= x < y < |entries| :: entries[x].rel != entries[y].rel
  }

  lemma PushedExtends(spec: Keyed, n: nat, entries: seq<FlatEntry>)
    requires n < |spec| && PushedBy(spec, n, entries)
    ensures spec[n].file.kind.Directory? ==> PushedBy(spec, n + 1, entries)
    ensures !spec[n].file.kind.Directory? ==> PushedBy(spec, n + 1, entries + [EntryOf(spec[n].rel, spec[n].file)])
  {
    var pushed := EntryOf(spec[n].rel, spec[n].file);
    forall e
      ensures IsEntry(spec, n + 1, e) <==> IsEntry(spec, n, e) || (!spec[n].file.kind.Directory? && e == pushed)
    {
      if IsEntry(spec, n + 1, e) {
        var i :| 0 <= i < n + 1 && !spec[i].file.kind.Directory? && e == EntryOf(spec[i].rel, spec[i].file);
        if i < n { assert IsEntry(spec, n, e); }
      }
    }
    if DistinctKeys(spec) {
      forall x | 0 <= x < |entries| ensures entries[x].rel != spec[n].rel {
        assert IsEntry(spec, n, entries[x]);
      }
    }
  }

  /** `[...dirs.values()]`: every value once, in some order. */
  method Values(dirs: Noted) returns (out: seq<FlatDir>)
    requires forall p | p in dirs :: dirs[p].rel == p
    ensures forall d :: d in out <==> d.rel in dirs && dirs[d.rel] == d
    ensures forall x, y | 0 <= x < y < |out| :: out[x].rel != out[y].rel
  {
    out := [];
    var left := dirs.Keys;
    while left != {}
      invariant left <= dirs.Keys
      invariant forall d :: d in out <==> d.rel in dirs.Keys - left && dirs[d.rel] == d
      invariant forall x, y | 0 <= x < y < |out| :: out[x].rel != out[y].rel
      decreases left
    {
      var p :| p in left;
      assert forall x | 0 <= x < |out| :: out[x] in out;
      out := out + [dirs[p]];
      left := left - {p};
    }
  }

  lemma SortedByRel(before: (Path, Path) -> bool, dirs: seq<FlatDir>, entries: seq<FlatEntry>)
    requires Total(before)
    requires forall x, y | 0 <= x < y < |dirs| :: dirs[x].rel != dirs[y].rel
    requires DistinctRels(entries)
    ensures Sorted(ByDir(before), Sort(ByDir(before), dirs))
    ensures forall d :: d in Sort(ByDir(before), dirs) <==> d in dirs
    ensures Sorted(ByEntry(before), Sort(ByEntry(before), entries))
    ensures forall e :: e in Sort(ByEntry(before), entries) <==> e in entries
  {
    TotalByDir(before, dirs);
    SortSorted(ByDir(before), dirs);
    MembersByMultiset(Sort(ByDir(before), dirs), dirs);
    TotalByEntry(before, entries);
    SortSorted(ByEntry(before), entries);
    MembersByMultiset(Sort(ByEntry(before), entries), entries);
  }

  lemma TotalByDir(before: (Path, Path) -> bool, dirs: seq<FlatDir>)
    requires Total(before)
    requires forall x, y | 0 <= x < y < |dirs| :: dirs[x].rel != dirs[y].rel
    ensures TotalOn(ByDir(before), Elements(dirs))
  {
    forall x, y | x in Elements(dirs) && y in Elements(dirs) && x != y ensures x.rel != y.rel {
      var i :| 0 <= i < |dirs| && dirs[i] == x;
      var j :| 0 <= j < |dirs| && dirs[j] == y;
    }
  }

  lemma TotalByEntry(before: (Path, Path) -> bool, entries: seq<FlatEntry>)
    requires Total(before) && DistinctRels(entries)
    ensures TotalOn(ByEntry(before), Elements(entries))
  {
    forall x, y | x in Elements(entries) && y in Elements(entries) && x != y ensures x.rel != y.rel {
      var i :| 0 <= i < |entries| && entries[i] == x;
      var j :| 0 <= j < |entries| && entries[j] == y;
    }
  }

  /** The second loop: explicit directories take their own time back, nothing else moves. */
  ghost predicate Pinned(spec: Keyed, n: nat, noted: Noted, dirs: Noted)
    requires n <= |spec|
  {
    && dirs.Keys == noted.Keys
    && (forall p | p in dirs :: dirs[p].rel == noted[p].rel && dirs[p].mode == noted[p].mode)
    && (forall p | p in dirs && !Explicit(spec, |spec|, p) :: dirs[p] == noted[p])
    && (DistinctKeys(spec) ==> forall k | 0 <= k < n && spec[k].file.kind.Directory? && spec[k].rel in dirs ::
          dirs[spec[k].rel].mtime == spec[k].file.mtime)
  }

  /** One turn of the first loop, for the directories. */
  method NoteKey(start: Noted, key: Key) returns (dirs: Noted)
    requires key.rel != [] && key.above == Ancestors(key.rel)
    requires forall p | p in start :: start[p].rel == p
    ensures Raised(OwnDir(start, key.rel, key.file), dirs, key.above, key.file.mtime)
    ensures forall p | p in dirs :: dirs[p].rel == p
  {
    var rel, file := key.rel, key.file;
    dirs := start;
    if file.kind.Directory? {
      dirs := NoteDir(dirs, rel, file.mtime);
      dirs := dirs[rel := dirs[rel].(mtime := file.mtime)];
      if file.mode.Some? { dirs := dirs[rel := dirs[rel].(mode := file.mode.value)]; }
    }
    assert dirs == OwnDir(start, rel, file);
    ghost var own := dirs;
    dirs := NoteAncestors(dirs, rel, file.mtime);
    forall p | p in dirs ensures dirs[p].rel == p {
      if p in key.above { assert dirs[p] == Raise(own, p, file.mtime); }
    }
  }

  /** The second loop: explicit directories take their own time back. */
  method PinExplicit(spec: Keyed, noted: Noted) returns (dirs: Noted)
    ensures Pinned(spec, |spec|, noted, dirs)
  {
    dirs := noted;
    for i := 0 to |spec|
      invariant Pinned(spec, i, noted, dirs)
    {
      var rel, file := spec[i].rel, spec[i].file;
      if file.kind.Directory? {
        assert Explicit(spec, |spec|, rel);
        if rel in dirs { dirs := dirs[rel := dirs[rel].(mtime := file.mtime)]; }
      }
    }
  }

  lemma NotedNone(spec: Keyed)
    ensures NotedFor(spec, 0, map[]) && PushedBy(spec, 0, [])
  {}

  /** The first loop, over the spec in the order it is written. */
  method Collect(spec: Keyed) returns (ok: bool, dirs: Noted, entries: seq<FlatEntry>)
    requires Rooted(spec)
    ensures !ok <==> exists i :: 0 <= i < |spec| && spec[i].rel == []
    ensures ok ==> (forall p | p in dirs :: dirs[p].rel == p) && PushedBy(spec, |spec|, entries)
    ensures DistinctKeys(spec) ==> ok && NotedFor(spec, |spec|, dirs)
  {
    hide NotedFor, PushedBy, Raised;
    ok, dirs, entries := true, map[], [];
    ghost var distinct := DistinctKeys(spec);
    NotedNone(spec);
    for i := 0 to |spec|
      invariant ok && forall k | 0 <= k < i :: spec[k].rel != []
      invariant forall p | p in dirs :: dirs[p].rel == p
      invariant distinct ==> NotedFor(spec, i, dirs)
      invariant PushedBy(spec, i, entries)
    {
      var rel, file := spec[i].rel, spec[i].file;
      if rel == [] {
        ok := false;
        return;
      }
      PushedExtends(spec, i, entries);
      if !file.kind.Directory? { entries := entries + [EntryOf(rel, file)]; }
      ghost var was := dirs;
      dirs := NoteKey(dirs, spec[i]);
      if distinct { NotedExtends(spec, i, was, dirs); }
    }
  }

  /** `flatten`, for a collation `before` on paths. */
  method Flatten(spec: TreeSpec, before: (Path, Path) -> bool) returns (r: Result<FlatTree>)
    requires Total(before)
    ensures r.Failure? <==> exists i :: 0 <= i < |spec| && Normalised(spec)[i].rel == []
    ensures DistinctKeys(Normalised(spec)) ==> r.Success? && Describes(before, Normalised(spec), r.value)
  {
    var keyed := Normalised(spec);
    var ok, noted, entries := Collect(keyed);
    if !ok {
      return Failure("The tree root cannot be an entry of itself.");
    }
    var dirs := PinExplicit(keyed, noted);
    var values := Values(dirs);
    r := Success(FlatTree(Sort(ByDir(before), values), Sort(ByEntry(before), entries)));
    if DistinctKeys(keyed) {
      SortedByRel(before, values, entries);
      FlattenDescribes(before, keyed, noted, dirs, r.value);
    }
  }

  lemma FlattenDescribes(before: (Path, Path) -> bool, spec: Keyed, noted: Noted, dirs: Noted, flat: FlatTree)
    requires DistinctKeys(spec) && NotedFor(spec, |spec|, noted) && Pinned(spec, |spec|, noted, dirs)
    requires Sorted(ByDir(before), flat.dirs) && Sorted(ByEntry(before), flat.entries)
    requires forall d :: d in flat.dirs <==> d.rel in dirs && dirs[d.rel] == d
    requires forall p | p in dirs :: dirs[p].rel == p
    requires forall e :: e in flat.entries <==> IsEntry(spec, |spec|, e)
    ensures Describes(before, spec, flat)
  {
    forall p: Path | IsDir(spec, p)
      ensures exists d :: d in flat.dirs && d.rel == p
    {
      assert dirs[p] in flat.dirs;
    }
  }

  // ------------------------------------------------------------------ consequences

  lemma DirFitsOnce(spec: Keyed, spec': Keyed, d: FlatDir, d': FlatDir)
    requires Elements(spec) == Elements(spec')
    requires d.rel == d'.rel && DirFits(spec, d) && DirFits(spec', d')
    ensures d == d'
  {
    SameFacts(spec, spec', d.rel);
    if Explicit(spec, |spec|, d.rel) {
      var i :| 0 <= i < |spec| && spec[i].rel == d.rel && spec[i].file.kind.Directory?;
      assert spec[i] in Elements(spec');
      var j :| 0 <= j < |spec'| && spec'[j] == spec[i];
    } else {
      var i :| 0 <= i < |spec| && d.rel in spec[i].above && spec[i].file.mtime == d.mtime;
      assert spec[i] in Elements(spec');
      var j :| 0 <= j < |spec'| && d.rel in spec'[j].above && spec'[j].file.mtime == d'.mtime;
      assert spec'[j] in Elements(spec);
    }
  }

  lemma SameFacts(spec: Keyed, spec': Keyed, p: Path)
    requires Elements(spec) == Elements(spec')
    ensures Explicit(spec, |spec|, p) <==> Explicit(spec', |spec'|, p)
    ensures Implied(spec, |spec|, p) <==> Implied(spec', |spec'|, p)
    ensures forall e :: IsEntry(spec, |spec|, e) <==> IsEntry(spec', |spec'|, e)
  {
    HalfFacts(spec, spec', p);
    HalfFacts(spec', spec, p);
  }

  lemma HalfFacts(spec: Keyed, spec': Keyed, p: Path)
    requires Elements(spec) <= Elements(spec')
    ensures Explicit(spec, |spec|, p) ==> Explicit(spec', |spec'|, p)
    ensures Implied(spec, |spec|, p) ==> Implied(spec', |spec'|, p)
    ensures forall e :: IsEntry(spec, |spec|, e) ==> IsEntry(spec', |spec'|, e)
  {
    forall i | 0 <= i < |spec| ensures spec[i] in spec' {
      assert spec[i] in Elements(spec);
    }
  }

  /**
   * Two manifests with the same keys and files, in whatever order, flatten to
   * the same tree: same directories, times, modes, entries and order.
   */
  lemma FlatIsUnique(before: (Path, Path) -> bool, spec: Keyed, spec': Keyed, flat: FlatTree, flat': FlatTree)
    requires Total(before)
    requires Elements(spec) == Elements(spec')
    requires Describes(before, spec, flat) && Describes(before, spec', flat')
    ensures flat == flat'
  {
    DirsCarryOver(before, spec, spec', flat, flat');
    DirsCarryOver(before, spec', spec, flat', flat);
    SameFacts(spec, spec', []);
    SortedRels(before, flat);
    assert Elements(flat.dirs) == Elements(flat'.dirs);
    TotalByDir(before, flat.dirs);
    SortedIsUnique(ByDir(before), flat.dirs, flat'.dirs);
    assert Elements(flat.entries) == Elements(flat'.entries);
    TotalByEntry(before, flat.entries);
    SortedIsUnique(ByEntry(before), flat.entries, flat'.entries);
  }

  lemma SortedRels(before: (Path, Path) -> bool, flat: FlatTree)
    requires Total(before)
    requires Sorted(ByDir(before), flat.dirs) && Sorted(ByEntry(before), flat.entries)
    ensures forall x, y | 0 <= x < y < |flat.dirs| :: flat.dirs[x].rel != flat.dirs[y].rel
    ensures DistinctRels(flat.entries)
  {
    forall x, y | 0 <= x < y < |flat.dirs| ensures flat.dirs[x].rel != flat.dirs[y].rel {
      assert ByDir(before)(flat.dirs[x], flat.dirs[y]);
    }
    forall x, y | 0 <= x < y < |flat.entries| ensures flat.entries[x].rel != flat.entries[y].rel {
      assert ByEntry(before)(flat.entries[x], flat.entries[y]);
    }
  }

  lemma DirsCarryOver(before: (Path, Path) -> bool, spec: Keyed, spec': Keyed, flat: FlatTree, flat': FlatTree)
    requires Elements(spec) == Elements(spec')
    requires Describes(before, spec, flat) && Describes(before, spec', flat')
    ensures forall d | d in flat.dirs :: d in flat'.dirs
  {
    forall d | d in flat.dirs ensures d in flat'.dirs {
      SameFacts(spec, spec', d.rel);
      assert IsDir(spec', d.rel);
      var d' :| d' in flat'.dirs && d'.rel == d.rel;
      DirFitsOnce(spec, spec', d, d');
    }
  }

  /** Keys that do not begin with a `.` segment, the one `posix.dirname` folds into the root. */
  ghost predicate NoDotHead(spec: Keyed) {
    forall i | 0 <= i < |spec| && spec[i].rel != [] :: spec[i].rel[0] != "."
  }

  lemma {:induction false} AncestorsArePrefixes(rel: Path, p: Path)
    requires rel != [] ==> rel[0] != "."
    ensures p in Ancestors(rel) <==> p < rel
    decreases |rel|
  {
    if rel != [] {
      var up := rel[..|rel| - 1];
      if up != [] { assert up[0] == rel[0]; }
      assert Parent(rel) == up;
      AncestorsArePrefixes(up, p);
      assert p < rel <==> p == up || p < up by {
        if p < rel && |p| < |up| { assert p == rel[..|p|] == up[..|p|]; }
        if p < up { assert p == up[..|p|] == rel[..|p|]; }
        if p < rel && |p| == |up| { assert p == rel[..|p|]; }
      }
    }
  }

  /** Every non-empty path of the flattened tree has the directory holding it in the tree. */
  lemma FlatIsClosed(before: (Path, Path) -> bool, spec: Keyed, flat: FlatTree)
    requires Rooted(spec) && DistinctKeys(spec) && NoDotHead(spec) && Describes(before, spec, flat)
    ensures forall d | d in flat.dirs && d.rel != [] :: exists u :: u in flat.dirs && u.rel == d.rel[..|d.rel| - 1]
    ensures forall e | e in flat.entries :: e.rel != [] && exists u :: u in flat.dirs && u.rel == e.rel[..|e.rel| - 1]
  {
    forall d | d in flat.dirs ensures d.rel != [] ==> IsDir(spec, d.rel[..|d.rel| - 1]) {
      DirClosed(spec, d.rel);
    }
    forall e | e in flat.entries ensures e.rel != [] && IsDir(spec, e.rel[..|e.rel| - 1]) {
      EntryClosed(spec, e);
    }
  }

  /** Anything at all in the tree, and the root is one of its directories. */
  lemma FlatHasRoot(before: (Path, Path) -> bool, spec: Keyed, flat: FlatTree)
    requires Rooted(spec) && DistinctKeys(spec) && NoDotHead(spec) && Describes(before, spec, flat)
    requires flat.dirs != [] || flat.entries != []
    ensures exists u :: u in flat.dirs && u.rel == []
  {
    if flat.dirs != [] {
      DirClosed(spec, flat.dirs[0].rel);
    } else {
      assert flat.entries[0] in flat.entries;
      EntryClosed(spec, flat.entries[0]);
    }
    assert IsDir(spec, []);
  }

  lemma EntryClosed(spec: Keyed, e: FlatEntry)
    requires Rooted(spec) && DistinctKeys(spec) && NoDotHead(spec) && IsEntry(spec, |spec|, e)
    ensures e.rel != [] && IsDir(spec, e.rel[..|e.rel| - 1]) && IsDir(spec, [])
  {
    var i :| 0 <= i < |spec| && !spec[i].file.kind.Directory? && e == EntryOf(spec[i].rel, spec[i].file);
    ClosedAt(spec, i, e.rel);
  }

  lemma DirClosed(spec: Keyed, p: Path)
    requires Rooted(spec) && DistinctKeys(spec) && NoDotHead(spec) && IsDir(spec, p)
    ensures p != [] ==> IsDir(spec, p[..|p| - 1])
    ensures IsDir(spec, [])
  {
    if Explicit(spec, |spec|, p) {
      var i :| 0 <= i < |spec| && spec[i].rel == p && spec[i].file.kind.Directory?;
      ClosedAt(spec, i, p);
    } else {
      var i :| 0 <= i < |spec| && p in spec[i].above;
      AncestorsArePrefixes(spec[i].rel, p);
      ClosedAt(spec, i, p);
    }
  }

  lemma ClosedAt(spec: Keyed, i: nat, rel: Path)
    requires Rooted(spec) && i < |spec| && spec[i].rel != [] && spec[i].rel[0] != "." && rel <= spec[i].rel
    ensures rel != [] ==> IsDir(spec, rel[..|rel| - 1])
    ensures IsDir(spec, [])
  {
    AncestorsArePrefixes(spec[i].rel, []);
    assert [] in spec[i].above;
    if rel != [] {
      AncestorsArePrefixes(spec[i].rel, rel[..|rel| - 1]);
    }
  }
}
