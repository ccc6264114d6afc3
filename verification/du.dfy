/**
 * A tree on disk read as a stream of `du` records: `duRecords` of
 * `nest-api/mock/corpus.ts`, `walkDisk` of `nest-api/mock/load.ts` and
 * `Machine.du` of `nest-api/mock/sshd.ts`.
 *
 * `Visit` is the recursion `duRecords` runs, on the map it builds first.
 * `VisitMeans` says what comes out without recursing: which paths, in which
 * order, and the figure beside each as one sum over what lies at or under it.
 */
module Du {
  import opened Orders
  import opened Paths
  import opened Corpus
  import opened Disk

  const DIR_BLOCK: nat := 4096

  datatype EntryKind = FileEntry | DirEntry | LinkEntry
  datatype Walked = Walked(path: Path, kind: EntryKind, size: nat, mtime: int)
  datatype Record = Record(bytes: nat, mtime: Option<int>, path: Path)
  datatype Out = Out(records: seq<Record>, bytes: nat)

  /** A walk by path. */
  type Known = map<Path, Walked>

  predicate IsChild(p: Path, q: Path) {
    q != [] && Up(q) == p
  }

  /** What lies strictly below `p`: the measure every recursion here goes down on. */
  function Below(paths: set<Path>, p: Path): set<Path> {
    set q | q in paths && p < q
  }

  ghost function Children(paths: set<Path>, p: Path): set<Path> {
    set q | q in paths && IsChild(p, q)
  }

  lemma ChildBelow(paths: set<Path>, p: Path, q: Path)
    requires q in paths && IsChild(p, q)
    ensures p < q && Below(paths, q) < Below(paths, p)
  {
    assert p == q[..|q| - 1] && p < q;
    forall x | x in Below(paths, q) ensures x in Below(paths, p) {
      assert p == x[..|p|];
    }
    assert q in Below(paths, p) && q !in Below(paths, q);
  }

  // ------------------------------------------------------------------ the recursion

  ghost predicate Siblings(known: Known, p: Path, kids: seq<Path>) {
    forall q | q in kids :: q in known && IsChild(p, q)
  }

  function LeafRecord(e: Walked): Record {
    Record(e.size, Some(e.mtime), e.path)
  }

  /** The children of `p`, in order. */
  ghost function KidsOf(before: (Path, Path) -> bool, known: Known, p: Path): (kids: seq<Path>)
    requires Total(before)
    ensures Siblings(known, p, kids) && Distinct(kids)
    ensures Sorted(before, kids) && Elements(kids) == Children(known.Keys, p)
    ensures forall q :: q in kids <==> q in Children(known.Keys, p)
  {
    TotalEverywhere(before, Children(known.Keys, p));
    var kids := Listing(before, Children(known.Keys, p));
    SortedIsDistinct(before, kids);
    assert forall q :: q in kids <==> q in Elements(kids);
    kids
  }

  /** `visit`: the children in order, then the directory's own record. */
  ghost function Visit(before: (Path, Path) -> bool, known: Known, p: Path): (r: Out)
    requires Total(before)
    ensures |r.records| > 0
    ensures r.records[|r.records| - 1] == Record(r.bytes, if p in known then Some(known[p].mtime) else None, p)
    decreases Below(known.Keys, p), 1, 0
  {
    var kids := KidsOf(before, known, p);
    var all := VisitAll(before, known, p, kids);
    var bytes := DIR_BLOCK + all.bytes;
    Out(all.records + [Record(bytes, if p in known then Some(known[p].mtime) else None, p)], bytes)
  }

  /** One child: a directory is visited, anything else prints its own size. */
  ghost function VisitOne(before: (Path, Path) -> bool, known: Known, p: Path, q: Path): Out
    requires Total(before) && q in known && IsChild(p, q)
    decreases Below(known.Keys, p), 0, 0
  {
    ChildBelow(known.Keys, p, q);
    if known[q].kind.DirEntry? then Visit(before, known, q)
    else Out([LeafRecord(known[q])], known[q].size)
  }

  ghost function VisitAll(before: (Path, Path) -> bool, known: Known, p: Path, kids: seq<Path>): Out
    requires Total(before) && Siblings(known, p, kids)
    decreases Below(known.Keys, p), 0, 1 + |kids|
  {
    if kids == [] then Out([], 0)
    else
      var front := VisitAll(before, known, p, kids[..|kids| - 1]);
      var last := VisitOne(before, known, p, kids[|kids| - 1]);
      Out(front.records + last.records, front.bytes + last.bytes)
  }

  // ------------------------------------------------------------------ what it means

  /** A walk that lists the directory above everything it lists, down from `root`. */
  ghost predicate Closed(known: Known, root: Path) {
    && root in known && known[root].kind.DirEntry?
    && (forall q | q in known :: known[q].path == q && root <= q)
    && (forall q | q in known && q != root :: Up(q) in known && known[Up(q)].kind.DirEntry?)
  }

  function AtOrUnder(known: Known, p: Path): set<Path> {
    set q | q in known && p <= q
  }

  function Charge(known: Known, q: Path): nat
    requires q in known
  {
    if known[q].kind.DirEntry? then DIR_BLOCK else known[q].size
  }

  /** The sum of the charges over a set of paths. */
  ghost function Sum(known: Known, s: set<Path>): nat
    requires s <= known.Keys
  {
    if s == {} then 0
    else
      var q :| q in s;
      Charge(known, q) + Sum(known, s - {q})
  }

  /** What `du` prints beside `p`: a block per directory and a size per file, at or under it. */
  ghost function Figure(known: Known, p: Path): nat {
    Sum(known, AtOrUnder(known, p))
  }

  ghost function RecordFor(known: Known, p: Path): Record
    requires p in known
  {
    Record(Figure(known, p), Some(known[p].mtime), p)
  }

  /** Nothing follows something it lies under; in particular no path comes twice. */
  ghost predicate PostOrder(records: seq<Record>) {
    forall i, j | 0 <= i < j < |records| :: !(records[i].path <= records[j].path)
  }

  /** `records` covers exactly `s`, each path once with its own figure, children before parents. */
  ghost predicate Covers(known: Known, s: set<Path>, records: seq<Record>) {
    && s <= known.Keys
    && (forall r | r in records :: r.path in s && r == RecordFor(known, r.path))
    && (forall q | q in s :: RecordFor(known, q) in records)
    && PostOrder(records)
  }

  lemma {:induction false} SumAdd(known: Known, s: set<Path>, q: Path)
    requires s <= known.Keys && q in known && q !in s
    ensures Sum(known, s + {q}) == Sum(known, s) + Charge(known, q)
  {
    var t := s + {q};
    var x :| x in t && Sum(known, t) == Charge(known, x) + Sum(known, t - {x});
    if x == q {
      assert t - {x} == s;
    } else {
      assert t - {x} == (s - {x}) + {q};
      SumAdd(known, s - {x}, q);
      SumAdd(known, s - {x}, x);
      assert (s - {x}) + {x} == s;
    }
  }

  lemma {:induction false} SumUnion(known: Known, s: set<Path>, t: set<Path>)
    requires s <= known.Keys && t <= known.Keys && s !! t
    ensures Sum(known, s + t) == Sum(known, s) + Sum(known, t)
    decreases t
  {
    if t == {} {
      assert s + t == s;
    } else {
      var q :| q in t;
      var rest := t - {q};
      SumUnion(known, s, rest);
      SumAdd(known, s + rest, q);
      SumAdd(known, rest, q);
      assert s + t == (s + rest) + {q} && t == rest + {q};
    }
  }

  /** Every prefix of a listed path, from the root down, is listed; the proper ones are directories. */
  lemma {:induction false} PrefixListed(known: Known, root: Path, q: Path, m: nat)
    requires Closed(known, root) && q in known && |root| <= m <= |q|
    ensures q[..m] in known && (m < |q| ==> known[q[..m]].kind.DirEntry?)
    decreases |q|
  {
    if m == |q| {
      assert q[..m] == q;
    } else {
      UpListed(known, root, q);
      hide Closed;
      PrefixListed(known, root, Up(q), m);
      assert Up(q)[..m] == q[..m];
      if m == |q| - 1 { assert q[..m] == Up(q); }
    }
  }

  lemma UpListed(known: Known, root: Path, q: Path)
    requires Closed(known, root) && q in known && |root| < |q|
    ensures Up(q) in known && known[Up(q)].kind.DirEntry? && |Up(q)| == |q| - 1
  {
    assert q != root;
  }

  lemma LeafAlone(known: Known, root: Path, p: Path)
    requires Closed(known, root) && p in known && !known[p].kind.DirEntry?
    ensures AtOrUnder(known, p) == {p}
  {
    forall q | q in AtOrUnder(known, p) ensures q == p {
      PrefixListed(known, root, q, |p|);
      assert q[..|p|] == p;
    }
  }

  /** Nothing of `t` lies at or under anything of `s`. */
  ghost predicate Apart(s: set<Path>, t: set<Path>) {
    forall q | q in s :: forall r | r in t :: !(q <= r)
  }

  ghost function UnderAny(known: Known, kids: seq<Path>): set<Path> {
    set q | q in known && exists k :: k in kids && k <= q
  }

  /** A directory's tree is the directory and its children's trees. */
  lemma TreeOfDir(known: Known, root: Path, p: Path, kids: seq<Path>)
    requires Closed(known, root) && p in known && Elements(kids) == Children(known.Keys, p)
    ensures AtOrUnder(known, p) == {p} + UnderAny(known, kids)
    ensures p !in UnderAny(known, kids)
  {
    forall q | q in known ensures q in AtOrUnder(known, p) <==> q == p || q in UnderAny(known, kids) {
      if p < q { KidAbove(known, root, p, kids, q); }
      if q in UnderAny(known, kids) { KidsAreUnder(known, p, kids, q); }
    }
    forall k | k in kids ensures !(k <= p) {
      assert k in Elements(kids);
      ChildBelow(known.Keys, p, k);
    }
  }

  /** What lies under `p` lies at or under one of its children. */
  lemma KidAbove(known: Known, root: Path, p: Path, kids: seq<Path>, q: Path)
    requires Closed(known, root) && p in known && Elements(kids) == Children(known.Keys, p) && q in known && p < q
    ensures q in UnderAny(known, kids)
  {
    var k := q[..|p| + 1];
    PrefixListed(known, root, q, |p| + 1);
    assert Up(k) == p && k in Children(known.Keys, p);
    assert k in Elements(kids) && k <= q;
  }

  lemma KidsAreUnder(known: Known, p: Path, kids: seq<Path>, q: Path)
    requires Elements(kids) == Children(known.Keys, p) && q in UnderAny(known, kids)
    ensures p < q
  {
    var k :| k in kids && k <= q;
    assert k in Elements(kids);
    ChildBelow(known.Keys, p, k);
    assert p == q[..|p|];
  }

  lemma Diverge(k: Path, q: Path, l: Path, r: Path)
    requires k <= q && l <= r && |k| == |l| && k != l
    ensures !(q <= r)
  {
    assert q[..|k|] == k && r[..|k|] == l;
    assert |q| <= |r| ==> r[..|q|][..|k|] == r[..|k|];
  }

  lemma SiblingsApart(known: Known, p: Path, kids: seq<Path>)
    requires kids != [] && Siblings(known, p, kids) && Distinct(kids)
    ensures UnderAny(known, kids[..|kids| - 1]) !! AtOrUnder(known, kids[|kids| - 1])
    ensures UnderAny(known, kids) == UnderAny(known, kids[..|kids| - 1]) + AtOrUnder(known, kids[|kids| - 1])
    ensures Apart(UnderAny(known, kids[..|kids| - 1]), AtOrUnder(known, kids[|kids| - 1]))
  {
    var front, last := kids[..|kids| - 1], kids[|kids| - 1];
    assert last in kids;
    forall q | q in UnderAny(known, front) ensures forall r | r in AtOrUnder(known, last) :: !(q <= r) {
      var k :| k in front && k <= q;
      assert k in kids;
      forall r | r in AtOrUnder(known, last) ensures !(q <= r) {
        Diverge(k, q, last, r);
      }
    }
    assert forall k :: k in kids <==> k in front || k == last;
  }

  lemma CoversJoin(known: Known, s: set<Path>, t: set<Path>, xs: seq<Record>, ys: seq<Record>)
    requires Covers(known, s, xs) && Covers(known, t, ys)
    requires Apart(s, t)
    ensures Covers(known, s + t, xs + ys)
  {
    hide RecordFor;
    var all := xs + ys;
    assert forall r :: r in all <==> r in xs || r in ys;
    forall i, j | 0 <= i < j < |all| ensures !(all[i].path <= all[j].path) {
      if i < |xs| <= j {
        assert xs[i] in xs && ys[j - |xs|] in ys;
      }
    }
  }

  /** What one child contributes: its whole tree, and the sum of it. */
  lemma {:induction false} VisitOneMeans(before: (Path, Path) -> bool, known: Known, root: Path, p: Path, q: Path)
    requires Total(before) && Closed(known, root) && q in known && IsChild(p, q)
    ensures Covers(known, AtOrUnder(known, q), VisitOne(before, known, p, q).records)
    ensures VisitOne(before, known, p, q).bytes == Figure(known, q)
    decreases Below(known.Keys, p), 0, 0
  {
    ChildBelow(known.Keys, p, q);
    if known[q].kind.DirEntry? {
      VisitMeans(before, known, root, q);
    } else {
      LeafAlone(known, root, q);
      SumAdd(known, {}, q);
      assert {} + {q} == {q};
      assert LeafRecord(known[q]) == RecordFor(known, q);
    }
  }

  lemma {:induction false} VisitAllMeans(before: (Path, Path) -> bool, known: Known, root: Path, p: Path,
                                         kids: seq<Path>)
    requires Total(before) && Closed(known, root) && Siblings(known, p, kids) && Distinct(kids)
    ensures Covers(known, UnderAny(known, kids), VisitAll(before, known, p, kids).records)
    ensures VisitAll(before, known, p, kids).bytes == Sum(known, UnderAny(known, kids))
    decreases Below(known.Keys, p), 0, 1 + |kids|
  {
    NoneCovered(known);
    if kids == [] {
      assert UnderAny(known, kids) == {};
    } else {
      var front, last := kids[..|kids| - 1], kids[|kids| - 1];
      VisitAllMeans(before, known, root, p, front);
      VisitOneMeans(before, known, root, p, last);
      SiblingsApart(known, p, kids);
      CoversJoin(known, UnderAny(known, front), AtOrUnder(known, last),
                 VisitAll(before, known, p, front).records, VisitOne(before, known, p, last).records);
      SumUnion(known, UnderAny(known, front), AtOrUnder(known, last));
    }
    hide Covers, Sum, VisitOne, Closed;
  }

  lemma NoneCovered(known: Known)
    ensures Covers(known, {}, []) && Sum(known, {}) == 0
  {
  }

  /**
   * The stream under a directory: every path at or under it once, children
   * before parents, each with the sum of what is at or under it.
   */
  lemma {:induction false} VisitMeans(before: (Path, Path) -> bool, known: Known, root: Path, p: Path)
    requires Total(before) && Closed(known, root) && p in known && known[p].kind.DirEntry?
    ensures Covers(known, AtOrUnder(known, p), Visit(before, known, p).records)
    ensures Visit(before, known, p).bytes == Figure(known, p)
    decreases Below(known.Keys, p), 1, 0
  {
    var kids := KidsOf(before, known, p);
    VisitAllMeans(before, known, root, p, kids);
    TreeOfDir(known, root, p, kids);
    SumAdd(known, UnderAny(known, kids), p);
    var all := VisitAll(before, known, p, kids);
    assert AtOrUnder(known, p) == UnderAny(known, kids) + {p};
    assert Visit(before, known, p).bytes == Figure(known, p);
    OwnRecord(before, known, p, UnderAny(known, kids), all.records);
  }

  lemma OwnRecord(before: (Path, Path) -> bool, known: Known, p: Path, under: set<Path>, records: seq<Record>)
    requires p in known && Covers(known, under, records)
    requires forall q | q in under :: p <= q && p != q
    ensures Covers(known, under + {p}, records + [RecordFor(known, p)])
  {
    var own := [RecordFor(known, p)];
    assert Covers(known, {p}, own);
    CoversJoin(known, under, {p}, records, own);
  }

  // ------------------------------------------------------------------ a slice per directory

  /** `Visit` of a directory below `p` appears, whole and in one run, inside `Visit` of `p`. */
  lemma {:induction false} VisitSlice(before: (Path, Path) -> bool, known: Known, root: Path, p: Path, d: Path)
    returns (front: seq<Record>, rest: seq<Record>)
    requires Total(before) && Closed(known, root)
    requires p in known && d in known && p <= d && known[p].kind.DirEntry? && known[d].kind.DirEntry?
    ensures Visit(before, known, p).records == front + Visit(before, known, d).records + rest
    decreases Below(known.Keys, p)
  {
    if p == d {
      front, rest := [], [];
    } else {
      var k := ChildToward(known, root, p, d);
      ChildBelow(known.Keys, p, k);
      var f, r := VisitSlice(before, known, root, k, d);
      var a, b := ChildSlice(before, known, p, k);
      front, rest := a + f, r + b;
      SpliceIn(a, f, Visit(before, known, d).records, r, b);
    }
  }

  lemma SpliceIn<T>(a: seq<T>, f: seq<T>, m: seq<T>, r: seq<T>, b: seq<T>)
    ensures a + (f + m + r) + b == (a + f) + m + (r + b)
  {}

  lemma ChildToward(known: Known, root: Path, p: Path, d: Path) returns (k: Path)
    requires Closed(known, root) && p in known && d in known && p < d && known[d].kind.DirEntry?
    ensures k in known && IsChild(p, k) && k <= d && known[k].kind.DirEntry?
  {
    PrefixListed(known, root, d, |p| + 1);
    k := d[..|p| + 1];
    assert |k| == |d| ==> k == d;
  }

  lemma ChildSlice(before: (Path, Path) -> bool, known: Known, p: Path, k: Path)
    returns (front: seq<Record>, rest: seq<Record>)
    requires Total(before) && k in known && IsChild(p, k) && known[k].kind.DirEntry?
    ensures Visit(before, known, p).records == front + Visit(before, known, k).records + rest
  {
    var kids := KidsOf(before, known, p);
    assert k in Children(known.Keys, p);
    var i :| 0 <= i < |kids| && kids[i] == k;
    ChildBelow(known.Keys, p, k);
    var a, b := AllSlice(before, known, p, kids, i);
    var all := VisitAll(before, known, p, kids).records;
    var own := Visit(before, known, p).records[|all|..];
    front, rest := a, b + own;
    assert VisitOne(before, known, p, k) == Visit(before, known, k);
    assert Visit(before, known, p).records == all + own;
    hide *;
  }

  lemma {:induction false} AllSlice(before: (Path, Path) -> bool, known: Known, p: Path, kids: seq<Path>, i: nat)
    returns (front: seq<Record>, rest: seq<Record>)
    requires Total(before) && Siblings(known, p, kids) && i < |kids|
    ensures VisitAll(before, known, p, kids).records
         == front + VisitOne(before, known, p, kids[i]).records + rest
  {
    var ahead, last := kids[..|kids| - 1], kids[|kids| - 1];
    var records := VisitAll(before, known, p, ahead).records;
    if i == |kids| - 1 {
      front, rest := records, [];
    } else {
      var f, r := AllSlice(before, known, p, ahead, i);
      front, rest := f, r + VisitOne(before, known, p, last).records;
    }
  }

  /** The entries at or under `d`. */
  function Restrict(known: Known, d: Path): Known {
    map q | q in known && d <= q :: known[q]
  }

  lemma RestrictClosed(known: Known, root: Path, d: Path)
    requires Closed(known, root) && d in known && known[d].kind.DirEntry?
    ensures Closed(Restrict(known, d), d)
  {
    forall q | q in Restrict(known, d) && q != d ensures Up(q) in Restrict(known, d) {
      assert d <= Up(q);
    }
  }

  lemma SameChildren(known: Known, d: Path, p: Path)
    requires d <= p
    ensures Children(Restrict(known, d).Keys, p) == Children(known.Keys, p)
  {
    forall q | q in Children(known.Keys, p) ensures d <= q {
      assert p == q[..|q| - 1];
    }
  }

  /** Visiting below `d` never looks at anything that is not below `d`. */
  lemma {:induction false} VisitRestricted(before: (Path, Path) -> bool, known: Known, d: Path, p: Path)
    requires Total(before) && d <= p
    ensures Visit(before, Restrict(known, d), p) == Visit(before, known, p)
    decreases Below(known.Keys, p), 1, 0
  {
    SameChildren(known, d, p);
    var kids := KidsOf(before, known, p);
    assert KidsOf(before, Restrict(known, d), p) == kids;
    AllRestricted(before, known, d, p, kids);
  }

  lemma {:induction false} AllRestricted(before: (Path, Path) -> bool, known: Known, d: Path, p: Path, kids: seq<Path>)
    requires Total(before) && d <= p
    requires Siblings(known, p, kids) && Siblings(Restrict(known, d), p, kids)
    ensures VisitAll(before, Restrict(known, d), p, kids) == VisitAll(before, known, p, kids)
    decreases Below(known.Keys, p), 0, 1 + |kids|
  {
    if kids != [] {
      var q := kids[|kids| - 1];
      assert q in kids;
      AllRestricted(before, known, d, p, kids[..|kids| - 1]);
      ChildBelow(known.Keys, p, q);
      if known[q].kind.DirEntry? {
        VisitRestricted(before, known, d, q);
      }
    }
  }

  /**
   * A scan of a subdirectory is a slice of the scan of the root: the run of the
   * root's stream that ends at the subdirectory's own record.  The entries it is
   * made of are a closed walk themselves.
   */
  lemma {:induction false} SubtreeScanIsSlice(before: (Path, Path) -> bool, known: Known, root: Path, d: Path)
    returns (front: seq<Record>, rest: seq<Record>)
    requires Total(before) && Closed(known, root) && d in known && known[d].kind.DirEntry?
    ensures Closed(Restrict(known, d), d)
    ensures Visit(before, known, root).records == front + Visit(before, Restrict(known, d), d).records + rest
    ensures forall r | r in front + rest :: !(d <= r.path)
    ensures var own := Visit(before, Restrict(known, d), d).records; own[|own| - 1] == RecordFor(known, d)
  {
    RestrictClosed(known, root, d);
    front, rest := VisitSlice(before, known, root, root, d);
    VisitRestricted(before, known, d, d);
    VisitMeans(before, known, root, root);
    VisitMeans(before, known, root, d);
    OutsideSlice(known, d, AtOrUnder(known, root), front, Visit(before, known, d).records, rest);
  }

  lemma OncePerPath(records: seq<Record>)
    requires PostOrder(records)
    ensures forall i, j | 0 <= i < j < |records| :: records[i].path != records[j].path
  {
    forall i, j | 0 <= i < j < |records| ensures records[i].path != records[j].path {
      assert !(records[i].path <= records[j].path);
    }
  }

  /** A run that covers a subtree leaves nothing of it to the records around it. */
  lemma OutsideSlice(known: Known, d: Path, s: set<Path>, front: seq<Record>, own: seq<Record>, rest: seq<Record>)
    requires Covers(known, s, front + own + rest) && Covers(known, AtOrUnder(known, d), own)
    ensures forall r | r in front + rest :: !(d <= r.path)
  {
    var all := front + own + rest;
    OncePerPath(all);
    forall r | r in front + rest ensures !(d <= r.path) {
      var around := front + rest;
      var x :| 0 <= x < |around| && around[x] == r;
      var i := if x < |front| then x else x + |own|;
      assert all[i] == r && all[i] in all;
      forall q | q in AtOrUnder(known, d) ensures q != r.path {
        assert RecordFor(known, q) in own;
        var y :| 0 <= y < |own| && own[y] == RecordFor(known, q);
        assert all[|front| + y] == own[y];
        assert i != |front| + y;
      }
    }
  }

  // ------------------------------------------------------------------ the aggregator's test

  /** `isDirectory`: the record before this one is one of its children. */
  predicate FollowsChild(records: seq<Record>, j: nat)
    requires j < |records|
  {
    j > 0 && IsChild(records[j].path, records[j - 1].path)
  }

  lemma LastRecord(before: (Path, Path) -> bool, known: Known, p: Path, q: Path)
    requires Total(before) && q in known && IsChild(p, q) && known[q].path == q
    ensures var r := VisitOne(before, known, p, q).records; |r| > 0 && r[|r| - 1].path == q
  {}

  lemma PrecededByChild(before: (Path, Path) -> bool, known: Known, root: Path, d: Path)
    requires Total(before) && Closed(known, root) && Children(known.Keys, d) != {}
    ensures var r := Visit(before, known, d).records; |r| > 1 && IsChild(d, r[|r| - 2].path)
  {
    var kids := KidsOf(before, known, d);
    var last := kids[|kids| - 1];
    assert last in kids && known[last].path == last;
    LastRecord(before, known, d, last);
    var all := VisitAll(before, known, d, kids).records;
    assert all[|all| - 1].path == last;
    assert Visit(before, known, d).records[..|all|] == all;
  }

  /**
   * On the stream of a closed walk, a record follows one of its children exactly
   * when it is a directory with something in it.
   */
  lemma ChildBeforeDirectory(before: (Path, Path) -> bool, known: Known, root: Path, j: nat)
    requires Total(before) && Closed(known, root) && j < |Visit(before, known, root).records|
    ensures var records := Visit(before, known, root).records;
            FollowsChild(records, j) <==> Children(known.Keys, records[j].path) != {}
  {
    var records := Visit(before, known, root).records;
    VisitMeans(before, known, root, root);
    hide RecordFor, Visit;
    var d := records[j].path;
    assert records[j] in records && d in known;
    if FollowsChild(records, j) {
      assert records[j - 1] in records;
      assert records[j - 1].path in Children(known.Keys, d);
    }
    if Children(known.Keys, d) != {} {
      var at := DirectoryAt(before, known, root, d);
      OncePerPath(records);
      assert at == j;
    }
  }

  lemma DirectoryAt(before: (Path, Path) -> bool, known: Known, root: Path, d: Path) returns (at: nat)
    requires Total(before) && Closed(known, root) && d in known && Children(known.Keys, d) != {}
    ensures var records := Visit(before, known, root).records;
            at < |records| && records[at].path == d && FollowsChild(records, at)
  {
    ParentIsDir(known, root, d);
    hide *;
    var front, rest := VisitSlice(before, known, root, root, d);
    var own := Visit(before, known, d).records;
    PrecededByChild(before, known, root, d);
    at := |front| + |own| - 1;
    SliceEnd(front, own, rest);
    FollowsAt(front + own + rest, at, d);
  }

  lemma FollowsAt(records: seq<Record>, at: nat, d: Path)
    requires 0 < at < |records| && records[at].path == d && IsChild(d, records[at - 1].path)
    ensures FollowsChild(records, at)
  {}

  lemma ParentIsDir(known: Known, root: Path, d: Path)
    requires Closed(known, root) && d in known && Children(known.Keys, d) != {}
    ensures root in known && root <= d && known[root].kind.DirEntry? && known[d].kind.DirEntry?
  {
    var c :| c in Children(known.Keys, d);
    ChildBelow(known.Keys, d, c);
    assert root <= d && c != root && Up(c) == d;
  }

  lemma SliceEnd<T>(front: seq<T>, own: seq<T>, rest: seq<T>)
    requires |own| > 1
    ensures var all := front + own + rest;
            var at := |front| + |own| - 1;
            all[at] == own[|own| - 1] && all[at - 1] == own[|own| - 2]
  {}

  // ------------------------------------------------------------------ duRecords

  ghost predicate DistinctPaths(walked: seq<Walked>) {
    forall i, j | 0 <= i < j < |walked| :: walked[i].path != walked[j].path
  }

  /** `known`: the walk by path. */
  function KnownOf(walked: seq<Walked>): Known {
    if walked == [] then map[]
    else
      var e := walked[|walked| - 1];
      KnownOf(walked[..|walked| - 1])[e.path := e]
  }

  lemma {:induction false} KnownMembers(walked: seq<Walked>)
    ensures forall q | q in KnownOf(walked) :: KnownOf(walked)[q] in walked && KnownOf(walked)[q].path == q
  {
    if walked != [] {
      var front, last := walked[..|walked| - 1], walked[|walked| - 1];
      KnownMembers(front);
      assert walked == front + [last];
    }
  }

  lemma {:induction false} KnownHas(walked: seq<Walked>, i: nat)
    requires DistinctPaths(walked) && i < |walked|
    ensures walked[i].path in KnownOf(walked) && KnownOf(walked)[walked[i].path] == walked[i]
  {
    var front := walked[..|walked| - 1];
    if i < |front| {
      assert front[i] == walked[i];
      KnownHas(front, i);
    }
  }

  lemma KnownMeans(walked: seq<Walked>)
    requires DistinctPaths(walked)
    ensures forall e | e in walked :: e.path in KnownOf(walked) && KnownOf(walked)[e.path] == e
    ensures forall q | q in KnownOf(walked) :: KnownOf(walked)[q] in walked && KnownOf(walked)[q].path == q
  {
    KnownMembers(walked);
    forall e | e in walked ensures e.path in KnownOf(walked) && KnownOf(walked)[e.path] == e {
      var i :| 0 <= i < |walked| && walked[i] == e;
      KnownHas(walked, i);
    }
  }

  /** `posix.dirname` of an absolute path. */
  function DirName(p: Path): Path {
    if p == [] then [] else Up(p)
  }

  /** The entries `byParent` files under `p`, in the order they were walked. */
  function Group(walked: seq<Walked>, root: Path, p: Path): seq<Walked> {
    if walked == [] then []
    else
      var e := walked[|walked| - 1];
      Group(walked[..|walked| - 1], root, p) + if e.path != root && DirName(e.path) == p then [e] else []
  }

  function Get(byParent: map<Path, seq<Walked>>, p: Path): seq<Walked> {
    if p in byParent then byParent[p] else []
  }

  function PathsOf(entries: seq<Walked>): (r: seq<Path>)
    ensures |r| == |entries| && forall i | 0 <= i < |r| :: r[i] == entries[i].path
  {
    seq(|entries|, i requires 0 <= i < |entries| => entries[i].path)
  }

  function ByPath(before: (Path, Path) -> bool): (Walked, Walked) -> bool {
    (x: Walked, y: Walked) => before(x.path, y.path)
  }

  lemma {:induction false} GroupMembers(walked: seq<Walked>, root: Path, p: Path)
    ensures forall e :: e in Group(walked, root, p) <==> e in walked && e.path != root && DirName(e.path) == p
  {
    if walked != [] {
      var front, last := walked[..|walked| - 1], walked[|walked| - 1];
      GroupMembers(front, root, p);
      assert walked == front + [last];
    }
  }

  lemma {:induction false} GroupDistinct(walked: seq<Walked>, root: Path, p: Path)
    requires DistinctPaths(walked)
    ensures DistinctPaths(Group(walked, root, p))
  {
    if walked != [] {
      var front, last := walked[..|walked| - 1], walked[|walked| - 1];
      GroupDistinct(front, root, p);
      GroupMembers(front, root, p);
      var g := Group(front, root, p);
      forall i | 0 <= i < |g| ensures g[i].path != last.path {
        assert g[i] in front;
        var k :| 0 <= k < |front| && front[k] == g[i];
        assert walked[k] == g[i];
      }
    }
  }

  lemma SortedByPath(before: (Path, Path) -> bool, g: seq<Walked>)
    requires Total(before) && DistinctPaths(g)
    ensures Sorted(before, PathsOf(Sort(ByPath(before), g)))
    ensures forall e :: e in Sort(ByPath(before), g) <==> e in g
  {
    forall x, y | x in Elements(g) && y in Elements(g) && x != y ensures x.path != y.path {
      var i :| 0 <= i < |g| && g[i] == x;
      var j :| 0 <= j < |g| && g[j] == y;
    }
    SortSorted(ByPath(before), g);
    var children := Sort(ByPath(before), g);
    MembersByMultiset(children, g);
    var paths := PathsOf(children);
    forall i, j | 0 <= i < j < |paths| ensures before(paths[i], paths[j]) {
      assert ByPath(before)(children[i], children[j]);
    }
  }

  lemma PathsOfMembers(entries: seq<Walked>)
    ensures forall q :: q in PathsOf(entries) <==> exists e :: e in entries && e.path == q
  {
    forall q ensures q in PathsOf(entries) <==> exists e :: e in entries && e.path == q {
      if q in PathsOf(entries) {
        var i :| 0 <= i < |entries| && PathsOf(entries)[i] == q;
        assert entries[i] in entries;
      }
      if e :| e in entries && e.path == q {
        var i :| 0 <= i < |entries| && entries[i] == e;
        assert PathsOf(entries)[i] == q;
      }
    }
  }

  /** Sorting a group lists the children of its directory. */
  lemma GroupSorted(before: (Path, Path) -> bool, walked: seq<Walked>, root: Path, p: Path)
    requires Total(before) && DistinctPaths(walked) && root <= p
    ensures PathsOf(Sort(ByPath(before), Group(walked, root, p))) == KidsOf(before, KnownOf(walked), p)
    ensures forall e | e in Sort(ByPath(before), Group(walked, root, p)) :: e in walked
  {
    var known := KnownOf(walked);
    GroupDistinct(walked, root, p);
    GroupMembers(walked, root, p);
    KnownMeans(walked);
    SortedByPath(before, Group(walked, root, p));
    hide Group, KnownOf, Sort, TotalOn, Sorted, Total;
    var children := Sort(ByPath(before), Group(walked, root, p));
    PathsOfMembers(children);
    forall q ensures q in Elements(PathsOf(children)) <==> q in Children(known.Keys, p) {
      if q in Children(known.Keys, p) {
        assert known[q] in walked && |q| > |p|;
        assert known[q] in children;
      }
      if e :| e in children && e.path == q {
        assert e in walked && IsChild(p, q) by { assert e.path == [] ==> root == p == []; }
      }
    }
    TotalEverywhere(before, Elements(PathsOf(children)));
    SortedIsUnique(before, PathsOf(children), KidsOf(before, known, p));
  }

  lemma AllStep(before: (Path, Path) -> bool, known: Known, p: Path, kids: seq<Path>, i: nat)
    requires Total(before) && Siblings(known, p, kids) && i < |kids|
    ensures kids[i] in known && IsChild(p, kids[i])
    ensures Siblings(known, p, kids[..i]) && Siblings(known, p, kids[..i + 1])
    ensures var a, b := VisitAll(before, known, p, kids[..i]), VisitOne(before, known, p, kids[i]);
            VisitAll(before, known, p, kids[..i + 1]) == Out(a.records + b.records, a.bytes + b.bytes)
  {
    assert kids[i] in kids;
    assert kids[..i + 1][..i] == kids[..i];
  }

  lemma VisitDone(before: (Path, Path) -> bool, known: Known, p: Path, kids: seq<Path>)
    requires Total(before) && kids == KidsOf(before, known, p)
    ensures Siblings(known, p, kids) && Siblings(known, p, kids[..|kids|])
    ensures var all := VisitAll(before, known, p, kids[..|kids|]);
            var bytes := DIR_BLOCK + all.bytes;
            Visit(before, known, p)
              == Out(all.records + [Record(bytes, if p in known then Some(known[p].mtime) else None, p)], bytes)
  {
    assert kids[..|kids|] == kids;
  }

  lemma VisitNone(before: (Path, Path) -> bool, known: Known, p: Path, kids: seq<Path>)
    requires Total(before)
    ensures Siblings(known, p, kids[..0]) && VisitAll(before, known, p, kids[..0]) == Out([], 0)
  {}

  lemma OneIs(before: (Path, Path) -> bool, known: Known, p: Path, child: Walked)
    requires Total(before) && child.path in known && known[child.path] == child && IsChild(p, child.path)
    ensures VisitOne(before, known, p, child.path)
         == if child.kind.DirEntry? then Visit(before, known, child.path) else Out([LeafRecord(child)], child.size)
  {}

  /** `byParent` after the first loop: every directory's entries, as they were walked. */
  ghost predicate Grouped(walked: seq<Walked>, root: Path, byParent: map<Path, seq<Walked>>) {
    forall p :: Get(byParent, p) == Group(walked, root, p)
  }

  ghost predicate Ready(known: Known, byParent: map<Path, seq<Walked>>, root: Path, walked: seq<Walked>) {
    DistinctPaths(walked) && known == KnownOf(walked) && Grouped(walked, root, byParent)
  }

  /** The children of `path`, sorted: the list the loop of `visit` runs over. */
  method SortedChildren(before: (Path, Path) -> bool, known: Known, byParent: map<Path, seq<Walked>>,
                        root: Path, path: Path, ghost walked: seq<Walked>)
    returns (children: seq<Walked>)
    requires Total(before) && Ready(known, byParent, root, walked) && root <= path
    ensures PathsOf(children) == KidsOf(before, known, path)
    ensures forall e | e in children :: e.path in known && known[e.path] == e
  {
    children := Sort(ByPath(before), Get(byParent, path));
    GroupSorted(before, walked, root, path);
    KnownMeans(walked);
  }

  /** The closure `visit`, over the two maps. */
  method VisitDirectory(before: (Path, Path) -> bool, known: Known, byParent: map<Path, seq<Walked>>,
                        root: Path, path: Path, ghost walked: seq<Walked>)
    returns (records: seq<Record>, bytes: nat)
    requires Total(before) && Ready(known, byParent, root, walked) && root <= path
    ensures Out(records, bytes) == Visit(before, known, path)
    decreases Below(known.Keys, path)
  {
    hide *;
    var children := SortedChildren(before, known, byParent, root, path, walked);
    ghost var kids := PathsOf(children);
    VisitDone(before, known, path, kids);
    VisitNone(before, known, path, kids);
    records, bytes := [], DIR_BLOCK;
    for i := 0 to |children|
      invariant Siblings(known, path, kids[..i])
      invariant records == VisitAll(before, known, path, kids[..i]).records
      invariant bytes == DIR_BLOCK + VisitAll(before, known, path, kids[..i]).bytes
    {
      var child := children[i];
      AllStep(before, known, path, kids, i);
      ChildBelow(known.Keys, path, child.path);
      ChildUnder(root, path, child.path);
      OneIs(before, known, path, child);
      if child.kind.DirEntry? {
        var inner, sum := VisitDirectory(before, known, byParent, root, child.path, walked);
        records, bytes := records + inner, bytes + sum;
      } else {
        records, bytes := records + [LeafRecord(child)], bytes + child.size;
      }
    }
    records := records + [Record(bytes, if path in known then Some(known[path].mtime) else None, path)];
  }

  lemma ChildUnder(root: Path, p: Path, q: Path)
    requires root <= p && IsChild(p, q)
    ensures root <= q
  {}

  /** `duRecords` */
  method DuRecords(before: (Path, Path) -> bool, root: Path, walked: seq<Walked>) returns (records: seq<Record>)
    requires Total(before) && DistinctPaths(walked)
    ensures records == Visit(before, KnownOf(walked), root).records
  {
    var byParent: map<Path, seq<Walked>> := map[];
    var known: Known := map[];
    for i := 0 to |walked|
      invariant known == KnownOf(walked[..i])
      invariant Grouped(walked[..i], root, byParent)
    {
      var entry := walked[i];
      assert walked[..i + 1][..i] == walked[..i];
      known := known[entry.path := entry];
      if entry.path == root { continue; }
      var parent := DirName(entry.path);
      byParent := byParent[parent := Get(byParent, parent) + [entry]];
    }
    assert walked[..|walked|] == walked;
    var total: nat;
    records, total := VisitDirectory(before, known, byParent, root, root, walked);
  }

  // ------------------------------------------------------------------ the walk of the disk

  /** A directory above everything, down from `[]`. */
  ghost predicate TreeClosed(t: Tree) {
    && [] in t && t[[]].Dir?
    && (forall q | q in t && q != [] :: Up(q) in t && t[Up(q)].Dir?)
  }

  /** What `lstat` says of a node. */
  function WalkedAt(t: Tree, p: Path): Walked
    requires p in t
  {
    match t[p]
    case Dir(_, mtime) => Walked(p, DirEntry, 0, mtime)
    case File(content, _, mtime) => Walked(p, FileEntry, |content|, mtime)
    case Link(target, mtime) => Walked(p, LinkEntry, |target|, mtime)
  }

  /** The tree as a walk sees it. */
  function Seen(t: Tree): Known {
    map q | q in t :: WalkedAt(t, q)
  }

  lemma SeenClosed(t: Tree)
    requires TreeClosed(t)
    ensures Closed(Seen(t), [])
  {}

  /** `out` lists exactly the paths of `s`, once each, as the tree has them. */
  ghost predicate Lists(t: Tree, s: set<Path>, out: seq<Walked>) {
    && DistinctPaths(out)
    && (forall e | e in out :: e.path in t && e.path in s && e == WalkedAt(t, e.path))
    && (forall q | q in s :: q in t && WalkedAt(t, q) in out)
  }

  lemma ListsJoin(t: Tree, s1: set<Path>, s2: set<Path>, xs: seq<Walked>, ys: seq<Walked>)
    requires Lists(t, s1, xs) && Lists(t, s2, ys) && s1 !! s2
    ensures Lists(t, s1 + s2, xs + ys)
  {
    var all := xs + ys;
    forall i, j | 0 <= i < j < |all| ensures all[i].path != all[j].path {
      if i < |xs| <= j {
        assert xs[i] in xs && ys[j - |xs|] in ys;
      }
    }
    assert forall e :: e in all <==> e in xs || e in ys;
  }

  /** `readdirSync(path).sort()`, as full paths. */
  method ReadDir(order: (Path, Path) -> bool, t: Tree, path: Path) returns (names: seq<Path>)
    requires Total(order)
    ensures names == KidsOf(order, Seen(t), path)
  {
    var found: seq<Path> := [];
    var left := set q | q in t && IsChild(path, q);
    ghost var all := left;
    while left != {}
      invariant left <= all && Distinct(found)
      invariant forall q :: q in found <==> q in all - left
      decreases left
    {
      var q :| q in left;
      assert forall i | 0 <= i < |found| :: found[i] in found;
      found := found + [q];
      left := left - {q};
    }
    assert Elements(found) == Children(Seen(t).Keys, path);
    TotalEverywhere(order, Elements(found));
    SortIsListing(order, found);
    names := Sort(order, found);
  }

  lemma NamesStep(t: Tree, path: Path, names: seq<Path>, i: nat)
    requires TreeClosed(t) && i < |names| && Siblings(Seen(t), path, names) && Distinct(names)
    ensures names[i] in t && IsChild(path, names[i])
    ensures {path} + UnderAny(Seen(t), names[..i + 1])
         == ({path} + UnderAny(Seen(t), names[..i])) + AtOrUnder(Seen(t), names[i])
    ensures {path} + UnderAny(Seen(t), names[..i]) !! AtOrUnder(Seen(t), names[i])
  {
    var upTo := names[..i + 1];
    assert upTo[..i] == names[..i] && names[i] in names;
    SiblingsApart(Seen(t), path, upTo);
    ChildBelow(t.Keys, path, names[i]);
  }

  /** One name of a directory: its own listing when it is not a directory. */
  lemma LeafListed(t: Tree, q: Path)
    requires TreeClosed(t) && q in t && !t[q].Dir?
    ensures Lists(t, AtOrUnder(Seen(t), q), [WalkedAt(t, q)])
  {
    SeenClosed(t);
    LeafAlone(Seen(t), [], q);
  }

  /**
   * `walkDisk`, from a directory: the directory, then everything under each of
   * its names, sorted.
   */
  method WalkDisk(order: (Path, Path) -> bool, t: Tree, path: Path) returns (out: seq<Walked>)
    requires Total(order) && TreeClosed(t) && path in t && t[path].Dir?
    ensures Lists(t, AtOrUnder(Seen(t), path), out)
    decreases Below(t.Keys, path)
  {
    var names := ReadDir(order, t, path);
    WalkBegun(order, t, path, names);
    out := [WalkedAt(t, path)];
    for i := 0 to |names|
      invariant Lists(t, {path} + UnderAny(Seen(t), names[..i]), out)
    {
      hide *;
      var q := names[i];
      NamesStep(t, path, names, i);
      ChildBelow(t.Keys, path, q);
      var inner := [WalkedAt(t, q)];
      if t[q].Dir? {
        inner := WalkDisk(order, t, q);
      } else {
        LeafListed(t, q);
      }
      ListsJoin(t, {path} + UnderAny(Seen(t), names[..i]), AtOrUnder(Seen(t), q), out, inner);
      out := out + inner;
    }
  }

  lemma WalkBegun(order: (Path, Path) -> bool, t: Tree, path: Path, names: seq<Path>)
    requires Total(order) && TreeClosed(t) && path in t && t[path].Dir?
    requires names == KidsOf(order, Seen(t), path)
    ensures Siblings(Seen(t), path, names) && Distinct(names)
    ensures Lists(t, {path} + UnderAny(Seen(t), names[..0]), [WalkedAt(t, path)])
    ensures {path} + UnderAny(Seen(t), names[..|names|]) == AtOrUnder(Seen(t), path)
  {
    SeenClosed(t);
    TreeOfDir(Seen(t), [], path, names);
    assert names[..|names|] == names;
    assert UnderAny(Seen(t), names[..0]) == {};
  }

  /** The loader's walk is the tree itself, and closed: what `duRecords` needs of it. */
  lemma {:induction false} WalkIsKnown(t: Tree, walked: seq<Walked>)
    requires TreeClosed(t) && Lists(t, AtOrUnder(Seen(t), []), walked)
    ensures KnownOf(walked) == Seen(t) && Closed(KnownOf(walked), [])
  {
    SeenClosed(t);
    KnownMeans(walked);
    var known := KnownOf(walked);
    forall q | q in t ensures q in known && known[q] == WalkedAt(t, q) {
      assert q in AtOrUnder(Seen(t), []);
      assert WalkedAt(t, q) in walked;
    }
    forall q | q in known ensures q in t { assert known[q] in walked; }
  }

  // ------------------------------------------------------------------ the machine's own du

  /** The flags of `Machine.du` that shape its records. */
  datatype DuFlags = DuFlags(kib: bool, summary: bool, all: bool)

  /** A path that need not be a directory. */
  ghost function VisitAny(order: (Path, Path) -> bool, known: Known, p: Path): Out
    requires Total(order) && p in known
  {
    if known[p].kind.DirEntry? then Visit(order, known, p) else Out([LeafRecord(known[p])], known[p].size)
  }

  function Unit(flags: DuFlags, bytes: nat): nat {
    if flags.kib then (bytes + 1023) / 1024 else bytes
  }

  function PrintOne(flags: DuFlags, isDir: bool, r: Record): seq<Record> {
    if !flags.summary && (isDir || flags.all) then [r.(bytes := Unit(flags, r.bytes))] else []
  }

  /** What the flags leave of a full stream: its directories, or everything, or nothing; in bytes or in KiB. */
  function Printed(flags: DuFlags, known: Known, records: seq<Record>): seq<Record> {
    if records == [] then []
    else
      var r := records[|records| - 1];
      Printed(flags, known, records[..|records| - 1])
        + PrintOne(flags, r.path in known && known[r.path].kind.DirEntry?, r)
  }

  lemma {:induction false} PrintedConcat(flags: DuFlags, known: Known, xs: seq<Record>, ys: seq<Record>)
    ensures Printed(flags, known, xs + ys) == Printed(flags, known, xs) + Printed(flags, known, ys)
  {
    if ys == [] {
      assert xs + ys == xs;
    } else {
      assert (xs + ys)[..|xs + ys| - 1] == xs + ys[..|ys| - 1];
      PrintedConcat(flags, known, xs, ys[..|ys| - 1]);
    }
  }

  lemma PrintedSingle(flags: DuFlags, known: Known, r: Record)
    ensures Printed(flags, known, [r]) == PrintOne(flags, r.path in known && known[r.path].kind.DirEntry?, r)
  {
    assert [r][..0] == [];
  }

  /** The closure `walk`: the same charges as `visit`, on the disk itself and in the order of names. */
  method DuWalk(order: (Path, Path) -> bool, t: Tree, path: Path, flags: DuFlags)
    returns (out: seq<Record>, total: nat)
    requires Total(order) && path in t
    ensures total == VisitAny(order, Seen(t), path).bytes
    ensures out == Printed(flags, Seen(t), VisitAny(order, Seen(t), path).records)
    decreases Below(t.Keys, path)
  {
    hide *;
    var info := WalkedAt(t, path);
    WalkOnLeaf(order, t, path, flags);
    if !info.kind.DirEntry? {
      return PrintOne(flags, false, LeafRecord(info)), info.size;
    }
    var names := ReadDir(order, t, path);
    out, total := [], DIR_BLOCK;
    VisitDone(order, Seen(t), path, names);
    VisitNone(order, Seen(t), path, names);
    PrintedNone(flags, Seen(t));
    for i := 0 to |names|
      invariant Siblings(Seen(t), path, names[..i])
      invariant total == DIR_BLOCK + VisitAll(order, Seen(t), path, names[..i]).bytes
      invariant out == Printed(flags, Seen(t), VisitAll(order, Seen(t), path, names[..i]).records)
    {
      AllStep(order, Seen(t), path, names, i);
      WalkStep(order, t, path, names[i]);
      var inner, sum := DuWalk(order, t, names[i], flags);
      PrintedConcat(flags, Seen(t), VisitAll(order, Seen(t), path, names[..i]).records,
                    VisitOne(order, Seen(t), path, names[i]).records);
      out, total := out + inner, total + sum;
    }
    WalkOwn(order, t, path, flags, names, total);
    out := out + PrintOne(flags, true, Record(total, Some(info.mtime), path));
  }

  lemma PrintedNone(flags: DuFlags, known: Known)
    ensures Printed(flags, known, []) == []
  {}

  lemma WalkOnLeaf(order: (Path, Path) -> bool, t: Tree, path: Path, flags: DuFlags)
    requires Total(order) && path in t
    ensures path in Seen(t) && Seen(t)[path] == WalkedAt(t, path)
    ensures WalkedAt(t, path).kind.DirEntry? <==> t[path].Dir?
    ensures !WalkedAt(t, path).kind.DirEntry? ==>
              VisitAny(order, Seen(t), path) == Out([LeafRecord(WalkedAt(t, path))], WalkedAt(t, path).size)
              && Printed(flags, Seen(t), [LeafRecord(WalkedAt(t, path))])
                 == PrintOne(flags, false, LeafRecord(WalkedAt(t, path)))
    ensures WalkedAt(t, path).kind.DirEntry? ==> VisitAny(order, Seen(t), path) == Visit(order, Seen(t), path)
  {
    PrintedSingle(flags, Seen(t), LeafRecord(WalkedAt(t, path)));
  }

  lemma WalkStep(order: (Path, Path) -> bool, t: Tree, path: Path, q: Path)
    requires Total(order) && q in Seen(t) && IsChild(path, q)
    ensures q in t && Below(t.Keys, q) < Below(t.Keys, path)
    ensures VisitOne(order, Seen(t), path, q) == VisitAny(order, Seen(t), q)
  {
    ChildBelow(t.Keys, path, q);
  }

  lemma WalkOwn(order: (Path, Path) -> bool, t: Tree, path: Path, flags: DuFlags, names: seq<Path>, total: nat)
    requires Total(order) && path in t && t[path].Dir? && names == KidsOf(order, Seen(t), path)
    requires total == DIR_BLOCK + VisitAll(order, Seen(t), path, names[..|names|]).bytes
    ensures Visit(order, Seen(t), path).bytes == total
    ensures Printed(flags, Seen(t), Visit(order, Seen(t), path).records)
         == Printed(flags, Seen(t), VisitAll(order, Seen(t), path, names[..|names|]).records)
            + PrintOne(flags, true, Record(total, Some(WalkedAt(t, path).mtime), path))
  {
    hide KidsOf, VisitAll, Printed, PrintOne;
    VisitDone(order, Seen(t), path, names);
    var own := Record(total, Some(WalkedAt(t, path).mtime), path);
    PrintedSingle(flags, Seen(t), own);
    PrintedConcat(flags, Seen(t), VisitAll(order, Seen(t), path, names[..|names|]).records, [own]);
    assert Visit(order, Seen(t), path).records
        == VisitAll(order, Seen(t), path, names[..|names|]).records + [own];
  }

  /**
   * `duRecords` sorts siblings by collation and the machine sorts them by code
   * unit; the records are the same ones, figure by figure, whatever the orders.
   */
  lemma {:induction false} OrdersAgree(before: (Path, Path) -> bool, order: (Path, Path) -> bool, known: Known,
                                       root: Path, p: Path)
    requires Total(before) && Total(order) && Closed(known, root) && p in known && known[p].kind.DirEntry?
    ensures Visit(before, known, p).bytes == Visit(order, known, p).bytes == Figure(known, p)
    ensures multiset(Visit(before, known, p).records) == multiset(Visit(order, known, p).records)
  {
    VisitMeans(before, known, root, p);
    VisitMeans(order, known, root, p);
    var xs, ys := Visit(before, known, p).records, Visit(order, known, p).records;
    CoveredCount(known, AtOrUnder(known, p), xs);
    CoveredCount(known, AtOrUnder(known, p), ys);
    forall r ensures multiset(xs)[r] == multiset(ys)[r] {
      assert r in xs <==> r in ys;
    }
  }

  lemma CoveredCount(known: Known, s: set<Path>, records: seq<Record>)
    requires Covers(known, s, records)
    ensures forall r :: multiset(records)[r] == if r in records then 1 else 0
  {
    OncePerPath(records);
    forall r ensures multiset(records)[r] == if r in records then 1 else 0 {
      DistinctCount(records, r);
    }
  }

  /** `du -a` in bytes leaves nothing out and nothing as it was not. */
  lemma {:induction false} AllPrinted(known: Known, records: seq<Record>)
    ensures Printed(DuFlags(false, false, true), known, records) == records
  {
    if records != [] { AllPrinted(known, records[..|records| - 1]); }
  }

  /** So the machine's own `du -a`, in bytes, prints of a directory the records the replay has, in its own order. */
  lemma MachineAgrees(before: (Path, Path) -> bool, order: (Path, Path) -> bool, t: Tree, root: Path, p: Path)
    requires Total(before) && Total(order) && Closed(Seen(t), root) && p in t && t[p].Dir?
    ensures multiset(Printed(DuFlags(false, false, true), Seen(t), VisitAny(order, Seen(t), p).records))
         == multiset(Visit(before, Seen(t), p).records)
  {
    AllPrinted(Seen(t), VisitAny(order, Seen(t), p).records);
    OrdersAgree(before, order, Seen(t), root, p);
  }
}
