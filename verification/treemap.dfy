/**
 * `front/src/helpers/treemap.ts`: the strip of bands under a directory.
 *
 * At most five entries are named, largest first, and the rest is one band, so
 * that the strip is a partition of its parent.  Sizes are exact; shares are
 * millionths, rounded toward zero.
 */
module Treemap {
  import opened Orders
  import opened Sums
  import Paths

  datatype Option<T> = None | Some(value: T)
  datatype Kind = Regular | Directory | Symlink | Other

  /** A scan's entry; `bytes` is what its text reads as, if it is a number at all. */
  datatype Entry = Entry(path: string, bytes: Option<int>, kind: Kind, denied: bool)
  datatype Level = Level(parentBytes: Option<int>, entries: seq<Entry>)
  datatype Band = Band(path: Option<string>, isDirectory: bool, denied: bool, text: string, bytes: int, millionths: int)

  const MAX_BANDS := 5
  const SCALE := 1_000_000
  const REST := "rest"

  /** A malformed size is no size. */
  function ToBytes(value: Option<int>): int {
    if value.Some? then value.value else 0
  }

  function SizeOf(e: Entry): int { ToBytes(e.bytes) }

  /** `BigInt` division rounds toward zero. */
  function ShareOf(bytes: int, total: int): int
    requires total > 0
  {
    if bytes >= 0 then bytes * SCALE / total else -(-bytes * SCALE / total)
  }

  function LastSegment(path: string): string {
    var segments := Paths.Segments(path);
    if segments == [] then path else segments[|segments| - 1]
  }

  function Nameable(entries: seq<Entry>): seq<Entry> {
    if entries == [] then []
    else (if entries[0].kind.Other? then [] else [entries[0]]) + Nameable(entries[1..])
  }

  function Larger(before: (string, string) -> bool): (Entry, Entry) -> bool {
    (x: Entry, y: Entry) => SizeOf(x) > SizeOf(y) || (SizeOf(x) == SizeOf(y) && before(x.path, y.path))
  }

  function Cut(entries: seq<Entry>): seq<Entry> {
    if |entries| <= MAX_BANDS then entries else entries[..MAX_BANDS]
  }

  function Named(before: (string, string) -> bool, level: Level): seq<Entry> {
    Cut(Sort(Larger(before), Nameable(level.entries)))
  }

  function BandOf(e: Entry, total: int): Band
    requires total > 0
  {
    Band(Some(e.path), e.kind.Directory?, e.denied, LastSegment(e.path), SizeOf(e), ShareOf(SizeOf(e), total))
  }

  function BandsOf(named: seq<Entry>, total: int): (r: seq<Band>)
    requires total > 0
    ensures |r| == |named|
  {
    if named == [] then [] else [BandOf(named[0], total)] + BandsOf(named[1..], total)
  }

  /** The band of what is left, if anything is. */
  function TailOf(rest: int, total: int): seq<Band>
    requires total > 0
  {
    if rest > 0 then [Band(None, false, false, REST, rest, ShareOf(rest, total))] else []
  }

  /** The bands of the named, and the tail that is left of the total. */
  function BandsFor(named: seq<Entry>, total: int): seq<Band> {
    if total <= 0 then []
    else
      var rest := total - Sum(SizeOf, named);
      BandsOf(named, total) + TailOf(rest, total)
  }

  function TreemapBands(before: (string, string) -> bool, level: Level): seq<Band> {
    BandsFor(Named(before, level), ToBytes(level.parentBytes))
  }

  // ------------------------------------------------------------------ which are named

  lemma LargerIsWeak(before: (string, string) -> bool, s: set<Entry>)
    requires Total(before)
    ensures WeakOn(Larger(before), s)
  {
    var larger := Larger(before);
    forall x, y | x in s && y in s && larger(x, y) ensures !larger(y, x) {
      assert before(x.path, y.path) && before(y.path, x.path) ==> before(x.path, x.path);
    }
    forall x, y, z | x in s && y in s && z in s && !larger(y, x) && !larger(z, y) ensures !larger(z, x) {
      assert x.path == y.path || before(x.path, y.path) || before(y.path, x.path);
      assert y.path == z.path || before(y.path, z.path) || before(z.path, y.path);
      assert before(x.path, y.path) && before(y.path, z.path) ==> before(x.path, z.path);
      assert before(z.path, x.path) && before(x.path, z.path) ==> before(z.path, z.path);
    }
  }

  /**
   * The named are the first of one largest-first order of every entry that may
   * be named; what is left out of them is no larger than any of them.
   */
  lemma NamedAreTheLargest(before: (string, string) -> bool, level: Level) returns (left: seq<Entry>)
    requires Total(before)
    ensures var named := Named(before, level);
            && multiset(named + left) == multiset(Nameable(level.entries))
            && |named| == (if |Nameable(level.entries)| < MAX_BANDS then |Nameable(level.entries)| else MAX_BANDS)
            && InOrder(Larger(before), named)
            && (forall x, y | x in named && y in left :: SizeOf(x) >= SizeOf(y))
  {
    var larger, may := Larger(before), Nameable(level.entries);
    var sorted, named := Sort(larger, may), Named(before, level);
    LargerIsWeak(before, Elements(may));
    SortInOrder(larger, may);
    CutIs(sorted);
    left := sorted[|named|..];
    assert named == Cut(sorted);
    hide *;
    FrontNotBehind(larger, sorted, |named|);
    forall x, y | x in named && y in left ensures SizeOf(x) >= SizeOf(y) {
      NotLarger(before, x, y);
    }
  }

  lemma CutIs(sorted: seq<Entry>)
    ensures var named := Cut(sorted);
            && |named| == (if |sorted| < MAX_BANDS then |sorted| else MAX_BANDS)
            && named == sorted[..|named|] && named + sorted[|named|..] == sorted
  {
  }

  lemma NotLarger(before: (string, string) -> bool, x: Entry, y: Entry)
    requires !Larger(before)(y, x)
    ensures SizeOf(x) >= SizeOf(y)
  {
  }

  lemma FrontNotBehind(larger: (Entry, Entry) -> bool, sorted: seq<Entry>, k: nat)
    requires InOrder(larger, sorted) && k <= |sorted|
    ensures InOrder(larger, sorted[..k])
    ensures forall x, y | x in sorted[..k] && y in sorted[k..] :: !larger(y, x)
  {
    var front, back := sorted[..k], sorted[k..];
    forall i, j | 0 <= i < k && 0 <= j < |back| ensures !larger(back[j], front[i]) {
      assert back[j] == sorted[k + j] && front[i] == sorted[i];
    }
  }

  ghost predicate DistinctPaths(entries: seq<Entry>) {
    forall i, j | 0 <= i < j < |entries| :: entries[i].path != entries[j].path
  }

  lemma LargerIsTotal(before: (string, string) -> bool, may: seq<Entry>)
    requires Total(before) && DistinctPaths(may)
    ensures TotalOn(Larger(before), Elements(may)) && Distinct(may)
  {
    var larger, s := Larger(before), Elements(may);
    forall x, y | x in s && y in s && x != y ensures larger(x, y) || larger(y, x) {
      var i :| 0 <= i < |may| && may[i] == x;
      var j :| 0 <= j < |may| && may[j] == y;
      assert x.path != y.path;
    }
    forall x, y, z | x in s && y in s && z in s && larger(x, y) && larger(y, z) ensures larger(x, z) {
      assert before(x.path, y.path) && before(y.path, z.path) ==> before(x.path, z.path);
    }
  }

  lemma SameSort(larger: (Entry, Entry) -> bool, a: seq<Entry>, b: seq<Entry>)
    requires multiset(a) == multiset(b) && TotalOn(larger, Elements(a)) && Distinct(a)
    ensures Sort(larger, a) == Sort(larger, b)
  {
    MembersByMultiset(a, b);
    DistinctByMultiset(a, b);
    SortIsListing(larger, a);
    SortIsListing(larger, b);
  }

  lemma SameNamed(before: (string, string) -> bool, a: Level, b: Level)
    requires Total(before)
    requires multiset(Nameable(a.entries)) == multiset(Nameable(b.entries)) && DistinctPaths(Nameable(a.entries))
    ensures Named(before, a) == Named(before, b)
  {
    LargerIsTotal(before, Nameable(a.entries));
    SameSort(Larger(before), Nameable(a.entries), Nameable(b.entries));
    hide Nameable;
  }

  /** The order the server sent the entries in cannot be seen. */
  lemma {:induction false} BandsIgnoreTheirOrder(before: (string, string) -> bool, a: Level, b: Level)
    requires Total(before) && a.parentBytes == b.parentBytes
    requires multiset(Nameable(a.entries)) == multiset(Nameable(b.entries)) && DistinctPaths(Nameable(a.entries))
    ensures TreemapBands(before, a) == TreemapBands(before, b)
  {
    SameNamed(before, a, b);
    hide Named, Nameable, BandsFor;
  }

  /** Every entry may be named but the one the server folded. */
  lemma {:induction false} NameableAreSome(entries: seq<Entry>)
    ensures forall x :: x in Nameable(entries) <==> x in entries && !x.kind.Other?
  {
    if entries != [] { NameableAreSome(entries[1..]); }
  }

  // ------------------------------------------------------------------ a partition

  function BandBytes(b: Band): int { b.bytes }
  function BandMillionths(b: Band): int { b.millionths }

  lemma {:induction false} BandsCarry(named: seq<Entry>, total: int)
    requires total > 0
    ensures Sum(BandBytes, BandsOf(named, total)) == Sum(SizeOf, named)
    ensures (forall e | e in named :: SizeOf(e) >= 0) ==> forall b | b in BandsOf(named, total) :: b.bytes >= 0
    ensures forall b | b in BandsOf(named, total) :: b.millionths == ShareOf(b.bytes, total)
  {
    if named != [] {
      BandsCarry(named[1..], total);
      var r := BandsOf(named, total);
      assert r[0] == BandOf(named[0], total) && r[1..] == BandsOf(named[1..], total);
    }
  }

  lemma TailCarries(rest: int, total: int)
    requires total > 0
    ensures Sum(BandBytes, TailOf(rest, total)) == if rest > 0 then rest else 0
    ensures forall b | b in TailOf(rest, total) :: b.millionths == ShareOf(b.bytes, total) && b.bytes > 0
  {
    if rest > 0 { assert TailOf(rest, total)[1..] == []; }
  }

  lemma BandsAre(before: (string, string) -> bool, level: Level)
    requires ToBytes(level.parentBytes) > 0
    ensures var total, named := ToBytes(level.parentBytes), Named(before, level);
            TreemapBands(before, level) == BandsOf(named, total) + TailOf(total - Sum(SizeOf, named), total)
  {
    hide Sum, Named;
  }

  /** The bands add up to their parent exactly while the named ones do not exceed it. */
  lemma BandsPartition(before: (string, string) -> bool, level: Level)
    requires ToBytes(level.parentBytes) > 0
    ensures Sum(BandBytes, TreemapBands(before, level)) == ToBytes(level.parentBytes)
      <==> Sum(SizeOf, Named(before, level)) <= ToBytes(level.parentBytes)
    ensures forall b | b in TreemapBands(before, level) :: b.millionths == ShareOf(b.bytes, ToBytes(level.parentBytes))
  {
    var total, named := ToBytes(level.parentBytes), Named(before, level);
    hide *;
    BandsAre(before, level);
    BandsCarry(named, total);
    TailCarries(total - Sum(SizeOf, named), total);
    SumConcat(BandBytes, BandsOf(named, total), TailOf(total - Sum(SizeOf, named), total));
  }

  /** A level as the server promises it: sizes that add up to their parent's. */
  ghost predicate AddsUp(level: Level) {
    && (forall e | e in level.entries :: SizeOf(e) >= 0)
    && Sum(SizeOf, level.entries) == ToBytes(level.parentBytes)
  }

  lemma {:induction false} NameableWeighNoMore(entries: seq<Entry>)
    requires forall e | e in entries :: SizeOf(e) >= 0
    ensures Sum(SizeOf, Nameable(entries)) <= Sum(SizeOf, entries)
  {
    if entries != [] {
      NameableWeighNoMore(entries[1..]);
      var may := Nameable(entries);
      if entries[0].kind.Other? {
        assert may == Nameable(entries[1..]);
      } else {
        assert may[0] == entries[0] && may[1..] == Nameable(entries[1..]);
      }
    }
  }

  lemma NamedWeighNoMore(before: (string, string) -> bool, level: Level)
    requires forall e | e in level.entries :: SizeOf(e) >= 0
    ensures Sum(SizeOf, Named(before, level)) <= Sum(SizeOf, level.entries)
    ensures forall e | e in Named(before, level) :: SizeOf(e) >= 0
  {
    var may := Nameable(level.entries);
    var sorted, named := Sort(Larger(before), may), Named(before, level);
    NameableAreSome(level.entries);
    NameableWeighNoMore(level.entries);
    CutIs(sorted);
    assert named == Cut(sorted);
    hide *;
    MembersByMultiset(sorted, may);
    SumByMultiset(SizeOf, sorted, may);
    WeighFront(named, sorted[|named|..]);
  }

  lemma WeighFront(front: seq<Entry>, back: seq<Entry>)
    requires forall e | e in front + back :: SizeOf(e) >= 0
    ensures Sum(SizeOf, front) <= Sum(SizeOf, front + back)
    ensures forall e | e in front :: SizeOf(e) >= 0
  {
    forall e | e in front || e in back ensures e in front + back {}
    SumConcat(SizeOf, front, back);
    SumOfSome(SizeOf, back);
  }

  /** The strip of a level that adds up is a partition of it, with no band below nothing. */
  lemma StripIsAPartition(before: (string, string) -> bool, level: Level)
    requires AddsUp(level) && ToBytes(level.parentBytes) > 0
    ensures Sum(BandBytes, TreemapBands(before, level)) == ToBytes(level.parentBytes)
    ensures forall b | b in TreemapBands(before, level) :: b.bytes >= 0
  {
    NamedWeighNoMore(before, level);
    BandsPartition(before, level);
    BandsCarry(Named(before, level), ToBytes(level.parentBytes));
  }

  // ------------------------------------------------------------------ shares

  /** One share falls short of its band by less than a millionth of the whole. */
  lemma ShareFallsShort(bytes: int, total: int)
    requires total > 0 && bytes >= 0
    ensures 0 <= bytes * SCALE - total * ShareOf(bytes, total) <= total - 1
  {
    var scaled := bytes * SCALE;
    assert scaled == total * (scaled / total) + scaled % total;
  }

  lemma OneMore(total: int, share: int, shares: int, n: nat)
    ensures total * (share + shares) == total * share + total * shares
    ensures (n + 1) * (total - 1) == (total - 1) + n * (total - 1)
  {
  }

  lemma {:induction false} SharesFallShort(bands: seq<Band>, total: int)
    requires total > 0
    requires forall b | b in bands :: b.bytes >= 0 && b.millionths == ShareOf(b.bytes, total)
    ensures 0 <= Sum(BandBytes, bands) * SCALE - total * Sum(BandMillionths, bands) <= |bands| * (total - 1)
  {
    if bands != [] {
      var b, rest := bands[0], bands[1..];
      assert b in bands;
      SharesFallShort(rest, total);
      ShareFallsShort(b.bytes, total);
      OneMore(total, b.millionths, Sum(BandMillionths, rest), |rest|);
    }
  }

  /** `n` parts of a whole, each rounded down, miss it by less than `n`. */
  lemma MissByLess(total: int, shares: int, n: nat)
    requires total > 0 && n > 0
    requires 0 <= total * SCALE - total * shares <= n * (total - 1)
    ensures SCALE - n < shares <= SCALE
  {
    var missing := SCALE - shares;
    assert total * missing == total * SCALE - total * shares;
    assert n * (total - 1) == n * total - n;
    Grows(total, n, missing);
  }

  lemma Grows(total: int, n: int, m: int)
    requires total > 0
    ensures n <= m ==> total * n <= total * m
    ensures m < 0 ==> total * m < 0
  {
  }

  /** The shares of `n` bands add up to more than the whole less `n` millionths, and to no more than it. */
  lemma SharesAlmostFill(before: (string, string) -> bool, level: Level)
    requires AddsUp(level) && ToBytes(level.parentBytes) > 0
    ensures var bands := TreemapBands(before, level);
            bands != [] && SCALE - |bands| < Sum(BandMillionths, bands) <= SCALE
  {
    var bands, total := TreemapBands(before, level), ToBytes(level.parentBytes);
    StripIsAPartition(before, level);
    BandsPartition(before, level);
    SharesFallShort(bands, total);
    assert bands != [];
    MissByLess(total, Sum(BandMillionths, bands), |bands|);
  }
}
