/**
 * `front/src/helpers/listing.ts`: the order of a pane's rows, and the path
 * algebra that following a link or a breadcrumb relies on.
 */
module Listing {
  import opened Orders
  import opened Paths

  datatype Option<T> = None | Some(value: T)

  datatype RowType = DirType | FileType | LinkType | OtherType

  /** A row; `mtime` is what `Date.parse` makes of the column, `None` where it is `NaN`. */
  datatype Row = Row(name: string, kind: RowType, size: Option<int>, mode: string, owner: string, mtime: Option<int>)

  datatype SortKey = Name | Size | Mode | Owner | Age

  /** 1 ascending, -1 descending. */
  type Direction = d: int | d == 1 || d == -1 witness 1

  /** `a.localeCompare(b)`, by sign. */
  function Collate(before: (string, string) -> bool, a: string, b: string): int {
    if before(a, b) then -1 else if before(b, a) then 1 else 0
  }

  function OrZero(size: Option<int>): int {
    if size.Some? then size.value else 0
  }

  /** The column's own comparison; zero, and `NaN`, leave it to the name. */
  function ByColumn(before: (string, string) -> bool, key: SortKey, a: Row, b: Row): int {
    match key
    case Size => OrZero(a.size) - OrZero(b.size)
    case Age => if a.mtime.Some? && b.mtime.Some? then b.mtime.value - a.mtime.value else 0
    case Mode => Collate(before, a.mode, b.mode)
    case Owner => Collate(before, a.owner, b.owner)
    case Name => 0
  }

  /** The comparator `sortRows` hands to the sort. */
  function Compare(before: (string, string) -> bool, key: SortKey, direction: Direction, a: Row, b: Row): int {
    if a.kind.DirType? != b.kind.DirType? then if a.kind.DirType? then -1 else 1
    else if key.Size? && a.size.None? != b.size.None? then if a.size.None? then 1 else -1
    else
      var comparison := ByColumn(before, key, a, b);
      (if comparison != 0 then comparison else Collate(before, a.name, b.name)) * direction
  }

  function Before(before: (string, string) -> bool, key: SortKey, direction: Direction): (Row, Row) -> bool {
    (a: Row, b: Row) => Compare(before, key, direction, a, b) < 0
  }

  function SortRows(before: (string, string) -> bool, rows: seq<Row>, key: SortKey, direction: Direction): seq<Row> {
    Sort(Before(before, key, direction), rows)
  }

  // ------------------------------------------------------------------ the order

  ghost predicate DistinctNames(rows: set<Row>) {
    forall a, b | a in rows && b in rows && a != b :: a.name != b.name
  }

  /** Every age that is compared can be compared. */
  ghost predicate Parsed(key: SortKey, rows: set<Row>) {
    key.Age? ==> forall a | a in rows :: a.mtime.Some?
  }

  /**
   * A row whose time does not parse stands by its name.  Of one half, what has a
   * time and stands before it by name must be no older than what stands behind.
   */
  ghost predicate TimesFit(before: (string, string) -> bool, key: SortKey, rows: set<Row>) {
    key.Age? ==> forall a, b, c | a in rows && b in rows && c in rows :: AgesFit(before, a, b, c)
  }

  predicate AgesFit(before: (string, string) -> bool, a: Row, b: Row, c: Row) {
    (&& a.kind.DirType? == b.kind.DirType? == c.kind.DirType?
     && a.mtime.Some? && b.mtime.None? && c.mtime.Some?
     && before(a.name, b.name) && before(b.name, c.name)) ==> c.mtime.value <= a.mtime.value
  }

  /** The block a row belongs to: directories before the rest, unknown sizes behind known ones. */
  function Rank(key: SortKey, a: Row): nat {
    (if a.kind.DirType? then 0 else 2) + if key.Size? && a.size.None? then 1 else 0
  }

  lemma CollateOrders(before: (string, string) -> bool, a: string, b: string, c: string)
    requires Total(before)
    ensures Collate(before, a, b) == -Collate(before, b, a)
    ensures Collate(before, a, b) == 0 <==> a == b
    ensures Collate(before, a, b) < 0 && Collate(before, b, c) < 0 ==> Collate(before, a, c) < 0
  {}

  lemma ColumnOrders(before: (string, string) -> bool, key: SortKey, a: Row, b: Row, c: Row)
    requires Total(before) && Parsed(key, {a, b, c})
    ensures ByColumn(before, key, a, b) == -ByColumn(before, key, b, a)
    ensures ByColumn(before, key, a, b) <= 0 && ByColumn(before, key, b, c) <= 0 ==> ByColumn(before, key, a, c) <= 0
    ensures ByColumn(before, key, a, b) < 0 && ByColumn(before, key, b, c) <= 0 ==> ByColumn(before, key, a, c) < 0
    ensures ByColumn(before, key, a, b) <= 0 && ByColumn(before, key, b, c) < 0 ==> ByColumn(before, key, a, c) < 0
  {
    CollateOrders(before, a.mode, b.mode, c.mode);
    CollateOrders(before, a.owner, b.owner, c.owner);
    CollateOrders(before, b.mode, c.mode, a.mode);
    CollateOrders(before, b.owner, c.owner, a.owner);
    CollateOrders(before, c.mode, a.mode, b.mode);
    CollateOrders(before, c.owner, a.owner, b.owner);
  }

  /** The comparison inside a block, before the direction is applied. */
  function Inner(before: (string, string) -> bool, key: SortKey, a: Row, b: Row): int {
    var comparison := ByColumn(before, key, a, b);
    if comparison != 0 then comparison else Collate(before, a.name, b.name)
  }

  lemma CompareIs(before: (string, string) -> bool, key: SortKey, direction: Direction, a: Row, b: Row)
    ensures Before(before, key, direction)(a, b) <==>
              Rank(key, a) < Rank(key, b)
              || (Rank(key, a) == Rank(key, b)
                  && if direction == 1 then Inner(before, key, a, b) < 0 else Inner(before, key, a, b) > 0)
  {}

  /** Either way round, the comparison says the same, and it ties only equal names. */
  lemma InnerFlips(before: (string, string) -> bool, key: SortKey, a: Row, b: Row)
    requires Total(before)
    ensures Inner(before, key, a, b) == -Inner(before, key, b, a)
    ensures a.name != b.name ==> Inner(before, key, a, b) != 0
    ensures Inner(before, key, a, a) == 0
  {
    CollateOrders(before, a.name, b.name, a.name);
    CollateOrders(before, a.mode, b.mode, a.mode);
    CollateOrders(before, a.owner, b.owner, a.owner);
    CollateOrders(before, a.name, a.name, a.name);
    CollateOrders(before, a.mode, a.mode, a.mode);
    CollateOrders(before, a.owner, a.owner, a.owner);
  }

  lemma ParsedComposes(before: (string, string) -> bool, key: SortKey, a: Row, b: Row, c: Row)
    requires Total(before) && Parsed(key, {a, b, c})
    ensures Inner(before, key, a, b) < 0 && Inner(before, key, b, c) < 0 ==> Inner(before, key, a, c) < 0
  {
    hide ByColumn, Collate;
    ColumnOrders(before, key, a, b, c);
    ColumnOrders(before, key, b, c, a);
    ColumnOrders(before, key, c, a, b);
    CollateOrders(before, a.name, b.name, c.name);
  }

  /** Ages, with a time missing somewhere: names decide, except between two that have one. */
  lemma AgesCompose(before: (string, string) -> bool, a: Row, b: Row, c: Row)
    requires Total(before) && TimesFit(before, Age, {a, b, c})
    requires a.kind.DirType? == b.kind.DirType? == c.kind.DirType?
    requires a.mtime.None? || b.mtime.None? || c.mtime.None?
    requires a.name != c.name
    ensures Inner(before, Age, a, b) < 0 && Inner(before, Age, b, c) < 0 ==> Inner(before, Age, a, c) < 0
  {
    assert AgesFit(before, a, b, c) && AgesFit(before, c, a, b) && AgesFit(before, b, c, a);
    CollateOrders(before, a.name, b.name, c.name);
    CollateOrders(before, b.name, c.name, a.name);
    CollateOrders(before, c.name, a.name, b.name);
    CollateOrders(before, a.name, c.name, b.name);
  }

  lemma InnerComposes(before: (string, string) -> bool, key: SortKey, a: Row, b: Row, c: Row)
    requires Total(before) && TimesFit(before, key, {a, b, c})
    requires a.kind.DirType? == b.kind.DirType? == c.kind.DirType? && (a == c || a.name != c.name)
    ensures Inner(before, key, a, b) < 0 && Inner(before, key, b, c) < 0 ==> Inner(before, key, a, c) < 0
  {
    if a == c {
      InnerFlips(before, key, a, b);
    } else if key.Age? && (a.mtime.None? || b.mtime.None? || c.mtime.None?) {
      AgesCompose(before, a, b, c);
    } else {
      ParsedComposes(before, key, a, b, c);
    }
  }

  /** One rank, one half. */
  lemma RankHalves(key: SortKey, a: Row, b: Row)
    ensures Rank(key, a) == Rank(key, b) ==> a.kind.DirType? == b.kind.DirType?
    ensures key.Age? ==> (Rank(key, a) == Rank(key, b) <==> a.kind.DirType? == b.kind.DirType?)
  {
  }

  lemma BeforeDecides(before: (string, string) -> bool, key: SortKey, direction: Direction, a: Row, b: Row)
    requires Total(before)
    ensures !Before(before, key, direction)(a, a)
    ensures a.name != b.name ==> Before(before, key, direction)(a, b) || Before(before, key, direction)(b, a)
  {
    hide Before, Inner, Rank;
    InnerFlips(before, key, a, b);
    CompareIs(before, key, direction, a, a);
    CompareIs(before, key, direction, a, b);
    CompareIs(before, key, direction, b, a);
  }

  lemma BeforeComposes(before: (string, string) -> bool, key: SortKey, direction: Direction, a: Row, b: Row, c: Row)
    requires Total(before) && TimesFit(before, key, {a, b, c}) && (a == c || a.name != c.name)
    requires Before(before, key, direction)(a, b) && Before(before, key, direction)(b, c)
    ensures Before(before, key, direction)(a, c)
  {
    hide Before, Inner, Rank, TimesFit;
    assert {c, b, a} == {a, b, c};
    CompareIs(before, key, direction, a, b);
    CompareIs(before, key, direction, b, c);
    CompareIs(before, key, direction, a, c);
    RankHalves(key, a, b);
    RankHalves(key, b, c);
    if Rank(key, a) == Rank(key, b) == Rank(key, c) {
      InnerFlips(before, key, a, b);
      InnerFlips(before, key, b, c);
      InnerFlips(before, key, a, c);
      if direction == 1 { InnerComposes(before, key, a, b, c); } else { InnerComposes(before, key, c, b, a); }
    }
  }

  /** A total order leaves no unparsed time between two that contradict it. */
  lemma TotalFits(before: (string, string) -> bool, direction: Direction, rows: set<Row>, a: Row, b: Row, c: Row)
    requires Total(before) && TotalOn(Before(before, Age, direction), rows) && a in rows && b in rows && c in rows
    ensures AgesFit(before, a, b, c)
  {
    var lt := Before(before, Age, direction);
    if a.kind.DirType? == b.kind.DirType? == c.kind.DirType? && a.mtime.Some? && b.mtime.None? && c.mtime.Some?
       && before(a.name, b.name) && before(b.name, c.name)
    {
      assert before(a.name, c.name) && !before(b.name, a.name) && !before(c.name, b.name) && !before(c.name, a.name);
      if direction == 1 {
        assert lt(a, b) && lt(b, c);
        assert lt(a, c);
      } else {
        assert lt(c, b) && lt(b, a);
        assert lt(c, a);
      }
    }
  }

  /**
   * For every key and both directions, rows with different names are strictly
   * and totally ordered, leaving no tie for the engine to break, exactly when
   * the times that do not parse fit between those that do.
   */
  lemma ComparatorIsTotal(before: (string, string) -> bool, key: SortKey, direction: Direction, rows: set<Row>)
    requires Total(before) && DistinctNames(rows)
    ensures TotalOn(Before(before, key, direction), rows) <==> TimesFit(before, key, rows)
  {
    var lt := Before(before, key, direction);
    hide Before, AgesFit;
    if TimesFit(before, key, rows) {
      forall a, b | a in rows && b in rows ensures !lt(a, a) && (a != b ==> lt(a, b) || lt(b, a)) {
        BeforeDecides(before, key, direction, a, b);
      }
      forall a, b, c | a in rows && b in rows && c in rows && lt(a, b) && lt(b, c) ensures lt(a, c) {
        FitsInside(before, key, rows, a, b, c);
        BeforeComposes(before, key, direction, a, b, c);
      }
    }
    if TotalOn(lt, rows) && key.Age? {
      forall a, b, c | a in rows && b in rows && c in rows ensures AgesFit(before, a, b, c) {
        TotalFits(before, direction, rows, a, b, c);
      }
    }
  }

  lemma FitsInside(before: (string, string) -> bool, key: SortKey, rows: set<Row>, a: Row, b: Row, c: Row)
    requires TimesFit(before, key, rows) && a in rows && b in rows && c in rows
    ensures TimesFit(before, key, {a, b, c})
  {
    hide AgesFit;
  }

  /** Times that all parse fit. */
  lemma ParsedFits(before: (string, string) -> bool, key: SortKey, rows: set<Row>)
    requires Parsed(key, rows)
    ensures TimesFit(before, key, rows)
  {
  }

  ghost predicate Circle(lt: (Row, Row) -> bool, a: Row, b: Row, c: Row) {
    lt(a, b) && lt(b, c) && lt(c, a)
  }

  /**
   * No unparsed time is harmless by itself: around any row whose time does not parse there are
   * two rows with times that the comparator orders with it in a circle.
   */
  lemma UnparsedTimeMakesACircle(before: (string, string) -> bool, direction: Direction, b: Row, first: string,
                                 last: string)
    requires Total(before) && b.mtime.None? && before(first, b.name) && before(b.name, last)
    ensures exists a: Row, c: Row :: a.name == first && c.name == last && a.mtime.Some? && c.mtime.Some?
              && (Circle(Before(before, Age, direction), a, b, c) || Circle(Before(before, Age, direction), c, b, a))
  {
    var a := b.(name := first, mtime := Some(1));
    var c := b.(name := last, mtime := Some(2));
    var d: int := direction;
    assert Compare(before, Age, direction, a, b) == -d && Compare(before, Age, direction, b, a) == d;
    assert Compare(before, Age, direction, b, c) == -d && Compare(before, Age, direction, c, b) == d;
    assert Compare(before, Age, direction, c, a) == -d && Compare(before, Age, direction, a, c) == d;
    assert Circle(Before(before, Age, direction), a, b, c) || Circle(Before(before, Age, direction), c, b, a);
  }

  // ------------------------------------------------------------------ the listing

  ghost predicate Listable(before: (string, string) -> bool, key: SortKey, rows: seq<Row>) {
    (forall i, j | 0 <= i < j < |rows| :: rows[i].name != rows[j].name) && TimesFit(before, key, Elements(rows))
  }

  lemma ListableIsTotal(before: (string, string) -> bool, key: SortKey, direction: Direction, rows: seq<Row>)
    requires Total(before) && Listable(before, key, rows)
    ensures Distinct(rows) && TotalOn(Before(before, key, direction), Elements(rows))
  {
    forall a, b | a in Elements(rows) && b in Elements(rows) && a != b ensures a.name != b.name {
      var i :| 0 <= i < |rows| && rows[i] == a;
      var j :| 0 <= j < |rows| && rows[j] == b;
    }
    ComparatorIsTotal(before, key, direction, Elements(rows));
  }

  /** The same rows in any order list the same way: a re-render never shuffles them. */
  lemma ListingIsUnique(before: (string, string) -> bool, key: SortKey, direction: Direction, rows: seq<Row>,
                        rows': seq<Row>)
    requires Total(before) && Listable(before, key, rows) && multiset(rows) == multiset(rows')
    ensures SortRows(before, rows, key, direction) == SortRows(before, rows', key, direction)
  {
    var lt := Before(before, key, direction);
    ListableIsTotal(before, key, direction, rows);
    MembersByMultiset(rows, rows');
    DistinctByMultiset(rows, rows');
    SortSorted(lt, rows);
    SortSorted(lt, rows');
    SortedIsUnique(lt, Sort(lt, rows), Sort(lt, rows'));
  }

  /** Directories stand first, and within each half the unknown sizes stand last, in both directions. */
  lemma BlocksInOrder(before: (string, string) -> bool, key: SortKey, direction: Direction, rows: seq<Row>,
                      i: nat, j: nat)
    requires Total(before) && Listable(before, key, rows) && i < j < |rows|
    ensures var r := SortRows(before, rows, key, direction);
            Rank(key, r[i]) <= Rank(key, r[j])
  {
    ListableIsTotal(before, key, direction, rows);
    SortSorted(Before(before, key, direction), rows);
    var r := SortRows(before, rows, key, direction);
    CompareIs(before, key, direction, r[i], r[j]);
  }

  /** One block of a listing. */
  function Block(key: SortKey, rows: seq<Row>, rank: nat): seq<Row> {
    if rows == [] then []
    else Block(key, rows[..|rows| - 1], rank) + if Rank(key, rows[|rows| - 1]) == rank then [rows[|rows| - 1]] else []
  }

  function Reversed(rows: seq<Row>): (r: seq<Row>)
    ensures |r| == |rows| && forall i | 0 <= i < |r| :: r[i] == rows[|rows| - 1 - i]
  {
    seq(|rows|, i requires 0 <= i < |rows| => rows[|rows| - 1 - i])
  }

  lemma {:induction false} BlockMembers(key: SortKey, rows: seq<Row>, rank: nat)
    ensures forall a :: a in Block(key, rows, rank) <==> a in rows && Rank(key, a) == rank
  {
    if rows != [] {
      BlockMembers(key, rows[..|rows| - 1], rank);
      assert rows == rows[..|rows| - 1] + [rows[|rows| - 1]];
    }
  }

  lemma {:induction false} BlockSorted(lt: (Row, Row) -> bool, key: SortKey, rows: seq<Row>, rank: nat)
    requires Sorted(lt, rows)
    ensures Sorted(lt, Block(key, rows, rank))
  {
    if rows != [] {
      var front, last := rows[..|rows| - 1], rows[|rows| - 1];
      BlockSorted(lt, key, front, rank);
      BlockMembers(key, front, rank);
      var block := Block(key, front, rank);
      forall i | 0 <= i < |block| ensures lt(block[i], last) {
        assert block[i] in front;
        var k :| 0 <= k < |front| && front[k] == block[i];
        assert rows[k] == front[k];
      }
    }
  }

  /** Turning the direction round reverses each block and leaves the blocks where they are. */
  lemma FlipReversesBlocks(before: (string, string) -> bool, key: SortKey, rows: seq<Row>, rank: nat)
    requires Total(before) && Listable(before, key, rows)
    ensures Block(key, SortRows(before, rows, key, -1), rank)
         == Reversed(Block(key, SortRows(before, rows, key, 1), rank))
  {
    var up, down := Before(before, key, 1), Before(before, key, -1);
    ListableIsTotal(before, key, 1, rows);
    ListableIsTotal(before, key, -1, rows);
    SortSorted(up, rows);
    SortSorted(down, rows);
    var asc, desc := Sort(up, rows), Sort(down, rows);
    MembersByMultiset(asc, rows);
    MembersByMultiset(desc, rows);
    BlockSorted(up, key, asc, rank);
    BlockSorted(down, key, desc, rank);
    BlockMembers(key, asc, rank);
    BlockMembers(key, desc, rank);
    ReversedBlock(before, key, rows, Block(key, asc, rank), Block(key, desc, rank), rank);
  }

  lemma ReversedBlock(before: (string, string) -> bool, key: SortKey, rows: seq<Row>, asc: seq<Row>,
                      desc: seq<Row>, rank: nat)
    requires Total(before) && Listable(before, key, rows)
    requires Sorted(Before(before, key, 1), asc) && Sorted(Before(before, key, -1), desc)
    requires forall a :: a in asc <==> a in rows && Rank(key, a) == rank
    requires forall a :: a in desc <==> a in rows && Rank(key, a) == rank
    ensures desc == Reversed(asc)
  {
    var down := Before(before, key, -1);
    var back := Reversed(asc);
    forall i, j | 0 <= i < j < |back| ensures down(back[i], back[j]) {
      var a, b := asc[|asc| - 1 - j], asc[|asc| - 1 - i];
      assert a in asc && b in asc;
      hide Inner, Rank;
      CompareIs(before, key, 1, a, b);
      CompareIs(before, key, -1, b, a);
      InnerFlips(before, key, a, b);
    }
    forall a ensures a in back <==> a in asc {
      if a in asc {
        var i :| 0 <= i < |asc| && asc[i] == a;
        assert back[|asc| - 1 - i] == a;
      }
    }
    assert Elements(back) == Elements(desc);
    ListableIsTotal(before, key, -1, rows);
    TotalOnSubset(down, Elements(rows), Elements(desc));
    SortedIsUnique(down, desc, back);
  }

  // ------------------------------------------------------------------ paths

  function JoinPath(base: string, name: string): string {
    if base == "/" then "/" + name else base + "/" + name
  }

  function Popped(segments: Path): Path {
    if segments == [] then [] else segments[..|segments| - 1]
  }

  function ParentPath(path: string): string {
    Absolute(Popped(Segments(path)))
  }

  function StepInto(base: Path, segment: string): Path {
    if segment == "" || segment == "." then base
    else if segment == ".." then Popped(base)
    else base + [segment]
  }

  /** What the loop of `resolveTarget` leaves of `base`. */
  function Walk(base: Path, segments: seq<string>): Path {
    if segments == [] then base
    else StepInto(Walk(base, segments[..|segments| - 1]), segments[|segments| - 1])
  }

  function Start(directory: string, target: string): Path {
    if "/" <= target then [] else Segments(directory)
  }

  method ResolveTarget(directory: string, target: string) returns (path: string)
    ensures path == Resolved(directory, target)
  {
    var base: Path := if "/" <= target then [] else Segments(directory);
    var segments := Split(target);
    for i := 0 to |segments|
      invariant base == Walk(Start(directory, target), segments[..i])
    {
      var segment := segments[i];
      assert segments[..i + 1][..i] == segments[..i];
      if segment == "" || segment == "." { continue; }
      if segment == ".." {
        base := if base == [] then [] else base[..|base| - 1];
      } else {
        base := base + [segment];
      }
    }
    assert segments[..|segments|] == segments;
    path := "/" + Join(base);
  }

  function Resolved(directory: string, target: string): string {
    Absolute(Walk(Start(directory, target), Split(target)))
  }

  ghost predicate NoDots(p: Path) {
    forall s | s in p :: s != "." && s != ".."
  }

  /** An absolute path written the one normal way. */
  ghost predicate Normal(path: string) {
    path == Absolute(Segments(path)) && NoDots(Segments(path))
  }

  lemma {:induction false} WalkConcat(base: Path, xs: seq<string>, ys: seq<string>)
    ensures Walk(base, xs + ys) == Walk(Walk(base, xs), ys)
  {
    if ys == [] {
      assert xs + ys == xs;
    } else {
      assert (xs + ys)[..|xs + ys| - 1] == xs + ys[..|ys| - 1];
      WalkConcat(base, xs, ys[..|ys| - 1]);
    }
  }

  lemma {:induction false} WalkClean(base: Path, segments: seq<string>)
    requires CleanPath(base) && forall s | s in segments :: '/' !in s
    ensures CleanPath(Walk(base, segments))
    ensures NoDots(base) ==> NoDots(Walk(base, segments))
  {
    if segments != [] {
      WalkClean(base, segments[..|segments| - 1]);
      assert segments[|segments| - 1] in segments;
      StepClean(Walk(base, segments[..|segments| - 1]), segments[|segments| - 1]);
    }
  }

  lemma StepClean(base: Path, segment: string)
    requires CleanPath(base) && '/' !in segment
    ensures CleanPath(StepInto(base, segment))
    ensures NoDots(base) ==> NoDots(StepInto(base, segment))
  {
    forall s | s in StepInto(base, segment) ensures s in base || (s == segment && s != "" && s != "." && s != "..") {}
  }

  /** Following a link always lands on an absolute path, normal when the directory's own is. */
  lemma ResolvedIsNormal(directory: string, target: string)
    ensures Resolved(directory, target) == Absolute(Segments(Resolved(directory, target)))
    ensures "/" <= target || NoDots(Segments(directory)) ==> Normal(Resolved(directory, target))
  {
    SegmentsClean(directory);
    SplitHasNoSlash(target);
    WalkClean(Start(directory, target), Split(target));
    SegmentsOfAbsolute(Walk(Start(directory, target), Split(target)));
  }

  /** Resolving `a/b` is resolving `b` from where `a` led. */
  lemma ResolvedInTurn(directory: string, a: string, b: string)
    requires a != "" && !("/" <= b)
    ensures Resolved(directory, a + "/" + b) == Resolved(Resolved(directory, a), b)
  {
    SplitAt(a, b);
    assert "/" <= a + "/" + b <==> "/" <= a;
    var start := Start(directory, a);
    WalkConcat(start, Split(a), Split(b));
    SegmentsClean(directory);
    SplitHasNoSlash(a);
    WalkClean(start, Split(a));
    SegmentsOfAbsolute(Walk(start, Split(a)));
  }

  /** Up from an entry is the directory it was joined to, exactly when that is written without a needless slash. */
  lemma ParentOfJoined(directory: string, name: string)
    requires Clean(name)
    ensures ParentPath(JoinPath(directory, name)) == directory <==> directory == Absolute(Segments(directory))
    ensures Segments(JoinPath(directory, name)) == Segments(directory) + [name]
  {
    SplitWord(name);
    assert Segments(name) == NonEmpty([name]) == [name] + NonEmpty([]) == [name];
    if directory == "/" {
      SegmentsAbsolute(name);
      SegmentsAbsolute("");
      assert Segments("/") == [] by { assert "/" == "/" + ""; }
      assert Segments(directory) + [name] == [name];
    } else {
      SegmentsConcat(directory, name);
    }
    assert Popped(Segments(directory) + [name]) == Segments(directory);
  }

  datatype Crumb = Crumb(text: string, path: string, last: bool)

  function CrumbAt(segments: Path, index: nat): Crumb
    requires index < |segments|
  {
    Crumb(segments[index] + if index < |segments| - 1 then "/" else "",
          Absolute(segments[..index + 1]),
          index == |segments| - 1)
  }

  function CrumbsOf(segments: Path): (r: seq<Crumb>)
    ensures |r| == |segments| + 1
    ensures r[0] == Crumb("/", "/", segments == [])
    ensures forall i | 0 < i <= |segments| :: r[i] == CrumbAt(segments, i - 1)
  {
    [Crumb("/", "/", segments == [])] + seq(|segments|, i requires 0 <= i < |segments| => CrumbAt(segments, i))
  }

  function Breadcrumbs(path: string): seq<Crumb> {
    CrumbsOf(Segments(path))
  }

  function Labels(crumbs: seq<Crumb>): string {
    if crumbs == [] then "" else Labels(crumbs[..|crumbs| - 1]) + crumbs[|crumbs| - 1].text
  }

  lemma {:induction false} LabelsSpell(segments: Path, n: nat)
    requires n <= |segments|
    ensures Labels(CrumbsOf(segments)[..n + 1])
         == Absolute(segments[..n]) + if 0 < n < |segments| then "/" else ""
  {
    var crumbs := CrumbsOf(segments);
    if n == 0 {
      assert crumbs[..1] == [crumbs[0]];
      assert Labels([]) == "" && crumbs[..1][..0] == [];
      assert segments[..0] == [];
    } else {
      LabelsSpell(segments, n - 1);
      assert crumbs[..n + 1][..n] == crumbs[..n];
      hide CrumbsOf;
      AbsoluteNext(segments[..n - 1], segments[n - 1]);
      assert segments[..n] == segments[..n - 1] + [segments[n - 1]];
    }
  }

  lemma AbsoluteNext(p: Path, s: string)
    ensures Absolute(p + [s]) == Absolute(p) + (if p != [] then "/" else "") + s
  {
    if p != [] {
      JoinConcat(p, [s]);
    }
  }

  /** The labels, read one after the other, are the path, exactly when each slash in it is needed. */
  lemma CrumbsSpellThePath(path: string)
    ensures Labels(Breadcrumbs(path)) == path <==> path == Absolute(Segments(path))
  {
    var segments := Segments(path);
    LabelsSpell(segments, |segments|);
    assert CrumbsOf(segments)[..|segments| + 1] == CrumbsOf(segments);
    assert segments[..|segments|] == segments;
  }

  /** Each crumb is the parent of the next, the last one is the path itself, and only it says so. */
  lemma CrumbsClimb(path: string, i: nat)
    requires i < |Breadcrumbs(path)|
    ensures var crumbs := Breadcrumbs(path);
            && (i + 1 < |crumbs| ==> ParentPath(crumbs[i + 1].path) == crumbs[i].path)
            && (crumbs[i].last <==> i == |crumbs| - 1)
            && (i == |crumbs| - 1 ==> crumbs[i].path == Absolute(Segments(path)))
  {
    var segments := Segments(path);
    SegmentsClean(path);
    assert segments[..|segments|] == segments && segments[..0] == [];
    if i < |segments| {
      SegmentsOfAbsolute(segments[..i + 1]);
      assert Popped(segments[..i + 1]) == segments[..i];
    }
  }
}
