/**
 * `front/src/helpers/disks.ts`: the file system a path is on, and a mount
 * point's short name.
 */
module Volumes {
  import opened Paths

  datatype Option<T> = None | Some(value: T)
  datatype DiskMount = DiskMount(mountPoint: string, used: int, total: int)

  predicate Contains(mount: string, path: string) {
    if mount == "/" then "/" <= path else StringAtOrUnder(mount, path)
  }

  /** The first of the longest mounts that contain the path. */
  ghost predicate IsVolume(path: string, disks: seq<DiskMount>, best: Option<DiskMount>) {
    match best
    case None => forall d | d in disks :: !Contains(d.mountPoint, path)
    case Some(b) =>
      exists i ::
        && 0 <= i < |disks| && disks[i] == b && Contains(b.mountPoint, path)
        && (forall d | d in disks && Contains(d.mountPoint, path) :: |d.mountPoint| <= |b.mountPoint|)
        && (forall j | 0 <= j < i && Contains(disks[j].mountPoint, path) :: |disks[j].mountPoint| < |b.mountPoint|)
  }

  method VolumeFor(path: string, disks: seq<DiskMount>) returns (best: Option<DiskMount>)
    ensures IsVolume(path, disks, best)
  {
    best := None;
    for i := 0 to |disks|
      invariant IsVolume(path, disks[..i], best)
    {
      var disk := disks[i];
      ghost var seen := disks[..i];
      assert disks[..i + 1] == seen + [disk];
      if !Contains(disk.mountPoint, path) {
        StillBest(path, seen, disk, best);
        continue;
      }
      if best.None? || |disk.mountPoint| > |best.value.mountPoint| {
        best := Some(disk);
        assert (seen + [disk])[i] == disk;
      } else {
        StillBest(path, seen, disk, best);
      }
    }
    assert disks[..|disks|] == disks;
  }

  /** A mount that does not contain the path, or is no longer than the best, changes nothing. */
  lemma StillBest(path: string, seen: seq<DiskMount>, disk: DiskMount, best: Option<DiskMount>)
    requires IsVolume(path, seen, best)
    requires !Contains(disk.mountPoint, path) || (best.Some? && |disk.mountPoint| <= |best.value.mountPoint|)
    ensures IsVolume(path, seen + [disk], best)
  {
    if best.Some? {
      var b := best.value;
      var i :| 0 <= i < |seen| && seen[i] == b && Contains(b.mountPoint, path)
        && (forall d | d in seen && Contains(d.mountPoint, path) :: |d.mountPoint| <= |b.mountPoint|)
        && (forall j | 0 <= j < i && Contains(seen[j].mountPoint, path) :: |seen[j].mountPoint| < |b.mountPoint|);
      assert (seen + [disk])[i] == b;
    }
  }

  // ------------------------------------------------------------------ the longest segment prefix

  lemma ContainsIsPrefix(mount: Path, path: Path)
    requires CleanPath(mount) && CleanPath(path)
    ensures Contains(Absolute(mount), Absolute(path)) <==> mount <= path
  {
    if mount == [] {
      assert Absolute(path)[0] == '/';
    } else {
      assert Absolute(mount) != "/" by { NotEmpty(mount); }
      AbsoluteAtOrUnderIsPrefix(mount, path);
    }
  }

  lemma NotEmpty(p: Path)
    requires CleanPath(p) && p != []
    ensures Join(p) != ""
  {
    assert Clean(p[0]);
  }

  /** Of two prefixes of one path, the longer list is the longer string. */
  lemma LongerPrefix(a: Path, b: Path)
    requires CleanPath(b) && a < b
    ensures |Absolute(a)| < |Absolute(b)|
  {
    var rest := b[|a|..];
    assert b == a + rest;
    assert CleanPath(rest) by { forall s | s in rest ensures Clean(s) { assert s in b; } }
    NotEmpty(rest);
    if a == [] {
      assert b == rest;
    } else {
      JoinConcat(a, rest);
    }
  }

  /** Mount points written the one normal way. */
  ghost predicate NormalMounts(disks: seq<DiskMount>) {
    forall d | d in disks :: CleanPath(Segments(d.mountPoint)) && d.mountPoint == Absolute(Segments(d.mountPoint))
  }

  /**
   * The volume a path is on is the one with the most of the path's own leading
   * segments: `/var/log` wins over `/`, and holds nothing of `/var/logs`.
   */
  lemma VolumeIsTheLongestPrefix(path: Path, disks: seq<DiskMount>, best: Option<DiskMount>, d: DiskMount)
    requires CleanPath(path) && NormalMounts(disks) && IsVolume(Absolute(path), disks, best)
    requires d in disks && Segments(d.mountPoint) <= path
    ensures best.Some? && best.value in disks && Segments(best.value.mountPoint) <= path
    ensures Segments(d.mountPoint) <= Segments(best.value.mountPoint)
  {
    var m := Segments(d.mountPoint);
    ContainsIsPrefix(m, path);
    assert best.Some?;
    var b := best.value;
    var n := Segments(b.mountPoint);
    assert b in disks;
    ContainsIsPrefix(n, path);
    if |m| > |n| {
      assert n == path[..|n|] && m == path[..|m|] && m[..|n|] == n;
      LongerPrefix(n, m);
    }
    assert |m| <= |n|;
    assert m == path[..|m|] && n == path[..|n|] && n[..|m|] == m;
  }

  // ------------------------------------------------------------------ short names

  const ELLIPSIS := "…"

  /** `text.slice(from)`, where a negative position counts from the end. */
  function SliceFrom(text: string, from: int): string {
    if from >= |text| then ""
    else if from >= 0 then text[from..]
    else if from + |text| >= 0 then text[from + |text|..]
    else text
  }

  /** The most trailing segments that fit, with their slashes and the ellipsis. */
  function Tail(segments: Path, limit: int): string {
    if segments == [] then ""
    else if |Absolute(segments)| + 1 <= limit then Absolute(segments)
    else Tail(segments[1..], limit)
  }

  function Short(mountPoint: string, limit: int): string {
    if |mountPoint| <= limit then mountPoint
    else
      var tail := Tail(Segments(mountPoint), limit);
      ELLIPSIS + if tail != "" then tail else SliceFrom(mountPoint, -(limit - 1))
  }

  method ShortMount(mountPoint: string, limit: int) returns (short: string)
    ensures short == Short(mountPoint, limit)
  {
    if |mountPoint| <= limit { return mountPoint; }
    var segments := Segments(mountPoint);
    var tail := "";
    var index := |segments|;
    while index > 0
      invariant 0 <= index <= |segments|
      invariant tail == if index == |segments| then "" else Absolute(segments[index..])
      invariant index < |segments| ==> |tail| + 1 <= limit
    {
      var longer := "/" + segments[index - 1] + tail;
      assert longer == Absolute(segments[index - 1..]) by { AbsoluteCons(segments, index - 1); }
      if |longer| + 1 > limit { break; }
      tail := longer;
      index := index - 1;
    }
    TailIsGreedy(segments, limit, index);
    short := ELLIPSIS + if tail != "" then tail else SliceFrom(mountPoint, -(limit - 1));
  }

  lemma AbsoluteCons(segments: Path, i: nat)
    requires i < |segments|
    ensures Absolute(segments[i..])
         == "/" + segments[i] + if i + 1 == |segments| then "" else Absolute(segments[i + 1..])
  {
    assert segments[i..][1..] == segments[i + 1..];
  }

  /** Longer tails are longer strings, so stopping at the first that does not fit finds the last that does. */
  lemma {:induction false} TailsGrow(segments: Path, i: nat)
    requires i < |segments|
    ensures |Absolute(segments[i..])| <= |Absolute(segments)|
  {
    if i > 0 {
      TailsGrow(segments[1..], i - 1);
      assert segments[1..][i - 1..] == segments[i..];
      AbsoluteCons(segments, 0);
      assert segments[0..] == segments;
    }
  }

  lemma {:induction false} TailIsGreedy(segments: Path, limit: int, index: nat)
    requires index <= |segments|
    requires index < |segments| ==> |Absolute(segments[index..])| + 1 <= limit
    requires index > 0 ==> |Absolute(segments[index - 1..])| + 1 > limit
    ensures Tail(segments, limit) == if index == |segments| then "" else Absolute(segments[index..])
  {
    if index == 0 {
      assert segments[0..] == segments;
    } else {
      TailsGrow(segments, index - 1);
      var rest := segments[1..];
      assert rest[index - 1..] == segments[index..];
      if index > 1 { assert rest[index - 2..] == segments[index - 1..]; }
      TailIsGreedy(rest, limit, index - 1);
    }
  }

  lemma {:induction false} TailFits(segments: Path, limit: int)
    ensures Tail(segments, limit) != "" ==> |Tail(segments, limit)| + 1 <= limit
  {
    if segments != [] { TailFits(segments[1..], limit); }
  }

  /**
   * The short name is within the limit exactly when the mount point was already,
   * or the limit leaves room for the ellipsis and one character.
   */
  lemma ShortIsShort(mountPoint: string, limit: int)
    ensures |Short(mountPoint, limit)| <= limit <==> |mountPoint| <= limit || limit >= 2
  {
    TailFits(Segments(mountPoint), limit);
  }

  ghost predicate Ends(text: string, end: string) {
    |end| <= |text| && text[|text| - |end|..] == end
  }

  lemma {:induction false} TailEnds(segments: Path, limit: int)
    requires segments != []
    ensures Ends(Absolute(segments), Tail(segments, limit))
  {
    var whole := Absolute(segments);
    assert whole[|whole|..] == "";
    if |whole| + 1 > limit && |segments| > 1 {
      TailEnds(segments[1..], limit);
      AbsoluteCons(segments, 0);
      assert segments[0..] == segments;
      var head, rest := "/" + segments[0], Absolute(segments[1..]);
      assert whole == head + rest;
      var t := Tail(segments[1..], limit);
      assert whole[|whole| - |t|..] == rest[|rest| - |t|..];
    }
  }

  /** What stands behind the ellipsis is the mount point's own end, and it is not nothing. */
  lemma ShortKeepsTheEnd(mountPoint: string, limit: int)
    requires mountPoint == Absolute(Segments(mountPoint)) && Segments(mountPoint) != []
    requires 2 <= limit < |mountPoint|
    ensures exists end :: end != "" && Ends(mountPoint, end) && Short(mountPoint, limit) == ELLIPSIS + end
  {
    var tail := Tail(Segments(mountPoint), limit);
    TailEnds(Segments(mountPoint), limit);
    var end := if tail != "" then tail else SliceFrom(mountPoint, -(limit - 1));
    assert Ends(mountPoint, end) && end != "";
  }

  /** With no room beside the ellipsis the slice wraps round, and the whole mount point comes out. */
  lemma OneIsNoLimit(mountPoint: string)
    requires |mountPoint| > 1
    ensures |Short(mountPoint, 1)| == |mountPoint| + 1
  {
    TailFits(Segments(mountPoint), 1);
  }
}
