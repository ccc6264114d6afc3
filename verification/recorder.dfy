/**
 * `front/e2e/demo/recorder.ts`: the film of a screencast.
 *
 * A frame stays on screen until the next one.  Rebasing moves the film's first
 * instant without changing any later picture; the list handed to the encoder
 * keeps every frame on time to within its smallest duration.  The size of the
 * film is read off a JPEG's frame header.
 */
module Recorder {

  datatype Option<T> = None | Some(value: T)
  datatype Frame = Frame(file: string, at: real)

  /** The rate `DEMO_FPS` defaults to; only the last frame's own duration depends on it. */
  const OUTPUT_FPS := 60.0
  const SHORTEST := 0.001

  ghost predicate InTime(frames: seq<Frame>) {
    forall i, j | 0 <= i <= j < |frames| :: frames[i].at <= frames[j].at
  }

  /** The picture on screen at `t`: the newest frame that is not later. */
  function Shown(frames: seq<Frame>, t: real): Option<string> {
    if frames == [] then None
    else if frames[|frames| - 1].at <= t then Some(frames[|frames| - 1].file)
    else Shown(frames[..|frames| - 1], t)
  }

  /** The leading frames that are not after `t`. */
  function Early(frames: seq<Frame>, t: real): (n: nat)
    ensures n <= |frames|
  {
    if frames == [] || frames[0].at > t then 0 else 1 + Early(frames[1..], t)
  }

  lemma {:induction false} EarlyMeans(frames: seq<Frame>, t: real)
    ensures forall i | 0 <= i < Early(frames, t) :: frames[i].at <= t
    ensures Early(frames, t) < |frames| ==> frames[Early(frames, t)].at > t
  {
    if frames != [] && frames[0].at <= t {
      EarlyMeans(frames[1..], t);
      var n := Early(frames[1..], t);
      forall i | 0 <= i < 1 + n ensures frames[i].at <= t {
        if i > 0 { assert frames[1..][i - 1] == frames[i]; }
      }
    }
  }

  lemma EarlyFrom(frames: seq<Frame>, t: real, n: nat)
    requires n <= |frames|
    ensures Early(frames[n..], t)
         == if n < |frames| && frames[n].at <= t then 1 + Early(frames[n + 1..], t) else 0
  {
    if n < |frames| { assert frames[n..][0] == frames[n] && frames[n..][1..] == frames[n + 1..]; }
  }

  lemma Spliced(frames: seq<Frame>, first: nat, t: real)
    requires first < |frames|
    ensures frames[first..][0 := Frame(frames[first].file, t)] == [Frame(frames[first].file, t)] + frames[first + 1..]
  {
  }

  function Rebased(frames: seq<Frame>, t: real): seq<Frame> {
    var n := Early(frames, t);
    if n == 0 then frames else [Frame(frames[n - 1].file, t)] + frames[n..]
  }

  /** One line of the list `stop` writes for the encoder. */
  datatype Line = Header | File(file: string) | Duration(seconds: real)

  function Longer(a: real, b: real): real { if a < b then b else a }

  function DurationOf(frames: seq<Frame>, k: nat): real
    requires k < |frames|
  {
    if k + 1 < |frames| then Longer(SHORTEST, frames[k + 1].at - frames[k].at) else 1.0 / OUTPUT_FPS
  }

  function LinesOf(frames: seq<Frame>, n: nat): (r: seq<Line>)
    requires n <= |frames|
    ensures |r| == 1 + 2 * n
  {
    if n == 0 then [Header]
    else LinesOf(frames, n - 1) + [File(frames[n - 1].file), Duration(DurationOf(frames, n - 1))]
  }

  class CdpRecorder {
    var frames: seq<Frame>
    var stopped: bool

    constructor ()
      ensures frames == [] && !stopped
    {
      frames := [];
      stopped := false;
    }

    method OnFrame(file: string, timestamp: Option<real>)
      modifies this
      ensures stopped == old(stopped)
      ensures frames == if stopped then old(frames)
                        else old(frames) + [Frame(file, if timestamp.Some? then timestamp.value else 0.0)]
    {
      if stopped { return; }
      frames := frames + [Frame(file, if timestamp.Some? then timestamp.value else 0.0)];
    }

    method Rebase(atSeconds: real)
      modifies this
      ensures stopped == old(stopped)
      ensures frames == Rebased(old(frames), atSeconds)
    {
      var first, index := 0, 0;
      assert frames[0..] == frames;
      hide Early;
      while index < |frames| && frames[index].at <= atSeconds
        invariant frames == old(frames) && stopped == old(stopped)
        invariant 0 <= index <= |frames|
        invariant first == if index == 0 then 0 else index - 1
        invariant index > 0 ==> frames[first].at <= atSeconds
        invariant index + Early(frames[index..], atSeconds) == Early(frames, atSeconds)
      {
        EarlyFrom(frames, atSeconds, index);
        first := index;
        index := index + 1;
      }
      EarlyFrom(frames, atSeconds, index);
      if |frames| == 0 || frames[first].at > atSeconds { return; }
      assert index > 0;
      Spliced(frames, first, atSeconds);
      frames := frames[first..];
      frames := frames[0 := Frame(frames[0].file, atSeconds)];
    }

    /** The list for the encoder; an empty recording is the error the source throws. */
    method Stop() returns (list: Option<seq<Line>>)
      modifies this
      ensures stopped && frames == old(frames)
      ensures list.Some? <==> !old(stopped) && frames != []
      ensures list.Some? ==> list.value == LinesOf(frames, |frames|) + [File(frames[|frames| - 1].file)]
    {
      if stopped { return None; }
      stopped := true;
      if |frames| == 0 { return None; }
      var lines := [Header];
      for position := 0 to |frames|
        invariant frames == old(frames) && stopped
        invariant lines == LinesOf(frames, position)
      {
        var frame := frames[position];
        var duration := if position + 1 < |frames| then Longer(SHORTEST, frames[position + 1].at - frame.at)
                        else 1.0 / OUTPUT_FPS;
        lines := lines + [File(frame.file), Duration(duration)];
      }
      list := Some(lines + [File(frames[|frames| - 1].file)]);
    }
  }

  // ------------------------------------------------------------------ the film is kept

  lemma {:induction false} ShownIsAt(frames: seq<Frame>, t: real, n: nat)
    requires InTime(frames) && n <= |frames|
    requires forall i | 0 <= i < n :: frames[i].at <= t
    requires n < |frames| ==> frames[n].at > t
    ensures Shown(frames, t) == if n == 0 then None else Some(frames[n - 1].file)
    decreases |frames|
  {
    if n < |frames| {
      var last := frames[|frames| - 1];
      assert frames[n].at <= last.at;
      ShownIsAt(frames[..|frames| - 1], t, n);
    }
  }

  /**
   * Rebasing keeps the film: from the new first instant on, the same picture is
   * on screen at every moment; the film opens at that instant, and its frames
   * still come in time.
   */
  lemma {:induction false} RebaseKeepsTheFilm(frames: seq<Frame>, start: real, t: real)
    requires InTime(frames) && frames != [] && frames[0].at <= start <= t
    ensures Shown(Rebased(frames, start), t) == Shown(frames, t)
    ensures Rebased(frames, start) != [] && Rebased(frames, start)[0].at == start
    ensures InTime(Rebased(frames, start))
  {
    RebasedIs(frames, start);
    RebasedShows(frames, start, t);
  }

  /** The frames a rebase leaves: one at the new start, and the later ones as they were. */
  lemma RebasedIs(frames: seq<Frame>, start: real)
    requires InTime(frames) && frames != [] && frames[0].at <= start
    ensures var n, after := Early(frames, start), Rebased(frames, start);
            && 0 < n <= |frames| && |after| == |frames| - n + 1 && after[0] == Frame(frames[n - 1].file, start)
            && (forall i | 0 < i < |after| :: after[i] == frames[n - 1 + i] && after[i].at > start)
            && InTime(after)
  {
    var n, after := Early(frames, start), Rebased(frames, start);
    EarlyMeans(frames, start);
    hide Early;
    forall i | 0 < i < |after| ensures after[i] == frames[n - 1 + i] && after[i].at > start {
      assert frames[n].at <= frames[n - 1 + i].at;
    }
  }

  /** The first `m` frames are not after `t`, and the next one is. */
  ghost predicate Cut(frames: seq<Frame>, t: real, m: nat) {
    m <= |frames| && (forall i | 0 <= i < m :: frames[i].at <= t) && (m < |frames| ==> frames[m].at > t)
  }

  lemma EarlyCuts(frames: seq<Frame>, t: real)
    ensures Cut(frames, t, Early(frames, t))
  {
    EarlyMeans(frames, t);
  }

  /** The cut moves with the frames. */
  lemma CutMoves(frames: seq<Frame>, after: seq<Frame>, start: real, t: real, n: nat, m: nat)
    requires start <= t && 0 < n <= |frames| && Cut(frames, start, n) && Cut(frames, t, m) && InTime(frames)
    requires |after| == |frames| - n + 1 && after[0].at == start
    requires forall i | 0 < i < |after| :: after[i] == frames[n - 1 + i]
    ensures n <= m && Cut(after, t, m - n + 1)
  {
    forall i | 0 <= i < m - n + 1 ensures after[i].at <= t {
      if i > 0 { assert after[i] == frames[n - 1 + i]; }
    }
  }

  /** Rebased or not, as many frames are early. */
  lemma RebasedShows(frames: seq<Frame>, start: real, t: real)
    requires InTime(frames) && frames != [] && frames[0].at <= start <= t
    ensures Shown(Rebased(frames, start), t) == Shown(frames, t)
  {
    var n, m, after := Early(frames, start), Early(frames, t), Rebased(frames, start);
    RebasedIs(frames, start);
    EarlyCuts(frames, start);
    EarlyCuts(frames, t);
    assert m > n ==> after[m - n] == frames[m - 1];
    hide *;
    CutMoves(frames, after, start, t, n, m);
    CutShows(frames, t, m);
    CutShows(after, t, m - n + 1);
  }

  lemma CutShows(frames: seq<Frame>, t: real, m: nat)
    requires InTime(frames) && Cut(frames, t, m)
    ensures m <= |frames| && Shown(frames, t) == if m == 0 then None else Some(frames[m - 1].file)
  {
    ShownIsAt(frames, t, m);
  }

  // ------------------------------------------------------------------ every frame on time

  /** When frame `k` comes on in the encoded film: the durations before it. */
  function StartOf(frames: seq<Frame>, k: nat): real
    requires k < |frames|
  {
    if k == 0 then 0.0 else StartOf(frames, k - 1) + DurationOf(frames, k - 1)
  }

  /**
   * Frame `k` comes on no earlier than it was captured, at most a millisecond
   * late for each frame before it, and exactly on time while no two frames
   * before it were closer than that.
   */
  lemma {:induction false} FramesComeOnTime(frames: seq<Frame>, k: nat)
    requires InTime(frames) && k < |frames|
    ensures frames[k].at - frames[0].at <= StartOf(frames, k) <= frames[k].at - frames[0].at + SHORTEST * k as real
    ensures StartOf(frames, k) == frames[k].at - frames[0].at
      <==> forall i, j | 0 <= i < k && j == i + 1 :: frames[j].at - frames[i].at >= SHORTEST
    decreases k
  {
    if k > 0 {
      FramesComeOnTime(frames, k - 1);
      assert frames[k - 1].at <= frames[k].at;
      assert SHORTEST * k as real == SHORTEST * (k - 1) as real + SHORTEST;
    }
  }

  /** The encoder's list names every frame in turn, each with its duration, and the last one once more. */
  lemma {:induction false} ListNamesEveryFrame(frames: seq<Frame>, n: nat, k: nat)
    requires k < n <= |frames|
    ensures LinesOf(frames, n)[1 + 2 * k] == File(frames[k].file)
    ensures LinesOf(frames, n)[2 + 2 * k] == Duration(DurationOf(frames, k))
    decreases n
  {
    if k < n - 1 { ListNamesEveryFrame(frames, n - 1, k); }
  }

  // ------------------------------------------------------------------ the size of a picture

  type Octet = b: int | 0 <= b < 256 witness 0
  datatype Size = Size(width: int, height: int)

  function Word(data: seq<Octet>, i: nat): int
    requires i + 1 < |data|
  {
    data[i] as int * 256 + data[i + 1] as int
  }

  predicate IsFrameMarker(marker: int) {
    0xC0 <= marker <= 0xC3
  }

  /** What the scan from `at` on comes to. */
  function SizeFrom(data: seq<Octet>, at: nat): Option<Size>
    decreases |data| - at
  {
    if at + 9 >= |data| then None
    else if data[at] != 0xFF then SizeFrom(data, at + 1)
    else if IsFrameMarker(data[at + 1]) then Some(Size(Word(data, at + 7), Word(data, at + 5)))
    else SizeFrom(data, at + 2 + Word(data, at + 2))
  }

  method JpegSize(data: seq<Octet>) returns (size: Option<Size>)
    ensures size == SizeFrom(data, 2)
  {
    var at := 2;
    while at + 9 < |data|
      invariant at >= 0 && SizeFrom(data, at) == SizeFrom(data, 2)
      decreases |data| - at
    {
      if data[at] != 0xFF {
        at := at + 1;
        continue;
      }
      var marker := data[at + 1];
      if 0xC0 <= marker <= 0xC3 {
        return Some(Size(Word(data, at + 7), Word(data, at + 5)));
      }
      at := at + 2 + Word(data, at + 2);
    }
    return None;
  }

  /** A marker segment of section B.1.1.4 of ITU-T T.81 that is not a frame header. */
  datatype Segment = Segment(marker: Octet, payload: seq<Octet>)

  predicate Skippable(s: Segment) {
    !IsFrameMarker(s.marker) && |s.payload| + 2 < 0x1_0000
  }

  function WordBytes(n: int): seq<Octet>
    requires 0 <= n < 0x1_0000
  {
    [n / 256, n % 256]
  }

  function SegmentBytes(s: Segment): seq<Octet>
    requires Skippable(s)
  {
    [0xFF, s.marker] + WordBytes(|s.payload| + 2) + s.payload
  }

  function SegmentsBytes(ss: seq<Segment>): seq<Octet>
    requires forall s | s in ss :: Skippable(s)
  {
    if ss == [] then [] else SegmentBytes(ss[0]) + SegmentsBytes(ss[1..])
  }

  /** The start of a frame header (section B.2.2): its size stands behind its length and precision. */
  function FrameHeader(marker: Octet, length: int, precision: Octet, size: Size): seq<Octet>
    requires 0 <= length < 0x1_0000 && 0 <= size.width < 0x1_0000 && 0 <= size.height < 0x1_0000
  {
    [0xFF, marker] + WordBytes(length) + [precision] + WordBytes(size.height) + WordBytes(size.width)
  }

  lemma Placed(a: seq<Octet>, b: seq<Octet>, c: seq<Octet>, i: nat)
    requires i < |b|
    ensures (a + b + c)[|a| + i] == b[i]
  {
  }

  lemma SegmentHead(s: Segment)
    requires Skippable(s)
    ensures var b := SegmentBytes(s);
            && |b| == |s.payload| + 4
            && b[0] == 0xFF && b[1] == s.marker && Word(b, 2) == |s.payload| + 2
  {
    var n := |s.payload| + 2;
    var b := [0xFF, s.marker] + WordBytes(n);
    assert b[2] == n / 256 && b[3] == n % 256;
    assert SegmentBytes(s) == b + s.payload;
  }

  lemma WordPlaced(a: seq<Octet>, b: seq<Octet>, c: seq<Octet>, i: nat)
    requires i + 1 < |b|
    ensures Word(a + b + c, |a| + i) == Word(b, i)
  {
    Placed(a, b, c, i);
    Placed(a, b, c, i + 1);
  }

  lemma ScanStep(data: seq<Octet>, at: nat)
    requires at + 9 < |data| && data[at] == 0xFF
    ensures SizeFrom(data, at) ==
      if IsFrameMarker(data[at + 1]) then Some(Size(Word(data, at + 7), Word(data, at + 5)))
      else SizeFrom(data, at + 2 + Word(data, at + 2))
  {
  }

  /** A segment's first four bytes are all the scan looks at. */
  lemma StepOver(data: seq<Octet>, at: nat, marker: Octet, n: nat)
    requires at + 9 < |data| && data[at] == 0xFF && data[at + 1] == marker && !IsFrameMarker(marker)
    requires Word(data, at + 2) == n + 2
    ensures SizeFrom(data, at) == SizeFrom(data, at + (n + 4))
  {
  }

  lemma SegmentPlaced(start: seq<Octet>, s: Segment, after: seq<Octet>)
    requires Skippable(s) && |after| >= 10
    ensures var data, at := start + SegmentBytes(s) + after, |start|;
            && at + 9 < |data| && data[at] == 0xFF && data[at + 1] == s.marker
            && Word(data, at + 2) == |s.payload| + 2
  {
    SegmentHead(s);
    Placed(start, SegmentBytes(s), after, 0);
    Placed(start, SegmentBytes(s), after, 1);
    WordPlaced(start, SegmentBytes(s), after, 2);
    hide *;
  }

  /** The scan steps over a segment, whatever it holds. */
  lemma SizePastOne(data: seq<Octet>, start: seq<Octet>, s: Segment, after: seq<Octet>)
    requires Skippable(s) && |after| >= 10
    requires data == start + SegmentBytes(s) + after
    ensures SizeFrom(data, |start|) == SizeFrom(data, |start| + (|s.payload| + 4))
  {
    SegmentPlaced(start, s, after);
    StepOver(data, |start|, s.marker, |s.payload|);
  }

  lemma Flat(a: seq<Octet>, b: seq<Octet>, c: seq<Octet>)
    ensures a + (b + c) == a + b + c
  {
  }

  lemma Regroup(a: seq<Octet>, b: seq<Octet>, c: seq<Octet>, d: seq<Octet>)
    ensures a + (b + c) + d == a + b + (c + d) == (a + b) + c + d
  {
  }

  lemma {:induction false} SizePastSegments(start: seq<Octet>, ss: seq<Segment>, after: seq<Octet>)
    requires (forall s | s in ss :: Skippable(s)) && |after| >= 10
    ensures var data := start + SegmentsBytes(ss) + after;
            SizeFrom(data, |start|) == SizeFrom(data, |start| + |SegmentsBytes(ss)|)
    decreases |ss|
  {
    if ss != [] {
      var s, rest := ss[0], ss[1..];
      SegmentsCons(ss);
      hide *;
      var head, tail := SegmentBytes(s), SegmentsBytes(rest);
      Regroup(start, head, tail, after);
      SizePastOne(start + (head + tail) + after, start, s, tail + after);
      SizePastSegments(start + head, rest, after);
    }
  }

  lemma SegmentsCons(ss: seq<Segment>)
    requires ss != [] && forall s | s in ss :: Skippable(s)
    ensures Skippable(ss[0]) && (forall s | s in ss[1..] :: Skippable(s))
    ensures SegmentsBytes(ss) == SegmentBytes(ss[0]) + SegmentsBytes(ss[1..])
    ensures |SegmentBytes(ss[0])| == |ss[0].payload| + 4
  {
    assert ss[0] in ss && forall s | s in ss[1..] :: s in ss;
    SegmentHead(ss[0]);
  }

  lemma HeaderFields(marker: Octet, length: int, precision: Octet, size: Size)
    requires 0 <= length < 0x1_0000 && 0 <= size.width < 0x1_0000 && 0 <= size.height < 0x1_0000
    ensures var b := FrameHeader(marker, length, precision, size);
            && |b| == 9 && b[0] == 0xFF && b[1] == marker
            && Word(b, 5) == size.height && Word(b, 7) == size.width
  {
    var b := FrameHeader(marker, length, precision, size);
    assert b[5] == size.height / 256 && b[6] == size.height % 256;
    assert b[7] == size.width / 256 && b[8] == size.width % 256;
  }

  lemma SizeOfHeader(start: seq<Octet>, marker: Octet, length: int, precision: Octet, size: Size, rest: seq<Octet>)
    requires IsFrameMarker(marker) && |rest| > 0
    requires 0 <= length < 0x1_0000 && 0 <= size.width < 0x1_0000 && 0 <= size.height < 0x1_0000
    ensures SizeFrom(start + FrameHeader(marker, length, precision, size) + rest, |start|) == Some(size)
  {
    HeaderFields(marker, length, precision, size);
    var header := FrameHeader(marker, length, precision, size);
    hide *;
    Placed(start, header, rest, 0);
    Placed(start, header, rest, 1);
    WordPlaced(start, header, rest, 5);
    WordPlaced(start, header, rest, 7);
    ScanStep(start + header + rest, |start|);
  }

  /**
   * Whatever segments come first, and whatever bytes are in them, the size read
   * is the one in the frame header.
   */
  lemma {:induction false} SizeIsTheHeaders(ss: seq<Segment>, marker: Octet, length: int, precision: Octet,
                                            size: Size, rest: seq<Octet>)
    requires forall s | s in ss :: Skippable(s)
    requires IsFrameMarker(marker) && |rest| > 0
    requires 0 <= length < 0x1_0000 && 0 <= size.width < 0x1_0000 && 0 <= size.height < 0x1_0000
    ensures var header := FrameHeader(marker, length, precision, size);
            SizeFrom([0xFF, 0xD8] + SegmentsBytes(ss) + (header + rest), 2) == Some(size)
  {
    HeaderFields(marker, length, precision, size);
    var soi: seq<Octet> := [0xFF, 0xD8];
    var header, before := FrameHeader(marker, length, precision, size), soi + SegmentsBytes(ss);
    assert |soi| == 2;
    hide *;
    SizePastSegments(soi, ss, header + rest);
    SizeOfHeader(before, marker, length, precision, size, rest);
    Flat(before, header, rest);
  }
}
