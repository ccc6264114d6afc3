/**
 * `front/scripts/fake-react.ts`: rendering until the state settles.
 *
 * `hooks.dfy` says which effects run; this says what the slots hold while they
 * do.  A pass is one function of what it finds, `PassOf`; it commits exactly
 * when rendering wrote no new state, and settles exactly when the commit wrote
 * none either, which is then a fixpoint.  The runtime is proved against it, and
 * `RunOf` is any sequence of renders, state writes and unmounts.
 */
module Rendering {
  import opened Hooks

  /** The slots, and whether some write has changed a value since the pass began. */
  datatype Board = Board(slots: seq<Slot>, dirty: bool)

  function Wrote(b: Board, w: StateWrite): (r: Board)
    ensures SameParts(b.slots, r.slots)
  {
    Board(Write(b.slots, w), b.dirty || Dirties(b.slots, w))
  }

  /** The first `n` writes of a list, in order. */
  function WroteAll(b: Board, ws: seq<StateWrite>, n: nat): (r: Board)
    requires n <= |ws|
    ensures SameParts(b.slots, r.slots)
  {
    if n == 0 then b else Wrote(WroteAll(b, ws, n - 1), ws[n - 1])
  }

  predicate Empty(slots: seq<Slot>, s: nat) {
    s >= |slots| || slots[s].Hole?
  }

  /** `if (!(index in slots)) slots[index] = …` */
  function Filled(slots: seq<Slot>, s: nat, slot: Slot): (r: seq<Slot>)
    requires !slot.Committed?
    ensures SameParts(slots, r)
  {
    if Empty(slots, s) then Put(slots, s, slot) else slots
  }

  /** One call of a render, at its slot. */
  function Called(b: Board, index: nat, c: Call): (r: Board)
    ensures SameParts(b.slots, r.slots)
  {
    match c
    case UseState(initial) => b.(slots := Filled(b.slots, index, State(initial)))
    case UseRef(initial) => b.(slots := Filled(b.slots, index, Ref(initial)))
    case UseEffect(_, _) => b
    case SetState(w) => Wrote(b, w)
  }

  function CalledAll(b: Board, calls: seq<Call>, n: nat): (r: Board)
    requires n <= |calls|
    ensures SameParts(b.slots, r.slots)
  {
    if n == 0 then b else Called(CalledAll(b, calls, n - 1), Place(calls, n - 1), calls[n - 1])
  }

  /** What the cleanup kept in a slot writes. */
  function CleanupAt(slots: seq<Slot>, at: nat): seq<StateWrite> {
    if at < |slots| && slots[at].Committed? && slots[at].cleanup.Some? then slots[at].cleanup.value else []
  }

  function CleanedAt(b: Board, at: nat): (r: Board)
    ensures SameParts(b.slots, r.slots)
  {
    WroteAll(b, CleanupAt(b.slots, at), |CleanupAt(b.slots, at)|)
  }

  /** The first loop of a commit. */
  function CleanedDue(b: Board, due: seq<Due>, n: nat): (r: Board)
    requires n <= |due|
    ensures SameParts(b.slots, r.slots)
  {
    if n == 0 then b else CleanedAt(CleanedDue(b, due, n - 1), due[n - 1].index)
  }

  function Instance(d: Due, instance: nat): Slot {
    Committed(d.deps, instance, d.effect.cleanup)
  }

  function RanOne(b: Board, d: Due, instance: nat): Board {
    var w := WroteAll(b, d.effect.writes, |d.effect.writes|);
    w.(slots := Put(w.slots, d.index, Instance(d, instance)))
  }

  /** The second loop. */
  function RanDue(b: Board, due: seq<Due>, first: nat, n: nat): Board
    requires n <= |due|
  {
    if n == 0 then b else RanOne(RanDue(b, due, first, n - 1), due[n - 1], first + n - 1)
  }

  function CommittedBoard(b: Board, due: seq<Due>, first: nat): Board {
    RanDue(CleanedDue(b, due, |due|), due, first, |due|)
  }

  /** The runtime as a pass finds it, and as it leaves it. */
  datatype Moment = Moment(log: Log, slots: seq<Slot>, instances: nat)
  datatype Passed = Passed(moment: Moment, settled: bool)

  function CommitLog(log: Log, due: seq<Due>, first: nat): Log {
    log + Cleanings(Live(log), due) + Runs(due, first)
  }

  function CalledIn(m: Moment, calls: seq<Call>): Board {
    CalledAll(Board(m.slots, false), calls, |calls|)
  }

  /** One turn of `render`'s loop. */
  function PassOf(hook: Component, m: Moment): Passed {
    var calls := hook(m.slots);
    var called := CalledIn(m, calls);
    if called.dirty then Passed(m.(slots := called.slots), false)
    else
      var due := DueOf(m.log, calls);
      var end := CommittedBoard(called, due, m.instances);
      Passed(Moment(CommitLog(m.log, due, m.instances), end.slots, m.instances + |due|), !end.dirty)
  }

  /** At most `left` turns, up to the one that settles. */
  function RenderOf(hook: Component, m: Moment, left: nat): Passed
    decreases left
  {
    if left == 0 then Passed(m, false)
    else
      var p := PassOf(hook, m);
      if p.settled then p else RenderOf(hook, p.moment, left - 1)
  }

  function UnmountOf(m: Moment): Moment {
    Moment(m.log + Cleanings(Live(m.log), Every(|m.slots|)) + [Unmounted], [], m.instances)
  }

  // ------------------------------------------------------------------ what a pass keeps

  ghost predicate SoundAt(m: Moment) {
    Sound(m.log, m.slots, m.instances)
  }

  lemma SameSlotsSound(m: Moment, slots: seq<Slot>)
    requires SoundAt(m) && SameParts(m.slots, slots)
    ensures SoundAt(m.(slots := slots))
  {
    StillMirrors(m.log, m.slots, slots);
  }

  /** Due slots stand in the order of the calls, each once. */
  lemma DueIsDistinct(log: Log, calls: seq<Call>)
    ensures DistinctSlots(DueOf(log, calls))
  {
    DeclaredPlaces(calls, |calls|);
    DueDistinct(log, Declared(calls, |calls|));
  }

  /** The log with the cleanups of the first `n` due slots, and with the runs of the first `n` effects. */
  function CleanedLog(log: Log, due: seq<Due>, n: nat): Log
    requires n <= |due|
  {
    log + Cleanings(Live(log), due[..n])
  }

  function RanLog(log: Log, due: seq<Due>, first: nat, n: nat): Log
    requires n <= |due|
  {
    log + Runs(due[..n], first)
  }

  lemma {:induction false} CleaningDue(log0: Log, b: Board, due: seq<Due>, n: nat)
    requires Orderly(log0) && Mirrors(log0, b.slots) && DistinctSlots(due) && n <= |due|
    ensures Cleaning(log0, b.slots, due, n, CleanedLog(log0, due, n), CleanedDue(b, due, n).slots)
  {
    CleanedNone(log0, b, due);
    hide *;
    if n == 0 {
      CleaningNone(log0, b.slots, due);
    } else {
      CleaningDue(log0, b, due, n - 1);
      CleanOneMore(log0, b, due, n - 1);
    }
  }

  lemma CleanedNone(log0: Log, b: Board, due: seq<Due>)
    ensures CleanedLog(log0, due, 0) == log0 && CleanedDue(b, due, 0) == b
  {
    assert due[..0] == [] && log0 + [] == log0;
  }

  lemma CleanOneMore(log0: Log, b: Board, due: seq<Due>, n: nat)
    requires Mirrors(log0, b.slots) && DistinctSlots(due) && n < |due|
    requires Cleaning(log0, b.slots, due, n, CleanedLog(log0, due, n), CleanedDue(b, due, n).slots)
    ensures Cleaning(log0, b.slots, due, n + 1, CleanedLog(log0, due, n + 1), CleanedDue(b, due, n + 1).slots)
  {
    var log, was, s := CleanedLog(log0, due, n), CleanedDue(b, due, n), due[n].index;
    var now := CleanedDue(b, due, n + 1);
    assert SameParts(was.slots, now.slots) by { assert now == CleanedAt(was, s); }
    hide *;
    CleaningNext(log0, b.slots, due, n, log, was.slots);
    var log' := log + if s in Live(log) then [Cleaned(Live(log)[s])] else [];
    CleaningIs(log0, b.slots, due, n + 1, log', was.slots);
    CleaningSame(log0, b.slots, due, n + 1, log', was.slots, now.slots);
  }

  lemma CleaningIs(log0: Log, slots0: seq<Slot>, due: seq<Due>, n: nat, log: Log, slots: seq<Slot>)
    requires n <= |due| && Cleaning(log0, slots0, due, n, log, slots)
    ensures log == CleanedLog(log0, due, n)
  {
  }

  lemma RanOneParts(b: Board, d: Due, instance: nat)
    ensures var r := RanOne(b, d, instance);
            && PartAt(r.slots, d.index) == Some(Part(instance, d.deps, d.effect.cleanup.Some?))
            && SameButAt(b.slots, r.slots, d.index)
  {
  }

  lemma {:induction false} RunningDue(log0: Log, b: Board, first: nat, due: seq<Due>, n: nat)
    requires Orderly(log0) && Numbered(log0, first) && DistinctSlots(due) && NoneLive(log0, due) && n <= |due|
    ensures Running(log0, b.slots, first, due, n, RanLog(log0, due, first, n), RanDue(b, due, first, n).slots)
  {
    RanNone(log0, b, first, due);
    hide *;
    if n == 0 {
      RunningNone(log0, b.slots, first, due);
    } else {
      RunningDue(log0, b, first, due, n - 1);
      RunOneMore(log0, b, first, due, n - 1);
    }
  }

  lemma RanNone(log0: Log, b: Board, first: nat, due: seq<Due>)
    ensures RanLog(log0, due, first, 0) == log0 && RanDue(b, due, first, 0) == b
  {
    assert due[..0] == [] && log0 + [] == log0;
  }

  lemma RunOneMore(log0: Log, b: Board, first: nat, due: seq<Due>, n: nat)
    requires DistinctSlots(due) && n < |due| && NoneLive(log0, due)
    requires Running(log0, b.slots, first, due, n, RanLog(log0, due, first, n), RanDue(b, due, first, n).slots)
    ensures Running(log0, b.slots, first, due, n + 1, RanLog(log0, due, first, n + 1),
                    RanDue(b, due, first, n + 1).slots)
  {
    RanLogNext(log0, first, due, n);
    RanDueNext(b, due, first, n);
    hide *;
    RanOneParts(RanDue(b, due, first, n), due[n], first + n);
    RunningNext(log0, b.slots, first, due, n, RanLog(log0, due, first, n), RanDue(b, due, first, n).slots,
                RanDue(b, due, first, n + 1).slots);
  }

  lemma RanDueNext(b: Board, due: seq<Due>, first: nat, n: nat)
    requires n < |due|
    ensures RanDue(b, due, first, n + 1) == RanOne(RanDue(b, due, first, n), due[n], first + n)
  {
  }

  lemma RanAll(log0: Log, first: nat, due: seq<Due>)
    ensures RanLog(log0, due, first, |due|) == log0 + Runs(due, first)
  {
    assert due[..|due|] == due;
  }

  lemma RanLogNext(log0: Log, first: nat, due: seq<Due>, n: nat)
    requires n < |due|
    ensures RanLog(log0, due, first, n + 1)
         == RanLog(log0, due, first, n) + [RunEventOf(due[n], first + n)]
  {
    RunsNext(log0, first, due, n);
  }

  /** A commit from sound slots leaves them sound. */
  lemma CommitSound(log: Log, b: Board, due: seq<Due>, first: nat)
    requires Sound(log, b.slots, first) && DistinctSlots(due)
    ensures Sound(CommitLog(log, due, first), CommittedBoard(b, due, first).slots, first + |due|)
  {
    var cleaned := CleanedDue(b, due, |due|);
    var log1 := log + Cleanings(Live(log), due);
    assert due[..|due|] == due;
    assert log1 == CleanedLog(log, due, |due|) && log1 + Runs(due, first) == RanLog(log1, due, first, |due|);
    hide *;
    SoundIs(log, b.slots, first);
    CleaningDue(log, b, due, |due|);
    CleaningEnd(log, b.slots, due, log1, cleaned.slots, first);
    RunningDue(log1, cleaned, first, due, |due|);
    CommitMirrors(log, b.slots, first, due, log1, cleaned.slots,
                  log1 + Runs(due, first), RanDue(cleaned, due, first, |due|).slots);
    CommitIs(log, b, due, first);
  }

  lemma SoundIs(log: Log, slots: seq<Slot>, next: nat)
    requires Sound(log, slots, next)
    ensures Orderly(log) && Numbered(log, next) && Mirrors(log, slots)
  {
  }

  lemma CommitIs(log: Log, b: Board, due: seq<Due>, first: nat)
    ensures CommitLog(log, due, first) == log + Cleanings(Live(log), due) + Runs(due, first)
    ensures CommittedBoard(b, due, first) == RanDue(CleanedDue(b, due, |due|), due, first, |due|)
  {
  }

  lemma PassSound(hook: Component, m: Moment)
    requires SoundAt(m)
    ensures SoundAt(PassOf(hook, m).moment)
  {
    var calls := hook(m.slots);
    var called := CalledIn(m, calls);
    SameSlotsSound(m, called.slots);
    DueIsDistinct(m.log, calls);
    if !called.dirty {
      CommitSound(m.log, called, DueOf(m.log, calls), m.instances);
    }
  }

  lemma {:induction false} RenderSound(hook: Component, m: Moment, left: nat)
    requires SoundAt(m)
    ensures SoundAt(RenderOf(hook, m, left).moment)
    decreases left
  {
    if left > 0 {
      PassSound(hook, m);
      RenderSound(hook, PassOf(hook, m).moment, left - 1);
    }
  }

  lemma UnmountSound(m: Moment)
    requires SoundAt(m)
    ensures SoundAt(UnmountOf(m)) && Live(UnmountOf(m).log) == map[]
  {
    var all, b := Every(|m.slots|), Board(m.slots, false);
    assert all[..|m.slots|] == all;
    CleaningDue(m.log, b, all, |all|);
    UnmountEnd(m.log, m.slots, CleanedLog(m.log, all, |all|), CleanedDue(b, all, |all|).slots, m.instances);
  }

  // ------------------------------------------------------------------ when a pass commits, and when it settles

  function StateAt(slots: seq<Slot>, s: nat): Option<Value> {
    if s < |slots| && slots[s].State? then Some(slots[s].value) else None
  }

  /** A write that finds its value there already, or nothing to write to. */
  predicate Idle(slots: seq<Slot>, w: StateWrite) {
    StateAt(slots, w.slot).Some? ==> StateAt(slots, w.slot).value == w.update(StateAt(slots, w.slot).value)
  }

  predicate AllIdle(slots: seq<Slot>, ws: seq<StateWrite>, n: nat)
    requires n <= |ws|
  {
    forall i | 0 <= i < n :: Idle(slots, ws[i])
  }

  /** Writes leave a clean board clean exactly when each is idle on it, and then leave it alone. */
  lemma {:induction false} WritesAreIdle(b: Board, ws: seq<StateWrite>, n: nat)
    requires n <= |ws| && !b.dirty
    ensures !WroteAll(b, ws, n).dirty <==> AllIdle(b.slots, ws, n)
    ensures AllIdle(b.slots, ws, n) ==> WroteAll(b, ws, n) == b
  {
    if n > 0 { WritesAreIdle(b, ws, n - 1); }
  }

  lemma {:induction false} DirtStays(b: Board, ws: seq<StateWrite>, n: nat)
    requires n <= |ws| && b.dirty
    ensures WroteAll(b, ws, n).dirty
  {
    if n > 0 { DirtStays(b, ws, n - 1); }
  }

  /** The slots once the first `n` calls have filled the ones that were empty. */
  function Mounted(slots: seq<Slot>, calls: seq<Call>, n: nat): seq<Slot>
    requires n <= |calls|
  {
    if n == 0 then slots
    else MountedBy(Mounted(slots, calls, n - 1), Place(calls, n - 1), calls[n - 1])
  }

  predicate QuietCall(slots: seq<Slot>, c: Call) {
    c.SetState? ==> Idle(slots, c.write)
  }

  /** Rendering writes nothing new: each state write of the calls is idle where it is made. */
  predicate QuietCalls(slots: seq<Slot>, calls: seq<Call>, n: nat)
    requires n <= |calls|
  {
    forall i | 0 <= i < n :: QuietCall(Mounted(slots, calls, i), calls[i])
  }

  lemma {:induction false} CallsAreQuiet(slots: seq<Slot>, calls: seq<Call>, n: nat)
    requires n <= |calls|
    ensures !CalledAll(Board(slots, false), calls, n).dirty <==> QuietCalls(slots, calls, n)
    ensures QuietCalls(slots, calls, n) ==>
              CalledAll(Board(slots, false), calls, n) == Board(Mounted(slots, calls, n), false)
  {
    CallsNone(slots, calls);
    hide *;
    if n > 0 {
      CallsStep(slots, calls, n - 1);
      CallsAreQuiet(slots, calls, n - 1);
      CalledIs(CalledAll(Board(slots, false), calls, n - 1), Place(calls, n - 1), calls[n - 1]);
    }
  }

  lemma CallsNone(slots: seq<Slot>, calls: seq<Call>)
    ensures CalledAll(Board(slots, false), calls, 0) == Board(slots, false) && Mounted(slots, calls, 0) == slots
    ensures QuietCalls(slots, calls, 0)
  {
  }

  /** What one call fills. */
  function MountedBy(slots: seq<Slot>, index: nat, c: Call): seq<Slot> {
    match c
    case UseState(initial) => Filled(slots, index, State(initial))
    case UseRef(initial) => Filled(slots, index, Ref(initial))
    case _ => slots
  }

  /** One call further, in each of the three. */
  lemma CallsStep(slots: seq<Slot>, calls: seq<Call>, n: nat)
    requires n < |calls|
    ensures CalledAll(Board(slots, false), calls, n + 1)
         == Called(CalledAll(Board(slots, false), calls, n), Place(calls, n), calls[n])
    ensures Mounted(slots, calls, n + 1) == MountedBy(Mounted(slots, calls, n), Place(calls, n), calls[n])
    ensures QuietCalls(slots, calls, n + 1)
      <==> QuietCalls(slots, calls, n) && QuietCall(Mounted(slots, calls, n), calls[n])
  {
    hide Idle, Place, Filled;
  }

  lemma CalledIs(b: Board, index: nat, c: Call)
    ensures b.dirty ==> Called(b, index, c).dirty
    ensures !b.dirty ==> (!Called(b, index, c).dirty <==> QuietCall(b.slots, c))
    ensures !Called(b, index, c).dirty ==> Called(b, index, c) == Board(MountedBy(b.slots, index, c), false)
  {
  }

  /** The slots once the first `n` due effects stand in theirs. */
  function Standing(slots: seq<Slot>, due: seq<Due>, first: nat, n: nat): seq<Slot>
    requires n <= |due|
  {
    if n == 0 then slots
    else Put(Standing(slots, due, first, n - 1), due[n - 1].index, Instance(due[n - 1], first + n - 1))
  }

  /** The commit writes nothing new: neither the cleanups it calls nor the effects it runs. */
  predicate QuietCleanups(slots: seq<Slot>, due: seq<Due>, n: nat)
    requires n <= |due|
  {
    forall i | 0 <= i < n :: QuietCleanup(slots, due[i].index)
  }

  predicate QuietEffects(slots: seq<Slot>, due: seq<Due>, first: nat, n: nat)
    requires n <= |due|
  {
    forall i | 0 <= i < n ::
      AllIdle(Standing(slots, due, first, i), due[i].effect.writes, |due[i].effect.writes|)
  }

  lemma {:induction false} CleanupsAreQuiet(b: Board, due: seq<Due>, n: nat)
    requires n <= |due| && !b.dirty
    ensures !CleanedDue(b, due, n).dirty <==> QuietCleanups(b.slots, due, n)
    ensures QuietCleanups(b.slots, due, n) ==> CleanedDue(b, due, n) == b
  {
    CleanupsNone(b, due);
    hide *;
    if n > 0 {
      CleanupsStep(b, due, n - 1);
      CleanupsAreQuiet(b, due, n - 1);
      CleanedAtIs(CleanedDue(b, due, n - 1), due[n - 1].index);
    }
  }

  lemma CleanupsNone(b: Board, due: seq<Due>)
    ensures CleanedDue(b, due, 0) == b && QuietCleanups(b.slots, due, 0)
  {
  }

  predicate QuietCleanup(slots: seq<Slot>, at: nat) {
    AllIdle(slots, CleanupAt(slots, at), |CleanupAt(slots, at)|)
  }

  lemma CleanupsStep(b: Board, due: seq<Due>, n: nat)
    requires n < |due|
    ensures CleanedDue(b, due, n + 1) == CleanedAt(CleanedDue(b, due, n), due[n].index)
    ensures QuietCleanups(b.slots, due, n + 1)
      <==> QuietCleanups(b.slots, due, n) && QuietCleanup(b.slots, due[n].index)
  {
    hide AllIdle;
  }

  lemma CleanedAtIs(b: Board, at: nat)
    ensures b.dirty ==> CleanedAt(b, at).dirty
    ensures !b.dirty ==> (!CleanedAt(b, at).dirty <==> QuietCleanup(b.slots, at))
    ensures !CleanedAt(b, at).dirty ==> CleanedAt(b, at) == b
  {
    var ws := CleanupAt(b.slots, at);
    if b.dirty { DirtStays(b, ws, |ws|); } else { WritesAreIdle(b, ws, |ws|); }
  }

  lemma {:induction false} EffectsAreQuiet(b: Board, due: seq<Due>, first: nat, n: nat)
    requires n <= |due|
    ensures b.dirty ==> RanDue(b, due, first, n).dirty
    ensures !b.dirty ==> (!RanDue(b, due, first, n).dirty <==> QuietEffects(b.slots, due, first, n))
    ensures !b.dirty && QuietEffects(b.slots, due, first, n) ==>
              RanDue(b, due, first, n) == Board(Standing(b.slots, due, first, n), false)
  {
    EffectsNone(b, due, first);
    hide *;
    if n > 0 {
      EffectsStep(b, due, first, n - 1);
      EffectsAreQuiet(b, due, first, n - 1);
      RanOneIs(RanDue(b, due, first, n - 1), due[n - 1], first + n - 1);
    }
  }

  lemma EffectsNone(b: Board, due: seq<Due>, first: nat)
    ensures RanDue(b, due, first, 0) == b && Standing(b.slots, due, first, 0) == b.slots
    ensures QuietEffects(b.slots, due, first, 0)
  {
  }

  /** One effect further, in each of the three. */
  lemma EffectsStep(b: Board, due: seq<Due>, first: nat, n: nat)
    requires n < |due|
    ensures RanDue(b, due, first, n + 1) == RanOne(RanDue(b, due, first, n), due[n], first + n)
    ensures Standing(b.slots, due, first, n + 1)
         == Put(Standing(b.slots, due, first, n), due[n].index, Instance(due[n], first + n))
    ensures QuietEffects(b.slots, due, first, n + 1)
      <==> QuietEffects(b.slots, due, first, n)
           && AllIdle(Standing(b.slots, due, first, n), due[n].effect.writes, |due[n].effect.writes|)
  {
    hide AllIdle;
  }

  lemma RanOneIs(b: Board, d: Due, instance: nat)
    ensures b.dirty ==> RanOne(b, d, instance).dirty
    ensures !b.dirty ==> (!RanOne(b, d, instance).dirty <==> AllIdle(b.slots, d.effect.writes, |d.effect.writes|))
    ensures !RanOne(b, d, instance).dirty ==>
              RanOne(b, d, instance) == Board(Put(b.slots, d.index, Instance(d, instance)), false)
  {
    var ws := d.effect.writes;
    if b.dirty { DirtStays(b, ws, |ws|); } else { WritesAreIdle(b, ws, |ws|); }
  }

  predicate QuietCommit(slots: seq<Slot>, due: seq<Due>, first: nat) {
    QuietCleanups(slots, due, |due|) && QuietEffects(slots, due, first, |due|)
  }

  lemma CommitIsQuiet(b: Board, due: seq<Due>, first: nat)
    requires !b.dirty
    ensures !CommittedBoard(b, due, first).dirty <==> QuietCommit(b.slots, due, first)
    ensures QuietCommit(b.slots, due, first) ==>
              CommittedBoard(b, due, first) == Board(Standing(b.slots, due, first, |due|), false)
  {
    CleanupsAreQuiet(b, due, |due|);
    EffectsAreQuiet(CleanedDue(b, due, |due|), due, first, |due|);
  }

  /**
   * A pass commits exactly when no state write of its calls writes anything new;
   * otherwise it leaves log and effects alone.  It settles exactly when, in
   * addition, none of the commit's cleanups and effects does, and then the slots
   * are the ones it found, filled where they were empty, with the effects that
   * ran in theirs.
   */
  lemma PassCommitsExactly(hook: Component, m: Moment)
    ensures var calls, p := hook(m.slots), PassOf(hook, m);
            var mounted, due := Mounted(m.slots, calls, |calls|), DueOf(m.log, calls);
            && (if QuietCalls(m.slots, calls, |calls|)
                then p.moment.log == CommitLog(m.log, due, m.instances) && p.moment.instances == m.instances + |due|
                else p.moment == m.(slots := CalledIn(m, calls).slots) && !p.settled)
            && (p.settled <==> QuietCalls(m.slots, calls, |calls|) && QuietCommit(mounted, due, m.instances))
            && (p.settled ==> p.moment.slots == Standing(mounted, due, m.instances, |due|))
  {
    var calls := hook(m.slots);
    CallsAreQuiet(m.slots, calls, |calls|);
    if QuietCalls(m.slots, calls, |calls|) {
      CommitIsQuiet(Board(Mounted(m.slots, calls, |calls|), false), DueOf(m.log, calls), m.instances);
    }
  }

  // ------------------------------------------------------------------ a fixpoint

  lemma {:induction false} MountedKeeps(slots: seq<Slot>, calls: seq<Call>, n: nat, s: nat)
    requires n <= |calls| && !Empty(slots, s)
    ensures !Empty(Mounted(slots, calls, n), s) && Mounted(slots, calls, n)[s] == slots[s]
  {
    if n > 0 { MountedKeeps(slots, calls, n - 1, s); }
  }

  lemma {:induction false} StandingKeeps(slots: seq<Slot>, due: seq<Due>, first: nat, n: nat, s: nat)
    requires n <= |due| && s !in SlotsOf(due) && !Empty(slots, s)
    ensures !Empty(Standing(slots, due, first, n), s) && Standing(slots, due, first, n)[s] == slots[s]
  {
    if n > 0 {
      StandingKeeps(slots, due, first, n - 1, s);
      assert due[n - 1] in due;
    }
  }

  /** What a settled pass found in a slot other than a due effect's is there when it ends. */
  lemma SettledKeepsState(hook: Component, m: Moment, s: nat)
    requires PassOf(hook, m).settled && !Empty(m.slots, s) && s !in SlotsOf(DueOf(m.log, hook(m.slots)))
    ensures var end := PassOf(hook, m).moment.slots; !Empty(end, s) && end[s] == m.slots[s]
  {
    var calls := hook(m.slots);
    PassCommitsExactly(hook, m);
    MountedKeeps(m.slots, calls, |calls|, s);
    var due := DueOf(m.log, calls);
    StandingKeeps(Mounted(m.slots, calls, |calls|), due, m.instances, |due|, s);
  }

  lemma {:induction false} StandingState(slots: seq<Slot>, due: seq<Due>, first: nat, n: nat, s: nat)
    requires n <= |due|
    ensures var r := Standing(slots, due, first, n);
            StateAt(r, s).None? || StateAt(r, s) == StateAt(slots, s)
  {
    if n > 0 { StandingState(slots, due, first, n - 1, s); }
  }

  lemma {:induction false} StandingPart(slots: seq<Slot>, due: seq<Due>, first: nat, n: nat, d: Due)
    requires n <= |due| && DistinctSlots(due)
    ensures d in due[..n] ==> PartAt(Standing(slots, due, first, n), d.index).Some?
                              && PartAt(Standing(slots, due, first, n), d.index).value.deps == d.deps
    ensures d.index !in SlotsOf(due[..n]) ==> PartAt(Standing(slots, due, first, n), d.index) == PartAt(slots, d.index)
  {
    if n > 0 {
      StandingPart(slots, due, first, n - 1, d);
      SlotsSnoc(due, n - 1);
      var last := due[n - 1];
      assert due[..n] == due[..n - 1] + [last];
      if d in due[..n - 1] { assert d.index in SlotsOf(due[..n - 1]); }
    }
  }

  /** The call finds a slot of its own kind. */
  predicate Fits(slots: seq<Slot>, p: nat, c: Call) {
    match c
    case UseState(_) => p < |slots| && slots[p].State?
    case UseRef(_) => p < |slots| && slots[p].Ref?
    case UseEffect(_, _) => Empty(slots, p) || slots[p].Committed?
    case SetState(_) => true
  }

  /** Every call does: hooks are called in one order, and have been before. */
  predicate InPlace(slots: seq<Slot>, calls: seq<Call>) {
    forall i | 0 <= i < |calls| :: Fits(slots, Place(calls, i), calls[i])
  }

  lemma FitsMounts(slots: seq<Slot>, p: nat, c: Call)
    requires Fits(slots, p, c)
    ensures MountedBy(slots, p, c) == slots
  {
  }

  lemma {:induction false} InPlaceMounts(slots: seq<Slot>, calls: seq<Call>, n: nat)
    requires n <= |calls| && InPlace(slots, calls)
    ensures Mounted(slots, calls, n) == slots
  {
    CallsNone(slots, calls);
    hide *;
    if n > 0 {
      InPlaceMounts(slots, calls, n - 1);
      MountsOneMore(slots, calls, n - 1);
    }
  }

  lemma MountsOneMore(slots: seq<Slot>, calls: seq<Call>, n: nat)
    requires n < |calls| && InPlace(slots, calls) && Mounted(slots, calls, n) == slots
    ensures Mounted(slots, calls, n + 1) == slots
  {
    FitsAt(slots, calls, n);
    hide *;
    CallsStep(slots, calls, n);
    FitsMounts(slots, Place(calls, n), calls[n]);
  }

  lemma FitsAt(slots: seq<Slot>, calls: seq<Call>, n: nat)
    requires n < |calls| && InPlace(slots, calls)
    ensures Fits(slots, Place(calls, n), calls[n])
  {
  }

  lemma {:induction false} PlacesGrow(calls: seq<Call>, i: nat, j: nat)
    requires i <= j <= |calls|
    ensures Place(calls, i) <= Place(calls, j)
    ensures i < j && !calls[i].SetState? ==> Place(calls, i) < Place(calls, j)
    decreases j
  {
    if i < j { PlacesGrow(calls, i, j - 1); }
  }

  /** A declared effect's slot is the place of an effect call. */
  lemma {:induction false} DeclaredIsCalled(calls: seq<Call>, n: nat, d: Due) returns (i: nat)
    requires n <= |calls| && d in Declared(calls, n)
    ensures i < n && calls[i].UseEffect? && d == Due(Place(calls, i), calls[i].effect, calls[i].deps)
  {
    if d in Declared(calls, n - 1) {
      i := DeclaredIsCalled(calls, n - 1, d);
    } else {
      i := n - 1;
    }
  }

  lemma OtherCallsPlace(calls: seq<Call>, i: nat, j: nat)
    requires i < |calls| && j < |calls| && !calls[i].SetState? && !calls[j].SetState? && i != j
    ensures Place(calls, i) != Place(calls, j)
  {
    if i < j { PlacesGrow(calls, i, j); } else { PlacesGrow(calls, j, i); }
  }

  lemma DueIsDeclared(log: Log, calls: seq<Call>, d: Due)
    ensures d in DueOf(log, calls) <==> d in Declared(calls, |calls|) && Reruns(LastRun(log, d.index), d.deps)
  {
    DeclaredPlaces(calls, |calls|);
    DueDistinct(log, Declared(calls, |calls|));
  }

  /** No state or ref call's slot is a due effect's. */
  lemma DueElsewhere(log: Log, calls: seq<Call>, i: nat)
    requires i < |calls| && (calls[i].UseState? || calls[i].UseRef?)
    ensures Place(calls, i) !in SlotsOf(DueOf(log, calls))
  {
    forall d | d in DueOf(log, calls) ensures d.index != Place(calls, i) {
      DueIsDeclared(log, calls, d);
      var j := DeclaredIsCalled(calls, |calls|, d);
      OtherCallsPlace(calls, i, j);
    }
  }

  lemma StillInPlace(log: Log, slots: seq<Slot>, calls: seq<Call>, first: nat)
    requires InPlace(slots, calls)
    ensures var due := DueOf(log, calls); InPlace(Standing(slots, due, first, |due|), calls)
  {
    var due := DueOf(log, calls);
    var end := Standing(slots, due, first, |due|);
    forall i | 0 <= i < |calls| ensures Fits(end, Place(calls, i), calls[i])
    {
      var p := Place(calls, i);
      assert Fits(slots, p, calls[i]);
      if calls[i].UseEffect? {
        StandingKinds(slots, due, first, |due|, p);
      } else if !calls[i].SetState? {
        DueElsewhere(log, calls, i);
        StandingKeeps(slots, due, first, |due|, p);
      }
    }
  }

  lemma {:induction false} StandingKinds(slots: seq<Slot>, due: seq<Due>, first: nat, n: nat, s: nat)
    requires n <= |due| && (Empty(slots, s) || slots[s].Committed?)
    ensures var r := Standing(slots, due, first, n); Empty(r, s) || r[s].Committed?
  {
    if n > 0 { StandingKinds(slots, due, first, n - 1, s); }
  }

  lemma StillQuiet(slots: seq<Slot>, calls: seq<Call>, due: seq<Due>, first: nat)
    requires InPlace(slots, calls) && QuietCalls(slots, calls, |calls|)
    requires InPlace(Standing(slots, due, first, |due|), calls)
    ensures QuietCalls(Standing(slots, due, first, |due|), calls, |calls|)
  {
    var end := Standing(slots, due, first, |due|);
    forall i | 0 <= i < |calls| ensures QuietCall(Mounted(end, calls, i), calls[i]) {
      InPlaceMounts(slots, calls, i);
      InPlaceMounts(end, calls, i);
      assert QuietCall(Mounted(slots, calls, i), calls[i]);
      if calls[i].SetState? { StandingState(slots, due, first, |due|, calls[i].write.slot); }
    }
  }

  lemma {:induction false} NothingAmong(log: Log, declared: seq<Due>)
    requires forall d | d in declared :: !Reruns(LastRun(log, d.index), d.deps)
    ensures DueAmong(log, declared) == []
  {
    if declared != [] {
      assert declared[|declared| - 1] in declared;
      NothingAmong(log, declared[..|declared| - 1]);
    }
  }

  /** Behind a commit, no effect with dependencies is due again of the same calls. */
  lemma NothingDueAgain(m: Moment, end: Moment, calls: seq<Call>, d: Due)
    requires SoundAt(m) && SoundAt(end) && d in Declared(calls, |calls|) && d.deps.Some?
    requires var due := DueOf(m.log, calls); end.slots == Standing(m.slots, due, m.instances, |due|)
    ensures !Reruns(LastRun(end.log, d.index), d.deps)
  {
    var due := DueOf(m.log, calls);
    assert due[..|due|] == due;
    DueIsDistinct(m.log, calls);
    DueIsDeclared(m.log, calls, d);
    StandingPart(m.slots, due, m.instances, |due|, d);
    assert MirrorsAt(m.log, m.slots, d.index) && MirrorsAt(end.log, end.slots, d.index);
    if d !in due {
      DueSlotIsDue(m.log, calls, d);
      assert PartAt(m.slots, d.index).value.deps == d.deps;
    }
  }

  lemma DueSlotIsDue(log: Log, calls: seq<Call>, d: Due)
    requires d in Declared(calls, |calls|) && d !in DueOf(log, calls)
    ensures d.index !in SlotsOf(DueOf(log, calls))
  {
    forall x | x in DueOf(log, calls) ensures x.index != d.index {
      DueIsDeclared(log, calls, x);
      var i := DeclaredIsCalled(calls, |calls|, x);
      var j := DeclaredIsCalled(calls, |calls|, d);
      if i != j { OtherCallsPlace(calls, i, j); }
    }
  }

  /**
   * A settled pass is a fixpoint, where the component then makes the same calls,
   * exactly when its effects all name their dependencies: another pass runs
   * nothing, cleans nothing and changes no slot.  An effect that names none runs
   * again on every pass.
   */
  lemma SettledIsAFixpoint(hook: Component, m: Moment)
    requires SoundAt(m) && PassOf(hook, m).settled && InPlace(m.slots, hook(m.slots))
    requires hook(PassOf(hook, m).moment.slots) == hook(m.slots)
    ensures PassOf(hook, PassOf(hook, m).moment) == PassOf(hook, m)
      <==> forall d | d in Declared(hook(m.slots), |hook(m.slots)|) :: d.deps.Some?
  {
    var calls, end := hook(m.slots), PassOf(hook, m).moment;
    SettledMeetsItself(hook, m);
    if forall d | d in Declared(calls, |calls|) :: d.deps.Some? {
      forall d | d in Declared(calls, |calls|) ensures !Reruns(LastRun(end.log, d.index), d.deps) {
        NothingDueAgain(m, end, calls, d);
      }
      NothingAmong(end.log, Declared(calls, |calls|));
      QuietPassStands(hook, end);
    } else {
      var d :| d in Declared(calls, |calls|) && d.deps.None?;
      DueIsDeclared(end.log, calls, d);
      PassCommitsExactly(hook, end);
    }
    hide PassOf, SoundAt, InPlace, QuietCalls, Mounted, DueOf, Standing, Declared;
  }

  /** The same calls after a settled pass: again in place, and again they write nothing new. */
  lemma SettledMeetsItself(hook: Component, m: Moment)
    requires SoundAt(m) && PassOf(hook, m).settled && InPlace(m.slots, hook(m.slots))
    ensures var calls, end := hook(m.slots), PassOf(hook, m).moment;
            var due := DueOf(m.log, calls);
            && SoundAt(end) && end.slots == Standing(m.slots, due, m.instances, |due|)
            && QuietCalls(end.slots, calls, |calls|) && Mounted(end.slots, calls, |calls|) == end.slots
  {
    var calls, end := hook(m.slots), PassOf(hook, m).moment;
    var due := DueOf(m.log, calls);
    PassCommitsExactly(hook, m);
    InPlaceMounts(m.slots, calls, |calls|);
    assert end.slots == Standing(m.slots, due, m.instances, |due|);
    PassSound(hook, m);
    StillInPlace(m.log, m.slots, calls, m.instances);
    StillQuiet(m.slots, calls, due, m.instances);
    InPlaceMounts(end.slots, calls, |calls|);
  }

  /** A pass whose calls write nothing new, with nothing to mount and nothing due, changes nothing. */
  lemma QuietPassStands(hook: Component, m: Moment)
    requires var calls := hook(m.slots);
             && QuietCalls(m.slots, calls, |calls|) && Mounted(m.slots, calls, |calls|) == m.slots
             && DueOf(m.log, calls) == []
    ensures PassOf(hook, m) == Passed(m, true)
  {
    var calls := hook(m.slots);
    CallsAreQuiet(m.slots, calls, |calls|);
    assert CommitLog(m.log, [], m.instances) == m.log by { assert m.log + [] == m.log; }
  }

  // ------------------------------------------------------------------ every run

  /** What a test of a hook does to it. */
  datatype Step = DoRender(hook: Component) | DoSet(write: StateWrite) | DoUnmount

  function StepOf(m: Moment, step: Step): Moment {
    match step
    case DoRender(hook) => RenderOf(hook, m, MAX_PASSES).moment
    case DoSet(w) => m.(slots := Write(m.slots, w))
    case DoUnmount => UnmountOf(m)
  }

  const FRESH := Moment([], [], 0)

  /** The runtime after the first `n` steps. */
  function RunOf(steps: seq<Step>, n: nat): Moment
    requires n <= |steps|
  {
    if n == 0 then FRESH else StepOf(RunOf(steps, n - 1), steps[n - 1])
  }

  lemma StepSound(m: Moment, step: Step)
    requires SoundAt(m)
    ensures SoundAt(StepOf(m, step))
  {
    match step
    case DoRender(hook) => RenderSound(hook, m, MAX_PASSES);
    case DoSet(w) => SameSlotsSound(m, Write(m.slots, w));
    case DoUnmount => UnmountSound(m);
  }

  lemma FreshIsSound()
    ensures SoundAt(FRESH)
  {
    forall s: nat ensures MirrorsAt([], [], s) {}
  }

  lemma {:induction false} RunSound(steps: seq<Step>, n: nat)
    requires n <= |steps|
    ensures SoundAt(RunOf(steps, n))
  {
    if n == 0 {
      FreshIsSound();
    } else {
      RunSound(steps, n - 1);
      StepSound(RunOf(steps, n - 1), steps[n - 1]);
    }
  }

  /** Between two runs in one slot the first one's cleanup was called; no cleanup was called twice. */
  ghost predicate CleanedUp(log: Log) {
    && (forall i, j | 0 <= i < j < |log| && log[i].Ran? && log[i].cleans && log[j].Ran? && log[j].slot == log[i].slot ::
          exists k :: i < k < j && log[k] == Cleaned(log[i].instance))
    && (forall i, j | 0 <= i < j < |log| && log[i].Cleaned? && log[j].Cleaned? :: log[i].instance != log[j].instance)
    && (forall i, j | 0 <= i < j < |log| && log[i].Ran? && log[i].cleans && log[j].Unmounted? ::
          exists k :: i < k < j && log[k] == Cleaned(log[i].instance))
  }

  lemma OrderlyIsCleanedUp(log: Log)
    requires Orderly(log)
    ensures CleanedUp(log)
  {
    forall i, j | 0 <= i < j < |log| && log[i].Ran? && log[i].cleans && log[j].Ran? && log[j].slot == log[i].slot
      ensures exists k :: i < k < j && log[k] == Cleaned(log[i].instance)
    {
      CleanedBetweenRuns(log, i, j);
    }
    forall i, j | 0 <= i < j < |log| && log[i].Cleaned? && log[j].Cleaned? ensures log[i].instance != log[j].instance {
      CleanedOnce(log, i, j);
    }
    forall i, j | 0 <= i < j < |log| && log[i].Ran? && log[i].cleans && log[j].Unmounted?
      ensures exists k :: i < k < j && log[k] == Cleaned(log[i].instance)
    {
      CleanedBeforeUnmount(log, i, j);
    }
  }

  /**
   * Over any run of renders, state writes and unmounts no slot has two live
   * instances, no instance is cleaned twice, none outlives an unmount, and the
   * slots say what the log says.
   */
  lemma EveryRun(steps: seq<Step>, n: nat)
    requires n <= |steps|
    ensures var m := RunOf(steps, n);
            && Orderly(m.log) && CleanedUp(m.log) && Mirrors(m.log, m.slots)
            && (n > 0 && steps[n - 1].DoUnmount? ==> m.slots == [] && Live(m.log) == map[])
  {
    RunSound(steps, n);
    OrderlyIsCleanedUp(RunOf(steps, n).log);
    if n > 0 && steps[n - 1].DoUnmount? {
      RunSound(steps, n - 1);
      UnmountSound(RunOf(steps, n - 1));
    }
  }

  // ------------------------------------------------------------------ the runtime

  class Runtime {
    var slots: seq<Slot>
    var next: nat
    var dirty: bool
    var due: seq<Due>
    var log: Log
    var instances: nat

    function Now(): Moment
      reads this
    {
      Moment(log, slots, instances)
    }

    function Current(): Board
      reads this
    {
      Board(slots, dirty)
    }

    constructor ()
      ensures Now() == FRESH
    {
      slots, next, dirty, due, log, instances := [], 0, false, [], [], 0;
    }

    /** A setter. */
    method Set(w: StateWrite)
      modifies `slots, `dirty
      ensures Current() == Wrote(old(Current()), w)
      ensures old(SoundAt(Now())) ==> SoundAt(Now())
    {
      ghost var was := Now();
      if w.slot < |slots| && slots[w.slot].State? {
        var updated := w.update(slots[w.slot].value);
        if updated != slots[w.slot].value { dirty := true; }
        slots := slots[w.slot := State(updated)];
      }
      if SoundAt(was) { SameSlotsSound(was, slots); }
    }

    method SetAll(writes: seq<StateWrite>)
      modifies `slots, `dirty
      ensures Current() == WroteAll(old(Current()), writes, |writes|)
    {
      for i := 0 to |writes|
        invariant Current() == WroteAll(old(Current()), writes, i)
      {
        Set(writes[i]);
      }
    }

    /** One hook call of a render. */
    method Invoke(c: Call)
      requires Mirrors(log, slots)
      modifies `slots, `next, `dirty, `due
      ensures Current() == Called(old(Current()), old(next), c)
      ensures next == old(next) + if c.SetState? then 0 else 1
      ensures due == old(due) + if c.UseEffect? && Reruns(LastRun(log, old(next)), c.deps)
                                then [Due(old(next), c.effect, c.deps)] else []
    {
      match c {
        case UseState(initial) =>
          if !(next < |slots| && !slots[next].Hole?) { slots := Put(slots, next, State(initial)); }
          next := next + 1;
        case UseRef(initial) =>
          if !(next < |slots| && !slots[next].Hole?) { slots := Put(slots, next, Ref(initial)); }
          next := next + 1;
        case UseEffect(effect, deps) =>
          assert MirrorsAt(log, slots, next);
          var previous := PartAt(slots, next);
          var changed := previous.None? || deps.None? || previous.value.deps.None? || deps != previous.value.deps;
          if changed { due := due + [Due(next, effect, deps)]; }
          next := next + 1;
        case SetState(w) => Set(w);
      }
    }

    /** `hook()`: the calls of one render, from a clean start. */
    method RunHook(calls: seq<Call>)
      requires SoundAt(Now())
      modifies `slots, `next, `dirty, `due
      ensures Current() == CalledIn(old(Now()), calls)
      ensures due == DueOf(log, calls)
    {
      ghost var m := Now();
      next, due, dirty := 0, [], false;
      for i := 0 to |calls|
        invariant Current() == CalledAll(Board(m.slots, false), calls, i)
        invariant next == Place(calls, i)
        invariant due == DueAmong(log, Declared(calls, i))
      {
        DueNext(log, calls, i);
        SameSlotsSound(m, slots);
        Invoke(calls[i]);
      }
    }

    /** `slots[index]?.cleanup?.()` */
    method CleanAt(at: nat)
      modifies `slots, `dirty, `log
      ensures Current() == CleanedAt(old(Current()), at)
      ensures var part := PartAt(old(slots), at);
              log == old(log) + if part.Some? && part.value.cleans then [Cleaned(part.value.instance)] else []
    {
      var part := PartAt(slots, at);
      if part.Some? && part.value.cleans {
        log := log + [Cleaned(part.value.instance)];
        SetAll(slots[at].cleanup.value);
      }
    }

    /** The first loop of a commit: every due cleanup. */
    method CleanDue(ghost m: Moment)
      requires Mirrors(m.log, m.slots) && SameParts(m.slots, slots) && log == m.log
      modifies `slots, `dirty, `log
      ensures Current() == CleanedDue(old(Current()), due, |due|)
      ensures log == m.log + Cleanings(Live(m.log), due)
    {
      ghost var b := Current();
      CleanedNone(m.log, b, due);
      for i := 0 to |due|
        invariant Current() == CleanedDue(b, due, i)
        invariant log == CleanedLog(m.log, due, i)
      {
        CleanedNext(m.log, m.slots, due, i, slots);
        CleanAt(due[i].index);
      }
      assert due[..|due|] == due;
    }

    /** `slots[index] = { deps, cleanup: effect() ?? undefined }` */
    method RunAt(d: Due)
      modifies `slots, `dirty, `log, `instances
      ensures Board(slots, dirty) == RanOne(old(Board(slots, dirty)), d, old(instances))
      ensures log == old(log) + [RunEventOf(d, old(instances))]
      ensures instances == old(instances) + 1
    {
      SetAll(d.effect.writes);
      slots := Put(slots, d.index, Committed(d.deps, instances, d.effect.cleanup));
      log := log + [Ran(d.index, instances, d.deps, d.effect.cleanup.Some?)];
      instances := instances + 1;
    }

    /** The first `n` due effects have run, from a known start. */
    ghost predicate RanSoFar(log1: Log, b: Board, first: nat, n: nat)
      requires n <= |due|
      reads this
    {
      Board(slots, dirty) == RanDue(b, due, first, n) && log == RanLog(log1, due, first, n) && instances == first + n
    }

    /** One turn of the second loop. */
    method RunNext(i: nat, ghost log1: Log, ghost b: Board, ghost first: nat)
      requires i < |due| && RanSoFar(log1, b, first, i)
      modifies `slots, `dirty, `log, `instances
      ensures RanSoFar(log1, b, first, i + 1)
    {
      RanLogNext(log1, first, due, i);
      RanDueNext(b, due, first, i);
      hide RanDue, RanLog, RanOne, RunEventOf;
      RunAt(due[i]);
    }

    /** The second: every due effect, into its slot. */
    method RunDue()
      modifies `slots, `dirty, `log, `instances
      ensures RanSoFar(old(log), old(Current()), old(instances), |due|)
    {
      ghost var b, log1, first := Current(), log, instances;
      RanNone(log1, b, first, due);
      assert RanSoFar(log1, b, first, 0);
      hide *;
      for i := 0 to |due|
        invariant RanSoFar(log1, b, first, i)
      {
        RunNext(i, log1, b, first);
      }
    }

    /** "A commit runs every due cleanup and then every due effect, in declaration order." */
    method Commit()
      requires SoundAt(Now())
      modifies `slots, `dirty, `log, `instances
      ensures Current() == CommittedBoard(old(Current()), due, old(instances))
      ensures log == CommitLog(old(log), due, old(instances))
      ensures instances == old(instances) + |due|
    {
      CleanDue(Now());
      RanAll(log, instances, due);
      RunDue();
    }

    /** One pass of `render`. */
    method Pass(hook: Component) returns (settled: bool)
      requires SoundAt(Now())
      modifies this
      ensures SoundAt(Now())
      ensures Passed(Now(), settled) == PassOf(hook, old(Now()))
    {
      ghost var m := Now();
      PassSound(hook, m);
      var calls := hook(slots);
      RunHook(calls);
      SameSlotsSound(m, slots);
      if dirty { return false; }
      Commit();
      return !dirty;
    }

    /** `render`: false where the source throws, after 25 passes that never settled. */
    method Render(hook: Component) returns (settled: bool)
      requires SoundAt(Now())
      modifies this
      ensures SoundAt(Now())
      ensures Passed(Now(), settled) == RenderOf(hook, old(Now()), MAX_PASSES)
    {
      for pass := 0 to MAX_PASSES
        invariant SoundAt(Now())
        invariant RenderOf(hook, Now(), MAX_PASSES - pass) == RenderOf(hook, old(Now()), MAX_PASSES)
      {
        settled := Pass(hook);
        if settled { return; }
      }
      return false;
    }

    method Unmount()
      requires SoundAt(Now())
      modifies this
      ensures SoundAt(Now())
      ensures Now() == UnmountOf(old(Now()))
    {
      ghost var m, b := Now(), Current();
      ghost var all := Every(|slots|);
      UnmountSound(m);
      CleanedNone(log, b, all);
      var size := |slots|;
      for i := 0 to size
        invariant Current() == CleanedDue(b, all, i)
        invariant log == CleanedLog(m.log, all, i)
        invariant instances == old(instances)
      {
        CleanedNext(m.log, m.slots, all, i, slots);
        CleanAt(i);
      }
      assert all[..size] == all;
      log := log + [Unmounted];
      slots := [];
    }

    /** One step of a run. */
    method Do(step: Step)
      requires SoundAt(Now())
      modifies this
      ensures SoundAt(Now())
      ensures Now() == StepOf(old(Now()), step)
    {
      match step {
        case DoRender(hook) =>
          var settled := Render(hook);
        case DoSet(w) =>
          Set(w);
        case DoUnmount =>
          Unmount();
      }
    }
  }

  /** The next event of a commit's first loop, from the slots or from the log. */
  lemma CleanedNext(log0: Log, slots0: seq<Slot>, due: seq<Due>, n: nat, slots: seq<Slot>)
    requires Mirrors(log0, slots0) && SameParts(slots0, slots) && n < |due|
    ensures var part := PartAt(slots, due[n].index);
            CleanedLog(log0, due, n + 1)
              == CleanedLog(log0, due, n)
                 + if part.Some? && part.value.cleans then [Cleaned(part.value.instance)] else []
  {
    assert MirrorsAt(log0, slots0, due[n].index);
    assert due[..n + 1][..n] == due[..n];
  }
}
