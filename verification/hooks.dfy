/**
 * `front/scripts/fake-react.ts`: just enough of React to run one hook.
 *
 * A component is a function from its slots to the hook calls it makes; an
 * effect is the state it writes and the cleanup it returns.  The runtime keeps
 * a log of every effect run and every cleanup, and the log is what the
 * contract is about: `Orderly` is a monitor that accepts a log when no slot
 * ever has two live instances, nothing is cleaned twice and nothing survives
 * an unmount, and `DueOf` says from the log alone which effects a commit runs.
 */
module Hooks {

  datatype Option<T> = None | Some(value: T)

  /** A value as `Object.is` tells it from another. */
  type Value = int
  type Deps = Option<seq<Value>>

  /** A setter called, by the slot it closes over.  A plain value is the updater that ignores what is there. */
  datatype StateWrite = StateWrite(slot: nat, update: Value -> Value)

  /** What an effect does when it runs: writes, and the cleanup it returns, with that one's writes. */
  datatype Effect = Effect(writes: seq<StateWrite>, cleanup: Option<seq<StateWrite>>)

  /** One call a hook makes while rendering. */
  datatype Call =
    | UseState(initial: Value)
    | UseRef(initial: Value)
    | UseEffect(effect: Effect, deps: Deps)
    | SetState(write: StateWrite)

  type Component = seq<Slot> -> seq<Call>

  datatype Slot =
    | Hole
    | State(value: Value)
    | Ref(current: Value)
    | Committed(deps: Deps, instance: nat, cleanup: Option<seq<StateWrite>>)

  datatype Due = Due(index: nat, effect: Effect, deps: Deps)

  datatype Event =
    | Ran(slot: nat, instance: nat, deps: Deps, cleans: bool)
    | Cleaned(instance: nat)
    | Unmounted

  type Log = seq<Event>

  const MAX_PASSES := 25

  // ------------------------------------------------------------------ the contract, from the log

  /** The instance each slot has running, with a cleanup still to be called. */
  function Live(log: Log): map<nat, nat> {
    if log == [] then map[]
    else
      var live := Live(log[..|log| - 1]);
      match log[|log| - 1]
      case Ran(slot, instance, _, cleans) => if cleans then live[slot := instance] else live
      case Cleaned(instance) => map s | s in live && live[s] != instance :: live[s]
      case Unmounted => live
  }

  /** Whether `e` may follow `log`. */
  ghost predicate Allowed(log: Log, e: Event) {
    match e
    case Ran(slot, instance, _, _) => slot !in Live(log) && forall x | x in log && x.Ran? :: x.instance != instance
    case Cleaned(instance) => exists s :: s in Live(log) && Live(log)[s] == instance
    case Unmounted => Live(log) == map[]
  }

  ghost predicate Orderly(log: Log) {
    forall i | 0 <= i < |log| :: Allowed(log[..i], log[i])
  }

  /** The last run of a slot's effect since it was mounted. */
  function LastRun(log: Log, slot: nat): Option<Event> {
    if log == [] then None
    else
      var e := log[|log| - 1];
      if e.Unmounted? then None
      else if e.Ran? && e.slot == slot then Some(e)
      else LastRun(log[..|log| - 1], slot)
  }

  /** Never committed, no dependencies, or other dependencies than those of the last committed run. */
  predicate Reruns(last: Option<Event>, deps: Deps) {
    last.None? || deps.None? || !last.value.Ran? || last.value.deps != deps
  }

  /** The effects a pass declares, each with the slot its place in the call order gives it. */
  function Declared(calls: seq<Call>, n: nat): seq<Due>
    requires n <= |calls|
  {
    if n == 0 then []
    else
      var c := calls[n - 1];
      Declared(calls, n - 1) + if c.UseEffect? then [Due(Place(calls, n - 1), c.effect, c.deps)] else []
  }

  /** The slot of the call at `n`: how many hooks were called before it. */
  function Place(calls: seq<Call>, n: nat): (place: nat)
    requires n <= |calls|
  {
    if n == 0 then 0 else Place(calls, n - 1) + if calls[n - 1].SetState? then 0 else 1
  }

  /** Those of them that the contract says must run. */
  function DueAmong(log: Log, declared: seq<Due>): seq<Due> {
    if declared == [] then []
    else
      var d := declared[|declared| - 1];
      DueAmong(log, declared[..|declared| - 1]) + if Reruns(LastRun(log, d.index), d.deps) then [d] else []
  }

  function DueOf(log: Log, calls: seq<Call>): seq<Due> {
    DueAmong(log, Declared(calls, |calls|))
  }

  /** A commit cleans every due slot that is live, in order. */
  function Cleanings(live: map<nat, nat>, due: seq<Due>): Log {
    if due == [] then []
    else
      var d := due[|due| - 1];
      Cleanings(live, due[..|due| - 1]) + if d.index in live then [Cleaned(live[d.index])] else []
  }

  /** Then it runs every due effect, in order, each as a new instance. */
  function Runs(due: seq<Due>, first: nat): Log {
    if due == [] then []
    else
      var d := due[|due| - 1];
      Runs(due[..|due| - 1], first) + [Ran(d.index, first + |due| - 1, d.deps, d.effect.cleanup.Some?)]
  }

  // ------------------------------------------------------------------ the slots

  datatype Part = Part(instance: nat, deps: Deps, cleans: bool)

  function PartAt(slots: seq<Slot>, s: nat): Option<Part> {
    if s < |slots| && slots[s].Committed?
    then Some(Part(slots[s].instance, slots[s].deps, slots[s].cleanup.Some?))
    else None
  }

  /** Assignment at an index: a JavaScript array grows to it, leaving holes. */
  function Put(slots: seq<Slot>, s: nat, slot: Slot): (r: seq<Slot>)
    ensures s < |r| && r[s] == slot
    ensures forall i: nat | i != s :: PartAt(r, i) == PartAt(slots, i)
  {
    if s < |slots| then slots[s := slot]
    else slots + seq(s - |slots|, _ => Hole) + [slot]
  }

  /** A setter: the new value, if the slot it closes over is still there. */
  function Write(slots: seq<Slot>, w: StateWrite): (r: seq<Slot>)
    ensures forall i: nat :: PartAt(r, i) == PartAt(slots, i)
  {
    if w.slot < |slots| && slots[w.slot].State? then slots[w.slot := State(w.update(slots[w.slot].value))] else slots
  }

  ghost predicate SameParts(slots: seq<Slot>, slots': seq<Slot>) {
    forall s: nat :: PartAt(slots', s) == PartAt(slots, s)
  }

  ghost predicate SameButAt(slots: seq<Slot>, slots': seq<Slot>, at: nat) {
    forall s: nat | s != at :: PartAt(slots', s) == PartAt(slots, s)
  }

  predicate Dirties(slots: seq<Slot>, w: StateWrite) {
    w.slot < |slots| && slots[w.slot].State? && slots[w.slot].value != w.update(slots[w.slot].value)
  }

  /** The slot holds its effect's last run in the log, and is live when that run left a cleanup. */
  ghost predicate MirrorsAt(log: Log, slots: seq<Slot>, s: nat) {
    && PartAt(slots, s)
       == (match LastRun(log, s)
           case Some(Ran(_, instance, deps, cleans)) => Some(Part(instance, deps, cleans))
           case _ => None)
    && (s in Live(log) <==> PartAt(slots, s).Some? && PartAt(slots, s).value.cleans)
    && (s in Live(log) ==> Live(log)[s] == PartAt(slots, s).value.instance)
  }

  ghost predicate Mirrors(log: Log, slots: seq<Slot>) {
    forall s: nat :: MirrorsAt(log, slots, s)
  }

  /** Nothing has happened to slot `s`. */
  ghost predicate SameAt(log: Log, slots: seq<Slot>, log': Log, slots': seq<Slot>, s: nat) {
    && LastRun(log', s) == LastRun(log, s)
    && PartAt(slots', s) == PartAt(slots, s)
    && (s in Live(log') <==> s in Live(log))
    && (s in Live(log) ==> Live(log')[s] == Live(log)[s])
  }

  /** Instances are numbered as they run. */
  ghost predicate Numbered(log: Log, next: nat) {
    forall e | e in log && e.Ran? :: e.instance < next
  }

  ghost predicate Sound(log: Log, slots: seq<Slot>, next: nat) {
    Orderly(log) && Numbered(log, next) && Mirrors(log, slots)
  }

  // ------------------------------------------------------------------ one event at a time

  lemma Snoc(log: Log, e: Event)
    ensures (log + [e])[..|log|] == log && (log + [e])[|log|] == e
    ensures Orderly(log) && Allowed(log, e) ==> Orderly(log + [e])
  {
    var r := log + [e];
    assert r[..|log|] == log;
    if Orderly(log) && Allowed(log, e) {
      forall i | 0 <= i < |r| ensures Allowed(r[..i], r[i]) {
        if i < |log| { assert r[..i] == log[..i]; }
      }
    }
  }

  lemma {:induction false} LiveRan(log: Log)
    requires Orderly(log)
    ensures forall s | s in Live(log) :: exists e :: e in log && e.Ran? && e.slot == s && e.instance == Live(log)[s]
    ensures forall s, t | s in Live(log) && t in Live(log) && Live(log)[s] == Live(log)[t] :: s == t
  {
    if log != [] {
      var front, e := log[..|log| - 1], log[|log| - 1];
      OrderlyFront(log);
      LiveRan(front);
      assert log == front + [e];
      assert Allowed(front, e);
      forall s | s in Live(log) ensures exists x :: x in log && x.Ran? && x.slot == s && x.instance == Live(log)[s] {
        if e.Ran? && e.slot == s && e.cleans {
          assert e in log;
        } else {
          assert s in Live(front);
          var x :| x in front && x.Ran? && x.slot == s && x.instance == Live(front)[s];
          assert x in log;
        }
      }
    }
  }

  lemma OrderlyFront(log: Log)
    requires log != [] && Orderly(log)
    ensures Orderly(log[..|log| - 1]) && Allowed(log[..|log| - 1], log[|log| - 1])
  {
    var front := log[..|log| - 1];
    forall i | 0 <= i < |front| ensures Allowed(front[..i], front[i]) {
      assert front[..i] == log[..i];
    }
  }

  /** Cleaning a live slot: allowed, and that slot alone stops being live. */
  lemma CleanEvent(log: Log, s: nat)
    requires Orderly(log) && s in Live(log)
    ensures Orderly(log + [Cleaned(Live(log)[s])])
    ensures Live(log + [Cleaned(Live(log)[s])]) == Live(log) - {s}
    ensures forall t: nat :: LastRun(log + [Cleaned(Live(log)[s])], t) == LastRun(log, t)
  {
    LiveRan(log);
    var e := Cleaned(Live(log)[s]);
    Snoc(log, e);
    LiveAfterClean(log, s);
  }

  lemma LiveAfterClean(log: Log, s: nat)
    requires s in Live(log)
    requires forall x, y | x in Live(log) && y in Live(log) && Live(log)[x] == Live(log)[y] :: x == y
    ensures Live(log + [Cleaned(Live(log)[s])]) == Live(log) - {s}
  {
    var live := Live(log);
    Snoc(log, Cleaned(live[s]));
    var after := map t | t in live && live[t] != live[s] :: live[t];
    assert Live(log + [Cleaned(live[s])]) == after;
    forall t | t in live && t != s ensures live[t] != live[s] {}
    assert after == live - {s};
  }

  /** Running an effect in a slot that is not live, as an instance nothing had before. */
  lemma RunEvent(log: Log, slot: nat, instance: nat, deps: Deps, cleans: bool)
    requires Orderly(log) && slot !in Live(log) && Numbered(log, instance)
    ensures var r := log + [Ran(slot, instance, deps, cleans)];
            && Orderly(r) && Numbered(r, instance + 1)
            && Live(r) == (if cleans then Live(log)[slot := instance] else Live(log))
            && LastRun(r, slot) == Some(Ran(slot, instance, deps, cleans))
            && forall t: nat | t != slot :: LastRun(r, t) == LastRun(log, t)
  {
    Snoc(log, Ran(slot, instance, deps, cleans));
  }

  // ------------------------------------------------------------------ what an orderly log says

  lemma Prefix(log: Log, m: nat)
    requires m < |log| && Orderly(log)
    ensures log[..m + 1] == log[..m] + [log[m]] && log[..m + 1][..m] == log[..m]
    ensures Orderly(log[..m]) && Allowed(log[..m], log[m])
  {
    forall i | 0 <= i < m ensures Allowed(log[..m][..i], log[..m][i]) {
      assert log[..m][..i] == log[..i];
    }
  }

  lemma LiveStep(log: Log, e: Event)
    ensures Live(log + [e])
         == match e
            case Ran(slot, instance, _, cleans) => if cleans then Live(log)[slot := instance] else Live(log)
            case Cleaned(instance) => map s | s in Live(log) && Live(log)[s] != instance :: Live(log)[s]
            case Unmounted => Live(log)
  {
    assert (log + [e])[..|log|] == log;
  }

  /** An instance with a cleanup stays live in its slot until that cleanup is called. */
  lemma {:induction false} StaysLive(log: Log, i: nat, m: nat)
    requires Orderly(log) && i < m <= |log| && log[i].Ran? && log[i].cleans
    requires forall k | i < k < m :: log[k] != Cleaned(log[i].instance)
    ensures log[i].slot in Live(log[..m]) && Live(log[..m])[log[i].slot] == log[i].instance
  {
    hide *;
    Prefix(log, m - 1);
    if m == i + 1 {
      LiveWhenRun(log[..i], log[i]);
    } else {
      StaysLive(log, i, m - 1);
      LiveStill(log[..m - 1], log[m - 1], log[i].slot);
    }
  }

  lemma LiveWhenRun(log: Log, e: Event)
    requires e.Ran? && e.cleans
    ensures e.slot in Live(log + [e]) && Live(log + [e])[e.slot] == e.instance
  {
    LiveStep(log, e);
  }

  lemma LiveStill(log: Log, e: Event, slot: nat)
    requires slot in Live(log) && Allowed(log, e) && e != Cleaned(Live(log)[slot])
    ensures slot in Live(log + [e]) && Live(log + [e])[slot] == Live(log)[slot]
  {
    LiveStep(log, e);
  }

  /** Between two runs in one slot, the first one's cleanup is called. */
  lemma CleanedBetweenRuns(log: Log, i: nat, j: nat)
    requires Orderly(log) && i < j < |log|
    requires log[i].Ran? && log[i].cleans && log[j].Ran? && log[j].slot == log[i].slot
    ensures exists k :: i < k < j && log[k] == Cleaned(log[i].instance)
  {
    Prefix(log, j);
    if forall k | i < k < j :: log[k] != Cleaned(log[i].instance) {
      StaysLive(log, i, j);
    }
  }

  /** Nothing with a cleanup outlives an unmount. */
  lemma CleanedBeforeUnmount(log: Log, i: nat, j: nat)
    requires Orderly(log) && i < j < |log| && log[i].Ran? && log[i].cleans && log[j].Unmounted?
    ensures exists k :: i < k < j && log[k] == Cleaned(log[i].instance)
  {
    Prefix(log, j);
    if forall k | i < k < j :: log[k] != Cleaned(log[i].instance) {
      StaysLive(log, i, j);
    }
  }

  ghost predicate HasRun(log: Log, instance: nat) {
    exists e :: e in log && e.Ran? && e.instance == instance
  }

  /** Run once, and not live. */
  ghost predicate Gone(log: Log, instance: nat) {
    HasRun(log, instance) && forall s | s in Live(log) :: Live(log)[s] != instance
  }

  lemma GoneAfterCleaning(log: Log, instance: nat)
    requires Orderly(log) && Allowed(log, Cleaned(instance))
    ensures Gone(log + [Cleaned(instance)], instance)
  {
    LiveRan(log);
    LiveStep(log, Cleaned(instance));
    var s :| s in Live(log) && Live(log)[s] == instance;
    var e :| e in log && e.Ran? && e.slot == s && e.instance == Live(log)[s];
    assert e in log + [Cleaned(instance)];
  }

  lemma GoneForGood(log: Log, e: Event, instance: nat)
    requires Gone(log, instance) && Allowed(log, e)
    ensures Gone(log + [e], instance)
  {
    LiveStep(log, e);
    var x :| x in log && x.Ran? && x.instance == instance;
    assert x in log + [e];
  }

  /** Once cleaned, an instance is never live again. */
  lemma {:induction false} StaysGone(log: Log, i: nat, m: nat)
    requires Orderly(log) && i < m <= |log| && log[i].Cleaned?
    ensures Gone(log[..m], log[i].instance)
  {
    hide *;
    Prefix(log, m - 1);
    if m == i + 1 {
      GoneAfterCleaning(log[..i], log[i].instance);
    } else {
      StaysGone(log, i, m - 1);
      GoneForGood(log[..m - 1], log[m - 1], log[i].instance);
    }
  }

  /** No instance is cleaned twice. */
  lemma CleanedOnce(log: Log, i: nat, j: nat)
    requires Orderly(log) && i < j < |log| && log[i].Cleaned? && log[j].Cleaned?
    ensures log[i].instance != log[j].instance
  {
    Prefix(log, j);
    StaysGone(log, i, j);
  }

  // ------------------------------------------------------------------ the two loops of a commit

  ghost predicate DistinctSlots(due: seq<Due>) {
    forall i, j | 0 <= i < j < |due| :: due[i].index != due[j].index
  }

  ghost function SlotsOf(due: seq<Due>): set<nat> {
    set d | d in due :: d.index
  }

  lemma SlotsSnoc(due: seq<Due>, n: nat)
    requires DistinctSlots(due) && n < |due|
    ensures due[n].index !in SlotsOf(due[..n])
    ensures SlotsOf(due[..n + 1]) == SlotsOf(due[..n]) + {due[n].index}
    ensures due[..n + 1][..n] == due[..n]
  {
    assert due[..n + 1] == due[..n] + [due[n]];
    forall d | d in due[..n] ensures d.index != due[n].index {
      var i :| 0 <= i < n && due[i] == d;
    }
  }

  /** After the cleanups of the first `n` due slots. */
  ghost predicate Cleaning(log0: Log, slots0: seq<Slot>, due: seq<Due>, n: nat, log: Log, slots: seq<Slot>)
    requires n <= |due|
  {
    && Orderly(log)
    && log == log0 + Cleanings(Live(log0), due[..n])
    && Live(log) == Live(log0) - SlotsOf(due[..n])
    && (forall s: nat :: LastRun(log, s) == LastRun(log0, s))
    && (forall s: nat :: PartAt(slots, s) == PartAt(slots0, s))
  }

  lemma CleaningNone(log0: Log, slots0: seq<Slot>, due: seq<Due>)
    requires Orderly(log0)
    ensures Cleaning(log0, slots0, due, 0, log0, slots0)
  {
    assert due[..0] == [] && log0 + [] == log0;
  }

  lemma CleaningNext(log0: Log, slots0: seq<Slot>, due: seq<Due>, n: nat, log: Log, slots: seq<Slot>)
    requires Mirrors(log0, slots0) && DistinctSlots(due) && n < |due|
    requires Cleaning(log0, slots0, due, n, log, slots)
    ensures var s := due[n].index;
            && (PartAt(slots, s).Some? && PartAt(slots, s).value.cleans <==> s in Live(log))
            && (s in Live(log) ==>
                  && PartAt(slots, s).Some? && PartAt(slots, s).value.instance == Live(log)[s]
                  && Cleaning(log0, slots0, due, n + 1, log + [Cleaned(Live(log)[s])], slots))
            && (s !in Live(log) ==> Cleaning(log0, slots0, due, n + 1, log + [], slots))
  {
    var s := due[n].index;
    SlotsSnoc(due, n);
    assert MirrorsAt(log0, slots0, s);
    assert s in Live(log) <==> s in Live(log0);
    if s in Live(log) {
      CleanEvent(log, s);
      assert Live(log)[s] == Live(log0)[s];
      assert Live(log) - {s} == Live(log0) - SlotsOf(due[..n + 1]);
    } else {
      assert Live(log0) - SlotsOf(due[..n]) == Live(log0) - SlotsOf(due[..n + 1]);
      assert log + [] == log;
    }
  }

  /** Outside the first `n` due slots nothing has happened. */
  ghost predicate RestSame(log0: Log, slots0: seq<Slot>, log: Log, slots: seq<Slot>, due: seq<Due>, n: nat)
    requires n <= |due|
  {
    forall s: nat | s !in SlotsOf(due[..n]) :: SameAt(log0, slots0, log, slots, s)
  }

  /** The first `n` due effects stand in their slots. */
  ghost predicate AllRan(log: Log, slots: seq<Slot>, due: seq<Due>, first: nat, n: nat)
    requires n <= |due|
  {
    forall k | 0 <= k < n :: RunAs(log, slots, due[k], first + k)
  }

  ghost predicate OthersSame(log: Log, slots: seq<Slot>, log': Log, slots': seq<Slot>, at: nat) {
    forall s: nat | s != at :: SameAt(log, slots, log', slots', s)
  }

  /** After the first `n` due effects have run, `next` being the next instance. */
  ghost predicate Running(log0: Log, slots0: seq<Slot>, first: nat, due: seq<Due>, n: nat, log: Log, slots: seq<Slot>)
    requires n <= |due|
  {
    && Orderly(log) && Numbered(log, first + n)
    && log == log0 + Runs(due[..n], first)
    && RestSame(log0, slots0, log, slots, due, n)
    && AllRan(log, slots, due, first, n)
  }

  /** A due effect that has run stands in its slot and in the log. */
  ghost predicate RunAs(log: Log, slots: seq<Slot>, d: Due, instance: nat) {
    var cleans := d.effect.cleanup.Some?;
    && LastRun(log, d.index) == Some(Ran(d.index, instance, d.deps, cleans))
    && PartAt(slots, d.index) == Some(Part(instance, d.deps, cleans))
    && (d.index in Live(log) <==> cleans)
    && (cleans ==> Live(log)[d.index] == instance)
  }

  lemma RunningNone(log0: Log, slots0: seq<Slot>, first: nat, due: seq<Due>)
    requires Orderly(log0) && Numbered(log0, first)
    ensures Running(log0, slots0, first, due, 0, log0, slots0)
  {
    assert due[..0] == [] && log0 + [] == log0;
  }

  function RunEventOf(d: Due, instance: nat): Event {
    Ran(d.index, instance, d.deps, d.effect.cleanup.Some?)
  }

  lemma RunningNext(log0: Log, slots0: seq<Slot>, first: nat, due: seq<Due>, n: nat,
                    log: Log, slots: seq<Slot>, slots': seq<Slot>)
    requires DistinctSlots(due) && n < |due| && NoneLive(log0, due)
    requires Running(log0, slots0, first, due, n, log, slots)
    requires PartAt(slots', due[n].index) == Some(Part(first + n, due[n].deps, due[n].effect.cleanup.Some?))
    requires SameButAt(slots, slots', due[n].index)
    ensures Running(log0, slots0, first, due, n + 1, log + [RunEventOf(due[n], first + n)], slots')
  {
    var d, log' := due[n], log + [RunEventOf(due[n], first + n)];
    RunningGives(log0, slots0, first, due, n, log, slots);
    hide *;
    RanAt(log, slots, slots', d, first + n);
    RunsNext(log0, first, due, n);
    RunsStand(log, slots, log', slots', due, n, first);
    RestStands(log0, slots0, log, slots, log', slots', due, n);
    RunningIs(log0, slots0, first, due, n + 1, log', slots');
  }

  /** What the next run may rely on. */
  lemma RunningGives(log0: Log, slots0: seq<Slot>, first: nat, due: seq<Due>, n: nat, log: Log, slots: seq<Slot>)
    requires DistinctSlots(due) && n < |due| && NoneLive(log0, due)
    requires Running(log0, slots0, first, due, n, log, slots)
    ensures Orderly(log) && Numbered(log, first + n) && due[n].index !in Live(log)
    ensures log == log0 + Runs(due[..n], first)
    ensures RestSame(log0, slots0, log, slots, due, n) && AllRan(log, slots, due, first, n)
  {
    SlotsSnoc(due, n);
    assert SameAt(log0, slots0, log, slots, due[n].index);
  }

  lemma RunningIs(log0: Log, slots0: seq<Slot>, first: nat, due: seq<Due>, n: nat, log: Log, slots: seq<Slot>)
    requires n <= |due| && Orderly(log) && Numbered(log, first + n) && log == log0 + Runs(due[..n], first)
    requires RestSame(log0, slots0, log, slots, due, n) && AllRan(log, slots, due, first, n)
    ensures Running(log0, slots0, first, due, n, log, slots)
  {
  }

  /** One effect run: its slot holds it, every other slot is as it was. */
  lemma RanAt(log: Log, slots: seq<Slot>, slots': seq<Slot>, d: Due, instance: nat)
    requires Orderly(log) && Numbered(log, instance) && d.index !in Live(log)
    requires PartAt(slots', d.index) == Some(Part(instance, d.deps, d.effect.cleanup.Some?))
    requires SameButAt(slots, slots', d.index)
    ensures var log' := log + [RunEventOf(d, instance)];
            && Orderly(log') && Numbered(log', instance + 1)
            && RunAs(log', slots', d, instance)
            && OthersSame(log, slots, log', slots', d.index)
  {
    RunEvent(log, d.index, instance, d.deps, d.effect.cleanup.Some?);
  }

  lemma RunsStand(log: Log, slots: seq<Slot>, log': Log, slots': seq<Slot>, due: seq<Due>, n: nat, first: nat)
    requires DistinctSlots(due) && n < |due| && AllRan(log, slots, due, first, n)
    requires RunAs(log', slots', due[n], first + n) && OthersSame(log, slots, log', slots', due[n].index)
    ensures AllRan(log', slots', due, first, n + 1)
  {
    hide Live, LastRun, PartAt;
    forall k | 0 <= k < n + 1 ensures RunAs(log', slots', due[k], first + k) {
      if k < n {
        assert due[k].index != due[n].index;
        assert RunAs(log, slots, due[k], first + k) && SameAt(log, slots, log', slots', due[k].index);
      }
    }
  }

  lemma RestStands(log0: Log, slots0: seq<Slot>, log: Log, slots: seq<Slot>, log': Log, slots': seq<Slot>,
                   due: seq<Due>, n: nat)
    requires DistinctSlots(due) && n < |due|
    requires RestSame(log0, slots0, log, slots, due, n) && OthersSame(log, slots, log', slots', due[n].index)
    ensures RestSame(log0, slots0, log', slots', due, n + 1)
  {
    SlotsSnoc(due, n);
    hide SlotsOf, Live, LastRun, PartAt, DistinctSlots;
    forall s: nat | s !in SlotsOf(due[..n + 1]) ensures SameAt(log0, slots0, log', slots', s) {
      assert SameAt(log0, slots0, log, slots, s) && SameAt(log, slots, log', slots', s);
    }
  }

  lemma RunsNext(log0: Log, first: nat, due: seq<Due>, n: nat)
    requires n < |due|
    ensures log0 + Runs(due[..n + 1], first)
         == log0 + Runs(due[..n], first) + [RunEventOf(due[n], first + n)]
  {
    assert due[..n + 1][..n] == due[..n];
  }

  /** Both loops done: the slots mirror the log again. */
  lemma CommitMirrors(log0: Log, slots0: seq<Slot>, first: nat, due: seq<Due>,
                      log1: Log, slots1: seq<Slot>, log: Log, slots: seq<Slot>)
    requires Mirrors(log0, slots0) && DistinctSlots(due)
    requires Cleaning(log0, slots0, due, |due|, log1, slots1)
    requires Running(log1, slots1, first, due, |due|, log, slots)
    ensures Sound(log, slots, first + |due|)
    ensures log == log0 + Cleanings(Live(log0), due) + Runs(due, first)
  {
    assert due[..|due|] == due;
    forall s: nat ensures MirrorsAt(log, slots, s) {
      MirrorsAgain(log0, slots0, first, due, log1, slots1, log, slots, s);
    }
  }

  lemma MirrorsAgain(log0: Log, slots0: seq<Slot>, first: nat, due: seq<Due>,
                     log1: Log, slots1: seq<Slot>, log: Log, slots: seq<Slot>, s: nat)
    requires Mirrors(log0, slots0)
    requires Cleaning(log0, slots0, due, |due|, log1, slots1)
    requires Running(log1, slots1, first, due, |due|, log, slots)
    ensures MirrorsAt(log, slots, s)
  {
    assert due[..|due|] == due;
    hide Orderly, Numbered, Runs, Live, LastRun, PartAt, Cleanings;
    assert MirrorsAt(log0, slots0, s);
    if s in SlotsOf(due) {
      var d :| d in due && d.index == s;
      var k :| 0 <= k < |due| && due[k] == d;
      assert RunAs(log, slots, due[k], first + k);
    } else {
      assert SameAt(log1, slots1, log, slots, s);
    }
  }

  // ------------------------------------------------------------------ the runtime

  lemma {:induction false} DeclaredPlaces(calls: seq<Call>, n: nat)
    requires n <= |calls|
    ensures forall d | d in Declared(calls, n) :: d.index < Place(calls, n)
    ensures DistinctSlots(Declared(calls, n))
  {
    if n > 0 {
      DeclaredPlaces(calls, n - 1);
      var front := Declared(calls, n - 1);
      forall i | 0 <= i < |front| ensures front[i].index < Place(calls, n - 1) {
        assert front[i] in front;
      }
    }
  }

  lemma {:induction false} DueDistinct(log: Log, declared: seq<Due>)
    requires DistinctSlots(declared)
    ensures DistinctSlots(DueAmong(log, declared))
    ensures forall d :: d in DueAmong(log, declared) <==> d in declared && Reruns(LastRun(log, d.index), d.deps)
  {
    if declared != [] {
      var front, last := declared[..|declared| - 1], declared[|declared| - 1];
      DueDistinct(log, front);
      assert declared == front + [last];
      var due := DueAmong(log, front);
      forall i | 0 <= i < |due| ensures due[i].index != last.index {
        assert due[i] in front;
        var k :| 0 <= k < |front| && front[k] == due[i];
        assert declared[k] == due[i];
      }
    }
  }

  lemma {:induction false} RunsMembers(due: seq<Due>, first: nat, d: Due)
    requires DistinctSlots(due)
    ensures d in due ==> exists x :: Ran(d.index, x, d.deps, d.effect.cleanup.Some?) in Runs(due, first)
    ensures (exists e :: e in Runs(due, first) && e.Ran? && e.slot == d.index) ==> d.index in SlotsOf(due)
  {
    if due != [] {
      var front, last := due[..|due| - 1], due[|due| - 1];
      assert due == front + [last];
      RunsMembers(front, first, d);
      var own := Ran(last.index, first + |due| - 1, last.deps, last.effect.cleanup.Some?);
      assert Runs(due, first) == Runs(front, first) + [own];
      if d in front {
        var x :| Ran(d.index, x, d.deps, d.effect.cleanup.Some?) in Runs(front, first);
        assert Ran(d.index, x, d.deps, d.effect.cleanup.Some?) in Runs(due, first);
      }
    }
  }

  /**
   * An effect declared in a pass runs in its commit exactly when it has never
   * committed, has no dependencies, or has others than its last committed run.
   */
  lemma {:induction false} RunsExactlyWhenDue(log: Log, calls: seq<Call>, first: nat, n: nat)
    requires n < |calls| && calls[n].UseEffect?
    ensures (exists e :: e in Runs(DueOf(log, calls), first) && e.Ran? && e.slot == Place(calls, n))
            <==> Reruns(LastRun(log, Place(calls, n)), calls[n].deps)
  {
    var d := Due(Place(calls, n), calls[n].effect, calls[n].deps);
    DeclaredAt(calls, |calls|, n);
    DeclaredRuns(log, calls, first, d);
  }

  /** A declared effect is in the pass's list, under its own slot. */
  lemma {:induction false} DeclaredAt(calls: seq<Call>, m: nat, n: nat)
    requires n < m <= |calls| && calls[n].UseEffect?
    ensures Due(Place(calls, n), calls[n].effect, calls[n].deps) in Declared(calls, m)
  {
    if n < m - 1 { DeclaredAt(calls, m - 1, n); }
  }

  lemma DeclaredRuns(log: Log, calls: seq<Call>, first: nat, d: Due)
    requires d in Declared(calls, |calls|)
    ensures (exists e :: e in Runs(DueOf(log, calls), first) && e.Ran? && e.slot == d.index)
            <==> Reruns(LastRun(log, d.index), d.deps)
  {
    var declared := Declared(calls, |calls|);
    DeclaredPlaces(calls, |calls|);
    DueDistinct(log, declared);
    var due := DueOf(log, calls);
    RunsMembers(due, first, d);
    if d.index in SlotsOf(due) {
      var x :| x in due && x.index == d.index;
      var i :| 0 <= i < |declared| && declared[i] == d;
      var k :| 0 <= k < |declared| && declared[k] == x;
    }
  }

  lemma DueNext(log: Log, calls: seq<Call>, n: nat)
    requires n < |calls|
    ensures var c := calls[n];
            DueAmong(log, Declared(calls, n + 1))
              == DueAmong(log, Declared(calls, n))
                 + if c.UseEffect? && Reruns(LastRun(log, Place(calls, n)), c.deps)
                   then [Due(Place(calls, n), c.effect, c.deps)] else []
  {
    var front := Declared(calls, n);
    if calls[n].UseEffect? {
      var d := Due(Place(calls, n), calls[n].effect, calls[n].deps);
      assert (front + [d])[..|front|] == front;
    } else {
      assert front + [] == front;
    }
  }

  lemma StillMirrors(log: Log, slots: seq<Slot>, slots': seq<Slot>)
    requires Mirrors(log, slots) && SameParts(slots, slots')
    ensures Mirrors(log, slots')
  {
    forall s: nat ensures MirrorsAt(log, slots', s) {
      assert MirrorsAt(log, slots, s);
    }
  }

  lemma CleaningSame(log0: Log, slots0: seq<Slot>, due: seq<Due>, n: nat, log: Log, slots: seq<Slot>, slots': seq<Slot>)
    requires n <= |due| && Cleaning(log0, slots0, due, n, log, slots)
    requires SameParts(slots, slots')
    ensures Cleaning(log0, slots0, due, n, log, slots')
  {}

  lemma {:induction false} CleaningsOnly(live: map<nat, nat>, due: seq<Due>)
    ensures forall e | e in Cleanings(live, due) :: e.Cleaned?
  {
    if due != [] { CleaningsOnly(live, due[..|due| - 1]); }
  }

  ghost predicate NoneLive(log: Log, due: seq<Due>) {
    forall i | 0 <= i < |due| :: due[i].index !in Live(log)
  }

  /** The cleanups done: no due slot is live any more, and no instance has been added. */
  lemma CleaningEnd(log0: Log, slots0: seq<Slot>, due: seq<Due>, log: Log, slots: seq<Slot>, next: nat)
    requires Cleaning(log0, slots0, due, |due|, log, slots) && Numbered(log0, next)
    ensures Orderly(log) && Numbered(log, next)
    ensures NoneLive(log, due)
  {
    assert due[..|due|] == due;
    CleaningsOnly(Live(log0), due);
    forall i | 0 <= i < |due| ensures due[i].index !in Live(log) {
      assert due[i] in due && due[i].index in SlotsOf(due);
    }
  }

  /** Every index, as if it were due: what an unmount goes through. */
  function Every(n: nat): (all: seq<Due>)
    ensures |all| == n && DistinctSlots(all) && forall i | 0 <= i < n :: all[i].index == i
  {
    seq(n, i requires 0 <= i < n => Due(i, Effect([], None), None))
  }

  lemma UnmountEnd(log0: Log, slots0: seq<Slot>, log: Log, slots: seq<Slot>, next: nat)
    requires Mirrors(log0, slots0) && Numbered(log0, next)
    requires Cleaning(log0, slots0, Every(|slots0|), |slots0|, log, slots)
    ensures Live(log + [Unmounted]) == map[] && Sound(log + [Unmounted], [], next)
    ensures log == log0 + Cleanings(Live(log0), Every(|slots0|))
    ensures forall e | e in Cleanings(Live(log0), Every(|slots0|)) :: e.Cleaned?
  {
    var all := Every(|slots0|);
    assert all[..|slots0|] == all;
    CleaningsOnly(Live(log0), all);
    forall s | s in Live(log0) ensures s in SlotsOf(all) {
      assert MirrorsAt(log0, slots0, s);
      assert all[s] in all;
    }
    assert Live(log) == map[];
    Snoc(log, Unmounted);
    forall s: nat ensures MirrorsAt(log + [Unmounted], [], s) {}
  }
}
