/**
 * The mock's life on a developer's machine: `mock/tree.ts`, `mock/load.ts`,
 * `mock/dev-up.ts`, `prisma/seed.ts` and the teardown of `mock/env.ts`.
 *
 * Five programs share a tree per machine, two stamp files and some rows, and
 * any of them can die between two writes.  Each program is a list of writes it
 * has decided on (`...Plan`); a run that is killed has performed a prefix of
 * its list.  `Sound` says that the stamps tell the truth, which is what makes
 * `dev-up` right to touch nothing; `Misleads` is exactly when a run breaks it,
 * and `Misled` exactly when a history has.
 */
module Lifecycle {

  /** The fingerprint of a manifest and its generators. */
  type Digest = string

  /** One tree on disk: nothing there, somebody else's directory, a tree being written, a finished one. */
  datatype Tree = Absent | Foreign | Partial | Whole(digest: Digest, anchor: int)

  datatype Shim = NoShim | Shim(digest: Digest)
  datatype MachineFiles = MachineFiles(tree: Tree, df: Shim)

  /** A stamp file: absent, cut off while being written, or readable. */
  datatype TreeStamp = NoStamp | Torn | Stamp(digest: Digest, anchor: int)
  datatype FixturesStamp = NoFixtures | TornFixtures | Fixtures(treeAnchor: int)

  /** The pinned LOCAL host's row, with the tree its rows were read from. */
  datatype Pinned = NoHost | OtherAccount | Loaded(digest: Digest, anchor: int)

  /** Machine 0 is Kestrel, whose tree is the root every check looks at; the others are the remotes. */
  datatype World = World(
    machines: seq<MachineFiles>,
    stamp: TreeStamp,
    fixtures: FixturesStamp,
    house: bool,
    pinned: Pinned)

  ghost predicate Valid(w: World) {
    |w.machines| > 0
  }

  // ------------------------------------------------------------------ what the programs can read

  /** `existsSync(treeRoot())` */
  predicate RootExists(w: World) {
    |w.machines| > 0 && !w.machines[0].tree.Absent?
  }

  /** `treeIsCurrent` */
  predicate TreeIsCurrent(w: World, digest: Digest) {
    w.stamp.Stamp? && w.stamp.digest == digest && RootExists(w)
  }

  /** `fixturesMatchTree` */
  predicate FixturesMatchTree(w: World) {
    w.stamp.Stamp? && w.fixtures.Fixtures? && w.fixtures.treeAnchor == w.stamp.anchor && RootExists(w)
  }

  // ------------------------------------------------------------------ writes

  datatype Write =
    | RemoveStamp
    | DamageTree(machine: nat) // a recursive remove, under way
    | DropTree(machine: nat)
    | MakeRoot(machine: nat)
    | FinishTree(machine: nat, digest: Digest, anchor: int)
    | WriteShim(machine: nat, digest: Digest)
    | OpenStamp
    | WriteStamp(digest: Digest, anchor: int)
    | DeleteHouse
    | CreateHouse
    | SeedRows
    | CommitRows(digest: Digest, anchor: int)
    | OpenFixtures
    | WriteFixtures(anchor: int)

  function WithTree(w: World, m: nat, tree: Tree): World {
    if m < |w.machines| then w.(machines := w.machines[m := w.machines[m].(tree := tree)]) else w
  }

  function Apply(w: World, write: Write): (r: World)
    ensures |r.machines| == |w.machines|
  {
    match write
    case RemoveStamp => w.(stamp := NoStamp)
    case DamageTree(m) => if m < |w.machines| && w.machines[m].tree.Absent? then w else WithTree(w, m, Partial)
    case DropTree(m) => WithTree(w, m, Absent)
    case MakeRoot(m) => WithTree(w, m, Partial)
    case FinishTree(m, digest, anchor) => WithTree(w, m, Whole(digest, anchor))
    case WriteShim(m, digest) =>
      if m < |w.machines| then w.(machines := w.machines[m := w.machines[m].(df := Shim(digest))]) else w
    case OpenStamp => w.(stamp := Torn)
    case WriteStamp(digest, anchor) => w.(stamp := Stamp(digest, anchor))
    case DeleteHouse => w.(house := false, pinned := if w.pinned.Loaded? then NoHost else w.pinned)
    case CreateHouse => w.(house := true)
    case SeedRows => w
    case CommitRows(digest, anchor) => w.(pinned := Loaded(digest, anchor))
    case OpenFixtures => w.(fixtures := TornFixtures)
    case WriteFixtures(anchor) => w.(fixtures := Fixtures(anchor))
  }

  function Perform(w: World, writes: seq<Write>): (r: World)
    ensures |r.machines| == |w.machines|
  {
    if writes == [] then w else Apply(Perform(w, writes[..|writes| - 1]), writes[|writes| - 1])
  }

  /** A program that dies after `life` writes. */
  function Killed(w: World, writes: seq<Write>, life: nat): World {
    Perform(w, if life < |writes| then writes[..life] else writes)
  }

  lemma {:induction false} PerformConcat(w: World, a: seq<Write>, b: seq<Write>)
    ensures Perform(w, a + b) == Perform(Perform(w, a), b)
  {
    if b == [] {
      assert a + b == a;
    } else {
      assert (a + b)[..|a + b| - 1] == a + b[..|b| - 1];
      PerformConcat(w, a, b[..|b| - 1]);
    }
  }

  /** Dying inside the second of two lists, or already inside the first. */
  lemma KilledConcat(w: World, a: seq<Write>, b: seq<Write>, life: nat)
    ensures Killed(w, a + b, life)
         == if life < |a| then Killed(w, a, life) else Killed(Perform(w, a), b, life - |a|)
  {
    if life < |a| {
      assert (a + b)[..life] == a[..life];
    } else if life < |a| + |b| {
      assert (a + b)[..life] == a + b[..life - |a|];
      PerformConcat(w, a, b[..life - |a|]);
    } else {
      PerformConcat(w, a, b);
    }
  }

  // ------------------------------------------------------------------ the programs

  /** `writeTree` and `writeDfShim` for one machine. */
  function MachineWrites(m: nat, digest: Digest, anchor: int): seq<Write> {
    [DamageTree(m), DropTree(m), MakeRoot(m), FinishTree(m, digest, anchor), WriteShim(m, digest)]
  }

  function AllMachineWrites(count: nat, digest: Digest, anchor: int): seq<Write> {
    if count == 0 then []
    else AllMachineWrites(count - 1, digest, anchor) + MachineWrites(count - 1, digest, anchor)
  }

  /** The old stamp goes first, the new one comes last. */
  function TreeWrites(count: nat, digest: Digest, anchor: int): seq<Write> {
    [RemoveStamp] + AllMachineWrites(count, digest, anchor) + [OpenStamp, WriteStamp(digest, anchor)]
  }

  predicate Refuses(w: World) {
    RootExists(w) && !w.stamp.Stamp?
  }

  predicate LeavesTree(w: World, force: bool, digest: Digest) {
    !force && TreeIsCurrent(w, digest)
  }

  /** `materialise` */
  function MaterialisePlan(w: World, force: bool, now: int, digest: Digest): seq<Write> {
    if LeavesTree(w, force, digest) || Refuses(w) then []
    else TreeWrites(|w.machines|, digest, now)
  }

  function RowWrites(digest: Digest, now: int): seq<Write> {
    [CommitRows(digest, now), OpenFixtures, WriteFixtures(now)]
  }

  /** `loadFixtures`: the tree first and by force, then the account is looked up. */
  function LoadPlan(w: World, now: int, digest: Digest): seq<Write> {
    if Refuses(w) then []
    else
      TreeWrites(|w.machines|, digest, now)
        + if w.house && !w.pinned.OtherAccount? then RowWrites(digest, now) else []
  }

  /** `pnpm seed`: deleting the account takes its hosts with it. */
  function SeedPlan(): seq<Write> {
    [DeleteHouse, CreateHouse, SeedRows]
  }

  /** What `dev-up` asks before it touches nothing. */
  predicate LeavesAlone(w: World) {
    w.house && w.pinned.Loaded? && RootExists(w) && FixturesMatchTree(w)
  }

  /** `dev-up`, once the guard has let it through. */
  function DevUpPlan(w: World, now: int, digest: Digest): seq<Write> {
    if !w.house then SeedPlan() + LoadPlan(Perform(w, SeedPlan()), now, digest)
    else if LeavesAlone(w) then []
    else LoadPlan(w, now, digest)
  }

  /** What a developer can do to the mock: run one of the programs, or tidy up by hand. */
  datatype Command =
    | MockTree(force: bool, now: int, digest: Digest)
    | Mock(now: int, digest: Digest)
    | Seed
    | DevUp(now: int, digest: Digest)
    | TearDown    // `removeMockHome`
    | DeleteTree  // `rm -rf` of Kestrel's tree
    | Occupy      // a directory of one's own at the root

  function Plan(w: World, c: Command): seq<Write> {
    match c
    case MockTree(force, now, digest) => MaterialisePlan(w, force, now, digest)
    case Mock(now, digest) => LoadPlan(w, now, digest)
    case Seed => SeedPlan()
    case DevUp(now, digest) => DevUpPlan(w, now, digest)
    case TearDown => []
    case DeleteTree => []
    case Occupy => []
  }

  function After(w: World, c: Command, life: nat): World {
    match c
    case TearDown => w.(machines := seq(|w.machines|, _ => MachineFiles(Absent, NoShim)), stamp := NoStamp,
              fixtures := NoFixtures)
    case DeleteTree => WithTree(w, 0, Absent)
    case Occupy => if RootExists(w) then w else WithTree(w, 0, Foreign)
    case _ => Killed(w, Plan(w, c), life)
  }

  // ------------------------------------------------------------------ what every history keeps

  ghost predicate WholeAt(w: World, digest: Digest, anchor: int) {
    forall m | 0 <= m < |w.machines| :: w.machines[m] == MachineFiles(Whole(digest, anchor), Shim(digest))
  }

  /** The root is somebody else's directory. */
  predicate Occupied(w: World) {
    |w.machines| > 0 && w.machines[0].tree.Foreign?
  }

  /** A stamp beside a root of the mock's own says what every tree and every `df` there is. */
  ghost predicate StampTellsTruth(w: World) {
    w.stamp.Stamp? && RootExists(w) && !Occupied(w) ==> WholeAt(w, w.stamp.digest, w.stamp.anchor)
  }

  /** Two stamps that agree say which tree the rows were read from. */
  ghost predicate RowsTellTruth(w: World) {
    w.stamp.Stamp? && w.fixtures == Fixtures(w.stamp.anchor) && w.pinned.Loaded? ==>
      w.pinned == Loaded(w.stamp.digest, w.stamp.anchor)
  }

  ghost predicate Sound(w: World) {
    Valid(w) && StampTellsTruth(w) && RowsTellTruth(w)
  }

  /** The rows in the database describe the finished trees on disk. */
  ghost predicate Agreed(w: World) {
    w.house && w.pinned.Loaded? && WholeAt(w, w.pinned.digest, w.pinned.anchor)
  }

  /** Only the trees and their shims differ. */
  ghost predicate SameBesideTrees(w: World, r: World) {
    r == w.(machines := r.machines) && |r.machines| == |w.machines|
  }

  predicate ToMachine(write: Write) {
    write.DamageTree? || write.DropTree? || write.MakeRoot? || write.FinishTree? || write.WriteShim?
  }

  lemma {:induction false} TreeWritesOnly(w: World, writes: seq<Write>)
    requires forall x | x in writes :: ToMachine(x)
    ensures SameBesideTrees(w, Perform(w, writes))
  {
    if writes != [] {
      TreeWritesOnly(w, writes[..|writes| - 1]);
      assert writes[|writes| - 1] in writes;
    }
  }

  lemma {:induction false} AllToMachine(count: nat, digest: Digest, anchor: int)
    ensures forall x | x in AllMachineWrites(count, digest, anchor) :: ToMachine(x)
  {
    if count > 0 { AllToMachine(count - 1, digest, anchor); }
  }

  lemma OneMachineWritten(w: World, m: nat, digest: Digest, anchor: int)
    requires m < |w.machines|
    ensures Perform(w, MachineWrites(m, digest, anchor))
         == w.(machines := w.machines[m := MachineFiles(Whole(digest, anchor), Shim(digest))])
  {
    hide Perform;
    FiveWrites(w, DamageTree(m), DropTree(m), MakeRoot(m), FinishTree(m, digest, anchor), WriteShim(m, digest));
    MachineApplied(w, m, digest, anchor);
  }

  lemma MachineApplied(w: World, m: nat, digest: Digest, anchor: int)
    requires m < |w.machines|
    ensures Apply(Apply(Apply(Apply(Apply(w, DamageTree(m)), DropTree(m)), MakeRoot(m)),
                              FinishTree(m, digest, anchor)), WriteShim(m, digest))
         == w.(machines := w.machines[m := MachineFiles(Whole(digest, anchor), Shim(digest))])
  {
    var dropped := Apply(Apply(w, DamageTree(m)), DropTree(m));
    assert dropped.machines == w.machines[m := MachineFiles(Absent, w.machines[m].df)];
    var finished := Apply(Apply(dropped, MakeRoot(m)), FinishTree(m, digest, anchor));
    assert finished.machines == w.machines[m := MachineFiles(Whole(digest, anchor), w.machines[m].df)];
  }

  lemma FiveWrites(w: World, a: Write, b: Write, c: Write, d: Write, e: Write)
    ensures Perform(w, [a, b, c, d, e]) == Apply(Apply(Apply(Apply(Apply(w, a), b), c), d), e)
  {
    hide *;
    OneWrite(w, a);
    NextWrite(w, [a], b);
    NextWrite(w, [a] + [b], c);
    NextWrite(w, [a] + [b] + [c], d);
    NextWrite(w, [a] + [b] + [c] + [d], e);
    assert [a] + [b] + [c] + [d] + [e] == [a, b, c, d, e];
  }

  lemma NextWrite(w: World, done: seq<Write>, x: Write)
    ensures Perform(w, done + [x]) == Apply(Perform(w, done), x)
  {
    assert (done + [x])[..|done|] == done;
  }

  /** The first `count` machines are whole, and nothing beside trees and shims has moved. */
  ghost predicate FirstWhole(w: World, r: World, count: nat, digest: Digest, anchor: int) {
    && count <= |w.machines| && SameBesideTrees(w, r)
    && forall m | 0 <= m < count :: r.machines[m] == MachineFiles(Whole(digest, anchor), Shim(digest))
  }

  lemma OneMoreWhole(w: World, front: World, count: nat, digest: Digest, anchor: int)
    requires count < |w.machines| && FirstWhole(w, front, count, digest, anchor)
    ensures |front.machines| == |w.machines|
    ensures var r := front.(machines := front.machines[count := MachineFiles(Whole(digest, anchor), Shim(digest))]);
            FirstWhole(w, r, count + 1, digest, anchor)
  {
  }

  lemma NoneWhole(w: World, digest: Digest, anchor: int)
    ensures Perform(w, AllMachineWrites(0, digest, anchor)) == w && FirstWhole(w, w, 0, digest, anchor)
  {
  }

  lemma {:induction false} MachinesWritten(w: World, count: nat, digest: Digest, anchor: int)
    requires count <= |w.machines|
    ensures FirstWhole(w, Perform(w, AllMachineWrites(count, digest, anchor)), count, digest, anchor)
  {
    NoneWhole(w, digest, anchor);
    if count > 0 { MachineAppended(count - 1, digest, anchor); }
    hide *;
    if count > 0 {
      var front := Perform(w, AllMachineWrites(count - 1, digest, anchor));
      MachinesWritten(w, count - 1, digest, anchor);
      PerformConcat(w, AllMachineWrites(count - 1, digest, anchor), MachineWrites(count - 1, digest, anchor));
      OneMoreWhole(w, front, count - 1, digest, anchor);
      OneMachineWritten(front, count - 1, digest, anchor);
    }
  }

  lemma MachineAppended(count: nat, digest: Digest, anchor: int)
    ensures AllMachineWrites(count + 1, digest, anchor)
         == AllMachineWrites(count, digest, anchor) + MachineWrites(count, digest, anchor)
  {
  }

  /** A finished rewrite: every machine whole, the stamp saying so, nothing else moved. */
  lemma TreeWritten(w: World, digest: Digest, anchor: int)
    requires Valid(w)
    ensures var r := Perform(w, TreeWrites(|w.machines|, digest, anchor));
            && r == w.(machines := r.machines, stamp := Stamp(digest, anchor))
            && WholeAt(r, digest, anchor) && RootExists(r)
  {
    var n := |w.machines|;
    var all := AllMachineWrites(n, digest, anchor);
    Framed(w, all, digest, anchor);
    MachinesWritten(Apply(w, RemoveStamp), n, digest, anchor);
  }

  /** The stamp removed before a list of writes, and written again behind it. */
  lemma Framed(w: World, all: seq<Write>, digest: Digest, anchor: int)
    ensures Perform(w, [RemoveStamp] + all) == Perform(Apply(w, RemoveStamp), all)
    ensures Perform(w, [RemoveStamp] + all + [OpenStamp]) == Perform(Apply(w, RemoveStamp), all).(stamp := Torn)
    ensures Perform(w, [RemoveStamp] + all + [OpenStamp, WriteStamp(digest, anchor)])
         == Perform(Apply(w, RemoveStamp), all).(stamp := Stamp(digest, anchor))
  {
    OneWrite(w, RemoveStamp);
    PerformConcat(w, [RemoveStamp], all);
    NextWrite(w, [RemoveStamp] + all, OpenStamp);
    NextWrite(w, [RemoveStamp] + all + [OpenStamp], WriteStamp(digest, anchor));
    assert [RemoveStamp] + all + [OpenStamp] + [WriteStamp(digest, anchor)]
        == [RemoveStamp] + all + [OpenStamp, WriteStamp(digest, anchor)];
  }

  lemma OneWrite(w: World, x: Write)
    ensures Perform(w, [x]) == Apply(w, x)
  {
    assert [x][..0] == [];
  }

  /**
   * An interrupted rewrite: whatever the trees are by then, no stamp can be
   * read beside them, and neither rows nor fixtures have moved.
   */
  lemma {:induction false} TreeInterrupted(w: World, digest: Digest, anchor: int, k: nat)
    requires Valid(w) && 0 < k < |TreeWrites(|w.machines|, digest, anchor)|
    ensures var r := Perform(w, TreeWrites(|w.machines|, digest, anchor)[..k]);
            && r == w.(machines := r.machines, stamp := r.stamp) && |r.machines| == |w.machines|
            && !r.stamp.Stamp?
  {
    AllToMachine(|w.machines|, digest, anchor);
    Interrupted(w, AllMachineWrites(|w.machines|, digest, anchor), digest, anchor, k);
  }

  lemma Interrupted(w: World, all: seq<Write>, digest: Digest, anchor: int, k: nat)
    requires (forall x | x in all :: ToMachine(x)) && 0 < k < |all| + 3
    ensures var r := Perform(w, ([RemoveStamp] + all + [OpenStamp, WriteStamp(digest, anchor)])[..k]);
            && r == w.(machines := r.machines, stamp := r.stamp) && |r.machines| == |w.machines|
            && !r.stamp.Stamp?
  {
    TreePrefix(all, digest, anchor, k);
    var some := if k <= |all| + 1 then all[..k - 1] else all;
    forall x | x in some ensures ToMachine(x) {}
    var cleared := Apply(w, RemoveStamp);
    TreeWritesOnly(cleared, some);
    Framed(w, some, digest, anchor);
  }

  /** The prefixes of a rewrite: up to some write of a machine, or all of those and a stamp just opened. */
  lemma TreePrefix(all: seq<Write>, digest: Digest, anchor: int, k: nat)
    requires 0 < k < |all| + 3
    ensures var writes := [RemoveStamp] + all + [OpenStamp, WriteStamp(digest, anchor)];
            writes[..k] == if k <= |all| + 1 then [RemoveStamp] + all[..k - 1] else [RemoveStamp] + all + [OpenStamp]
  {}

  // ------------------------------------------------------------------ one program

  /** Whether a rewrite at `anchor` would make an old fixtures stamp agree with rows read from another tree. */
  predicate WouldMislead(w: World, digest: Digest, anchor: int) {
    w.fixtures == Fixtures(anchor) && w.pinned.Loaded? && w.pinned != Loaded(digest, anchor)
  }

  /**
   * Exactly when a rewrite of the tree keeps the stamps truthful: when its
   * anchor is not the one an old fixtures stamp remembers of other rows.
   */
  lemma RewriteKeepsSound(w: World, digest: Digest, anchor: int)
    requires Sound(w)
    ensures Sound(Perform(w, TreeWrites(|w.machines|, digest, anchor))) <==> !WouldMislead(w, digest, anchor)
  {
    TreeWritten(w, digest, anchor);
  }

  /** A rewrite writes five times for each machine, and three times its stamp. */
  function RewriteLength(w: World): nat {
    5 * |w.machines| + 3
  }

  lemma {:induction false} TreeLength(count: nat, digest: Digest, anchor: int)
    ensures |AllMachineWrites(count, digest, anchor)| == 5 * count
    ensures |TreeWrites(count, digest, anchor)| == 5 * count + 3
  {
    if count > 0 { TreeLength(count - 1, digest, anchor); }
  }

  /**
   * When a command, dying after `life` writes, leaves two stamps that agree over
   * rows of another tree: when it finishes a rewrite at the anchor an old
   * fixtures stamp remembers of other rows, and does not commit its own.
   */
  predicate Misleads(w: World, c: Command, life: nat) {
    match c
    case MockTree(force, now, digest) =>
      !LeavesTree(w, force, digest) && !Refuses(w) && WouldMislead(w, digest, now) && life >= RewriteLength(w)
    case Mock(now, digest) =>
      && !Refuses(w) && WouldMislead(w, digest, now)
      && if w.house then life == RewriteLength(w) else life >= RewriteLength(w)
    case DevUp(now, digest) =>
      w.house && !LeavesAlone(w) && !Refuses(w) && WouldMislead(w, digest, now) && life == RewriteLength(w)
    case _ => false
  }

  /** When it writes a stamp or rows at all, or removes them. */
  predicate Acts(w: World, c: Command, life: nat) {
    match c
    case MockTree(force, _, digest) => life > 0 && !LeavesTree(w, force, digest) && !Refuses(w)
    case Mock(_, _) => life > 0 && !Refuses(w)
    case Seed => life > 0
    case DevUp(_, _) => life > 0 && (w.house ==> !LeavesAlone(w) && !Refuses(w))
    case TearDown => true
    case DeleteTree => false
    case Occupy => false
  }

  /**
   * What a command makes of the stamps: the tree's goes on telling the truth, and
   * the rows tell it afterwards unless the command misled, or did not act on
   * rows that told it no longer.
   */
  ghost predicate Verdict(w: World, r: World, acts: bool, misleads: bool) {
    && Valid(r)
    && (StampTellsTruth(w) ==> StampTellsTruth(r))
    && (RowsTellTruth(r) <==> if acts then !misleads else RowsTellTruth(w))
  }

  lemma TreeKilled(w: World, digest: Digest, anchor: int, life: nat)
    requires Valid(w)
    ensures Verdict(w, Killed(w, TreeWrites(|w.machines|, digest, anchor), life),
                    life > 0, WouldMislead(w, digest, anchor) && life >= RewriteLength(w))
  {
    TreeLength(|w.machines|, digest, anchor);
    var writes := TreeWrites(|w.machines|, digest, anchor);
    if life == 0 {
      assert writes[..0] == [];
    } else if life < |writes| {
      TreeInterrupted(w, digest, anchor, life);
    } else {
      TreeWritten(w, digest, anchor);
    }
    hide TreeWrites;
  }

  /** Committing the rows and then stamping them, stopped anywhere. */
  lemma RowsKilled(w: World, digest: Digest, anchor: int, life: nat)
    ensures Killed(w, RowWrites(digest, anchor), life)
         == if life == 0 then w
            else w.(pinned := Loaded(digest, anchor),
                    fixtures := if life == 1 then w.fixtures else if life == 2 then TornFixtures else Fixtures(anchor))
  {
    ThreeWrites(w, CommitRows(digest, anchor), OpenFixtures, WriteFixtures(anchor), life);
    hide Killed;
  }

  lemma ThreeWrites(w: World, a: Write, b: Write, c: Write, life: nat)
    ensures Killed(w, [a, b, c], life)
         == if life == 0 then w
            else if life == 1 then Apply(w, a)
            else if life == 2 then Apply(Apply(w, a), b)
            else Apply(Apply(Apply(w, a), b), c)
  {
    OneWrite(w, a);
    NextWrite(w, [a], b);
    NextWrite(w, [a] + [b], c);
    var all := [a, b, c];
    assert all[..0] == [] && all[..1] == [a] && all[..2] == [a] + [b] && all == [a] + [b] + [c];
    hide Apply;
  }

  /** Once its tree is written, a load that commits its rows tells the truth from there on. */
  lemma RowsKilledSound(w: World, digest: Digest, anchor: int, life: nat)
    requires Valid(w) && w.stamp == Stamp(digest, anchor) && WholeAt(w, digest, anchor)
    ensures Sound(Killed(w, RowWrites(digest, anchor), life)) <==> life > 0 || !WouldMislead(w, digest, anchor)
  {
    RowsKilled(w, digest, anchor, life);
    hide Killed;
  }

  lemma Committed(w: World, digest: Digest, anchor: int, life: nat)
    requires Valid(w) && w.stamp == Stamp(digest, anchor)
    ensures Verdict(w, Killed(w, RowWrites(digest, anchor), life), life > 0, false)
  {
    RowsKilled(w, digest, anchor, life);
    hide Killed;
  }

  lemma LoadKilled(w: World, now: int, digest: Digest, life: nat)
    requires Valid(w)
    ensures var c := Mock(now, digest);
            Verdict(w, Killed(w, LoadPlan(w, now, digest), life), Acts(w, c, life), Misleads(w, c, life))
  {
    var tree := TreeWrites(|w.machines|, digest, now);
    var rest := if w.house && !w.pinned.OtherAccount? then RowWrites(digest, now) else [];
    KilledConcat(w, tree, rest, life);
    TreeLength(|w.machines|, digest, now);
    TreeKilled(w, digest, now, life);
    NothingPlanned(w, life);
    if life >= |tree| {
      TreeWritten(w, digest, now);
      var written := Perform(w, tree);
      assert Killed(w, tree, life) == written;
      NothingPlanned(written, life - |tree|);
      Committed(written, digest, now, life - |tree|);
    }
    hide Killed, Perform, TreeWrites, StampTellsTruth, RowsTellTruth, RowWrites;
  }

  /** The seed, killed anywhere: deleting the account takes its hosts with it. */
  lemma SeedKilled(w: World, life: nat)
    ensures Killed(w, SeedPlan(), life)
         == if life == 0 then w
            else w.(house := life > 1, pinned := if w.pinned.Loaded? then NoHost else w.pinned)
  {
    ThreeWrites(w, DeleteHouse, CreateHouse, SeedRows, life);
    hide Killed;
  }

  lemma SeedDone(w: World)
    ensures |SeedPlan()| == 3
    ensures Perform(w, SeedPlan()) == w.(house := true, pinned := if w.pinned.Loaded? then NoHost else w.pinned)
  {
    SeedKilled(w, 3);
    hide Perform;
  }

  lemma DevUpKilled(w: World, now: int, digest: Digest, life: nat)
    requires Valid(w)
    ensures var c := DevUp(now, digest);
            Verdict(w, Killed(w, DevUpPlan(w, now, digest), life), Acts(w, c, life), Misleads(w, c, life))
  {
    SeedDone(w);
    SeedKilled(w, life);
    NothingPlanned(w, life);
    var seeded := Perform(w, SeedPlan());
    if w.house {
      LoadKilled(w, now, digest, life);
    } else {
      KilledConcat(w, SeedPlan(), LoadPlan(seeded, now, digest), life);
      if life >= 3 { LoadKilled(seeded, now, digest, life - 3); }
    }
    hide Perform, Killed, LoadPlan, SeedPlan;
  }

  lemma MaterialiseKilled(w: World, force: bool, now: int, digest: Digest, life: nat)
    requires Valid(w)
    ensures var c := MockTree(force, now, digest);
            Verdict(w, Killed(w, MaterialisePlan(w, force, now, digest), life), Acts(w, c, life), Misleads(w, c, life))
  {
    NothingPlanned(w, life);
    TreeKilled(w, digest, now, life);
    hide Killed, TreeWrites;
  }

  /** By hand: what is gone makes no claim, and an occupied root none either. */
  lemma DoneByHand(w: World, c: Command, life: nat)
    requires Valid(w) && (c.TearDown? || c.DeleteTree? || c.Occupy?)
    ensures Verdict(w, After(w, c, life), Acts(w, c, life), Misleads(w, c, life))
  {
  }

  /** What each command comes to. */
  lemma AfterIs(w: World, c: Command, life: nat)
    ensures c.MockTree? ==> After(w, c, life) == Killed(w, MaterialisePlan(w, c.force, c.now, c.digest), life)
    ensures c.Mock? ==> After(w, c, life) == Killed(w, LoadPlan(w, c.now, c.digest), life)
    ensures c.Seed? ==> After(w, c, life) == Killed(w, SeedPlan(), life)
    ensures c.DevUp? ==> After(w, c, life) == Killed(w, DevUpPlan(w, c.now, c.digest), life)
  {
  }

  lemma CommandKilled(w: World, c: Command, life: nat)
    requires Valid(w)
    ensures Verdict(w, After(w, c, life), Acts(w, c, life), Misleads(w, c, life))
  {
    AfterIs(w, c, life);
    match c
    case MockTree(force, now, digest) => MaterialiseKilled(w, force, now, digest, life);
    case Mock(now, digest) => LoadKilled(w, now, digest, life);
    case Seed => SeedKilled(w, life);
    case DevUp(now, digest) => DevUpKilled(w, now, digest, life);
    case _ => DoneByHand(w, c, life);
    hide After, Killed, MaterialisePlan, LoadPlan, SeedPlan, DevUpPlan;
  }

  lemma MisleadingActs(w: World, c: Command, life: nat)
    requires Misleads(w, c, life)
    ensures Acts(w, c, life)
  {
  }

  /** Whatever is run, and wherever it dies, the stamps go on telling the truth exactly unless the command misleads. */
  lemma CommandKeepsSound(w: World, c: Command, life: nat)
    requires Sound(w)
    ensures Sound(After(w, c, life)) <==> !Misleads(w, c, life)
  {
    CommandKilled(w, c, life);
    if Misleads(w, c, life) { MisleadingActs(w, c, life); }
    hide After, Misleads, Acts, RowsTellTruth, StampTellsTruth;
  }

  /** And a command that misleads is believed at once: `dev-up` would touch nothing, over rows of another tree. */
  lemma MisleadingIsBelieved(w: World, c: Command, life: nat)
    requires Valid(w) && w.house && Misleads(w, c, life)
    ensures LeavesAlone(After(w, c, life)) && !Agreed(After(w, c, life))
  {
    AfterIs(w, c, life);
    var tree := TreeWrites(|w.machines|, c.digest, c.now);
    var rest := if c.MockTree? then [] else RowWrites(c.digest, c.now);
    TreeLength(|w.machines|, c.digest, c.now);
    assert tree + [] == tree;
    KilledConcat(w, tree, rest, life);
    TreeWritten(w, c.digest, c.now);
    var r := Perform(w, tree);
    NothingPlanned(r, life - |tree|);
    RowsKilled(r, c.digest, c.now, 0);
    assert r.machines[0] == MachineFiles(Whole(c.digest, c.now), Shim(c.digest));
    hide Killed, Perform, TreeWrites, After;
  }

  // ------------------------------------------------------------------ histories

  /** A command, and after how many writes it died. */
  datatype Run = Run(command: Command, life: nat)

  function History(w: World, runs: seq<Run>): World {
    if runs == [] then w
    else After(History(w, runs[..|runs| - 1]), runs[|runs| - 1].command, runs[|runs| - 1].life)
  }

  predicate MisleadsAt(w: World, runs: seq<Run>, i: nat)
    requires i < |runs|
  {
    Misleads(History(w, runs[..i]), runs[i].command, runs[i].life)
  }

  predicate ActsAt(w: World, runs: seq<Run>, i: nat)
    requires i < |runs|
  {
    Acts(History(w, runs[..i]), runs[i].command, runs[i].life)
  }

  /** The `i`-th run misled, and none since has acted. */
  predicate MisledBy(w: World, runs: seq<Run>, i: nat)
    requires i < |runs|
  {
    MisleadsAt(w, runs, i) && forall j | i < j < |runs| :: !ActsAt(w, runs, j)
  }

  predicate Misled(w: World, runs: seq<Run>) {
    exists i: nat | i < |runs| :: MisledBy(w, runs, i)
  }

  /** A checkout nobody has run anything in. */
  ghost predicate Untouched(w: World) {
    Valid(w) && w.stamp.NoStamp? && w.fixtures.NoFixtures?
  }

  lemma UntouchedIsSound(w: World)
    requires Untouched(w)
    ensures Sound(w)
  {
  }

  lemma SameAt(w: World, runs: seq<Run>, i: nat)
    requires i + 1 < |runs|
    ensures var front := runs[..|runs| - 1];
            (MisleadsAt(w, runs, i) <==> MisleadsAt(w, front, i)) && (ActsAt(w, runs, i) <==> ActsAt(w, front, i))
  {
    assert runs[..|runs| - 1][..i] == runs[..i];
    hide Misleads, Acts, History;
  }

  lemma MisledBefore(w: World, runs: seq<Run>, n: nat, i: nat)
    requires i < n && n + 1 == |runs|
    ensures MisledBy(w, runs, i) <==> MisledBy(w, runs[..n], i) && !ActsAt(w, runs, n)
  {
    hide MisleadsAt, ActsAt;
    var front := runs[..n];
    SameAt(w, runs, i);
    if MisledBy(w, runs, i) {
      forall j | i < j < n ensures !ActsAt(w, front, j) { SameAt(w, runs, j); }
    }
    if MisledBy(w, front, i) && !ActsAt(w, runs, n) {
      forall j | i < j <= n ensures !ActsAt(w, runs, j) {
        if j < n { SameAt(w, runs, j); }
      }
    }
  }

  /** The last run has the last word, if it acts. */
  lemma MisledNext(w: World, runs: seq<Run>, n: nat)
    requires n + 1 == |runs|
    ensures Misled(w, runs) <==> MisleadsAt(w, runs, n) || (!ActsAt(w, runs, n) && Misled(w, runs[..n]))
  {
    LastMisleads(w, runs, n);
    forall i: nat | i < n ensures MisledBy(w, runs, i) <==> MisledBy(w, runs[..n], i) && !ActsAt(w, runs, n) {
      MisledBefore(w, runs, n, i);
    }
    hide MisleadsAt, ActsAt, MisledBy;
  }

  lemma LastMisleads(w: World, runs: seq<Run>, n: nat)
    requires n + 1 == |runs|
    ensures MisledBy(w, runs, n) <==> MisleadsAt(w, runs, n)
  {
  }

  /**
   * After any history, whatever was killed and wherever, the stamps tell the
   * truth exactly unless some run misled and none since has acted; and the
   * tree's stamp tells it in any case.
   */
  lemma {:induction false} HistoryIsSound(w: World, runs: seq<Run>)
    requires Sound(w)
    ensures Sound(History(w, runs)) <==> !Misled(w, runs)
    ensures Valid(History(w, runs)) && StampTellsTruth(History(w, runs))
  {
    if runs != [] {
      var front, last := runs[..|runs| - 1], runs[|runs| - 1];
      var v := History(w, front);
      HistoryIsSound(w, front);
      MisledNext(w, runs, |front|);
      CommandKilled(v, last.command, last.life);
      if Misleads(v, last.command, last.life) { MisleadingActs(v, last.command, last.life); }
    }
    hide After, Misleads, Acts, RowsTellTruth, StampTellsTruth, Misled;
  }

  /** The clock has moved past the anchor the fixtures stamp remembers. */
  predicate Fresh(w: World, c: Command) {
    match c
    case MockTree(_, now, _) => w.fixtures != Fixtures(now)
    case Mock(now, _) => w.fixtures != Fixtures(now)
    case DevUp(now, _) => w.fixtures != Fixtures(now)
    case _ => true
  }

  /** So nobody is ever misled while the clock moves. */
  lemma FreshNeverMisleads(w: World, runs: seq<Run>)
    requires forall i | 0 <= i < |runs| :: Fresh(History(w, runs[..i]), runs[i].command)
    ensures !Misled(w, runs)
  {
    forall i: nat | i < |runs| ensures !MisledBy(w, runs, i) {
      assert Fresh(History(w, runs[..i]), runs[i].command);
    }
    hide History;
  }

  /**
   * After any history, when `dev-up` decides to touch nothing, the rows describe
   * finished trees on every machine exactly unless the root is somebody else's
   * directory or the stamps were misled; and it decides so whenever they do and
   * the fixtures stamp was written.
   */
  lemma TouchNothingIsRight(w: World, runs: seq<Run>, now: int, digest: Digest)
    requires Sound(w)
    ensures var r := History(w, runs);
            LeavesAlone(r) ==> (Agreed(r) <==> !Occupied(r) && !Misled(w, runs)) && DevUpPlan(r, now, digest) == []
    ensures var r := History(w, runs);
            Agreed(r) && r.stamp.Stamp? && r.fixtures == Fixtures(r.pinned.anchor) ==> LeavesAlone(r)
  {
    HistoryIsSound(w, runs);
    var r := History(w, runs);
    assert Agreed(r) ==> r.machines[0] == MachineFiles(Whole(r.pinned.digest, r.pinned.anchor), Shim(r.pinned.digest));
    assert r.stamp.Stamp? && WholeAt(r, r.stamp.digest, r.stamp.anchor)
      ==> r.machines[0] == MachineFiles(Whole(r.stamp.digest, r.stamp.anchor), Shim(r.stamp.digest));
    hide History, Plan, After, Misled;
  }

  /**
   * After any history, at whatever anchors, a tree that a run calls current was
   * written to its end, from this very manifest, exactly unless the root is
   * somebody else's directory.
   */
  lemma CurrentIsComplete(w: World, runs: seq<Run>, digest: Digest)
    requires Sound(w)
    ensures var r := History(w, runs);
            TreeIsCurrent(r, digest) ==> (WholeAt(r, digest, r.stamp.anchor) <==> !Occupied(r))
  {
    HistoryIsSound(w, runs);
    var r := History(w, runs);
    assert r.stamp.Stamp? && WholeAt(r, digest, r.stamp.anchor) ==>
             r.machines[0] == MachineFiles(Whole(digest, r.stamp.anchor), Shim(digest));
    hide History, Plan, After, Misled;
  }

  /**
   * A finished `dev-up` that was not refused leaves the next one nothing to do,
   * and leaves agreement exactly unless it touched nothing beside an occupied
   * root or over stamps that were misled.
   */
  lemma DevUpSettles(w: World, now: int, digest: Digest, later: int, digest': Digest)
    requires Valid(w) && StampTellsTruth(w) && !Refuses(w) && !w.pinned.OtherAccount?
    ensures var r := Perform(w, DevUpPlan(w, now, digest));
            && (Agreed(r) <==> (LeavesAlone(w) ==> !Occupied(w) && RowsTellTruth(w)))
            && DevUpPlan(r, later, digest') == []
  {
    if LeavesAlone(w) {
      assert Agreed(w)
        ==> w.machines[0] == MachineFiles(Whole(w.pinned.digest, w.pinned.anchor), Shim(w.pinned.digest));
      assert WholeAt(w, w.stamp.digest, w.stamp.anchor)
        ==> w.machines[0] == MachineFiles(Whole(w.stamp.digest, w.stamp.anchor), Shim(w.stamp.digest));
    } else {
      SeedDone(w);
      var start := if w.house then w else Perform(w, SeedPlan());
      PerformConcat(w, SeedPlan(), LoadPlan(start, now, digest));
      Loads(start, now, digest);
    }
    hide Perform, TreeWrites, SeedPlan, LoadPlan;
  }

  /** A completed load: finished trees, rows read from them, and stamps that say so. */
  lemma Loads(w: World, now: int, digest: Digest)
    requires Valid(w) && !Refuses(w) && w.house && !w.pinned.OtherAccount?
    ensures var r := Perform(w, LoadPlan(w, now, digest));
            && WholeAt(r, digest, now) && RootExists(r)
            && r == World(r.machines, Stamp(digest, now), Fixtures(now), true, Loaded(digest, now))
  {
    var tree := TreeWrites(|w.machines|, digest, now);
    TreeWritten(w, digest, now);
    PerformConcat(w, tree, RowWrites(digest, now));
    RowsKilled(Perform(w, tree), digest, now, 3);
    assert |RowWrites(digest, now)| == 3;
    hide Perform, TreeWrites;
  }

  // ------------------------------------------------------------------ other people's directories

  /** Read strictly, as `treeIsCurrent` reads it: a stamp beside any root tells the truth. */
  ghost predicate StampIsBelieved(w: World) {
    w.stamp.Stamp? && RootExists(w) ==> WholeAt(w, w.stamp.digest, w.stamp.anchor)
  }

  /** Occupying an absent root keeps that exactly while no stamp is readable. */
  lemma OccupyMisleadsExactly(w: World, life: nat)
    requires Sound(w) && !RootExists(w)
    ensures StampIsBelieved(After(w, Occupy, life)) <==> !w.stamp.Stamp?
  {
    var r := After(w, Occupy, life);
    assert r.machines[0].tree.Foreign?;
  }

  /** When a command, dying after `life` writes, leaves every tree and `df` as it found them beside an occupied root. */
  predicate Spares(w: World, c: Command, life: nat) {
    match c
    case MockTree(force, _, digest) => !w.stamp.Stamp? || (!force && w.stamp.digest == digest) || life <= 1
    case Mock(_, _) => !w.stamp.Stamp? || life <= 1
    case Seed => true
    case DevUp(_, _) => !w.stamp.Stamp? || (if w.house then LeavesAlone(w) || life <= 1 else life <= 4)
    case TearDown => false
    case DeleteTree => false
    case Occupy => true
  }

  lemma {:induction false} NeverForeignAgain(w: World, writes: seq<Write>)
    requires |w.machines| > 0 && !Occupied(w)
    ensures !Occupied(Perform(w, writes))
  {
    if writes != [] {
      NeverForeignAgain(w, writes[..|writes| - 1]);
      WriteIsNotForeign(Perform(w, writes[..|writes| - 1]), writes[|writes| - 1]);
    }
    hide Apply;
  }

  lemma WriteIsNotForeign(w: World, write: Write)
    requires |w.machines| > 0 && !Occupied(w)
    ensures |Apply(w, write).machines| > 0 && !Occupied(Apply(w, write))
  {
  }

  lemma TreeWritesBegin(count: nat, digest: Digest, anchor: int)
    requires count > 0
    ensures var writes := TreeWrites(count, digest, anchor);
            |writes| > 2 && writes[..2] == [RemoveStamp, DamageTree(0)] && writes[..1] == [RemoveStamp]
  {
    AllMachinesBegin(count, digest, anchor);
  }

  lemma {:induction false} AllMachinesBegin(count: nat, digest: Digest, anchor: int)
    requires count > 0
    ensures AllMachineWrites(count, digest, anchor) != [] && AllMachineWrites(count, digest, anchor)[0] == DamageTree(0)
  {
    if count == 1 {
      assert AllMachineWrites(0, digest, anchor) == [];
    } else {
      AllMachinesBegin(count - 1, digest, anchor);
    }
  }

  /** A rewrite takes somebody else's directory with its second write, and nothing with its first. */
  lemma RewriteTakesForeign(w: World, digest: Digest, anchor: int, rest: seq<Write>, life: nat)
    requires Occupied(w)
    ensures Killed(w, TreeWrites(|w.machines|, digest, anchor) + rest, life).machines == w.machines <==> life <= 1
  {
    var all := TreeWrites(|w.machines|, digest, anchor) + rest;
    TreeWritesBegin(|w.machines|, digest, anchor);
    assert all[..2] == [RemoveStamp, DamageTree(0)] && all[..1] == [RemoveStamp] && all[..0] == [];
    OneWrite(w, RemoveStamp);
    if life >= 2 {
      NextWrite(w, [RemoveStamp], DamageTree(0));
      assert [RemoveStamp] + [DamageTree(0)] == all[..2];
      assert all == all[..2] + all[2..];
      KilledConcat(w, all[..2], all[2..], life);
      var taken := Perform(w, all[..2]);
      var later := if life - 2 < |all[2..]| then all[2..][..life - 2] else all[2..];
      NeverForeignAgain(taken, later);
    }
  }

  lemma SeedSparesTrees(w: World, life: nat)
    ensures Killed(w, SeedPlan(), life).machines == w.machines && Perform(w, SeedPlan()).machines == w.machines
    ensures Perform(w, SeedPlan()).stamp == w.stamp && |SeedPlan()| == 3
  {
    SeedKilled(w, life);
    SeedDone(w);
    hide Perform, Killed;
  }

  lemma LoadTakesForeign(w: World, now: int, digest: Digest, life: nat)
    requires Occupied(w)
    ensures Killed(w, LoadPlan(w, now, digest), life).machines == w.machines <==> !w.stamp.Stamp? || life <= 1
  {
    if Refuses(w) {
      NothingPlanned(w, life);
    } else {
      var rows := if w.house && !w.pinned.OtherAccount? then RowWrites(digest, now) else [];
      RewriteTakesForeign(w, digest, now, rows, life);
    }
  }

  lemma NothingPlanned(w: World, life: nat)
    ensures Killed(w, [], life) == w
  {
  }

  lemma MaterialiseTakesForeign(w: World, force: bool, now: int, digest: Digest, life: nat)
    requires Occupied(w)
    ensures Killed(w, MaterialisePlan(w, force, now, digest), life).machines == w.machines
      <==> !w.stamp.Stamp? || (!force && w.stamp.digest == digest) || life <= 1
  {
    var all := TreeWrites(|w.machines|, digest, now);
    assert all + [] == all;
    NothingPlanned(w, life);
    hide Perform, Killed, TreeWrites;
    if !LeavesTree(w, force, digest) && !Refuses(w) { RewriteTakesForeign(w, digest, now, [], life); }
  }

  lemma DevUpTakesForeign(w: World, now: int, digest: Digest, life: nat)
    requires Occupied(w)
    ensures Killed(w, DevUpPlan(w, now, digest), life).machines == w.machines
      <==> !w.stamp.Stamp? || (if w.house then LeavesAlone(w) || life <= 1 else life <= 4)
  {
    NothingPlanned(w, life);
    var seeded := Perform(w, SeedPlan());
    SeedSparesTrees(w, life);
    KilledConcat(w, SeedPlan(), LoadPlan(seeded, now, digest), life);
    hide Perform, Killed, LoadPlan, SeedPlan;
    if !w.house {
      if life >= 3 { LoadTakesForeign(seeded, now, digest, life - 3); }
    } else if !LeavesAlone(w) {
      LoadTakesForeign(w, now, digest, life);
    }
  }

  /** Somebody else's directory at the root outlives a command, killed or not, exactly when the command spares it. */
  lemma ForeignIsLeft(w: World, c: Command, life: nat)
    requires Valid(w) && Occupied(w)
    ensures After(w, c, life).machines == w.machines <==> Spares(w, c, life)
  {
    AfterIs(w, c, life);
    if c.TearDown? || c.DeleteTree? { assert After(w, c, life).machines[0].tree.Absent?; }
    hide Killed, MaterialisePlan, LoadPlan, SeedPlan, DevUpPlan;
    match c
    case MockTree(force, now, digest) => MaterialiseTakesForeign(w, force, now, digest, life);
    case Mock(now, digest) => LoadTakesForeign(w, now, digest, life);
    case Seed => SeedSparesTrees(w, life);
    case DevUp(now, digest) => DevUpTakesForeign(w, now, digest, life);
    case _ =>
  }

  /**
   * A load; Kestrel's tree removed by hand; a directory of one's own in its
   * place.  The stamps still agree: `mock:tree` calls the directory current,
   * `dev-up` touches nothing, and the next load takes the directory away.
   */
  lemma OccupiedRootMisleads(digest: Digest)
    ensures var runs := [Run(Mock(1, digest), 11), Run(DeleteTree, 0), Run(Occupy, 0)];
            var r := History(Fresh1(), runs);
            && Untouched(Fresh1()) && !Misled(Fresh1(), runs) && Occupied(r)
            && TreeIsCurrent(r, digest) && LeavesAlone(r) && !Agreed(r)
            && After(r, Mock(2, digest), 11).machines != r.machines
  {
    var start := Fresh1();
    var a, b, c := Run(Mock(1, digest), 11), Run(DeleteTree, 0), Run(Occupy, 0);
    ThreeRuns(start, a, b, c);
    FirstLoad(digest);
    Replaced(One(digest, 1, 1), digest);
    HistoryIsSound(start, [a, b, c]);
    var r := One(digest, 1, 1).(machines := [MachineFiles(Foreign, Shim(digest))]);
    ForeignIsLeft(r, Mock(2, digest), 11);
    hide Perform, History, Killed, TreeWrites, After, Misled;
  }

  /** One machine in somebody else's hands: the root removed by hand, and a directory of one's own made there. */
  lemma Replaced(w: World, digest: Digest)
    requires w.machines == [MachineFiles(Whole(digest, 1), Shim(digest))]
    ensures After(After(w, DeleteTree, 0), Occupy, 0) == w.(machines := [MachineFiles(Foreign, Shim(digest))])
  {
    hide Killed;
  }

  /**
   * The anchors must not repeat.  A load at 1; a load at 2 that dies once its
   * rows are committed; the tree rewritten at 1: the stamps agree, and `dev-up`
   * leaves rows standing that were read from the tree at 2.
   */
  lemma RepeatedAnchorMisleads(digest: Digest, other: Digest)
    ensures var runs := [Run(Mock(1, digest), 11), Run(Mock(2, other), 9), Run(MockTree(true, 1, digest), 8)];
            var r := History(Fresh1(), runs);
            && Untouched(Fresh1()) && Misled(Fresh1(), runs)
            && LeavesAlone(r) && !Agreed(r) && r.pinned == Loaded(other, 2)
  {
    var a, b, c := Run(Mock(1, digest), 11), Run(Mock(2, other), 9), Run(MockTree(true, 1, digest), 8);
    ThreeRuns(Fresh1(), a, b, c);
    HistoryIsSound(Fresh1(), [a, b, c]);
    FirstLoad(digest);
    LoadKilledAtRows(One(digest, 1, 1), 2, other);
    RewrittenOnce(One(other, 2, 1), 1, digest);
    hide Perform, History, Killed, TreeWrites, After, Misled;
  }

  /** One machine whose tree was written at `anchor`, its rows read from it, and a fixtures stamp from `fixtures`. */
  function One(digest: Digest, anchor: int, fixtures: int): World {
    World([MachineFiles(Whole(digest, anchor), Shim(digest))], Stamp(digest, anchor), Fixtures(fixtures), true,
          Loaded(digest, anchor))
  }

  lemma FirstLoad(digest: Digest)
    ensures After(Fresh1(), Mock(1, digest), 11) == One(digest, 1, 1)
  {
    UntouchedIsSound(Fresh1());
    LoadedOnce(Fresh1(), 1, digest);
    hide After;
  }

  /** One machine, an account, and nothing else yet. */
  function Fresh1(): World {
    World([MachineFiles(Absent, NoShim)], NoStamp, NoFixtures, true, NoHost)
  }

  lemma ThreeRuns(w: World, a: Run, b: Run, c: Run)
    ensures var w1 := After(w, a.command, a.life);
            var w2 := After(w1, b.command, b.life);
            History(w, [a]) == w1 && History(w, [a, b]) == w2 && History(w, [a, b, c]) == After(w2, c.command, c.life)
  {
    assert [a, b, c][..2] == [a, b] && [a, b][..1] == [a] && [a][..0] == [];
  }

  /** A rewrite of the one machine there is. */
  lemma OneTreeWritten(w: World, digest: Digest, anchor: int)
    requires |w.machines| == 1
    ensures |TreeWrites(1, digest, anchor)| == 8
    ensures Perform(w, TreeWrites(1, digest, anchor))
         == w.(machines := [MachineFiles(Whole(digest, anchor), Shim(digest))], stamp := Stamp(digest, anchor))
  {
    TreeLength(1, digest, anchor);
    TreeWritten(w, digest, anchor);
    var r := Perform(w, TreeWrites(1, digest, anchor));
    hide Perform, TreeWrites;
    assert r.machines == [r.machines[0]];
  }

  lemma RewrittenOnce(w: World, now: int, digest: Digest)
    requires |w.machines| == 1 && !Refuses(w)
    ensures var r := After(w, MockTree(true, now, digest), 8);
            r == w.(machines := [MachineFiles(Whole(digest, now), Shim(digest))], stamp := Stamp(digest, now))
  {
    OneTreeWritten(w, digest, now);
    AfterIs(w, MockTree(true, now, digest), 8);
    hide Perform, TreeWrites, After;
  }

  /** A load onto one machine is the rewrite and then as many of its row writes as it lives for. */
  lemma LoadOntoOne(w: World, now: int, digest: Digest, life: nat)
    requires |w.machines| == 1 && !Refuses(w) && w.house && !w.pinned.OtherAccount? && life >= 8
    ensures var machine := MachineFiles(Whole(digest, now), Shim(digest));
            var written := w.(machines := [machine], stamp := Stamp(digest, now));
            After(w, Mock(now, digest), life) == Killed(written, RowWrites(digest, now), life - 8)
  {
    OneTreeWritten(w, digest, now);
    AfterIs(w, Mock(now, digest), life);
    assert LoadPlan(w, now, digest) == TreeWrites(1, digest, now) + RowWrites(digest, now);
    hide *;
    KilledConcat(w, TreeWrites(1, digest, now), RowWrites(digest, now), life);
  }

  lemma LoadedOnce(w: World, now: int, digest: Digest)
    requires |w.machines| == 1 && !Refuses(w) && w.house && !w.pinned.OtherAccount?
    ensures var r := After(w, Mock(now, digest), 11);
            r == World([MachineFiles(Whole(digest, now), Shim(digest))], Stamp(digest, now), Fixtures(now), true,
                      Loaded(digest, now))
  {
    LoadOntoOne(w, now, digest, 11);
    var written := w.(machines := [MachineFiles(Whole(digest, now), Shim(digest))], stamp := Stamp(digest, now));
    RowsKilled(written, digest, now, 3);
    hide Killed, After;
  }

  lemma LoadKilledAtRows(w: World, now: int, digest: Digest)
    requires |w.machines| == 1 && !Refuses(w) && w.house && !w.pinned.OtherAccount?
    ensures var r := After(w, Mock(now, digest), 9);
            r == w.(machines := [MachineFiles(Whole(digest, now), Shim(digest))], stamp := Stamp(digest, now),
                      pinned := Loaded(digest, now))
  {
    LoadOntoOne(w, now, digest, 9);
    var written := w.(machines := [MachineFiles(Whole(digest, now), Shim(digest))], stamp := Stamp(digest, now));
    RowsKilled(written, digest, now, 1);
    hide After, Killed;
  }

  // ------------------------------------------------------------------ the programs as they run

  /** A process at work on the world.  When its life is spent, what it still meant to write is not written. */
  class Process {
    var world: World
    var life: nat

    constructor (w: World, l: nat)
      ensures world == w && life == l
    {
      world, life := w, l;
    }

    method Do(write: Write)
      modifies this
      ensures world == Killed(old(world), [write], old(life))
      ensures life == if old(life) == 0 then 0 else old(life) - 1
    {
      OneWrite(world, write);
      assert [write][..0] == [];
      if life > 0 {
        world := Apply(world, write);
        life := life - 1;
      }
    }

    /** The effect of a list of writes, from a known start. */
    ghost predicate Did(start: World, given: nat, writes: seq<Write>)
      reads this
    {
      && world == Killed(start, writes, given)
      && life == if given < |writes| then 0 else given - |writes|
    }

    method DoNext(write: Write, ghost start: World, ghost given: nat, ghost done: seq<Write>)
      requires Did(start, given, done)
      modifies this
      ensures Did(start, given, done + [write])
    {
      KilledConcat(start, done, [write], given);
      if given < |done| { NothingLeft(world, [write]); }
      Do(write);
    }

    method WriteTrees(digest: Digest, anchor: int, ghost start: World, ghost given: nat, ghost done: seq<Write>)
      requires Did(start, given, done)
      modifies this
      ensures Did(start, given, done + AllMachineWrites(|start.machines|, digest, anchor))
    {
      var n := |world.machines|;
      assert done + [] == done;
      for m := 0 to n
        invariant |world.machines| == n == |start.machines|
        invariant Did(start, given, done + AllMachineWrites(m, digest, anchor))
      {
        ghost var had := done + AllMachineWrites(m, digest, anchor);
        DoNext(DamageTree(m), start, given, had);
        DoNext(DropTree(m), start, given, had + [DamageTree(m)]);
        DoNext(MakeRoot(m), start, given, had + [DamageTree(m)] + [DropTree(m)]);
        DoNext(FinishTree(m, digest, anchor), start, given, had + [DamageTree(m)] + [DropTree(m)] + [MakeRoot(m)]);
        DoNext(WriteShim(m, digest), start, given,
               had + [DamageTree(m)] + [DropTree(m)] + [MakeRoot(m)] + [FinishTree(m, digest, anchor)]);
        assert had + [DamageTree(m)] + [DropTree(m)] + [MakeRoot(m)] + [FinishTree(m, digest, anchor)]
                  + [WriteShim(m, digest)]
            == done + AllMachineWrites(m + 1, digest, anchor);
      }
    }

    /** The rewrite of `materialise`: the old stamp goes first, the new one comes last. */
    method Rewrite(now: int, digest: Digest)
      modifies this
      ensures Did(old(world), old(life), TreeWrites(|old(world).machines|, digest, now))
    {
      ghost var start, given := world, life;
      ghost var all := AllMachineWrites(|start.machines|, digest, now);
      DidNothing();
      Framing(all, digest, now);
      hide *;
      DoNext(RemoveStamp, start, given, []);
      WriteTrees(digest, now, start, given, [] + [RemoveStamp]);
      DoNext(OpenStamp, start, given, [] + [RemoveStamp] + all);
      DoNext(WriteStamp(digest, now), start, given, [] + [RemoveStamp] + all + [OpenStamp]);
    }

    lemma DidNothing()
      ensures Did(world, life, [])
    {
    }

    /** `materialise`: true when the tree now on disk is this manifest's, false when it refused. */
    method Materialise(force: bool, now: int, digest: Digest) returns (ok: bool)
      modifies this
      ensures Did(old(world), old(life), MaterialisePlan(old(world), force, now, digest))
      ensures ok <==> LeavesTree(old(world), force, digest) || !Refuses(old(world))
    {
      DidNothing();
      hide Did;
      if !force && TreeIsCurrent(world, digest) {
        return true;
      }
      if RootExists(world) && !world.stamp.Stamp? {
        return false;
      }
      Rewrite(now, digest);
      return true;
    }

    /** `loadFixtures` */
    method LoadFixtures(now: int, digest: Digest)
      requires Valid(world)
      modifies this
      ensures Did(old(world), old(life), LoadPlan(old(world), now, digest))
    {
      ghost var start, given := world, life;
      ghost var tree := TreeWrites(|world.machines|, digest, now);
      var ok := Materialise(true, now, digest);
      if !ok { return; }
      BesideTrees(start, digest, now, given);
      assert tree + [] == tree;
      if !world.house { return; }
      if world.pinned.OtherAccount? { return; }
      DoNext(CommitRows(digest, now), start, given, tree);
      DoNext(OpenFixtures, start, given, tree + [CommitRows(digest, now)]);
      DoNext(WriteFixtures(now), start, given, tree + [CommitRows(digest, now)] + [OpenFixtures]);
      assert tree + [CommitRows(digest, now)] + [OpenFixtures] + [WriteFixtures(now)] == tree + RowWrites(digest, now);
    }

    method SeedHouse()
      modifies this
      ensures Did(old(world), old(life), SeedPlan())
    {
      ghost var start, given := world, life;
      DoNext(DeleteHouse, start, given, []);
      DoNext(CreateHouse, start, given, [] + [DeleteHouse]);
      DoNext(SeedRows, start, given, [] + [DeleteHouse] + [CreateHouse]);
      assert [] + [DeleteHouse] + [CreateHouse] + [SeedRows] == SeedPlan();
    }

    /** `dev-up`: the account, then the tree and the rows that describe it, decided together. */
    method BringUp(now: int, digest: Digest)
      requires Valid(world)
      modifies this
      ensures Did(old(world), old(life), DevUpPlan(old(world), now, digest))
    {
      ghost var start, given := world, life;
      if !world.house {
        SeedHouse();
        ghost var seeded := Perform(start, SeedPlan());
        ghost var load := LoadPlan(seeded, now, digest);
        KilledConcat(start, SeedPlan(), load, given);
        SeedKilled(start, given);
        SeedDone(start);
        if life == 0 {
          // Killed in the seed, or right after it: nothing further is written.
          NothingLeft(world, load);
          return;
        }
      }
      if world.pinned.Loaded? && RootExists(world) && FixturesMatchTree(world) {
        return;
      }
      LoadFixtures(now, digest);
    }
  }

  lemma NothingLeft(w: World, writes: seq<Write>)
    ensures Killed(w, writes, 0) == w
  {
    assert writes != [] ==> writes[..0] == [];
  }

  /** Killed or not, a rewrite leaves the account and the hosts as it found them. */
  lemma BesideTrees(w: World, digest: Digest, anchor: int, life: nat)
    requires Valid(w)
    ensures var r := Killed(w, TreeWrites(|w.machines|, digest, anchor), life);
            r.house == w.house && r.pinned == w.pinned
  {
    var writes := TreeWrites(|w.machines|, digest, anchor);
    if life == 0 {
      NothingLeft(w, writes);
    } else if life < |writes| {
      TreeInterrupted(w, digest, anchor, life);
    } else {
      TreeWritten(w, digest, anchor);
    }
  }

  lemma Framing(all: seq<Write>, digest: Digest, anchor: int)
    ensures [] + [RemoveStamp] + all + [OpenStamp] + [WriteStamp(digest, anchor)]
         == [RemoveStamp] + all + [OpenStamp, WriteStamp(digest, anchor)]
  {
  }
}
