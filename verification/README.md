# Trekker, the parts that can go wrong without anybody noticing

Trekker is a web file manager. This project models, in Dafny 4.11, the code of
its repository whose mistakes would show as a wrong picture rather than as an
error: the mock's life on a developer's disk, the tree and the `du` replay
behind its scans, the rotation of the master key, and the arithmetic of the
explorer. What a program changes step by step is a class or a loop here, tied to
a function of its inputs or of its old state; what the source promises of it is
proved about that function, for every input and every run.

`dafny verify dfyconfig.toml` checks the whole project.

| file | source | what is proved |
|---|---|---|
| `lifecycle.dfy` | `mock/tree.ts`, `load.ts`, `dev-up.ts`, `prisma/seed.ts` | five programs share trees, two stamps and some rows, and each may die between any two writes: when a stamp tells the truth, and when `dev-up` is right to touch nothing |
| `disk.dfy` | `mock/tree.ts` | a file system in which creating an entry moves its directory's time; `writeTree` leaves exactly the declared tree |
| `corpus.dfy` | `mock/corpus.ts` | flattening a manifest does not see the order of its keys |
| `du.dfy`, `scan.dfy` | `mock/corpus.ts`, `load.ts`, `sshd.ts` | post-order, every figure, a subtree's scan as a slice of the root's, two walks agreeing, and the manifest's own total coming out |
| `duplicates.dfy` | `mock/corpus.ts`, `load.ts` | reclaimable bytes against the bytes on disk, and exactly when they agree |
| `rotation.dfy` | `scripts/rotate-master-key.ts` | what every interruption leaves, and what a second run finishes |
| `transfers.dfy`, `sums.dfy` | `mock/fixtures.ts` | items enumerated from the tree, and the job's counters |
| `shell.dfy` | `mock/sshd.ts`, `shell-quote.ts` | the mock machine reads the driver's command line back |
| `machine_paths.dfy`, `handles.dfy` | `mock/sshd.ts` | when a path can leave the tree, and the SFTP handle table over every run of requests (sections 6.3 and 6.7 of draft-ietf-secsh-filexfer-02) |
| `hooks.dfy`, `rendering.dfy` | `front/scripts/fake-react.ts` | when a pass commits and when it settles, that a settled pass is a fixpoint, and effects and cleanups over every run of renders, state writes and unmounts |
| `listing.dfy`, `palette.dfy`, `picked.dfy` | `front/src/helpers` | exactly when the order is total, a monotone search, a capped walk |
| `treemap.dfy`, `rows.dfy`, `volumes.dfy` | `front/src/helpers` | an exact partition, a window that holds everything in sight, a longest prefix |
| `recorder.dfy` | `front/e2e/demo/recorder.ts` | a film that keeps its pictures, and the size in a JPEG's frame header (section B.2.2 of ITU-T T.81) |
| `ids.dfy` | `mock/ids.ts` | exactly when identifiers sort as their times do (section 5.7 of RFC 9562) |
| `paths.dfy`, `orders.dfy` | shared | slash-separated paths as segment lists, sorting and its uniqueness |

## What stands for what

- A path inside the tree is the list of its segments; `paths.dfy` carries the
  string tests of the source over. `posix.dirname` drops the last segment, and
  its `"."` is the root.
- `localeCompare` is any strict total order on names, `toLowerCase` a function
  of one character, `Array.prototype.sort` the stable insertion sort of
  `orders.dfy`, whose result is unique wherever the order is total.
- `BigInt` is `int`. Scroll positions, row heights and timestamps are reals;
  rounding of doubles is not modelled. `BigInt` division and the casts that
  drop bits are written out.
- A recursive remove is two writes: a damaged tree, then none. Writing a stamp
  is two: a torn file, then a readable one. Writing one machine's tree is, in
  `lifecycle.dfy`, a partial tree and then a whole one; `disk.dfy` says what
  whole means. The loader's database transaction is one write.
- A cipher is its contract: a record opens under the key that sealed it,
  undamaged, for the host it was sealed to, and to the secret sealed. The
  contract is the one `scripts/verify-secret-store.ts` exercises.
- A component is a function from its slots to the hook calls it makes; an effect
  is the setters it calls and the cleanup it returns, and a setter is its slot and
  its updater. Values are compared only for identity.
- What the file system, the network and the browser answer is a parameter.

## Where the code and its comments differ

The model follows the code. In each case the condition under which the comment
holds is proved, or an input on which it fails.

- `scripts/rotate-master-key.ts` says it is safe with the API up. A credential
  stored after the rows were read survives exactly when its row's turn has
  passed or is no rewrite (`Rotation.ConcurrentStoreSurvives`,
  `Rotation.ConcurrentStoreLost`).
- `listing.ts` calls its order total. By age it is exactly when no row without a
  time stands, by name, between two rows whose times say otherwise
  (`Listing.ComparatorIsTotal`); so it is while every time parses
  (`Listing.ParsedFits`), and around any row that does not there can be a circle
  (`Listing.UnparsedTimeMakesACircle`).
- `palette.ts` says a hit in the description beats a loose one. By the weights it
  never does (`Palette.DescriptionNeverBeatsLoose`, `Palette.LooseBeatsDescription`). Its
  `completions` compares the limit after the push, so a limit of zero or less
  does not limit (`Palette.Completions`).
- `picked.ts` says `truncated` means more was left. It is also set when the list
  came out exactly full and only a folder or an unreadable file followed
  (`Picked.TruncatedTells`).
- `virtual.ts` says a pane never mounts fewer than seventeen rows; near the top,
  near the end and in a short list it does (`Rows.WhenSeventeenAreMounted` for the
  exact condition, `Rows.TenAtTheTop`).
- `disks.ts` bounds a short mount by its limit. That holds exactly from a limit
  of two on (`Volumes.ShortIsShort`).
- `sshd.ts` takes the driver's commands to be single-quoted words. The driver
  escapes an apostrophe with a backslash, which the scanner keeps as a
  character, so arguments come back exactly while none holds an apostrophe
  (`Shell.MachineReadsWhatTheDriverMeant`).
- `load.ts` says two sparse files of one size are copies. The key spells the
  declared size, the disk rounds it: 100.2 and 100.4 are copies under different
  keys (`Duplicates.FractionsAreMissed`), and so are an empty text and an empty
  sparse file (`Duplicates.EmptyFilesAreMissed`). `Duplicates.KeysTellBytes` says
  for any two files, and `Duplicates.PromisesExactly` for a group, exactly when
  keys and bytes agree.
- `tree.ts` takes a stamp beside any root for a finished tree. That is so exactly
  unless the root was made by somebody else after the tree had been removed and
  the stamp left (`Lifecycle.CurrentIsComplete`, `Lifecycle.OccupyMisleadsExactly`,
  `Lifecycle.OccupiedRootMisleads`). Nor is a directory it did not make always left
  alone; `Lifecycle.ForeignIsLeft` is the exact condition.
- `dev-up.ts` trusts two anchors that agree. It is right exactly unless the root
  is such a directory, or some run misled and none since has acted
  (`Lifecycle.TouchNothingIsRight`). A run misleads exactly when it finishes a
  rewrite at an anchor the fixtures stamp holds of other rows and commits none of
  its own (`Lifecycle.CommandKeepsSound`, `Lifecycle.RepeatedAnchorMisleads`); while
  the clock moves, none does (`Lifecycle.FreshNeverMisleads`).
- `sshd.ts` says a real path is under the tree, always. The home directory is
  answered as it is written, so that holds exactly while the home does not climb
  (`MachinePaths.UnderEveryRootExactly`, `MachinePaths.ClimbingHomeLeaves`).
- `ids.ts` calls its ids ordered by time: exactly so far as the first twelve hex
  digits of their milliseconds are (`Ids.IdsSortExactly`, `Ids.OrderBreaksAt48Bits`).
- `fake-react.ts` renders until the state settles. A settled pass is a fixpoint
  exactly when every effect names its dependencies (`Rendering.SettledIsAFixpoint`).

## Model

| member | source | states |
|---|---|---|
| Corpus.Flatten | nest-api/mock/corpus.ts:89-141 | fails exactly when a key names the root; otherwise, for distinct keys, the tree is the one `Describes` fixes without a loop: directories are the explicit ones and all ancestors, an explicit one keeps its own time and mode, an implied one has the newest time below it, entries are the non-directory keys, both lists sorted by path |
| Corpus.FlatIsUnique | nest-api/mock/corpus.ts:102-141 | two manifests with the same keys and files in any order flatten to the same tree |
| Corpus.Collect | nest-api/mock/corpus.ts:102-126 | the first loop: every entry once, every directory noted with the newest time of the keys under it and the explicit modes; fails exactly on a key that names the root |
| Corpus.NoteKey | nest-api/mock/corpus.ts:102-125 | one turn of it: an explicit directory takes the key's own time and mode, every ancestor is raised to at least the key's time, nothing else moves |
| Corpus.NoteAncestors | nest-api/mock/corpus.ts:121-125 | the ancestor loop ends, and has raised or made exactly the ancestors of the path |
| Corpus.AncestorsArePrefixes | nest-api/mock/corpus.ts:121-125 | for a path that does not begin with a dot segment, what that loop visits is exactly the proper prefixes of the path |
| Corpus.PinExplicit | nest-api/mock/corpus.ts:128-135 | the second loop gives every explicit directory its own time back and touches no other |
| Corpus.FlatIsClosed | nest-api/mock/corpus.ts:121-125 | every non-root path of the result has the directory holding it in the result |
| Corpus.FlatHasRoot | nest-api/mock/corpus.ts:121-125 | a tree with anything in it has the root among its directories |
| Paths.SegmentsOfJoin | nest-api/mock/corpus.ts:143-145 | joining names with slashes and splitting, dropping the empty pieces, gives the names back |
| Paths.SegmentsConcat | nest-api/mock/corpus.ts:143-145 | a slash separates: the segments on its two sides do not interact |
| Paths.AtOrUnderIsPrefix | nest-api/mock/fixtures.ts:138-148 | "equal, or starts with it and a slash" on strings is the prefix test on segments |
| Paths.AbsoluteAtOrUnderIsPrefix | nest-api/mock/load.ts:384 | the same for the loader's subtree filter on absolute paths |
| Orders.SortInOrder | nest-api/mock/corpus.ts:138-139 | the sort leaves no element behind one it should precede, and loses and adds none |
| Orders.SortedIsUnique | nest-api/mock/corpus.ts:138-139 | under a strict total order a set has one sorted list, so no engine can choose another |
| Disk.Volume.WriteTree | nest-api/mock/tree.ts:263-319 | completes exactly when no file takes the place of a directory; then the disk is the declared tree and nothing else: contents, sizes, modes, and every time snapped to the second, although each creation moves the time of the directory holding it; the bytes returned are the apparent bytes of the regular files |
| Disk.Volume.Renew | nest-api/mock/tree.ts:265-266 | whatever was at the root, an empty directory is there |
| Disk.Volume.MakeDirs | nest-api/mock/tree.ts:268-275 | all declared directories and no other path exist, each non-root one with its own mode even where a recursive `mkdir` had made it with another |
| Disk.Volume.WriteEntry | nest-api/mock/tree.ts:278-309 | one entry: false exactly when the path is taken; else its node is the declared one and only the time of the directory holding it has moved besides |
| Disk.Volume.StampDirs | nest-api/mock/tree.ts:311-318 | setting the directories' times, deepest first, sets each and moves nothing else |
| Disk.DeclaredSizes | nest-api/mock/tree.ts:278-309 | every file on disk measures the size declared for it, every link its target |
| Disk.FlattenedIsShaped | nest-api/mock/tree.ts:263-275 | what `flatten` returns is a tree the writer accepts, and it clashes exactly when some file's path is also an ancestor of another key |
| Du.DuRecords | nest-api/mock/corpus.ts:235-271 | the stream is `Visit` of the root over the walked entries, for the grouping by parent and the recursion the source uses |
| Du.VisitDirectory | nest-api/mock/corpus.ts:249-268 | the inner closure, by its records and the bytes it returns |
| Du.VisitMeans | nest-api/mock/corpus.ts:224-271 | on a closed walk every path at or under a directory is recorded once, children before parents, each directory with a block for each directory at or under it plus the sizes of all files and links there |
| Du.OncePerPath | nest-api/mock/corpus.ts:224-234 | in post-order no path is recorded twice |
| Du.SubtreeScanIsSlice | nest-api/mock/load.ts:384-392 | the scan of a subdirectory, over the entries at or under it, is one contiguous run of the root's scan, ends at the subdirectory's record, and holds everything of it; those entries are a closed walk |
| Du.VisitSlice | nest-api/mock/corpus.ts:249-268 | the records of a directory stand whole and in one run inside those of any directory above |
| Du.VisitRestricted | nest-api/mock/load.ts:384 | restricting the walk to a subtree changes nothing about the subtree's own stream |
| Du.ChildBeforeDirectory | nest-api/mock/corpus.ts:228-230 | a record follows one of its own children exactly when it is a directory with something in it, which is how the aggregator tells directories |
| Du.WalkDisk | nest-api/mock/load.ts:611-634 | from a directory, the walk lists exactly the tree at or under it, each path once, with kinds, sizes and times as on disk |
| Du.WalkIsKnown | nest-api/mock/load.ts:611-634 | the loader's walk is the whole tree and closed, which is what the replay needs |
| Du.DuWalk | nest-api/mock/sshd.ts:429-440 | the machine's `du` on a path returns the same total as the replay, and prints its records as the flags ask |
| Du.OrdersAgree | nest-api/mock/sshd.ts:429-440 | whatever order siblings are visited in, the two walks give every path the same figure |
| Du.MachineAgrees | nest-api/mock/sshd.ts:418-440 | the machine's `du -a` of a directory, in bytes, prints exactly the records of the replay, in its own order |
| Scan.ScanTotalIsManifest | nest-api/mock/load.ts:384-394 | the total of a scan of the written tree is a block per directory of the manifest plus every declared size |
| Scan.WrittenIsClosed | nest-api/mock/tree.ts:263-319 | what the writer leaves is a closed tree, so the walks apply to it |
| Lifecycle.HistoryIsSound | nest-api/mock/tree.ts:224-248 | after any history of the five programs, each killed after any number of writes, of teardowns, of the root removed by hand and of a directory of one's own made there, at whatever anchors: a readable tree stamp beside a root of the mock's own means whole trees on every machine, and agreeing stamps mean rows read from the stamped tree exactly unless some run misled and none since has acted |
| Lifecycle.CommandKeepsSound | nest-api/mock/tree.ts:191-260 | one command, killed anywhere, keeps the stamps truthful exactly unless it finishes a rewrite at the anchor an old fixtures stamp remembers of other rows and does not live to commit its own |
| Lifecycle.MisleadingIsBelieved | nest-api/mock/dev-up.ts:93-101 | and where it does, `dev-up` would at once leave alone rows that do not describe the trees |
| Lifecycle.FreshNeverMisleads | nest-api/mock/load.ts:584-590 | while every command's anchor differs from the one the fixtures stamp holds, no history misleads |
| Lifecycle.TreeInterrupted | nest-api/mock/tree.ts:225-228 | an interrupted rewrite leaves no readable stamp, and neither account, rows nor fixtures stamp moved |
| Lifecycle.RewriteKeepsSound | nest-api/mock/tree.ts:224-248 | a completed rewrite keeps the stamps truthful exactly when its anchor is not the one an old fixtures stamp remembers of other rows |
| Lifecycle.CurrentIsComplete | nest-api/mock/tree.ts:180-184 | after any history, at whatever anchors, a tree that a run calls current was written to its end, on every machine, from that manifest, exactly unless the root is somebody else's directory |
| Lifecycle.OccupyMisleadsExactly | nest-api/mock/tree.ts:181-184 | a directory made in the place of an absent root is believed to be the stamped tree exactly when a stamp is readable |
| Lifecycle.TouchNothingIsRight | nest-api/mock/dev-up.ts:93-101 | after any history, when `dev-up` leaves everything alone, the account's rows describe finished trees on every machine exactly unless the root is somebody else's directory or some run misled and none since has acted; and it leaves alone whatever agrees and is stamped |
| Lifecycle.DevUpSettles | nest-api/mock/dev-up.ts:46-113 | at whatever anchor, a completed `dev-up` that is not refused leaves the next one nothing to do, and leaves agreement exactly unless it left alone an occupied root or rows the stamps misread |
| Lifecycle.ForeignIsLeft | nest-api/mock/tree.ts:213-222 | beside somebody else's directory at the root, trees and `df`s outlive a command exactly when it spares them: the seed always; the programs that rewrite when no stamp is readable, when they die before the second write of the rewrite, or when they take the tree for current (an unforced `mock:tree` of the stamped manifest, a `dev-up` over agreeing stamps); a teardown or a removal by hand never |
| Lifecycle.OccupiedRootMisleads | nest-api/mock/tree.ts:181-184 | three concrete runs, none of them misleading, after which `mock:tree` calls somebody else's directory current, `dev-up` touches nothing, and the next load removes it |
| Lifecycle.RepeatedAnchorMisleads | nest-api/mock/load.ts:584-590 | three concrete runs that reuse an anchor mislead, and end with `dev-up` leaving rows of another tree |
| Lifecycle.SeedKilled | nest-api/prisma/seed.ts:69-90 | what the seed, killed anywhere, leaves: the account gone from the first write to the second, its hosts gone with it, and nothing else touched |
| Lifecycle.LoadKilled | nest-api/mock/load.ts:84-129 | the loader, killed anywhere: the tree's stamp goes on telling the truth, and the rows tell it exactly unless the load stops between a misleading rewrite and its rows, or wrote nothing over rows that did not |
| Lifecycle.RowsKilledSound | nest-api/mock/load.ts:582-590 | over a tree just written, the commit and the stamp of the rows, stopped anywhere, leave the truth exactly if the commit was reached or the rewrite misled nobody |
| Lifecycle.Process.Materialise | nest-api/mock/tree.ts:191-260 | the method as it runs performs its list of writes up to its death, and refuses exactly over a root without a readable stamp |
| Lifecycle.Process.Rewrite | nest-api/mock/tree.ts:224-248 | the stamp goes first, then root, trees and `df`s, and the new stamp comes last, up to its death |
| Lifecycle.Process.WriteTrees | nest-api/mock/tree.ts:230-242 | every machine's tree and then its `df`, one machine after the other |
| Lifecycle.Process.LoadFixtures | nest-api/mock/load.ts:84-129 | tree first and by force, then the account is looked up, then rows, then the stamp |
| Lifecycle.Process.SeedHouse | nest-api/prisma/seed.ts:69-90 | delete, create, fill, in that order, up to its death |
| Lifecycle.Process.BringUp | nest-api/mock/dev-up.ts:46-113 | seeds when there is no account, touches nothing when all agrees, loads otherwise |
| Duplicates.ConfirmFromContent | nest-api/mock/load.ts:681-713 | confirmed groups are those with fewer keys than paths, and the reclaimable bytes are each group's size times its paths less its different keys |
| Duplicates.CountKeys | nest-api/mock/load.ts:694-698 | the inner map counts each key as often as the group's paths carry it |
| Duplicates.SumCopies | nest-api/mock/load.ts:699-705 | the loop over the counts adds one size for every copy beyond the first of its key |
| Duplicates.SameKeySameBytes | nest-api/mock/corpus.ts:188-203 | two files of the tree with one key hold the same bytes on disk |
| Duplicates.KeysTellBytes | nest-api/mock/corpus.ts:188-203 | for any two files of the tree, one key means the same bytes on disk and the same bytes one key, exactly unless they are copies that the keys miss, which are spelled out kind by kind |
| Duplicates.SparseKeysTell | nest-api/mock/corpus.ts:188-193 | two sparse files: exactly while their declared sizes are equal or round to different ones |
| Duplicates.FractionsAreMissed | nest-api/mock/load.ts:687-689 | sparse files of 100.2 and of 100.4 bytes both measure a hundred zeroes under different keys |
| Duplicates.EmptyFilesAreMissed | nest-api/mock/corpus.ts:188-197 | an empty text and an empty sparse file are copies under different keys |
| Duplicates.NeverPromisesTooMuch | nest-api/mock/load.ts:674-680 | a group's spare files are never more than keeping one file of each different content on disk would leave over |
| Duplicates.PromisesExactly | nest-api/mock/load.ts:674-680 | and they are exactly that if and only if no two files of the group are copies that the keys miss |
| Rotation.Run.Rotate | nest-api/scripts/rotate-master-key.ts:51-93 | the loop, stopped after any number of rows, leaves `Rotated`, or in a dry run the old table, and its counters add up to the rows it turned |
| Rotation.SafeAtEveryInterruption | nest-api/scripts/rotate-master-key.ts:70-85 | whenever the run stops, every row that opened opens under the two keys to its own secret for its own host, and one that did not is untouched |
| Rotation.FailedExactlyWhen | nest-api/scripts/rotate-master-key.ts:55-93 | no failure is counted exactly when every row is current already, or opens and can be sealed again |
| Rotation.PreviousKeyCanGo | nest-api/scripts/rotate-master-key.ts:95-100 | after a whole run without failure the new key alone opens what the two opened before, to the same secrets |
| Rotation.FailureKeepsPrevious | nest-api/scripts/rotate-master-key.ts:86-93 | a row that failed is left as it was, and the failure is counted |
| Rotation.RerunFinishes | nest-api/scripts/rotate-master-key.ts:70-85 | an interrupted run and a second one end where one uninterrupted run would have |
| Rotation.SecondRunRotatesNothing | nest-api/scripts/rotate-master-key.ts:56-59 | after a whole run, running again rotates zero |
| Rotation.ConcurrentStoreSurvives | nest-api/scripts/rotate-master-key.ts:43-45 | a credential stored meanwhile survives exactly when its row's turn has passed, or the row read before was current already, did not open, or has a host id too long to seal; otherwise the old one comes back |
| Rotation.ConcurrentStoreLost | nest-api/scripts/rotate-master-key.ts:43-45 | one row and one store before its turn, after which the old secret opens |
| Hooks.RunsExactlyWhenDue | front/scripts/fake-react.ts:48-57 | a declared effect runs in its commit exactly when it has never committed, has no dependencies, or has others than its last committed run |
| Hooks.CleanedBetweenRuns | front/scripts/fake-react.ts:67-69 | between two runs in one slot the first one's cleanup is called |
| Hooks.CleanedBeforeUnmount | front/scripts/fake-react.ts:75-78 | nothing with a cleanup outlives an unmount |
| Hooks.CleanedOnce | front/scripts/fake-react.ts:67-78 | no instance is cleaned twice |
| Rendering.PassCommitsExactly | front/scripts/fake-react.ts:61-71 | a pass commits exactly when no setter called while rendering changes the value it finds; it settles exactly when, in addition, no cleanup or effect of that commit changes one; without a commit log and effects are left alone; when it settles the slots are those found, with the empty ones filled and the effects that ran in theirs |
| Rendering.SettledKeepsState | front/scripts/fake-react.ts:60-73 | whatever a settled pass found in a slot, other than an effect that was due, is there when it ends |
| Rendering.SettledIsAFixpoint | front/scripts/fake-react.ts:59-71 | rendering after a settled pass, with the same calls, runs nothing, cleans nothing and changes no slot exactly when every effect names its dependencies |
| Rendering.RunSound | front/scripts/fake-react.ts:60-78 | after any sequence of renders, setters called in between and unmounts, the runtime is in the state its methods ask for |
| Rendering.EveryRun | front/scripts/fake-react.ts:60-78 | over any such sequence no slot has two live instances, no instance is cleaned twice, none outlives an unmount, and the slots hold exactly the last runs of the log |
| Rendering.Runtime.Render | front/scripts/fake-react.ts:60-73 | log, slots and answer are those of up to 25 passes that stop at the first settled one; false where the source throws |
| Rendering.Runtime.Pass | front/scripts/fake-react.ts:61-71 | log, slots, instances and whether it settled are those of `PassOf`, which `PassCommitsExactly` describes |
| Rendering.Runtime.Commit | front/scripts/fake-react.ts:67-69 | every due slot's live instance is cleaned, in order, and then every due effect runs as a new instance; the slots and the dirty flag are what the writes of those cleanups and effects make of them, one after the other |
| Rendering.Runtime.Unmount | front/scripts/fake-react.ts:75-78 | every live instance is cleaned, in slot order, and no slot is left |
| Rendering.Runtime.Invoke | front/scripts/fake-react.ts:30-57 | one hook call takes the next slot, fills it if it is empty, queues its effect exactly when it is due, or writes state and dirties the render exactly when the value is another |
| Rendering.Runtime.RunHook | front/scripts/fake-react.ts:62-65 | the calls of a render, from a clean start: the slots and the flag they leave, and exactly the due effects queued, in order |
| Rendering.Runtime.Set | front/scripts/fake-react.ts:34-38 | a setter puts its value, or what its updater makes of the present one, into its slot, and dirties exactly if that is another; soundness is kept |
| Rendering.Runtime.Do | front/scripts/fake-react.ts:60-78 | one step of a run, by `StepOf` |
| Listing.ComparatorIsTotal | front/src/helpers/listing.ts:409-428 | for every key and direction, rows of different names are strictly and totally ordered exactly when, sorted by age, every row without a time stands by name between rows whose times agree with their names |
| Listing.ParsedFits | front/src/helpers/listing.ts:407-427 | the condition holds while every time parses |
| Listing.UnparsedTimeMakesACircle | front/src/helpers/listing.ts:407-427 | around any row whose time does not parse there are two rows ordered with it in a circle |
| Listing.ListingIsUnique | front/src/helpers/listing.ts:393-428 | under that condition the same rows in any order list the same way |
| Listing.BlocksInOrder | front/src/helpers/listing.ts:410-416 | directories stand first and unknown sizes last within their half, in both directions |
| Listing.FlipReversesBlocks | front/src/helpers/listing.ts:427 | the other direction reverses each block and leaves the blocks in place |
| Listing.ResolveTarget | front/src/helpers/listing.ts:451-460 | the segment loop, by the walk it performs |
| Listing.ResolvedIsNormal | front/src/helpers/listing.ts:442-460 | the result is an absolute path, free of dot segments whenever the target is absolute or the directory is free of them |
| Listing.ResolvedInTurn | front/src/helpers/listing.ts:451-460 | resolving `a/b` is resolving `b` from where `a` led |
| Listing.ParentOfJoined | front/src/helpers/listing.ts:432-440 | the parent of an entry joined to a directory is that directory exactly when the directory is written with no needless slash |
| Listing.CrumbsSpellThePath | front/src/helpers/listing.ts:468-477 | the labels read one after the other are the path exactly when it is written with no needless slash |
| Listing.CrumbsClimb | front/src/helpers/listing.ts:468-477 | each crumb is the parent of the next, the last is the path, and only it says so |
| Palette.Loosely | front/src/helpers/palette.ts:86-93 | true exactly when an increasing embedding exists |
| Palette.MetIsLongest | front/src/helpers/palette.ts:86-93 | taking each character as soon as it comes meets the longest prefix that can be met |
| Palette.ScoresWhereItLands | front/src/helpers/palette.ts:96-104 | a word scores exactly when it occurs in the label, the description or the group, or loosely in the label |
| Palette.BetterHitScoresHigher | front/src/helpers/palette.ts:48-74 | a word's literal hit in the label outscores a loose one there, which outscores one in the description, which outscores one in the group |
| Palette.DescriptionNeverBeatsLoose | front/src/helpers/palette.ts:48-74 | a hit in the description never outscores a loose one in another label, and equals it exactly when the word is loosely in its own label too |
| Palette.LooseBeatsDescription | front/src/helpers/palette.ts:48-74 | typing `ren`, the label "re-run" stands above the description "current" |
| Palette.Score | front/src/helpers/palette.ts:116-130 | null exactly when some word lands nowhere; else the sum over the words |
| Palette.ScoresWhenAllLand | front/src/helpers/palette.ts:106-130 | an entry matches exactly when every word lands in it |
| Palette.WordOrderDoesNotMatter | front/src/helpers/palette.ts:106-130 | the score does not see the order of the words |
| Palette.TypingNarrows | front/src/helpers/palette.ts:106-115 | one more character matches no new entry |
| Palette.Rank | front/src/helpers/palette.ts:146-157 | exactly the matches, by falling score, ties as declared; everything untouched for a blank query |
| Palette.RankingIsUnique | front/src/helpers/palette.ts:132-157 | there is one such ranking |
| Palette.TypingMoreNeverAdds | front/src/helpers/palette.ts:132-157 | whatever is listed for a longer query was listed for the shorter |
| Palette.WithHeads | front/src/helpers/palette.ts:169-176 | a header stands exactly on the first row of each run of one group |
| Palette.HeadersTellTheTruth | front/src/helpers/palette.ts:159-168 | the nearest header above a row names the row's own group |
| Palette.Completions | front/src/helpers/palette.ts:224-233 | the names that carry on the leaf, in order, cut at a positive limit; a limit of zero or less cuts nothing |
| Palette.CommonPrefix | front/src/helpers/palette.ts:245-255 | the longest beginning all names share, case aside, in the first one's spelling |
| Palette.FillingInKeepsTheCandidates | front/src/helpers/palette.ts:235-255 | filling the common prefix in keeps what was typed and loses no candidate |
| Picked.PickedFromEntries | front/src/helpers/picked.ts:110-119 | the first two thousand readable files in depth-first order; truncated exactly when an entry was looked at with the list full |
| Picked.Basket.Collect | front/src/helpers/picked.ts:122-148 | one entry's walk over the shared list, and whether it met the list full |
| Picked.TruncatedTells | front/src/helpers/picked.ts:31-35 | a file left out is always told; told with nothing left out exactly when the list is full to the last place and the last entry looked at was no readable file |
| Picked.BatchesDoNotMatter | front/src/helpers/picked.ts:136-147 | the sizes of the batches cannot be seen in the walk |
| Picked.OfferedExactly | front/src/helpers/picked.ts:122-148 | the files on offer are exactly the readable ones below the dropped entries, each under the slash-joined names leading to it |
| Picked.VisitedIsReached | front/src/helpers/picked.ts:122-148 | whatever the walk comes across, some way down leads to |
| Picked.ReachedIsVisited | front/src/helpers/picked.ts:122-148 | every readable file is come across |
| Transfers.TransferItems | nest-api/mock/fixtures.ts:131-155 | the selection's directories and entries, each as its item, none lost and none added, in order of name |
| Transfers.ItemsCoverSelection | nest-api/mock/fixtures.ts:135-154 | a path is an item's exactly when it is selected and in the tree, as directory or as entry |
| Transfers.NamesDistinctWhenApart | nest-api/mock/fixtures.ts:135-154 | names are distinct exactly when no selected file takes the place of a directory |
| Transfers.ItemsClosedUnderParents | nest-api/mock/fixtures.ts:104-112 | every name with a slash has its parent among the items, as a directory |
| Transfers.OneTopLevel | nest-api/mock/fixtures.ts:104-112 | the one name without a slash is the selection itself |
| Transfers.NameIsTheTail | nest-api/mock/fixtures.ts:133 | the string slice past the prefix and its slash is the tail of the segments |
| Transfers.TransferTotals | nest-api/mock/fixtures.ts:158-189 | the six counters are the sums over the items |
| Transfers.EnumeratedTotals | nest-api/mock/fixtures.ts:104-112 | a job enumerated from the tree is finished, and both its byte counts are the selected regular files' sizes |
| Transfers.TotalsFit | nest-api/mock/fixtures.ts:172-180 | settled, failed and pending items add up to all; the bytes done less the bytes in total are those of items to be skipped and yet done, less those of items neither done nor to be skipped |
| Transfers.DoneBeyondTotal | nest-api/mock/fixtures.ts:173-175 | an item to be skipped and yet done is carried outside the total |
| Sums.SumByMultiset | nest-api/mock/fixtures.ts:172-180 | the counters do not depend on the order of the items |
| Shell.ShellWords | nest-api/mock/sshd.ts:573-597 | the scanner's loop, by the fold it performs |
| Shell.PrintedReadsBack | nest-api/mock/sshd.ts:573-597 | words printed in any mix of quoted and bare pieces, with blanks around them, read back as themselves, empty words included |
| Shell.WordsHoldNoQuote | nest-api/mock/sshd.ts:579-586 | whatever the line, no word read holds an apostrophe |
| Shell.MachineReadsWhatTheDriverMeant | nest-api/src/hosts/drivers/shell-quote.ts:79-86 | the machine reads the driver's program and arguments back, prefix or none, exactly when no argument holds an apostrophe |
| Shell.ApostropheIsLost | nest-api/mock/sshd.ts:572-586 | the argument that is one apostrophe does not come back |
| MachinePaths.RealStaysUnder | nest-api/mock/sshd.ts:184-187 | whatever the client sends, the real path is the root with the virtual path under it, while the home does not climb or the path is one that is not answered with the home |
| MachinePaths.UnderEveryRootExactly | nest-api/mock/sshd.ts:176-187 | the real path is under the root, for every root, if and only if the path is neither empty nor `.`, or no beginning of the home holds more `..` than names |
| MachinePaths.RealFolds | nest-api/mock/sshd.ts:184-187 | the real path is the fold of the root followed by the virtual path, and no dot segment is left |
| MachinePaths.VirtualFolds | nest-api/mock/sshd.ts:178-182 | the machine puts a path where the explorer's own resolver, started at the home directory, would put it, and no dot segment is left |
| MachinePaths.VirtualSettles | nest-api/mock/sshd.ts:178-182 | the virtual path of a virtual path is itself, exactly unless the empty path or `.` meets an unnormalised home |
| MachinePaths.ClimbingHomeLeaves | nest-api/mock/sshd.ts:179-187 | the home `/..` is followed out of the tree |
| MachinePaths.NormalizeFolds | nest-api/mock/sshd.ts:181 | the segments of a normalised absolute path are what the fold leaves, none a dot |
| Handles.Machine.Answer | nest-api/mock/sshd.ts:202-266 | each request against the table, by the new table and the reply |
| Handles.Machine.OpenHandle | nest-api/mock/sshd.ts:326-332 | the handle is on the table under the next number, even where the number no longer fits four bytes |
| Handles.Machine.File | nest-api/mock/sshd.ts:334-338 | the open file of a handle, and no other thing |
| Handles.Machine.Dir | nest-api/mock/sshd.ts:340-344 | the open directory of a handle, and no other thing |
| Handles.HandlesAreNeverReused | nest-api/mock/sshd.ts:326-332 | over any run of requests no handle is given out twice |
| Handles.OnTheTableWhileOpen | nest-api/mock/sshd.ts:224-232 | a handle is on the table exactly from its opening to its closing |
| Handles.ClosedForGood | nest-api/mock/sshd.ts:224-232 | once closed, a handle that was given out fails for good |
| Handles.WhatAHandleAnswers | nest-api/mock/sshd.ts:242-266 | while open, a file's handle answers with its file; a directory's gives the whole listing once and then the end; each fails where the other kind is asked for |
| Handles.OpeningSaysWhich | nest-api/mock/sshd.ts:326-332 | the reply names the number as long as four bytes can; past that the request fails with the handle left on the table |
| Handles.DecodeEncode | nest-api/mock/sshd.ts:329-335 | four bytes written big-endian read back as the number |
| Treemap.NamedAreTheLargest | front/src/helpers/treemap.ts:115-122 | the named are the front of one largest-first order of all entries that may be named, at most five, and nothing left out is larger |
| Treemap.NameableAreSome | front/src/helpers/treemap.ts:116 | every entry but the folded one may be named |
| Treemap.BandsIgnoreTheirOrder | front/src/helpers/treemap.ts:112-122 | the order the server sent the entries in cannot be seen |
| Treemap.BandsPartition | front/src/helpers/treemap.ts:108-148 | the bands add up to the parent exactly while the named ones do not exceed it, and each share is its band's |
| Treemap.StripIsAPartition | front/src/helpers/treemap.ts:99-107 | of a level whose entries add up, the strip is a partition with no negative band |
| Treemap.SharesAlmostFill | front/src/helpers/treemap.ts:174-176 | the shares of n bands, in millionths, add up to more than a million less n and to no more than a million |
| Recorder.CdpRecorder.Rebase | front/e2e/demo/recorder.ts:161-167 | the frames before the instant are dropped but the last, which is stamped with it; nothing is done when there is none |
| Recorder.CdpRecorder.Stop | front/e2e/demo/recorder.ts:177-201 | a header, every frame with its duration, the last frame once more; nothing without frames or a second time |
| Recorder.CdpRecorder.OnFrame | front/e2e/demo/recorder.ts:113-125 | a frame is kept with its timestamp, or zero for none, until the recorder is stopped |
| Recorder.RebaseKeepsTheFilm | front/e2e/demo/recorder.ts:145-167 | from the new first instant on the same picture is on screen at every moment, the film opens there, and its frames stay in order |
| Recorder.FramesComeOnTime | front/e2e/demo/recorder.ts:192-197 | frame k comes on no earlier than captured, at most a millisecond late for each frame before it, and exactly on time while no two were closer than that |
| Recorder.ListNamesEveryFrame | front/e2e/demo/recorder.ts:192-201 | every frame stands in its place in the list, with its own duration |
| Recorder.JpegSize | front/e2e/demo/recorder.ts:70-85 | the byte scan, by the function it computes, within bounds and ending |
| Recorder.SizeIsTheHeaders | front/e2e/demo/recorder.ts:70-85 | whatever segments come first and whatever they hold, the size read is the frame header's |
| Rows.WindowShowsEverythingInSight | front/src/helpers/virtual.ts:52-70 | every row that intersects the viewport is mounted, at any position and any height |
| Rows.WindowInBounds | front/src/helpers/virtual.ts:59-69 | the window lies in the list and is not empty while there is a row |
| Rows.WindowIsSmall | front/src/helpers/virtual.ts:61-67 | no more is mounted than the viewport's rows, one more, and twice the overscan |
| Rows.SameInsideARow | front/src/helpers/virtual.ts:40-44 | two positions inside one row give the same window |
| Rows.WhenSeventeenAreMounted | front/src/helpers/virtual.ts:27-35 | exactly when seventeen rows or more are mounted |
| Rows.TenAtTheTop | front/src/helpers/virtual.ts:27-35 | a one-row viewport at the top mounts ten |
| Volumes.VolumeFor | front/src/helpers/disks.ts:84-95 | the first of the longest mounts that contain the path, or none exactly when none does |
| Volumes.VolumeIsTheLongestPrefix | front/src/helpers/disks.ts:74-83 | it is the mount with the most of the path's leading segments |
| Volumes.ContainsIsPrefix | front/src/helpers/disks.ts:89 | a normal mount contains a path exactly when its segments are the path's first |
| Volumes.ShortMount | front/src/helpers/disks.ts:106-117 | the loop from the end finds the longest tail of segments that fits |
| Volumes.ShortIsShort | front/src/helpers/disks.ts:106-117 | the short name is within the limit exactly when the mount point was, or the limit is two or more |
| Volumes.ShortKeepsTheEnd | front/src/helpers/disks.ts:97-105 | behind the ellipsis stands the mount point's own end, and not nothing |
| Volumes.OneIsNoLimit | front/src/helpers/disks.ts:116 | with a limit of one the slice wraps round and the whole mount point comes out |
| Ids.IdsSortByTime | nest-api/mock/ids.ts:21-30 | identifiers sort as their times do, whatever the names, as far as twelve digits tell the times apart: always below 2^48 |
| Ids.IdsSortExactly | nest-api/mock/ids.ts:21-30 | one time's identifiers sort before another's, whatever the names, if and only if the first twelve hex digits of their padded milliseconds are in that order |
| Ids.SameTimeSameStamp | nest-api/mock/ids.ts:21-30 | identifiers of one time agree up to the version, and the names decide |
| Ids.OrderBreaksAt48Bits | nest-api/mock/ids.ts:22-23 | at 2^48 milliseconds an identifier sorts before the one a millisecond older |
| Ids.IdsAreVersionSeven | nest-api/mock/ids.ts:20-30 | thirty-six characters, hyphens in place, version 7 and the RFC's variant |

## Left out

- Lifecycle.HistoryIsSound: one program at a time, and teardown and what is done by hand as atomic; by hand the root is removed or made, and nothing inside a tree is edited, by hand or through the app. Of these the code promises nothing.
- Lifecycle.Process.LoadFixtures: the rows inside the transaction, the hashes and the guards on the database are not modelled, and the transaction is one write.
- Lifecycle.Process.BringUp: a seed that fails without dying is taken as one that died.
- Disk.Volume.WriteTree: of the file system's errors only a path already taken is modelled, and neither the umask nor blocks on disk are; the root is a directory nobody else touches.
- Corpus.Flatten: the bytes a generator or a picture produces for its path are part of the manifest here.
- Corpus.FlatIsClosed: keys beginning with a dot segment are excluded, since `posix.dirname` folds it into the root.
- Du.WalkDisk: sockets and other special files, which the walk skips, do not occur; a symbolic link is charged what `lstat` reports.
- Du.DuWalk: whether times are printed, the summary's own line and the error text of `du` are not modelled.
- Duplicates.ConfirmFromContent: which groups are candidates is decided by the aggregator, of which only the directory test is modelled.
- Rotation.ConcurrentStoreSurvives: one store during the loop; several, and rows created or deleted meanwhile, are not modelled.
- Rendering.Runtime.Render: effects, cleanups and components that throw, the value the last pass returns, writes to a ref's `current` and setters kept from before an unmount are not modelled.
- Rendering.SettledIsAFixpoint: takes the component to make the same calls again, and says so; a component that reads anything else is not the runtime's to promise.
- Listing.ListingIsUnique: rows of equal names are excluded, since a directory has none.
- Palette.Score: surrogate pairs, and characters whose lower case is longer than themselves, are not modelled.
- Picked.PickedFromEntries: a directory gives the same batches however often it is opened, and a read that fails gives the empty one, as the source makes of it; the flat reading of a drop is not modelled.
- Transfers.TransferItems: the branch for hand-written items, which only looks up sizes, is not modelled.
- Transfers.OneTopLevel: a selection written `./x`, whose holder `posix.dirname` folds away, is excluded.
- Shell.MachineReadsWhatTheDriverMeant: the sudo prefixes, which the mock machine refuses, are not modelled.
- Handles.Machine.Answer: reading and writing bytes through a file's descriptor, and requests that name paths, are not modelled; the file system's answer is part of the request.
- Treemap.BandsPartition: sizes and shares are exact; the conversion of a band's size to a double, which is not a number for a malformed one, is not modelled.
- Recorder.SizeIsTheHeaders: fill bytes before a marker and markers without a length, which the scan takes for segments, are excluded.
- Recorder.FramesComeOnTime: before the six decimals of the printed duration; the rate of the last frame is the default one.
- Rows.WindowInBounds: counts are whole numbers and positions finite.
- Ids.IdsSortByTime: the digest of a name is a parameter, and the seeded generator beside it is left out.
- `resolveTree` and `resolveTreeDeep`, `pathQuery` and `joinInto`, `filledCells`: short substitutions that would only add easy members.
- React components, the storyboard, encoders, the process manager, sessions and database wiring: plumbing over libraries.
- Painting of pictures, log lines and the manifest's own data: no invariant beyond their sizes.
- The aggregator's levels and folding, the transfer runner and the SSH pool: not part of this model.
