/**
 * `front/src/helpers/picked.ts`: what a dropped folder turns into.
 *
 * The walk is recursive, reads each directory a batch at a time, appends to one
 * shared list and stops at a cap.  It is proved against the plain list of what
 * a depth-first walk comes across: the picks are the first so many readable
 * files of that list, whatever the batches were.
 */
module Picked {
  import Paths

  datatype Option<T> = None | Some(value: T)

  /**
   * One dropped entry.  A file that cannot be read has no content.  A directory
   * is what its successive `readEntries` calls give; past the last batch, or
   * where a read fails, a call gives the empty one.
   */
  datatype Entry =
    | File(name: string, content: Option<int>)
    | Directory(name: string, batches: seq<Batch>)
    | Other(name: string)
  datatype Batch = Batch(entries: seq<Entry>)

  datatype PickedFile = PickedFile(file: int, path: string)

  const MAX_PICKED: nat := 2000

  // ------------------------------------------------------------------ the walk, written down

  /**
   * What a depth-first walk comes across, an element for every entry it looks
   * at: the file to pick, or nothing for a directory and for what cannot be read.
   */
  function Visits(e: Entry, prefix: string): (r: seq<Option<PickedFile>>)
    ensures r != []
    decreases e
  {
    match e
    case File(name, Some(content)) => [Some(PickedFile(content, prefix + name))]
    case File(_, None) => [None]
    case Other(_) => [None]
    case Directory(name, batches) => [None] + VisitsBatches(batches, prefix + name + "/")
  }

  /** The batches up to the first empty one. */
  function VisitsBatches(bs: seq<Batch>, prefix: string): seq<Option<PickedFile>>
    decreases bs
  {
    if bs == [] || bs[0].entries == [] then []
    else VisitsAll(bs[0].entries, prefix) + VisitsBatches(bs[1..], prefix)
  }

  function VisitsAll(es: seq<Entry>, prefix: string): seq<Option<PickedFile>>
    decreases es
  {
    if es == [] then [] else Visits(es[0], prefix) + VisitsAll(es[1..], prefix)
  }

  /** The files among the visits that could be read, in order. */
  function Readable(vs: seq<Option<PickedFile>>): (r: seq<PickedFile>)
    ensures |r| <= |vs|
  {
    if vs == [] then []
    else (match vs[0] case Some(f) => [f] case None => []) + Readable(vs[1..])
  }

  // ------------------------------------------------------------------ the walk, visit by visit

  /** The shared list after more visits: once it is full it grows no further. */
  function After(vs: seq<Option<PickedFile>>, got: seq<PickedFile>): seq<PickedFile>
    decreases |vs|
  {
    if vs == [] || |got| >= MAX_PICKED then got
    else After(vs[1..], match vs[0] case Some(f) => got + [f] case None => got)
  }

  /** Some visit found the list already full. */
  predicate Stops(vs: seq<Option<PickedFile>>, got: seq<PickedFile>)
    decreases |vs|
  {
    vs != [] && (|got| >= MAX_PICKED || Stops(vs[1..], match vs[0] case Some(f) => got + [f] case None => got))
  }

  lemma {:induction false} FoldConcat(a: seq<Option<PickedFile>>, b: seq<Option<PickedFile>>, got: seq<PickedFile>)
    ensures After(a + b, got) == After(b, After(a, got))
    ensures Stops(a + b, got) <==> Stops(a, got) || Stops(b, After(a, got))
    decreases |a|
  {
    if a == [] {
      assert a + b == b;
    } else if |got| < MAX_PICKED {
      assert (a + b)[1..] == a[1..] + b;
      FoldConcat(a[1..], b, match a[0] case Some(f) => got + [f] case None => got);
    }
  }

  class Basket {
    var files: seq<PickedFile>

    constructor ()
      ensures files == []
    {
      files := [];
    }

    /** One entry and everything below it; tells whether the list was found full on the way. */
    method Collect(entry: Entry, prefix: string) returns (stopped: bool)
      modifies this
      ensures files == After(Visits(entry, prefix), old(files))
      ensures stopped <==> Stops(Visits(entry, prefix), old(files))
      decreases entry
    {
      if |files| >= MAX_PICKED { return true; }
      match entry {
        case File(name, content) =>
          if content.Some? { files := files + [PickedFile(content.value, prefix + name)]; }
          return false;
        case Other(_) =>
          return false;
        case Directory(name, batches) =>
          var inside := prefix + name + "/";
          stopped := false;
          var i := 0;
          while i < |batches| && batches[i].entries != []
            invariant 0 <= i <= |batches|
            invariant After(VisitsBatches(batches[i..], inside), files)
                   == After(VisitsBatches(batches, inside), old(files))
            invariant (stopped || Stops(VisitsBatches(batches[i..], inside), files))
                 <==> Stops(VisitsBatches(batches, inside), old(files))
          {
            assert batches[i..][0] == batches[i] && batches[i..][1..] == batches[i + 1..];
            FoldConcat(VisitsAll(batches[i].entries, inside), VisitsBatches(batches[i + 1..], inside), files);
            var more := CollectBatch(batches[i].entries, inside);
            stopped := more || stopped;
            i := i + 1;
          }
          FoldConcat([None], VisitsBatches(batches, inside), old(files));
      }
    }

    method CollectBatch(batch: seq<Entry>, prefix: string) returns (stopped: bool)
      modifies this
      ensures files == After(VisitsAll(batch, prefix), old(files))
      ensures stopped <==> Stops(VisitsAll(batch, prefix), old(files))
      decreases batch
    {
      stopped := false;
      for j := 0 to |batch|
        invariant After(VisitsAll(batch[j..], prefix), files) == After(VisitsAll(batch, prefix), old(files))
        invariant (stopped || Stops(VisitsAll(batch[j..], prefix), files))
             <==> Stops(VisitsAll(batch, prefix), old(files))
      {
        assert batch[j..][0] == batch[j] && batch[j..][1..] == batch[j + 1..];
        FoldConcat(Visits(batch[j], prefix), VisitsAll(batch[j + 1..], prefix), files);
        var more := Collect(batch[j], prefix);
        stopped := more || stopped;
      }
    }
  }

  // ------------------------------------------------------------------ what comes out

  function FirstFew(fs: seq<PickedFile>): seq<PickedFile> {
    if |fs| <= MAX_PICKED then fs else fs[..MAX_PICKED]
  }

  /** Readable files among all visits but the last. */
  function BeforeTheLast(vs: seq<Option<PickedFile>>): nat
    requires vs != []
  {
    |Readable(vs[..|vs| - 1])|
  }

  lemma {:induction false} AfterMeans(vs: seq<Option<PickedFile>>, got: seq<PickedFile>)
    requires |got| <= MAX_PICKED
    ensures After(vs, got) == FirstFew(got + Readable(vs))
    decreases |vs|
  {
    if vs == [] {
      assert got + Readable(vs) == got;
    } else if |got| == MAX_PICKED {
      assert (got + Readable(vs))[..MAX_PICKED] == got;
    } else {
      var next := match vs[0] case Some(f) => got + [f] case None => got;
      AfterMeans(vs[1..], next);
      assert next + Readable(vs[1..]) == got + Readable(vs);
    }
  }

  lemma BeforeTheLastStep(vs: seq<Option<PickedFile>>)
    requires |vs| > 1
    ensures BeforeTheLast(vs) == (if vs[0].Some? then 1 else 0) + BeforeTheLast(vs[1..])
  {
    var head := vs[..|vs| - 1];
    assert head[0] == vs[0] && head[1..] == vs[1..][..|vs| - 2];
  }

  lemma {:induction false} StopsMeans(vs: seq<Option<PickedFile>>, got: seq<PickedFile>)
    requires |got| <= MAX_PICKED
    ensures Stops(vs, got) <==> vs != [] && |got| + BeforeTheLast(vs) >= MAX_PICKED
    decreases |vs|
  {
    if vs != [] && |got| < MAX_PICKED {
      StopsMeans(vs[1..], match vs[0] case Some(f) => got + [f] case None => got);
      if |vs| > 1 { BeforeTheLastStep(vs); }
    }
  }

  /**
   * The whole gesture: the first so many readable files in depth-first order,
   * and `truncated` exactly when something was looked at with the list full.
   */
  method PickedFromEntries(entries: seq<Entry>) returns (files: seq<PickedFile>, truncated: bool)
    ensures files == FirstFew(Readable(VisitsAll(entries, "")))
    ensures truncated <==> VisitsAll(entries, "") != [] && BeforeTheLast(VisitsAll(entries, "")) >= MAX_PICKED
  {
    var into := new Basket();
    truncated := false;
    for i := 0 to |entries|
      invariant fresh(into)
      invariant After(VisitsAll(entries[i..], ""), into.files) == After(VisitsAll(entries, ""), [])
      invariant (truncated || Stops(VisitsAll(entries[i..], ""), into.files)) <==> Stops(VisitsAll(entries, ""), [])
    {
      assert entries[i..][0] == entries[i] && entries[i..][1..] == entries[i + 1..];
      FoldConcat(Visits(entries[i], ""), VisitsAll(entries[i + 1..], ""), into.files);
      var stopped := into.Collect(entries[i], "");
      truncated := stopped || truncated;
    }
    files := into.files;
    AfterMeans(VisitsAll(entries, ""), []);
    StopsMeans(VisitsAll(entries, ""), []);
    assert [] + Readable(VisitsAll(entries, "")) == Readable(VisitsAll(entries, ""));
  }

  // ------------------------------------------------------------------ what truncated tells

  lemma {:induction false} ReadableConcat(a: seq<Option<PickedFile>>, b: seq<Option<PickedFile>>)
    ensures Readable(a + b) == Readable(a) + Readable(b)
  {
    if a == [] {
      assert a + b == b;
    } else {
      assert (a + b)[1..] == a[1..] + b;
      ReadableConcat(a[1..], b);
    }
  }

  /**
   * A file left out is always told.  The converse fails in exactly one case:
   * the list came out full to the last place with nothing lost, and the walk
   * still had a folder, or a file it could not read, to look at.
   */
  lemma {:induction false} TruncatedTells(vs: seq<Option<PickedFile>>)
    requires vs != []
    ensures |Readable(vs)| > MAX_PICKED ==> BeforeTheLast(vs) >= MAX_PICKED
    ensures BeforeTheLast(vs) < MAX_PICKED ==> FirstFew(Readable(vs)) == Readable(vs)
    ensures BeforeTheLast(vs) >= MAX_PICKED && FirstFew(Readable(vs)) == Readable(vs)
      <==> |Readable(vs)| == MAX_PICKED && vs[|vs| - 1].None?
  {
    var head, last := vs[..|vs| - 1], vs[|vs| - 1];
    assert vs == head + [last];
    ReadableConcat(head, [last]);
    assert Readable([last]) == if last.Some? then [last.value] else [];
  }

  // ------------------------------------------------------------------ batches do not matter

  /** The same tree with every directory read in one go. */
  function OneBatch(e: Entry): Entry
    decreases e
  {
    match e
    case File(_, _) => e
    case Other(_) => e
    case Directory(name, batches) => Directory(name, [Batch(OneBatchOf(batches))])
  }

  function OneBatchOf(bs: seq<Batch>): seq<Entry>
    decreases bs
  {
    if bs == [] || bs[0].entries == [] then []
    else OneBatchAll(bs[0].entries) + OneBatchOf(bs[1..])
  }

  function OneBatchAll(es: seq<Entry>): (r: seq<Entry>)
    ensures |r| == |es|
    decreases es
  {
    if es == [] then [] else [OneBatch(es[0])] + OneBatchAll(es[1..])
  }

  lemma {:induction false} VisitsAllConcat(a: seq<Entry>, b: seq<Entry>, prefix: string)
    ensures VisitsAll(a + b, prefix) == VisitsAll(a, prefix) + VisitsAll(b, prefix)
  {
    if a == [] {
      assert a + b == b;
    } else {
      assert (a + b)[1..] == a[1..] + b;
      VisitsAllConcat(a[1..], b, prefix);
    }
  }

  lemma {:induction false} OneBatchVisits(e: Entry, prefix: string)
    ensures Visits(OneBatch(e), prefix) == Visits(e, prefix)
    decreases e
  {
    if e.Directory? {
      var inside := prefix + e.name + "/";
      OneBatchOfVisits(e.batches, inside);
      var one := Batch(OneBatchOf(e.batches));
      assert [one][1..] == [];
      assert VisitsBatches([one], inside) == VisitsAll(one.entries, inside);
    }
  }

  lemma {:induction false} OneBatchOfVisits(bs: seq<Batch>, prefix: string)
    ensures VisitsAll(OneBatchOf(bs), prefix) == VisitsBatches(bs, prefix)
    decreases bs
  {
    if bs != [] && bs[0].entries != [] {
      OneBatchAllVisits(bs[0].entries, prefix);
      OneBatchOfVisits(bs[1..], prefix);
      VisitsAllConcat(OneBatchAll(bs[0].entries), OneBatchOf(bs[1..]), prefix);
    }
  }

  lemma {:induction false} OneBatchAllVisits(es: seq<Entry>, prefix: string)
    ensures VisitsAll(OneBatchAll(es), prefix) == VisitsAll(es, prefix)
    decreases es
  {
    if es != [] {
      OneBatchVisits(es[0], prefix);
      OneBatchAllVisits(es[1..], prefix);
      var one := OneBatchAll(es);
      assert one[0] == OneBatch(es[0]) && one[1..] == OneBatchAll(es[1..]);
    }
  }

  /** Two drops of the same folders, read in different batches, visit the same. */
  lemma BatchesDoNotMatter(a: seq<Entry>, b: seq<Entry>)
    requires OneBatchAll(a) == OneBatchAll(b)
    ensures VisitsAll(a, "") == VisitsAll(b, "")
  {
    OneBatchAllVisits(a, "");
    OneBatchAllVisits(b, "");
  }

  // ------------------------------------------------------------------ where a file goes

  /** `e` is that readable file, or a directory from which `names` leads down to it. */
  ghost predicate Leads(e: Entry, names: seq<string>, f: int)
    decreases |names|
  {
    if names == [] then e.File? && e.content == Some(f)
    else e.Directory? && exists c :: Child(e.batches, c) && c.name == names[0] && Leads(c, names[1..], f)
  }

  ghost predicate Child(bs: seq<Batch>, c: Entry)
    decreases bs
  {
    bs != [] && bs[0].entries != [] && (c in bs[0].entries || Child(bs[1..], c))
  }

  /** The picked file reached from `e` by `names`: its path spells the way down. */
  function Pick(prefix: string, e: Entry, names: seq<string>, f: int): PickedFile {
    PickedFile(f, prefix + Paths.Join([e.name] + names))
  }

  lemma PickOneDown(prefix: string, e: Entry, c: Entry, names: seq<string>, f: int)
    requires names != [] && names[0] == c.name
    ensures Pick(prefix, e, names, f) == Pick(prefix + e.name + "/", c, names[1..], f)
  {
    assert [c.name] + names[1..] == names;
    assert ([e.name] + names)[1..] == names;
    assert prefix + (e.name + "/" + Paths.Join(names)) == (prefix + e.name + "/") + Paths.Join(names);
  }

  lemma {:induction false} VisitedInAll(es: seq<Entry>, c: Entry, prefix: string, v: Option<PickedFile>)
    requires c in es && v in Visits(c, prefix)
    ensures v in VisitsAll(es, prefix)
  {
    if es[0] != c { VisitedInAll(es[1..], c, prefix, v); }
  }

  lemma {:induction false} VisitedInBatches(bs: seq<Batch>, c: Entry, prefix: string, v: Option<PickedFile>)
    requires Child(bs, c) && v in Visits(c, prefix)
    ensures v in VisitsBatches(bs, prefix)
    decreases bs
  {
    if c in bs[0].entries {
      VisitedInAll(bs[0].entries, c, prefix, v);
    } else {
      VisitedInBatches(bs[1..], c, prefix, v);
    }
  }

  /** Every readable file is come across, under the names that lead to it. */
  lemma {:induction false} ReachedIsVisited(e: Entry, prefix: string, names: seq<string>, f: int)
    requires Leads(e, names, f)
    ensures Some(Pick(prefix, e, names, f)) in Visits(e, prefix)
    decreases |names|
  {
    if names == [] {
      assert [e.name] + names == [e.name];
    } else {
      var inside := prefix + e.name + "/";
      var c :| Child(e.batches, c) && c.name == names[0] && Leads(c, names[1..], f);
      ReachedIsVisited(c, inside, names[1..], f);
      PickOneDown(prefix, e, c, names, f);
      VisitedInBatches(e.batches, c, inside, Some(Pick(prefix, e, names, f)));
    }
  }

  /** And nothing else is: what a walk comes across, some way down leads to. */
  lemma {:induction false} VisitedIsReached(e: Entry, prefix: string, v: PickedFile) returns (names: seq<string>)
    requires Some(v) in Visits(e, prefix)
    ensures Leads(e, names, v.file) && v == Pick(prefix, e, names, v.file)
    decreases e
  {
    if e.Directory? {
      var c, rest := BatchVisitIsReached(e.batches, prefix + e.name + "/", v);
      names := [c.name] + rest;
      assert names[1..] == rest;
      PickOneDown(prefix, e, c, names, v.file);
    } else {
      names := [];
      assert [e.name] + names == [e.name];
    }
  }

  lemma {:induction false} BatchVisitIsReached(bs: seq<Batch>, prefix: string, v: PickedFile)
    returns (c: Entry, names: seq<string>)
    requires Some(v) in VisitsBatches(bs, prefix)
    ensures Child(bs, c) && Leads(c, names, v.file) && v == Pick(prefix, c, names, v.file)
    decreases bs
  {
    if Some(v) in VisitsAll(bs[0].entries, prefix) {
      c, names := ListVisitIsReached(bs[0].entries, prefix, v);
    } else {
      c, names := BatchVisitIsReached(bs[1..], prefix, v);
    }
  }

  lemma {:induction false} ListVisitIsReached(es: seq<Entry>, prefix: string, v: PickedFile)
    returns (c: Entry, names: seq<string>)
    requires Some(v) in VisitsAll(es, prefix)
    ensures c in es && Leads(c, names, v.file) && v == Pick(prefix, c, names, v.file)
    decreases es
  {
    if Some(v) in Visits(es[0], prefix) {
      c := es[0];
      names := VisitedIsReached(c, prefix, v);
    } else {
      c, names := ListVisitIsReached(es[1..], prefix, v);
    }
  }

  lemma {:induction false} ReadableMembers(vs: seq<Option<PickedFile>>, v: PickedFile)
    ensures v in Readable(vs) <==> Some(v) in vs
  {
    if vs != [] { ReadableMembers(vs[1..], v); }
  }

  /**
   * The files a drop offers are exactly the readable files below its entries,
   * each under the slash-joined names from the dropped entry down.
   */
  lemma OfferedExactly(es: seq<Entry>, v: PickedFile)
    ensures v in Readable(VisitsAll(es, ""))
      <==> exists c, names :: c in es && Leads(c, names, v.file) && v.path == Paths.Join([c.name] + names)
  {
    ReadableMembers(VisitsAll(es, ""), v);
    if v in Readable(VisitsAll(es, "")) {
      var c, names := ListVisitIsReached(es, "", v);
      assert v.path == Paths.Join([c.name] + names);
    }
    if c, names :| c in es && Leads(c, names, v.file) && v.path == Paths.Join([c.name] + names) {
      ReachedIsVisited(c, "", names, v.file);
      assert Pick("", c, names, v.file) == v;
      VisitedInAll(es, c, "", Some(v));
    }
  }
}
