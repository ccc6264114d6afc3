/**
 * `nest-api/mock/sshd.ts`: the table of open handles behind the SFTP server.
 *
 * Sections 6.3 and 6.7 of draft-ietf-secsh-filexfer-02 ask of a handle that it
 * be an opaque string that answers until it is closed.  `Serve` is one request
 * against the table; the theorems are about every run of requests.
 */
module Handles {

  datatype Option<T> = None | Some(value: T)
  type Octet = b: int | 0 <= b < 256 witness 0

  datatype Handle =
    | FileHandle(fd: int, path: string)
    | DirHandle(entries: seq<string>, sent: bool)

  /** The requests that reach the table, with what the file system answered them. */
  datatype Request =
    | Open(fd: int, path: string)
    | OpenDir(entries: seq<string>)
    | ReadDir(handle: seq<Octet>)
    | UseFile(handle: seq<Octet>)
    | Close(handle: seq<Octet>)

  datatype Reply =
    | Opened(handle: seq<Octet>)
    | Names(entries: seq<string>)
    | Found(fd: int, path: string)
    | Eof
    | Ok
    | Fails

  const LIMIT: nat := 0x1_0000_0000

  /** `buffer.writeUInt32BE(id)` */
  function Encode(id: nat): (r: seq<Octet>)
    requires id < LIMIT
  {
    [id / 0x100_0000, id / 0x1_0000 % 256, id / 256 % 256, id % 256]
  }

  /** `handle.readUInt32BE(0)`, which throws on fewer than four bytes. */
  function Decode(b: seq<Octet>): (r: Option<nat>)
    ensures r.Some? <==> |b| >= 4
  {
    if |b| < 4 then None
    else Some((b[0] as int) * 0x100_0000 + (b[1] as int) * 0x1_0000 + (b[2] as int) * 256 + b[3] as int)
  }

  /** Two bytes to a half, and two halves to the number. */
  lemma Bytes2(n: nat)
    requires n < 0x1_0000
    ensures 0 <= n / 256 < 256 && n == n / 256 * 256 + n % 256
  {
  }

  lemma UpperBytes(id: nat)
    ensures id / 0x100_0000 == id / 0x1_0000 / 256
  {
  }

  lemma LowerBytes(id: nat)
    ensures id / 256 % 256 == id % 0x1_0000 / 256
    ensures id % 256 == id % 0x1_0000 % 256
  {
    var q, r := id / 0x1_0000, id % 0x1_0000;
    assert id == q * 256 * 256 + r;
    assert id / 256 == q * 256 + r / 256;
  }

  lemma DecodeEncode(id: nat)
    requires id < LIMIT
    ensures Decode(Encode(id)) == Some(id)
  {
    var high, low := id / 0x1_0000, id % 0x1_0000;
    UpperBytes(id);
    LowerBytes(id);
    Bytes2(high);
    Bytes2(low);
    assert Encode(id)[0] == high / 256 && Encode(id)[1] == high % 256;
    assert Encode(id)[2] == low / 256 && Encode(id)[3] == low % 256;
  }

  // ------------------------------------------------------------------ one request

  datatype Table = Table(next: nat, handles: map<nat, Handle>)

  const START := Table(1, map[])

  function Opening(t: Table, h: Handle): (Table, Reply) {
    var opening := Table(t.next + 1, t.handles[t.next := h]);
    (opening, if t.next < LIMIT then Opened(Encode(t.next)) else Fails)
  }

  function Lookup(t: Table, b: seq<Octet>): Option<Handle> {
    match Decode(b)
    case None => None
    case Some(id) => if id in t.handles then Some(t.handles[id]) else None
  }

  function Serve(t: Table, r: Request): (Table, Reply) {
    match r
    case Open(fd, path) => Opening(t, FileHandle(fd, path))
    case OpenDir(entries) => Opening(t, DirHandle(entries, false))
    case UseFile(b) =>
      (match Lookup(t, b)
       case Some(FileHandle(fd, path)) => (t, Found(fd, path))
       case _ => (t, Fails))
    case ReadDir(b) =>
      (match Lookup(t, b)
       case Some(DirHandle(entries, sent)) =>
         if sent then (t, Eof)
         else (t.(handles := t.handles[Decode(b).value := DirHandle(entries, true)]), Names(entries))
       case _ => (t, Fails))
    case Close(b) =>
      (match Decode(b)
       case None => (t, Fails)
       case Some(id) => (t.(handles := t.handles - {id}), Ok))
  }

  class Machine {
    var nextHandle: nat
    var handles: map<nat, Handle>

    function State(): Table
      reads this
    {
      Table(nextHandle, handles)
    }

    constructor ()
      ensures State() == START
    {
      nextHandle := 1;
      handles := map[];
    }

    /** `open`: the handle is on the table before its number is written out. */
    method OpenHandle(handle: Handle) returns (reply: Reply)
      modifies this
      ensures (State(), reply) == Opening(old(State()), handle)
    {
      var id := nextHandle;
      nextHandle := nextHandle + 1;
      handles := handles[id := handle];
      reply := if id < LIMIT then Opened(Encode(id)) else Fails;
    }

    /** `file` */
    method File(handle: seq<Octet>) returns (open: Option<Handle>)
      ensures open == match Lookup(State(), handle)
                      case Some(FileHandle(_, _)) => Lookup(State(), handle)
                      case _ => None
    {
      var id := Decode(handle);
      if id.None? || id.value !in handles { return None; }
      open := if handles[id.value].FileHandle? then Some(handles[id.value]) else None;
    }

    /** `dir` */
    method Dir(handle: seq<Octet>) returns (open: Option<Handle>)
      ensures open == match Lookup(State(), handle)
                      case Some(DirHandle(_, _)) => Lookup(State(), handle)
                      case _ => None
    {
      var id := Decode(handle);
      if id.None? || id.value !in handles { return None; }
      open := if handles[id.value].DirHandle? then Some(handles[id.value]) else None;
    }

    method Answer(r: Request) returns (reply: Reply)
      modifies this
      ensures (State(), reply) == Serve(old(State()), r)
    {
      match r {
        case Open(fd, path) =>
          reply := OpenHandle(FileHandle(fd, path));
        case OpenDir(entries) =>
          reply := OpenHandle(DirHandle(entries, false));
        case UseFile(b) =>
          var open := File(b);
          reply := if open.None? then Fails else Found(open.value.fd, open.value.path);
        case ReadDir(b) =>
          var open := Dir(b);
          if open.None? { return Fails; }
          if open.value.sent { return Eof; }
          handles := handles[Decode(b).value := DirHandle(open.value.entries, true)];
          reply := Names(open.value.entries);
        case Close(b) =>
          var id := Decode(b);
          if id.None? { return Fails; }
          handles := handles - {id.value};
          reply := Ok;
      }
    }
  }

  // ------------------------------------------------------------------ every run

  /** The table before request `n`. */
  function Before(rs: seq<Request>, n: nat): Table
    requires n <= |rs|
  {
    if n == 0 then START else Serve(Before(rs, n - 1), rs[n - 1]).0
  }

  function ReplyTo(rs: seq<Request>, n: nat): Reply
    requires n < |rs|
  {
    Serve(Before(rs, n), rs[n]).1
  }

  /** Request `n` puts a handle on the table, and this is its number. */
  predicate Opens(rs: seq<Request>, n: nat, id: nat)
    requires n < |rs|
  {
    (rs[n].Open? || rs[n].OpenDir?) && Before(rs, n).next == id
  }

  function HandleOf(r: Request): Handle
    requires r.Open? || r.OpenDir?
  {
    if r.Open? then FileHandle(r.fd, r.path) else DirHandle(r.entries, false)
  }

  predicate Closes(r: Request, id: nat) { r.Close? && Decode(r.handle) == Some(id) }
  predicate Reads(r: Request, id: nat) { r.ReadDir? && Decode(r.handle) == Some(id) }

  lemma {:induction false} NextNeverFalls(rs: seq<Request>, i: nat, j: nat)
    requires i <= j <= |rs|
    ensures Before(rs, i).next <= Before(rs, j).next
    ensures i < j && (rs[i].Open? || rs[i].OpenDir?) ==> Before(rs, i).next < Before(rs, j).next
    decreases j - i
  {
    if i < j { NextNeverFalls(rs, i + 1, j); }
  }

  /** No handle is given out twice, closed or not. */
  lemma HandlesAreNeverReused(rs: seq<Request>, i: nat, j: nat)
    requires i < j < |rs| && ReplyTo(rs, i).Opened? && ReplyTo(rs, j).Opened?
    ensures ReplyTo(rs, i).handle != ReplyTo(rs, j).handle
  {
    NextNeverFalls(rs, i, j);
    DecodeEncode(Before(rs, i).next);
    DecodeEncode(Before(rs, j).next);
  }

  /** Opened before request `n`, and not closed since. */
  ghost predicate StillOpen(rs: seq<Request>, n: nat, id: nat)
    requires n <= |rs|
  {
    exists i | 0 <= i < n :: Opens(rs, i, id) && forall k | i < k < n :: !Closes(rs[k], id)
  }

  lemma {:induction false} BelowNext(rs: seq<Request>, n: nat)
    requires n <= |rs|
    ensures forall id | id in Before(rs, n).handles :: id < Before(rs, n).next
  {
    if n > 0 { BelowNext(rs, n - 1); }
  }

  /** One request further, a handle is on the table for the same reasons. */
  lemma OnTheTableStep(rs: seq<Request>, n: nat, id: nat)
    requires n < |rs|
    ensures id in Before(rs, n + 1).handles
      <==> Opens(rs, n, id) || (id in Before(rs, n).handles && !Closes(rs[n], id))
  {
    BelowNext(rs, n);
  }

  lemma StillOpenStep(rs: seq<Request>, n: nat, id: nat)
    requires n < |rs|
    ensures StillOpen(rs, n + 1, id) <==> Opens(rs, n, id) || (StillOpen(rs, n, id) && !Closes(rs[n], id))
  {
    if StillOpen(rs, n + 1, id) {
      var i :| 0 <= i < n + 1 && Opens(rs, i, id) && forall k | i < k < n + 1 :: !Closes(rs[k], id);
    }
    if i :| 0 <= i < n && Opens(rs, i, id) && forall k | i < k < n :: !Closes(rs[k], id) {
      assert !Closes(rs[n], id) ==> forall k | i < k < n + 1 :: !Closes(rs[k], id);
    }
  }

  /** A handle is on the table exactly from its opening to its closing. */
  lemma {:induction false} OnTheTableWhileOpen(rs: seq<Request>, n: nat, id: nat)
    requires n <= |rs|
    ensures id in Before(rs, n).handles <==> StillOpen(rs, n, id)
  {
    NoneAtFirst(rs, id);
    hide *;
    if n > 0 {
      OnTheTableWhileOpen(rs, n - 1, id);
      OnTheTableStep(rs, n - 1, id);
      StillOpenStep(rs, n - 1, id);
    }
  }

  lemma NoneAtFirst(rs: seq<Request>, id: nat)
    ensures id !in Before(rs, 0).handles && !StillOpen(rs, 0, id)
  {
  }

  /** Once closed, a handle that was given out fails for good. */
  lemma {:induction false} ClosedForGood(rs: seq<Request>, i: nat, c: nat, n: nat, id: nat)
    requires i < c < n < |rs| && Opens(rs, i, id) && Closes(rs[c], id)
    ensures (rs[n].UseFile? || rs[n].ReadDir?) && Decode(rs[n].handle) == Some(id) ==> ReplyTo(rs, n) == Fails
  {
    OnTheTableWhileOpen(rs, n, id);
    forall k | 0 <= k < n && Opens(rs, k, id) ensures k < c < n && Closes(rs[c], id) {
      OneOpening(rs, i, k, id);
    }
  }

  /** A number is opened once. */
  lemma OneOpening(rs: seq<Request>, i: nat, k: nat, id: nat)
    requires i < |rs| && k < |rs| && Opens(rs, i, id) && Opens(rs, k, id)
    ensures i == k
  {
    if i < k { NextNeverFalls(rs, i, k); }
    if k < i { NextNeverFalls(rs, k, i); }
  }

  /** Some READDIR of the handle lies in the stretch. */
  ghost predicate ReadIn(rs: seq<Request>, i: nat, n: nat, id: nat)
    requires n <= |rs|
  {
    exists k | i < k < n :: Reads(rs[k], id)
  }

  ghost function Kept(r: Request, read: bool): Handle
    requires r.Open? || r.OpenDir?
  {
    if r.OpenDir? then DirHandle(r.entries, read) else HandleOf(r)
  }

  lemma ReadInStep(rs: seq<Request>, i: nat, n: nat, id: nat)
    requires i < n < |rs|
    ensures ReadIn(rs, i, n + 1, id) <==> ReadIn(rs, i, n, id) || Reads(rs[n], id)
  {
    if ReadIn(rs, i, n + 1, id) {
      var k :| i < k < n + 1 && Reads(rs[k], id);
    }
  }

  lemma KeptStep(t: Table, r: Request, id: nat, opening: Request, read: bool)
    requires opening.Open? || opening.OpenDir?
    requires id in t.handles && t.handles[id] == Kept(opening, read) && id < t.next && !Closes(r, id)
    ensures var t' := Serve(t, r).0; id in t'.handles && t'.handles[id] == Kept(opening, read || Reads(r, id))
  {
  }

  /** While open, a file's handle is what was opened, and a directory's remembers only whether it was read. */
  lemma {:induction false} HandleKeeps(rs: seq<Request>, i: nat, n: nat, id: nat)
    requires i < n <= |rs| && Opens(rs, i, id) && forall k | i < k < n :: !Closes(rs[k], id)
    ensures id in Before(rs, n).handles && Before(rs, n).handles[id] == Kept(rs[i], ReadIn(rs, i, n, id))
    decreases n
  {
    if n == i + 1 {
      JustOpened(rs, i, id);
    } else {
      HandleKeeps(rs, i, n - 1, id);
      OneMoreKept(rs, i, n - 1, id);
    }
  }

  lemma OneMoreKept(rs: seq<Request>, i: nat, n: nat, id: nat)
    requires i < n < |rs| && Opens(rs, i, id) && !Closes(rs[n], id)
    requires id in Before(rs, n).handles && Before(rs, n).handles[id] == Kept(rs[i], ReadIn(rs, i, n, id))
    ensures id in Before(rs, n + 1).handles
    ensures Before(rs, n + 1).handles[id] == Kept(rs[i], ReadIn(rs, i, n + 1, id))
  {
    var t, read := Before(rs, n), ReadIn(rs, i, n, id);
    assert Before(rs, n + 1) == Serve(t, rs[n]).0;
    NextNeverFalls(rs, i, n);
    ReadInStep(rs, i, n, id);
    hide *;
    KeptStep(t, rs[n], id, rs[i], read);
  }

  lemma JustOpened(rs: seq<Request>, i: nat, id: nat)
    requires i < |rs| && Opens(rs, i, id)
    ensures id in Before(rs, i + 1).handles && Before(rs, i + 1).handles[id] == Kept(rs[i], ReadIn(rs, i, i + 1, id))
  {
    assert Before(rs, i + 1) == Opening(Before(rs, i), HandleOf(rs[i])).0;
  }

  /**
   * What an open handle answers, at any point of any run: a file's its own file,
   * a directory's the whole listing at the first READDIR and the end at every
   * later one, and each fails where the other kind is asked for.
   */
  lemma WhatAHandleAnswers(rs: seq<Request>, i: nat, n: nat, id: nat)
    requires i < n < |rs| && Opens(rs, i, id) && forall k | i < k < n :: !Closes(rs[k], id)
    ensures Reads(rs[n], id) ==>
      ReplyTo(rs, n) == (if rs[i].Open? then Fails else if ReadIn(rs, i, n, id) then Eof else Names(rs[i].entries))
    ensures rs[n].UseFile? && Decode(rs[n].handle) == Some(id) ==>
      ReplyTo(rs, n) == (if rs[i].Open? then Found(rs[i].fd, rs[i].path) else Fails)
  {
    HandleKeeps(rs, i, n, id);
  }

  /** The reply to an opening names its number, as long as four bytes can. */
  lemma {:induction false} OpeningSaysWhich(rs: seq<Request>, i: nat, id: nat)
    requires i < |rs| && Opens(rs, i, id)
    ensures if id < LIMIT then ReplyTo(rs, i).Opened? && Decode(ReplyTo(rs, i).handle) == Some(id)
            else ReplyTo(rs, i) == Fails && id in Before(rs, i + 1).handles
  {
    if id < LIMIT { DecodeEncode(id); }
  }
}
