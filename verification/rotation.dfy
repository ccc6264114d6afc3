/**
 * `nest-api/scripts/rotate-master-key.ts` over `SecretStoreService`.
 *
 * The cipher is taken at its contract: a record opens under the key that sealed
 * it, undamaged, for the host it was sealed to, and to the secret that was
 * sealed.  The rotation reads its rows once and then writes them back one at a
 * time; the table after `n` turns of its loop is `Rotated(..., n)`.
 */
module Rotation {

  datatype Result<T> = Success(value: T) | Failure(reason: Reason)
  datatype Option<T> = None | Some(value: T)

  /** `DecryptFailure`, and the one way sealing can fail. */
  datatype Reason = WrongHost | Tampered | UnknownKeyVersion | Malformed | HostIdTooLong

  datatype Key = Key(version: int, bytes: string)

  /** `SecretStoreService` once its keys are parsed. */
  datatype Store = Store(current: Key, previous: Option<Key>)

  /**
   * A stored envelope.  `sealedBy`, `host` and `secret` are what the ciphertext
   * holds; `intact` is whether the bytes are the ones that were sealed.
   */
  datatype Record = Record(ivLength: nat, tagLength: nat, keyVersion: int, nonce: int,
                           sealedBy: Key, host: string, secret: string, intact: bool)

  datatype Row = Row(hostId: string, record: Record)

  /** A row's uuid: only ever compared. */
  type Id = int

  /** `HostCredentials` by row id. */
  type Table = map<Id, Row>

  const IV_BYTES := 12
  const AUTH_TAG_BYTES := 16

  /** `onModuleInit` refuses two keys of one version. */
  predicate Ready(store: Store) {
    store.previous.Some? ==> store.previous.value.version != store.current.version
  }

  function KeyForVersion(store: Store, version: int): Option<Key> {
    if version == store.current.version then Some(store.current)
    else if store.previous.Some? && version == store.previous.value.version then store.previous
    else None
  }

  function Decrypt(store: Store, record: Record, hostId: string): Result<string> {
    if record.ivLength != IV_BYTES || record.tagLength != AUTH_TAG_BYTES then Failure(Malformed)
    else
      var key := KeyForVersion(store, record.keyVersion);
      if key.None? then Failure(UnknownKeyVersion)
      else if !record.intact || record.sealedBy != key.value then Failure(Tampered)
      else if record.host != hostId then Failure(WrongHost)
      else Success(record.secret)
  }

  /** Host ids are framed behind one length byte. */
  function Encrypt(store: Store, secret: string, hostId: string, nonce: int): Result<Record> {
    if |hostId| > 255 then Failure(HostIdTooLong)
    else Success(Record(IV_BYTES, AUTH_TAG_BYTES, store.current.version, nonce, store.current, hostId, secret, true))
  }

  predicate IsCurrentVersion(store: Store, record: Record) {
    record.keyVersion == store.current.version
  }

  /** The store a finished rotation leaves configured: the previous key is removed. */
  function NewKeyAlone(store: Store): Store {
    store.(previous := None)
  }

  // ------------------------------------------------------------------ one row

  predicate Opens(store: Store, row: Row) {
    Decrypt(store, row.record, row.hostId).Success?
  }

  datatype Turn = Skipped | Rewritten(record: Record) | Failed

  /** What the loop does with a row of the snapshot. */
  function TurnFor(store: Store, row: Row, nonce: int): Turn {
    if IsCurrentVersion(store, row.record) then Skipped
    else
      match Decrypt(store, row.record, row.hostId)
      case Failure(_) => Failed
      case Success(secret) =>
        match Encrypt(store, secret, row.hostId, nonce)
        case Failure(_) => Failed
        case Success(record) => Rewritten(record)
  }

  /** `update where id`: the envelope changes, the row stays where it is. */
  function Update(table: Table, id: Id, record: Record): Table {
    if id in table then table[id := table[id].(record := record)] else table
  }

  function WriteBack(table: Table, id: Id, turn: Turn): (r: Table)
    ensures r.Keys == table.Keys
    ensures forall other | other in table && other != id :: r[other] == table[other]
    ensures id in table ==>
              r[id] == if turn.Rewritten? then table[id].(record := turn.record) else table[id]
  {
    match turn
    case Rewritten(record) => Update(table, id, record)
    case _ => table
  }

  /** A row after its turn. */
  function Turned(store: Store, row: Row, nonce: int): Row {
    match TurnFor(store, row, nonce)
    case Rewritten(record) => row.(record := record)
    case _ => row
  }

  datatype Counts = Counts(rotated: nat, skipped: nat, failed: nat)

  /** The snapshot `findMany` returned: every row of the table, once. */
  ghost predicate Snapshot(table: Table, rows: seq<(Id, Row)>) {
    && (forall i | 0 <= i < |rows| :: rows[i].0 in table && rows[i].1 == table[rows[i].0])
    && (forall i, j | 0 <= i < j < |rows| :: rows[i].0 != rows[j].0)
    && (forall id | id in table :: exists i :: 0 <= i < |rows| && rows[i].0 == id)
  }

  lemma RowOf(table: Table, rows: seq<(Id, Row)>, id: Id) returns (j: nat)
    requires Snapshot(table, rows) && id in table
    ensures j < |rows| && rows[j].0 == id && rows[j].1 == table[id]
  {
    j :| 0 <= j < |rows| && rows[j].0 == id;
  }

  lemma RowAt(table: Table, rows: seq<(Id, Row)>, j: nat, k: nat)
    requires Snapshot(table, rows) && j < |rows| && k < |rows|
    ensures rows[j].0 in table && rows[j].1 == table[rows[j].0]
    ensures j != k ==> rows[j].0 != rows[k].0
  {}

  // ------------------------------------------------------------------ the loop as a function

  /** The table after the first `n` turns of a run that writes. */
  function Rotated(store: Store, table: Table, rows: seq<(Id, Row)>, nonce: int, n: nat): (r: Table)
    requires n <= |rows|
    ensures r.Keys == table.Keys
  {
    if n == 0 then table
    else
      WriteBack(Rotated(store, table, rows, nonce, n - 1), rows[n - 1].0,
                TurnFor(store, rows[n - 1].1, nonce + n - 1))
  }

  function CountsAfter(store: Store, rows: seq<(Id, Row)>, n: nat): (c: Counts)
    requires n <= |rows|
    ensures c.rotated + c.skipped + c.failed == n
  {
    if n == 0 then Counts(0, 0, 0)
    else
      var c := CountsAfter(store, rows, n - 1);
      match TurnFor(store, rows[n - 1].1, 0)
      case Skipped => c.(skipped := c.skipped + 1)
      case Rewritten(_) => c.(rotated := c.rotated + 1)
      case Failed => c.(failed := c.failed + 1)
  }

  /** The nonce changes the ciphertext and nothing the loop looks at. */
  lemma TurnKind(store: Store, row: Row, nonce: int, nonce': int)
    ensures TurnFor(store, row, nonce).Skipped? == TurnFor(store, row, nonce').Skipped?
    ensures TurnFor(store, row, nonce).Rewritten? == TurnFor(store, row, nonce').Rewritten?
  {}

  // ------------------------------------------------------------------ the script

  /** The database and the counters of one run. */
  class Run {
    var table: Table
    var rotated: nat
    var skipped: nat
    var failed: nat

    constructor (t: Table)
      ensures table == t && rotated == skipped == failed == 0
    {
      table := t;
      rotated, skipped, failed := 0, 0, 0;
    }

    /**
     * The loop of `main`, stopped after `turns` rows.  The store's random
     * nonces are a counter.
     */
    method Rotate(store: Store, rows: seq<(Id, Row)>, dryRun: bool, nonce: int, turns: nat)
      requires turns <= |rows| && rotated == skipped == failed == 0
      modifies this
      ensures table == if dryRun then old(table) else Rotated(store, old(table), rows, nonce, turns)
      ensures Counts(rotated, skipped, failed) == CountsAfter(store, rows, turns)
      ensures rotated + skipped + failed == turns
    {
      for i := 0 to turns
        invariant table == if dryRun then old(table) else Rotated(store, old(table), rows, nonce, i)
        invariant Counts(rotated, skipped, failed) == CountsAfter(store, rows, i)
      {
        var id, row := rows[i].0, rows[i].1;
        TurnKind(store, row, nonce + i, 0);
        if IsCurrentVersion(store, row.record) {
          skipped := skipped + 1;
          continue;
        }
        var plaintext := Decrypt(store, row.record, row.hostId);
        if plaintext.Failure? {
          failed := failed + 1;
          continue;
        }
        var sealed := Encrypt(store, plaintext.value, row.hostId, nonce + i);
        if sealed.Failure? {
          failed := failed + 1;
          continue;
        }
        if !dryRun { table := Update(table, id, sealed.value); }
        rotated := rotated + 1;
      }
    }
  }

  // ------------------------------------------------------------------ what every interruption leaves

  /** `row'` is `row` untouched, or the same secret for the same host under the new key. */
  ghost predicate Kept(store: Store, row: Row, row': Row) {
    && row'.hostId == row.hostId
    && (row' == row
        || (Opens(store, row)
            && Decrypt(store, row'.record, row.hostId) == Decrypt(store, row.record, row.hostId)
            && Decrypt(NewKeyAlone(store), row'.record, row.hostId) == Decrypt(store, row.record, row.hostId)))
  }

  lemma TurnKeeps(store: Store, row: Row, nonce: int)
    requires Ready(store)
    ensures Kept(store, row, Turned(store, row, nonce))
    ensures !TurnFor(store, row, nonce).Rewritten? ==> Turned(store, row, nonce) == row
  {}

  /** The row at `id` after `n` turns: its own turn has come or it has not. */
  lemma {:induction false} RowAfter(store: Store, table: Table, rows: seq<(Id, Row)>, nonce: int, n: nat, j: nat)
    requires Snapshot(table, rows) && n <= |rows| && j < |rows|
    ensures Rotated(store, table, rows, nonce, n)[rows[j].0]
         == if j < n then Turned(store, rows[j].1, nonce + j) else rows[j].1
  {
    hide Snapshot, TurnFor, WriteBack;
    RowAt(table, rows, j, j);
    if n > 0 {
      RowAfter(store, table, rows, nonce, n - 1, j);
      RowAt(table, rows, j, n - 1);
    }
  }

  /**
   * Whenever the run stops, every row that opened still opens under the two
   * keys, to the secret it held, for its own host; a row that did not open is
   * untouched.
   */
  lemma {:induction false} SafeAtEveryInterruption(store: Store, table: Table, rows: seq<(Id, Row)>,
                                                   nonce: int, n: nat, id: Id)
    requires Ready(store) && Snapshot(table, rows) && n <= |rows| && id in table
    ensures var r := Rotated(store, table, rows, nonce, n);
            && r[id].hostId == table[id].hostId
            && Decrypt(store, r[id].record, r[id].hostId) == Decrypt(store, table[id].record, table[id].hostId)
            && (!Opens(store, table[id]) ==> r[id] == table[id])
  {
    hide Snapshot, TurnFor;
    var j := RowOf(table, rows, id);
    RowAfter(store, table, rows, nonce, n, j);
    TurnKeeps(store, rows[j].1, nonce + j);
  }

  lemma {:induction false} NoFailures(store: Store, rows: seq<(Id, Row)>, n: nat)
    requires n <= |rows|
    ensures CountsAfter(store, rows, n).failed == 0 <==> forall j | 0 <= j < n :: !TurnFor(store, rows[j].1, 0).Failed?
    ensures CountsAfter(store, rows, n).rotated == 0 <==>
              forall j | 0 <= j < n :: !TurnFor(store, rows[j].1, 0).Rewritten?
  {
    if n > 0 { NoFailures(store, rows, n - 1); }
  }

  /** `failed` is zero exactly when every row is already current, or opens and can be sealed again. */
  lemma FailedExactlyWhen(store: Store, rows: seq<(Id, Row)>)
    ensures CountsAfter(store, rows, |rows|).failed == 0 <==>
            forall j | 0 <= j < |rows| ::
              IsCurrentVersion(store, rows[j].1.record) || (Opens(store, rows[j].1) && |rows[j].1.hostId| <= 255)
  {
    NoFailures(store, rows, |rows|);
    forall j | 0 <= j < |rows|
      ensures !TurnFor(store, rows[j].1, 0).Failed?
              <==> IsCurrentVersion(store, rows[j].1.record) || (Opens(store, rows[j].1) && |rows[j].1.hostId| <= 255)
    {}
  }

  /**
   * "Done. Remove the previous key": after a whole run with no failure, the new
   * key alone opens exactly what the two keys opened before it, to the same
   * secrets.
   */
  lemma PreviousKeyCanGo(store: Store, table: Table, rows: seq<(Id, Row)>, nonce: int, id: Id)
    requires Ready(store) && Snapshot(table, rows) && id in table
    requires CountsAfter(store, rows, |rows|).failed == 0
    ensures var r := Rotated(store, table, rows, nonce, |rows|);
            Decrypt(NewKeyAlone(store), r[id].record, r[id].hostId)
              == Decrypt(store, table[id].record, table[id].hostId)
  {
    hide Snapshot, TurnFor;
    var j := RowOf(table, rows, id);
    RowAfter(store, table, rows, nonce, |rows|, j);
    NoFailures(store, rows, |rows|);
    TurnedForNewKey(store, rows[j].1, nonce + j);
  }

  lemma TurnedForNewKey(store: Store, row: Row, nonce: int)
    requires Ready(store) && !TurnFor(store, row, 0).Failed?
    ensures var r := Turned(store, row, nonce);
            r.hostId == row.hostId
            && Decrypt(NewKeyAlone(store), r.record, r.hostId) == Decrypt(store, row.record, row.hostId)
  {}

  /** A run that failed on some row keeps that row readable by the previous key, and the message is withheld. */
  lemma FailureKeepsPrevious(store: Store, table: Table, rows: seq<(Id, Row)>, nonce: int, j: nat)
    requires Ready(store) && Snapshot(table, rows) && j < |rows| && TurnFor(store, rows[j].1, 0).Failed?
    ensures CountsAfter(store, rows, |rows|).failed > 0
    ensures Rotated(store, table, rows, nonce, |rows|)[rows[j].0] == rows[j].1
  {
    RowAfter(store, table, rows, nonce, |rows|, j);
    NoFailures(store, rows, |rows|);
    TurnKind(store, rows[j].1, 0, nonce + j);
    TurnKeeps(store, rows[j].1, nonce + j);
  }

  // ------------------------------------------------------------------ running it again

  /** What is stored, whatever the nonce. */
  function Sealing(row: Row): Row {
    row.(record := row.record.(nonce := 0))
  }

  lemma TurnAgain(store: Store, row: Row, nonce: int, nonce': int)
    requires Ready(store)
    ensures !TurnFor(store, Turned(store, row, nonce), nonce').Rewritten?
    ensures Sealing(Turned(store, Turned(store, row, nonce), nonce')) == Sealing(Turned(store, row, nonce))
    ensures Sealing(Turned(store, row, nonce')) == Sealing(Turned(store, row, nonce))
  {}

  /**
   * A run interrupted after `n` turns, then run again over what it left: the
   * second run ends where one uninterrupted run would have.
   */
  lemma RerunFinishes(store: Store, table: Table, rows: seq<(Id, Row)>, rows': seq<(Id, Row)>,
                      nonce: int, nonce': int, n: nat, id: Id)
    requires Ready(store) && Snapshot(table, rows) && n <= |rows| && id in table
    requires Snapshot(Rotated(store, table, rows, nonce, n), rows')
    ensures Sealing(Rotated(store, Rotated(store, table, rows, nonce, n), rows', nonce', |rows'|)[id])
         == Sealing(Rotated(store, table, rows, nonce, |rows|)[id])
  {
    hide *;
    var half := Rotated(store, table, rows, nonce, n);
    var j := FinalRow(store, table, rows, nonce, n, id);
    var i := FinalRow(store, table, rows, nonce, |rows|, id);
    var k := FinalRow(store, half, rows', nonce', |rows'|, id);
    TurnAgain(store, table[id], nonce + i, nonce' + k);
    TurnAgain(store, table[id], nonce + j, nonce' + k);
    TurnAgain(store, table[id], nonce + j, nonce + i);
  }

  /** The row at `id` after `n` turns, by the place `j` it has in the snapshot. */
  lemma FinalRow(store: Store, table: Table, rows: seq<(Id, Row)>, nonce: int, n: nat, id: Id) returns (j: nat)
    requires Snapshot(table, rows) && n <= |rows| && id in table
    ensures j < |rows|
    ensures Rotated(store, table, rows, nonce, n)[id]
         == if j < n then Turned(store, table[id], nonce + j) else table[id]
  {
    j := RowOf(table, rows, id);
    RowAfter(store, table, rows, nonce, n, j);
  }

  /** After a whole run, whatever failed in it, running again rotates zero. */
  lemma SecondRunRotatesNothing(store: Store, table: Table, rows: seq<(Id, Row)>, rows': seq<(Id, Row)>, nonce: int)
    requires Ready(store) && Snapshot(table, rows)
    requires Snapshot(Rotated(store, table, rows, nonce, |rows|), rows')
    ensures CountsAfter(store, rows', |rows'|).rotated == 0
  {
    NoFailures(store, rows', |rows'|);
    forall k | 0 <= k < |rows'| ensures !TurnFor(store, rows'[k].1, 0).Rewritten? {
      RowTurnedAway(store, table, rows, rows', nonce, k);
    }
  }

  lemma RowTurnedAway(store: Store, table: Table, rows: seq<(Id, Row)>, rows': seq<(Id, Row)>, nonce: int, k: nat)
    requires Ready(store) && Snapshot(table, rows) && k < |rows'|
    requires Snapshot(Rotated(store, table, rows, nonce, |rows|), rows')
    ensures !TurnFor(store, rows'[k].1, 0).Rewritten?
  {
    hide *;
    RowAt(Rotated(store, table, rows, nonce, |rows|), rows', k, k);
    var j := FinalRow(store, table, rows, nonce, |rows|, rows'[k].0);
    TurnAgain(store, table[rows'[k].0], nonce + j, 0);
  }

  // ------------------------------------------------------------------ the API writing meanwhile

  /**
   * A credential stored by the API after `k` turns of the loop, into a row of
   * the snapshot.  The loop's later update writes back the secret it read.
   */
  function RotatedAround(store: Store, table: Table, rows: seq<(Id, Row)>, nonce: int, k: nat, id: Id,
                         stored: Record): Table
    requires k <= |rows|
  {
    Continued(store, Update(Rotated(store, table, rows, nonce, k), id, stored), rows, nonce, k, |rows|)
  }

  /** Turns `from` to `n` of the loop, over a table that need no longer be the snapshot's. */
  function Continued(store: Store, table: Table, rows: seq<(Id, Row)>, nonce: int, from: nat, n: nat): (r: Table)
    requires from <= n <= |rows|
    ensures r.Keys == table.Keys
  {
    if n == from then table
    else
      WriteBack(Continued(store, table, rows, nonce, from, n - 1), rows[n - 1].0,
                TurnFor(store, rows[n - 1].1, nonce + n - 1))
  }

  lemma {:induction false} ContinuedAt(store: Store, table: Table, rows: seq<(Id, Row)>, nonce: int, from: nat,
                                       n: nat, j: nat)
    requires from <= n <= |rows| && j < |rows| && rows[j].0 in table
    requires forall x, y | 0 <= x < y < |rows| :: rows[x].0 != rows[y].0
    ensures var r := Continued(store, table, rows, nonce, from, n);
            r[rows[j].0] == if from <= j < n && TurnFor(store, rows[j].1, nonce + j).Rewritten?
                               then table[rows[j].0].(record := TurnFor(store, rows[j].1, nonce + j).record)
                               else table[rows[j].0]
  {
    hide TurnFor, WriteBack;
    if n > from {
      ContinuedAt(store, table, rows, nonce, from, n - 1, j);
      assert j != n - 1 ==> rows[j].0 != rows[n - 1].0;
    }
  }

  /**
   * "Safe to run with the API up" holds of a concurrent store exactly when the
   * row's turn has passed, or its turn is not a rewrite: its snapshot is current
   * already, does not open or cannot be sealed again.  Otherwise the new
   * credential is overwritten by the one in the snapshot.
   */
  lemma ConcurrentStoreSurvives(store: Store, table: Table, rows: seq<(Id, Row)>, nonce: int, k: nat, j: nat,
                                stored: Record)
    requires Ready(store) && Snapshot(table, rows) && k <= |rows| && j < |rows|
    requires stored.nonce != nonce + j
    ensures var r, row := RotatedAround(store, table, rows, nonce, k, rows[j].0, stored), rows[j].1;
            rows[j].0 in r
            && (r[rows[j].0].record == stored
                <==> j < k || IsCurrentVersion(store, row.record) || !Opens(store, row) || |row.hostId| > 255)
  {
    RowAfter(store, table, rows, nonce, k, j);
    var at := Update(Rotated(store, table, rows, nonce, k), rows[j].0, stored);
    ContinuedAt(store, at, rows, nonce, k, |rows|, j);
    RewrittenExactly(store, rows[j].1, nonce + j);
    hide TurnFor, IsCurrentVersion, Opens;
  }

  lemma RewrittenExactly(store: Store, row: Row, nonce: int)
    ensures TurnFor(store, row, nonce).Rewritten?
      <==> !IsCurrentVersion(store, row.record) && Opens(store, row) && |row.hostId| <= 255
  {
  }

  /** One row under the previous key; the API stores "new" before its turn; the run puts "old" back. */
  lemma ConcurrentStoreLost()
    ensures var store := Store(Key(2, "b"), Some(Key(1, "a")));
            var before := Record(IV_BYTES, AUTH_TAG_BYTES, 1, 7, Key(1, "a"), "h", "old", true);
            var stored := Record(IV_BYTES, AUTH_TAG_BYTES, 2, 8, Key(2, "b"), "h", "new", true);
            var r := RotatedAround(store, map[5 := Row("h", before)], [(5, Row("h", before))], 9, 0, 5, stored);
            5 in r && Decrypt(store, r[5].record, "h") == Success("old")
  {
    var store := Store(Key(2, "b"), Some(Key(1, "a")));
    var before := Record(IV_BYTES, AUTH_TAG_BYTES, 1, 7, Key(1, "a"), "h", "old", true);
    var stored := Record(IV_BYTES, AUTH_TAG_BYTES, 2, 8, Key(2, "b"), "h", "new", true);
    var table: Table := map[5 := Row("h", before)];
    ContinuedAt(store, Update(table, 5, stored), [(5, Row("h", before))], 9, 0, 1, 0);
  }
}
