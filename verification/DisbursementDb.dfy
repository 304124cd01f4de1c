/** The disbursement table: one row per idempotency key.

    Each method is one SQL statement, so one atomic step. A statement can also
    end in an error, and then nobody knows whether it took effect: both ways of
    failing are inputs (`Fault`).
 */
module DisbursementDb {
  import opened Sequences

  type Key = string

  datatype Payment = Payment(recipient: string, amount: real, reason: string)

  datatype Status = Pending | Success | Failed

  datatype Row = Row(payment: Payment, status: Status, retries: nat)

  /** The rows, and their keys in order of creation. */
  datatype Table = Table(rows: map<Key, Row>, created: seq<Key>)

  datatype Fault = NoFault | Refused | Unacknowledged

  datatype Result<T> = Ok(value: T) | DbError

  const BATCH_LIMIT: nat := 50

  ghost predicate Consistent(t: Table) {
    && Distinct(t.created)
    && (forall k :: k in t.created <==> k in t.rows)
  }

  function Inserted(t: Table, key: Key, payment: Payment): Table {
    if key in t.rows then t
    else Table(t.rows[key := Row(payment, Pending, 0)], t.created + [key])
  }

  function Completed(t: Table, key: Key, success: bool): Table {
    if key in t.rows
    then t.(rows := t.rows[key := t.rows[key].(status := if success then Success else Failed)])
    else t
  }

  function Retrying(t: Table, key: Key): Table {
    if key in t.rows
    then t.(rows := t.rows[key := t.rows[key].(status := Pending, retries := t.rows[key].retries + 1)])
    else t
  }

  predicate Retryable(t: Table, key: Key, maxRetries: nat) {
    key in t.rows && t.rows[key].status == Failed && t.rows[key].retries < maxRetries
  }

  /** The retryable keys with their payments, oldest first. */
  function Failures(t: Table, keys: seq<Key>, maxRetries: nat): seq<(Key, Payment)> {
    if keys == [] then []
    else
      (if Retryable(t, keys[0], maxRetries) then [(keys[0], t.rows[keys[0]].payment)] else [])
      + Failures(t, keys[1..], maxRetries)
  }

  function FailedBatch(t: Table, maxRetries: nat): seq<(Key, Payment)> {
    var all := Failures(t, t.created, maxRetries);
    if |all| <= BATCH_LIMIT then all else all[..BATCH_LIMIT]
  }

  /** What a statement leaves behind under a fault. */
  function Effect(fault: Fault, before: Table, after: Table): Table {
    if fault == Refused then before else after
  }

  class Db {
    var table: Table

    constructor ()
      ensures table == Table(map[], []) && Consistent(table)
    {
      table := Table(map[], []);
    }

    method GetDisbursementByKey(key: Key, fault: Fault) returns (r: Result<map<Key, Row>>)
      ensures r.DbError? <==> fault != NoFault
      ensures r.Ok? ==> r.value == (if key in table.rows then map[key := table.rows[key]] else map[])
    {
      if fault != NoFault {
        return DbError;
      }
      return Ok(if key in table.rows then map[key := table.rows[key]] else map[]);
    }

    method InsertDisbursement(key: Key, payment: Payment, fault: Fault) returns (r: Result<bool>)
      requires Consistent(table)
      modifies this
      ensures Consistent(table)
      ensures table == Effect(fault, old(table), Inserted(old(table), key, payment))
      ensures fault == Refused || key in old(table).rows ==> table == old(table)
      ensures fault != Refused && key !in old(table).rows ==>
        table.rows == old(table).rows[key := Row(payment, Pending, 0)] && table.created == old(table).created + [key]
      ensures r == if fault == NoFault then Ok(key !in old(table).rows) else DbError
      ensures forall k :: k in old(table).rows ==> k in table.rows && table.rows[k] == old(table).rows[k]
    {
      var fresh_ := key !in table.rows;
      if fault != Refused && fresh_ {
        table := Table(table.rows[key := Row(payment, Pending, 0)], table.created + [key]);
      }
      r := if fault == NoFault then Ok(fresh_) else DbError;
    }

    method CompleteDisbursement(key: Key, success: bool, fault: Fault) returns (r: Result<()>)
      requires Consistent(table)
      modifies this
      ensures Consistent(table)
      ensures table == Effect(fault, old(table), Completed(old(table), key, success))
      ensures fault == Refused || key !in old(table).rows ==> table == old(table)
      ensures fault != Refused && key in old(table).rows ==>
        && table.created == old(table).created
        && var row := old(table).rows[key];
           table.rows == old(table).rows[key := Row(row.payment, if success then Success else Failed, row.retries)]
      ensures r.Ok? <==> fault == NoFault
    {
      if fault != Refused && key in table.rows {
        var row := table.rows[key];
        table := table.(rows := table.rows[key := row.(status := if success then Success else Failed)]);
      }
      r := if fault == NoFault then Ok(()) else DbError;
    }

    method MarkDisbursementRetrying(key: Key, fault: Fault) returns (r: Result<()>)
      requires Consistent(table)
      modifies this
      ensures Consistent(table)
      ensures table == Effect(fault, old(table), Retrying(old(table), key))
      ensures fault == Refused || key !in old(table).rows ==> table == old(table)
      ensures fault != Refused && key in old(table).rows ==>
        && table.created == old(table).created
        && var row := old(table).rows[key];
           table.rows == old(table).rows[key := Row(row.payment, Pending, row.retries + 1)]
      ensures r.Ok? <==> fault == NoFault
    {
      if fault != Refused && key in table.rows {
        var row := table.rows[key];
        table := table.(rows := table.rows[key := row.(status := Pending, retries := row.retries + 1)]);
      }
      r := if fault == NoFault then Ok(()) else DbError;
    }

    /** Scans the rows from the oldest on, and stops with a full batch. */
    method GetFailedDisbursementsForRetry(maxRetries: nat, fault: Fault)
      returns (r: Result<seq<(Key, Payment)>>)
      requires Consistent(table)
      ensures r.Ok? <==> fault == NoFault
      ensures r.Ok? ==> r.value == FailedBatch(table, maxRetries) && OldestRetryable(table, r.value, maxRetries)
    {
      if fault != NoFault {
        return DbError;
      }
      var batch: seq<(Key, Payment)>, i: nat := [], 0;
      while i < |table.created| && |batch| < BATCH_LIMIT
        invariant i <= |table.created| && |batch| <= BATCH_LIMIT
        invariant Failures(table, table.created, maxRetries) == batch + Failures(table, table.created[i..], maxRetries)
      {
        var key := table.created[i];
        FailuresStep(table, table.created, batch, i, maxRetries);
        if key in table.rows && table.rows[key].status == Failed && table.rows[key].retries < maxRetries {
          batch := batch + [(key, table.rows[key].payment)];
        }
        i := i + 1;
      }
      FirstFailures(table, batch, i, maxRetries);
      BatchIsOldest(table, maxRetries);
      r := Ok(batch);
    }
  }

  /** One row of the scan. */
  lemma FailuresStep(t: Table, keys: seq<Key>, batch: seq<(Key, Payment)>, i: nat, maxRetries: nat)
    requires i < |keys|
    ensures var tail := Failures(t, keys[i + 1..], maxRetries);
      batch + Failures(t, keys[i..], maxRetries) ==
        (if Retryable(t, keys[i], maxRetries) then batch + [(keys[i], t.rows[keys[i]].payment)] else batch) + tail
  {
    assert keys[i..][0] == keys[i] && keys[i..][1..] == keys[i + 1..];
  }

  lemma FirstFailures(t: Table, batch: seq<(Key, Payment)>, i: nat, maxRetries: nat)
    requires i <= |t.created| && |batch| <= BATCH_LIMIT && (i < |t.created| ==> |batch| == BATCH_LIMIT)
    requires Failures(t, t.created, maxRetries) == batch + Failures(t, t.created[i..], maxRetries)
    ensures batch == FailedBatch(t, maxRetries)
  {
    if i == |t.created| {
      assert t.created[i..] == [];
    } else {
      var all := Failures(t, t.created, maxRetries);
      assert all[..BATCH_LIMIT] == batch;
    }
  }

  // ---- What the retry query promises ----

  /** Distinct retryable keys, each with its stored payment. */
  ghost predicate SoundBatch(t: Table, b: seq<(Key, Payment)>, maxRetries: nat) {
    && (forall i :: 0 <= i < |b| ==> Retryable(t, b[i].0, maxRetries) && b[i].1 == t.rows[b[i].0].payment)
    && (forall i, j :: 0 <= i < j < |b| ==> b[i].0 != b[j].0)
  }

  lemma {:induction false} FailuresSound(t: Table, keys: seq<Key>, maxRetries: nat)
    requires Distinct(keys)
    ensures SoundBatch(t, Failures(t, keys, maxRetries), maxRetries)
    ensures forall e :: e in Failures(t, keys, maxRetries) ==> e.0 in keys
  {
    if keys == [] {
    } else {
      var rest := Failures(t, keys[1..], maxRetries);
      FailuresSound(t, keys[1..], maxRetries);
      assert keys[0] !in keys[1..];
      if Retryable(t, keys[0], maxRetries) {
        var f := Failures(t, keys, maxRetries);
        assert f == [(keys[0], t.rows[keys[0]].payment)] + rest;
        assert forall i :: 0 < i < |f| ==> f[i] == rest[i - 1] && f[i] in rest;
      } else {
        assert Failures(t, keys, maxRetries) == rest;
      }
    }
  }

  lemma {:induction false} FailuresComplete(t: Table, keys: seq<Key>, maxRetries: nat, key: Key)
    requires key in keys && Retryable(t, key, maxRetries)
    ensures (key, t.rows[key].payment) in Failures(t, keys, maxRetries)
  {
    if key != keys[0] {
      FailuresComplete(t, keys[1..], maxRetries, key);
    }
  }

  /** A retry batch is sound, at most 50 long, and skips a retryable row only when it is full. */
  lemma BatchSoundAndFull(t: Table, maxRetries: nat)
    requires Consistent(t)
    ensures SoundBatch(t, FailedBatch(t, maxRetries), maxRetries)
    ensures |FailedBatch(t, maxRetries)| <= BATCH_LIMIT
    ensures |FailedBatch(t, maxRetries)| < BATCH_LIMIT ==>
      forall key :: Retryable(t, key, maxRetries) ==>
        (key, t.rows[key].payment) in FailedBatch(t, maxRetries)
  {
    FailuresSound(t, t.created, maxRetries);
    forall key | Retryable(t, key, maxRetries)
      ensures (key, t.rows[key].payment) in Failures(t, t.created, maxRetries)
    {
      FailuresComplete(t, t.created, maxRetries, key);
    }
  }

  /** The same in the fields of the table. */
  lemma BatchMeans(t: Table, maxRetries: nat, key: Key, payment: Payment)
    requires Consistent(t)
    ensures |FailedBatch(t, maxRetries)| <= 50
    ensures (key, payment) in FailedBatch(t, maxRetries) ==>
      key in t.rows && t.rows[key] == Row(payment, Failed, t.rows[key].retries) && t.rows[key].retries < maxRetries
    ensures (key in t.rows && t.rows[key] == Row(payment, Failed, t.rows[key].retries)
             && t.rows[key].retries < maxRetries && |FailedBatch(t, maxRetries)| < 50)
      ==> (key, payment) in FailedBatch(t, maxRetries)
  {
    BatchSoundAndFull(t, maxRetries);
    if key in t.rows && t.rows[key].status == Failed && t.rows[key].retries < maxRetries {
      assert Retryable(t, key, maxRetries);
    }
  }

  // ---- Oldest first ----

  ghost predicate OlderIn(keys: seq<Key>, a: Key, b: Key) {
    exists i, j :: 0 <= i < j < |keys| && keys[i] == a && keys[j] == b
  }

  /** Distinct retryable rows with their payments, oldest first and at most 50; a retryable row
      is missing only from a full batch, and is younger than every row in it. */
  ghost predicate OldestRetryable(t: Table, b: seq<(Key, Payment)>, maxRetries: nat) {
    && SoundBatch(t, b, maxRetries)
    && |b| <= BATCH_LIMIT
    && (forall i, j :: 0 <= i < j < |b| ==> OlderIn(t.created, b[i].0, b[j].0))
    && (forall key :: Retryable(t, key, maxRetries) && (key, t.rows[key].payment) !in b ==>
          |b| == BATCH_LIMIT && forall i :: 0 <= i < |b| ==> OlderIn(t.created, b[i].0, key))
  }

  lemma OlderInTail(keys: seq<Key>, a: Key, b: Key)
    requires keys != [] && OlderIn(keys[1..], a, b)
    ensures OlderIn(keys, a, b)
  {
    var i, j :| 0 <= i < j < |keys[1..]| && keys[1..][i] == a && keys[1..][j] == b;
    assert keys[i + 1] == a && keys[j + 1] == b;
  }

  lemma HeadIsOlder(keys: seq<Key>, b: Key)
    requires keys != [] && b in keys[1..]
    ensures OlderIn(keys, keys[0], b)
  {
    var j :| 0 <= j < |keys[1..]| && keys[1..][j] == b;
    assert keys[j + 1] == b;
  }

  lemma {:induction false} FailuresListed(t: Table, keys: seq<Key>, maxRetries: nat, i: nat)
    requires i < |Failures(t, keys, maxRetries)|
    ensures Failures(t, keys, maxRetries)[i].0 in keys
  {
    var rest := Failures(t, keys[1..], maxRetries);
    if !Retryable(t, keys[0], maxRetries) {
      assert Failures(t, keys, maxRetries) == rest;
      FailuresListed(t, keys[1..], maxRetries, i);
    } else if i > 0 {
      FailuresListed(t, keys[1..], maxRetries, i - 1);
    }
  }

  lemma {:induction false} FailuresInOrder(t: Table, keys: seq<Key>, maxRetries: nat, i: nat, j: nat)
    requires i < j < |Failures(t, keys, maxRetries)|
    ensures OlderIn(keys, Failures(t, keys, maxRetries)[i].0, Failures(t, keys, maxRetries)[j].0)
  {
    var f, rest := Failures(t, keys, maxRetries), Failures(t, keys[1..], maxRetries);
    if !Retryable(t, keys[0], maxRetries) {
      assert f == rest;
      FailuresInOrder(t, keys[1..], maxRetries, i, j);
      OlderInTail(keys, f[i].0, f[j].0);
    } else if i > 0 {
      FailuresInOrder(t, keys[1..], maxRetries, i - 1, j - 1);
      OlderInTail(keys, f[i].0, f[j].0);
    } else {
      FailuresListed(t, keys[1..], maxRetries, j - 1);
      HeadIsOlder(keys, f[j].0);
    }
  }

  /** The batch is what the query asks for. */
  lemma BatchIsOldest(t: Table, maxRetries: nat)
    requires Consistent(t)
    ensures OldestRetryable(t, FailedBatch(t, maxRetries), maxRetries)
  {
    var all, b := Failures(t, t.created, maxRetries), FailedBatch(t, maxRetries);
    BatchSoundAndFull(t, maxRetries);
    forall i, j | 0 <= i < j < |b| ensures OlderIn(t.created, b[i].0, b[j].0) {
      FailuresInOrder(t, t.created, maxRetries, i, j);
    }
    forall key | Retryable(t, key, maxRetries) && (key, t.rows[key].payment) !in b
      ensures |b| == BATCH_LIMIT && forall i :: 0 <= i < |b| ==> OlderIn(t.created, b[i].0, key)
    {
      MissingIsYounger(t, maxRetries, key);
    }
  }

  lemma OutsideTake(all: seq<(Key, Payment)>, b: seq<(Key, Payment)>, n: nat, j: nat)
    requires b == (if |all| <= n then all else all[..n]) && j < |all| && all[j] !in b
    ensures n < |all| && n <= j
  {
    assert forall i :: 0 <= i < |b| ==> b[i] == all[i] && b[i] in b;
  }

  lemma MissingIsYounger(t: Table, maxRetries: nat, key: Key)
    requires Consistent(t) && Retryable(t, key, maxRetries)
    requires (key, t.rows[key].payment) !in FailedBatch(t, maxRetries)
    ensures var b := FailedBatch(t, maxRetries);
      |b| == BATCH_LIMIT && forall i :: 0 <= i < |b| ==> OlderIn(t.created, b[i].0, key)
  {
    var all, b := Failures(t, t.created, maxRetries), FailedBatch(t, maxRetries);
    FailuresComplete(t, t.created, maxRetries, key);
    var j :| 0 <= j < |all| && all[j] == (key, t.rows[key].payment);
    OutsideTake(all, b, BATCH_LIMIT, j);
    forall i | 0 <= i < |b| ensures OlderIn(t.created, b[i].0, key) {
      FailuresInOrder(t, t.created, maxRetries, i, j);
    }
  }
}
