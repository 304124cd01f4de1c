/** The disbursement protocol: RPC handlers, spawned contribution payouts and
    the single retry task, over one table and one payment node.

    A step is one statement, one send, one reply, the start of an actor, or a
    crash of the whole process. Steps interleave freely; `Exec` gives the effect
    of each one, with the faults of the database and the answers of the node
    chosen by the environment.
 */
module Disbursement {
  import opened DisbursementDb

  datatype Kind = Rpc | Task

  datatype Reply = NoReply | ServerError | Answer(success: bool)

  datatype Phase =
    | Checking
    | Inserting
    | Rereading
    | Sending
    | InFlight
    | Recording(success: bool)
    | Finished(reply: Reply)

  datatype Actor = Actor(kind: Kind, key: Key, payment: Payment, phase: Phase)

  /** The retry loop: asleep, or at `phase` of the first row of its batch. */
  datatype RetryPhase = Marking | Resending | Awaiting | Noting(success: bool)
  datatype Retry = Idle | Working(batch: seq<(Key, Payment)>, at: RetryPhase)

  datatype NodeReply = Accepted | Rejected | Lost

  datatype Event = Sent(key: Key, payment: Payment) | Paid(key: Key)

  datatype System = System(table: Table, actors: seq<Actor>, retry: Retry, log: seq<Event>)

  datatype Step =
    | Start(kind: Kind, key: Key, payment: Payment)
    | Act(i: nat, fault: Fault, reply: NodeReply)
    | RetryStep(fault: Fault, reply: NodeReply)
    | Crash

  const INITIAL: System := System(Table(map[], []), [], Idle, [])

  // ---- The steps ----

  function Give(a: Actor, reply: Reply): Actor {
    a.(phase := Finished(if a.kind == Rpc then reply else NoReply))
  }

  function StatusReply(t: Table, key: Key): Reply
    requires key in t.rows
  {
    Answer(t.rows[key].status == Success)
  }

  /** The step of one handler or spawned task. */
  function ActorStep(s: System, i: nat, fault: Fault, reply: NodeReply): System
    requires i < |s.actors|
  {
    var a := s.actors[i];
    match a.phase
    case Checking =>
      if fault != NoFault then s.(actors := s.actors[i := Give(a, ServerError)])
      else if a.key in s.table.rows then s.(actors := s.actors[i := Give(a, StatusReply(s.table, a.key))])
      else s.(actors := s.actors[i := a.(phase := Inserting)])
    case Inserting =>
      var t := Effect(fault, s.table, Inserted(s.table, a.key, a.payment));
      var a' :=
        if fault != NoFault then Give(a, ServerError)
        else if a.key !in s.table.rows then a.(phase := Sending)
        else if a.kind == Rpc then a.(phase := Rereading)
        else Give(a, NoReply);
      s.(table := t, actors := s.actors[i := a'])
    case Rereading =>
      if fault != NoFault then s.(actors := s.actors[i := Give(a, ServerError)])
      else if a.key in s.table.rows then s.(actors := s.actors[i := Give(a, StatusReply(s.table, a.key))])
      else s.(actors := s.actors[i := a.(phase := Sending)])
    case Sending =>
      s.(actors := s.actors[i := a.(phase := InFlight)], log := s.log + [Sent(a.key, a.payment)])
    case InFlight =>
      (match reply
       case Accepted => s.(actors := s.actors[i := a.(phase := Recording(true))], log := s.log + [Paid(a.key)])
       case Rejected => s.(actors := s.actors[i := a.(phase := Recording(false))])
       case Lost =>
         if a.kind == Rpc then s.(actors := s.actors[i := Give(a, ServerError)])
         else s.(actors := s.actors[i := a.(phase := Recording(false))]))
    case Recording(success) =>
      s.(table := Effect(fault, s.table, Completed(s.table, a.key, success)),
         actors := s.actors[i := Give(a, Answer(success))])
    case Finished(_) => s
  }

  function NextRow(batch: seq<(Key, Payment)>): Retry
    requires batch != []
  {
    if |batch| == 1 then Idle else Working(batch[1..], Marking)
  }

  /** The step of the retry task. */
  function RetryTaskStep(s: System, fault: Fault, reply: NodeReply, maxRetries: nat): System {
    match s.retry
    case Idle =>
      var batch := FailedBatch(s.table, maxRetries);
      if fault != NoFault || batch == [] then s else s.(retry := Working(batch, Marking))
    case Working(batch, at) =>
      if batch == [] then s.(retry := Idle)
      else
        var (key, payment) := batch[0];
        match at
        case Marking =>
          s.(table := Effect(fault, s.table, Retrying(s.table, key)),
             retry := if fault == NoFault then Working(batch, Resending) else NextRow(batch))
        case Resending =>
          s.(retry := Working(batch, Awaiting), log := s.log + [Sent(key, payment)])
        case Awaiting =>
          if reply == Accepted
          then s.(retry := Working(batch, Noting(true)), log := s.log + [Paid(key)])
          else s.(retry := Working(batch, Noting(false)))
        case Noting(success) =>
          s.(table := Effect(fault, s.table, Completed(s.table, key, success)), retry := NextRow(batch))
  }

  function Exec(s: System, step: Step, maxRetries: nat): System {
    match step
    case Start(kind, key, payment) =>
      s.(actors := s.actors + [Actor(kind, key, payment, if kind == Rpc then Checking else Inserting)])
    case Act(i, fault, reply) => if i < |s.actors| then ActorStep(s, i, fault, reply) else s
    case RetryStep(fault, reply) => RetryTaskStep(s, fault, reply, maxRetries)
    case Crash => s.(actors := [], retry := Idle)
  }

  /** The state after a run, from the empty table. */
  function Run(steps: seq<Step>, maxRetries: nat): System {
    if steps == [] then INITIAL
    else Exec(Run(steps[..|steps| - 1], maxRetries), steps[|steps| - 1], maxRetries)
  }

  // ---- What is claimed ----

  function Sends(log: seq<Event>, key: Key): nat {
    if log == [] then 0
    else Sends(log[..|log| - 1], key) + (if log[|log| - 1].Sent? && log[|log| - 1].key == key then 1 else 0)
  }

  function Payouts(log: seq<Event>, key: Key): nat {
    if log == [] then 0
    else Payouts(log[..|log| - 1], key) + (if log[|log| - 1] == Paid(key) then 1 else 0)
  }

  /** Between the decision to send and the recording of the outcome. */
  predicate Live(p: Phase) {
    p.Sending? || p.InFlight? || p.Recording?
  }

  predicate RetryLive(r: Retry) {
    r.Working? && r.batch != [] && !r.at.Marking?
  }

  predicate ActorHolds(s: System, i: nat, key: Key) {
    i < |s.actors| && Live(s.actors[i].phase) && s.actors[i].key == key
  }

  predicate RetryHolds(s: System, key: Key) {
    RetryLive(s.retry) && s.retry.batch[0].0 == key
  }

  /** At most one actor is ever sending a key. */
  ghost predicate Exclusive(s: System) {
    && (forall i, j, key :: ActorHolds(s, i, key) && ActorHolds(s, j, key) ==> i == j)
    && (forall i, key :: ActorHolds(s, i, key) ==> !RetryHolds(s, key))
  }

  /** No send of a key follows its payout. */
  ghost predicate NoSendAfterPayout(log: seq<Event>) {
    forall i, j :: 0 <= i < j < |log| && log[i].Paid? ==> !(log[j].Sent? && log[j].key == log[i].key)
  }

  ghost predicate AtMostOnce(s: System, maxRetries: nat) {
    && Exclusive(s)
    && NoSendAfterPayout(s.log)
    && (forall key :: Payouts(s.log, key) <= 1)
    && (forall key :: Sends(s.log, key) <= 1 + maxRetries)
  }

  /** The table and the handlers never claim a payout that the node did not report. */
  ghost predicate Truthful(s: System) {
    && (forall key :: key in s.table.rows && s.table.rows[key].status == Success ==> Paid(key) in s.log)
    && (forall key :: key in s.table.rows && s.table.rows[key].status == Failed ==> Paid(key) !in s.log)
    && (forall i :: 0 <= i < |s.actors| && s.actors[i].phase == Finished(Answer(true)) ==>
          Paid(s.actors[i].key) in s.log)
  }

  /** What a payout of a key paid: the payment of its row. */
  ghost predicate PaidAsStored(s: System) {
    forall key :: Paid(key) in s.log ==> key in s.table.rows && Sent(key, s.table.rows[key].payment) in s.log
  }

  /** Every send of a key carries the recipient, amount and reason of its row. */
  ghost predicate SamePayment(s: System) {
    forall e :: e in s.log && e.Sent? ==> e.key in s.table.rows && s.table.rows[e.key].payment == e.payment
  }

  // ---- The invariant, in four parts ----

  /** Table and log, whoever is running. */
  ghost predicate Books(t: Table, log: seq<Event>, maxRetries: nat) {
    && Consistent(t)
    && NoSendAfterPayout(log)
    && (forall e :: e in log && e.Sent? ==> e.key in t.rows && t.rows[e.key].payment == e.payment)
    && (forall key :: KeyBooks(t, log, key, maxRetries))
  }

  ghost predicate KeyBooks(t: Table, log: seq<Event>, key: Key, maxRetries: nat) {
    && Payouts(log, key) == (if Paid(key) in log then 1 else 0)
    && (key !in t.rows ==> Sends(log, key) == 0 && Paid(key) !in log)
    && (key in t.rows && Paid(key) in log ==> Sent(key, t.rows[key].payment) in log)
    && (key in t.rows ==>
          && t.rows[key].retries <= maxRetries
          && Sends(log, key) <= 1 + t.rows[key].retries
          && (t.rows[key].status == Success ==> Paid(key) in log)
          && (t.rows[key].status == Failed ==> Paid(key) !in log))
  }

  /** What one handler or task may rely on. */
  ghost predicate Claim(t: Table, log: seq<Event>, a: Actor) {
    && (a.phase.Rereading? ==> a.key in t.rows)
    && (a.phase == Finished(Answer(true)) ==> Paid(a.key) in log)
    && (Live(a.phase) ==>
          && a.key in t.rows
          && t.rows[a.key] == Row(a.payment, Pending, 0)
          && (a.phase.Sending? ==> Sends(log, a.key) == 0)
          && (a.phase.InFlight? ==> Sent(a.key, a.payment) in log)
          && (Paid(a.key) in log <==> a.phase == Recording(true)))
  }

  /** What the retry task may rely on: the rows ahead are still failed. */
  ghost predicate RetryClaim(t: Table, log: seq<Event>, r: Retry, maxRetries: nat) {
    r.Working? ==>
      && r.batch != []
      && SoundBatch(t, if r.at.Marking? then r.batch else r.batch[1..], maxRetries)
      && (!r.at.Marking? ==> HeadClaim(t, log, r.batch[0], r.at))
  }

  ghost predicate HeadClaim(t: Table, log: seq<Event>, head: (Key, Payment), at: RetryPhase) {
    && head.0 in t.rows
    && t.rows[head.0].payment == head.1
    && t.rows[head.0].status == Pending
    && t.rows[head.0].retries >= 1
    && (at.Resending? ==> Sends(log, head.0) <= t.rows[head.0].retries)
    && (at.Awaiting? ==> Sent(head.0, head.1) in log)
    && (Paid(head.0) in log <==> at == Noting(true))
  }

  ghost predicate Inv(s: System, maxRetries: nat) {
    && Books(s.table, s.log, maxRetries)
    && Exclusive(s)
    && RetryClaim(s.table, s.log, s.retry, maxRetries)
    && (forall i :: 0 <= i < |s.actors| ==> Claim(s.table, s.log, s.actors[i]))
  }

  // ---- How the books change ----

  lemma LogSnoc(log: seq<Event>, e: Event, key: Key)
    ensures Sends(log + [e], key) == Sends(log, key) + (if e.Sent? && e.key == key then 1 else 0)
    ensures Payouts(log + [e], key) == Payouts(log, key) + (if e == Paid(key) then 1 else 0)
  {
    assert (log + [e])[..|log + [e]| - 1] == log;
  }

  /** Only `key` sees a difference between the two books. */
  ghost predicate AlikeBut(t: Table, log: seq<Event>, t': Table, log': seq<Event>, key: Key) {
    forall k :: k != key ==>
      && (k in t.rows <==> k in t'.rows)
      && (k in t.rows ==> t'.rows[k] == t.rows[k])
      && Sends(log', k) == Sends(log, k)
      && (Paid(k) in log' <==> Paid(k) in log)
      && (forall p :: Sent(k, p) in log ==> Sent(k, p) in log')
  }

  lemma LogEvent(t: Table, log: seq<Event>, e: Event, maxRetries: nat)
    requires Books(t, log, maxRetries) && e.key in t.rows && Paid(e.key) !in log
    requires e.Sent? ==> t.rows[e.key].payment == e.payment && Sends(log, e.key) <= t.rows[e.key].retries
    requires e.Paid? ==> t.rows[e.key].status == Pending && Sent(e.key, t.rows[e.key].payment) in log
    ensures Books(t, log + [e], maxRetries)
    ensures AlikeBut(t, log, t, log + [e], e.key)
    ensures Sends(log + [e], e.key) == Sends(log, e.key) + (if e.Sent? then 1 else 0)
  {
    forall k ensures KeyBooks(t, log + [e], k, maxRetries)
             ensures k != e.key ==> Sends(log + [e], k) == Sends(log, k)
             ensures Sends(log + [e], e.key) == Sends(log, e.key) + (if e.Sent? then 1 else 0)
    {
      assert KeyBooks(t, log, k, maxRetries);
      LogSnoc(log, e, k);
      LogSnoc(log, e, e.key);
    }
    forall i, j | 0 <= i < j < |log + [e]| && (log + [e])[i].Paid?
      ensures !((log + [e])[j].Sent? && (log + [e])[j].key == (log + [e])[i].key)
    {
      assert (log + [e])[i] == log[i];
      assert log[i] == Paid(log[i].key);
    }
  }

  lemma NewRow(t: Table, log: seq<Event>, key: Key, payment: Payment, maxRetries: nat)
    requires Books(t, log, maxRetries) && key !in t.rows
    ensures Books(Inserted(t, key, payment), log, maxRetries)
    ensures AlikeBut(t, log, Inserted(t, key, payment), log, key)
    ensures Sends(log, key) == 0 && Paid(key) !in log
  {
    assert KeyBooks(t, log, key, maxRetries);
    forall k ensures KeyBooks(Inserted(t, key, payment), log, k, maxRetries) {
      assert KeyBooks(t, log, k, maxRetries);
    }
  }

  lemma CompletedRow(t: Table, log: seq<Event>, key: Key, success: bool, maxRetries: nat)
    requires Books(t, log, maxRetries) && key in t.rows
    requires Paid(key) in log <==> success
    ensures Books(Completed(t, key, success), log, maxRetries)
    ensures AlikeBut(t, log, Completed(t, key, success), log, key)
  {
    forall k ensures KeyBooks(Completed(t, key, success), log, k, maxRetries) {
      assert KeyBooks(t, log, k, maxRetries);
    }
  }

  lemma RetryingRow(t: Table, log: seq<Event>, key: Key, maxRetries: nat)
    requires Books(t, log, maxRetries) && Retryable(t, key, maxRetries)
    ensures Books(Retrying(t, key), log, maxRetries)
    ensures AlikeBut(t, log, Retrying(t, key), log, key)
    ensures Paid(key) !in log && Sends(log, key) <= 1 + t.rows[key].retries
  {
    assert KeyBooks(t, log, key, maxRetries);
    forall k ensures KeyBooks(Retrying(t, key), log, k, maxRetries) {
      assert KeyBooks(t, log, k, maxRetries);
    }
  }

  lemma OthersKeepClaims(t: Table, log: seq<Event>, t': Table, log': seq<Event>, key: Key, a: Actor)
    requires Claim(t, log, a) && AlikeBut(t, log, t', log', key)
    requires key in t.rows ==> key in t'.rows
    requires Paid(key) in log ==> Paid(key) in log'
    requires Live(a.phase) ==> a.key != key
    ensures Claim(t', log', a)
  {
  }

  lemma RetryKeepsClaim(
    t: Table, log: seq<Event>, t': Table, log': seq<Event>, key: Key, r: Retry, maxRetries: nat)
    requires RetryClaim(t, log, r, maxRetries) && AlikeBut(t, log, t', log', key)
    requires key in t.rows ==> t.rows[key].status != Failed
    requires RetryLive(r) ==> r.batch[0].0 != key
    ensures RetryClaim(t', log', r, maxRetries)
  {
    if r.Working? {
      BatchStaysSound(t, log, t', log', key, if r.at.Marking? then r.batch else r.batch[1..], maxRetries);
    }
  }

  lemma BatchStaysSound(t: Table, log: seq<Event>, t': Table, log': seq<Event>, key: Key,
                        b: seq<(Key, Payment)>, maxRetries: nat)
    requires SoundBatch(t, b, maxRetries) && AlikeBut(t, log, t', log', key)
    requires key in t.rows && t.rows[key].status == Failed ==> forall j :: 0 <= j < |b| ==> b[j].0 != key
    ensures SoundBatch(t', b, maxRetries)
  {
    forall j | 0 <= j < |b|
      ensures Retryable(t', b[j].0, maxRetries) && b[j].1 == t'.rows[b[j].0].payment
    {
      assert Retryable(t, b[j].0, maxRetries);
    }
  }

  // ---- Putting a step together ----

  /** Actor `i` steps on its own key, which nobody else holds and no batch lists. */
  lemma ActorStepKeepsInv(s: System, s': System, i: nat, maxRetries: nat)
    requires Inv(s, maxRetries) && i < |s.actors|
    requires |s'.actors| == |s.actors| && s'.retry == s.retry
    requires s'.actors == s.actors[i := s'.actors[i]] && s'.actors[i].key == s.actors[i].key
    requires Books(s'.table, s'.log, maxRetries)
    requires AlikeBut(s.table, s.log, s'.table, s'.log, s.actors[i].key)
    requires Claim(s'.table, s'.log, s'.actors[i])
    requires forall j :: j != i ==> !ActorHolds(s, j, s.actors[i].key)
    requires !RetryHolds(s, s.actors[i].key)
    requires s.actors[i].key in s.table.rows ==>
      s.actors[i].key in s'.table.rows && s.table.rows[s.actors[i].key].status != Failed
    requires Paid(s.actors[i].key) in s.log ==> Paid(s.actors[i].key) in s'.log
    ensures Inv(s', maxRetries)
  {
    ClaimsKept(s, s', i, maxRetries);
    RetryKeepsClaim(s.table, s.log, s'.table, s'.log, s.actors[i].key, s.retry, maxRetries);
    ExclusiveKept(s, s', i);
  }

  lemma ExclusiveKept(s: System, s': System, i: nat)
    requires Exclusive(s) && i < |s.actors| == |s'.actors| && s'.retry == s.retry
    requires s'.actors == s.actors[i := s'.actors[i]] && s'.actors[i].key == s.actors[i].key
    requires forall j :: j != i ==> !ActorHolds(s, j, s.actors[i].key)
    requires !RetryHolds(s, s.actors[i].key)
    ensures Exclusive(s')
  {
    assert forall j, k :: j != i && ActorHolds(s', j, k) ==> ActorHolds(s, j, k);
    assert forall k :: RetryHolds(s', k) ==> RetryHolds(s, k);
  }

  lemma ClaimsKept(s: System, s': System, i: nat, maxRetries: nat)
    requires Inv(s, maxRetries) && i < |s.actors| == |s'.actors|
    requires s'.actors == s.actors[i := s'.actors[i]]
    requires AlikeBut(s.table, s.log, s'.table, s'.log, s.actors[i].key)
    requires Claim(s'.table, s'.log, s'.actors[i])
    requires forall j :: j != i ==> !ActorHolds(s, j, s.actors[i].key)
    requires s.actors[i].key in s.table.rows ==> s.actors[i].key in s'.table.rows
    requires Paid(s.actors[i].key) in s.log ==> Paid(s.actors[i].key) in s'.log
    ensures forall j :: 0 <= j < |s'.actors| ==> Claim(s'.table, s'.log, s'.actors[j])
  {
    var key := s.actors[i].key;
    forall j | 0 <= j < |s'.actors| ensures Claim(s'.table, s'.log, s'.actors[j]) {
      if j != i {
        assert !ActorHolds(s, j, key);
        OthersKeepClaims(s.table, s.log, s'.table, s'.log, key, s.actors[j]);
      }
    }
  }

  /** The retry task steps on the head of its batch, which no actor holds. */
  lemma RetryStepKeepsInv(s: System, s': System, key: Key, maxRetries: nat)
    requires Inv(s, maxRetries) && s'.actors == s.actors
    requires Books(s'.table, s'.log, maxRetries)
    requires AlikeBut(s.table, s.log, s'.table, s'.log, key)
    requires forall j :: !ActorHolds(s, j, key)
    requires key in s.table.rows ==> key in s'.table.rows
    requires Paid(key) in s.log ==> Paid(key) in s'.log
    requires RetryClaim(s'.table, s'.log, s'.retry, maxRetries)
    requires forall k :: RetryHolds(s', k) ==> k == key
    ensures Inv(s', maxRetries)
  {
    forall j | 0 <= j < |s'.actors| ensures Claim(s'.table, s'.log, s'.actors[j]) {
      assert !ActorHolds(s, j, key);
      OthersKeepClaims(s.table, s.log, s'.table, s'.log, key, s.actors[j]);
    }
    assert forall j, k :: ActorHolds(s', j, k) ==> ActorHolds(s, j, k);
  }

  /** A step that only moves actor `i` to a phase that holds nothing. */
  lemma ActorMovesOn(s: System, i: nat, a': Actor, maxRetries: nat)
    requires Inv(s, maxRetries) && i < |s.actors|
    requires !Live(a'.phase) && Claim(s.table, s.log, a')
    ensures Inv(s.(actors := s.actors[i := a']), maxRetries)
  {
    var s' := s.(actors := s.actors[i := a']);
    assert forall j :: 0 <= j < |s'.actors| ==> s'.actors[j] == (if j == i then a' else s.actors[j]);
    ExclusiveShrinks(s, s', i);
  }

  lemma ExclusiveShrinks(s: System, s': System, i: nat)
    requires Exclusive(s) && i < |s.actors| == |s'.actors| && s'.retry == s.retry
    requires s'.actors == s.actors[i := s'.actors[i]] && !Live(s'.actors[i].phase)
    ensures Exclusive(s')
  {
    assert forall j, key :: ActorHolds(s', j, key) ==> j != i && ActorHolds(s, j, key);
    assert forall key :: RetryHolds(s', key) ==> RetryHolds(s, key);
  }

  /** Holders are alone on their key. */
  lemma HolderIsAlone(s: System, i: nat, maxRetries: nat)
    requires Inv(s, maxRetries) && i < |s.actors| && Live(s.actors[i].phase)
    ensures forall j :: j != i ==> !ActorHolds(s, j, s.actors[i].key)
    ensures !RetryHolds(s, s.actors[i].key)
    ensures Claim(s.table, s.log, s.actors[i])
  {
    assert ActorHolds(s, i, s.actors[i].key);
  }

  /** Nobody can hold a key that has no row, or whose row is failed. */
  lemma NobodyHolds(s: System, key: Key, maxRetries: nat)
    requires Inv(s, maxRetries)
    requires key in s.table.rows ==> s.table.rows[key].status == Failed
    ensures forall j :: !ActorHolds(s, j, key)
    ensures !RetryHolds(s, key)
  {
    forall j: nat ensures !ActorHolds(s, j, key) {
      if j < |s.actors| {
        assert Claim(s.table, s.log, s.actors[j]);
      }
    }
  }

  // ---- Every step keeps the invariant ----

  lemma InsertingKeepsInv(s: System, i: nat, fault: Fault, reply: NodeReply, maxRetries: nat)
    requires Inv(s, maxRetries) && i < |s.actors| && s.actors[i].phase.Inserting?
    ensures Inv(ActorStep(s, i, fault, reply), maxRetries)
  {
    var a := s.actors[i];
    var s' := ActorStep(s, i, fault, reply);
    if a.key in s.table.rows || fault == Refused {
      ActorMovesOn(s, i, s'.actors[i], maxRetries);
    } else {
      NewRow(s.table, s.log, a.key, a.payment, maxRetries);
      NobodyHolds(s, a.key, maxRetries);
      ActorStepKeepsInv(s, s', i, maxRetries);
    }
  }

  lemma LiveKeepsInv(s: System, i: nat, fault: Fault, reply: NodeReply, maxRetries: nat)
    requires Inv(s, maxRetries) && i < |s.actors| && Live(s.actors[i].phase)
    ensures Inv(ActorStep(s, i, fault, reply), maxRetries)
  {
    var a := s.actors[i];
    var s' := ActorStep(s, i, fault, reply);
    HolderIsAlone(s, i, maxRetries);
    match a.phase {
      case Sending =>
        LogEvent(s.table, s.log, Sent(a.key, a.payment), maxRetries);
      case InFlight =>
        if reply == Accepted {
          LogEvent(s.table, s.log, Paid(a.key), maxRetries);
        }
      case Recording(success) =>
        CompletedRow(s.table, s.log, a.key, success, maxRetries);
    }
    ActorStepKeepsInv(s, s', i, maxRetries);
  }

  lemma ActorKeepsInv(s: System, i: nat, fault: Fault, reply: NodeReply, maxRetries: nat)
    requires Inv(s, maxRetries) && i < |s.actors|
    ensures Inv(ActorStep(s, i, fault, reply), maxRetries)
  {
    var a := s.actors[i];
    assert Claim(s.table, s.log, a);
    if Live(a.phase) {
      LiveKeepsInv(s, i, fault, reply, maxRetries);
    } else if a.phase.Inserting? {
      InsertingKeepsInv(s, i, fault, reply, maxRetries);
    } else if !a.phase.Finished? {
      if a.key in s.table.rows {
        assert KeyBooks(s.table, s.log, a.key, maxRetries);
      }
      ActorMovesOn(s, i, ActorStep(s, i, fault, reply).actors[i], maxRetries);
    }
  }

  lemma MarkingKeepsInv(s: System, fault: Fault, reply: NodeReply, maxRetries: nat)
    requires Inv(s, maxRetries) && s.retry.Working? && s.retry.at.Marking?
    ensures Inv(RetryTaskStep(s, fault, reply, maxRetries), maxRetries)
  {
    var s' := RetryTaskStep(s, fault, reply, maxRetries);
    var (key, payment) := s.retry.batch[0];
    assert Retryable(s.table, key, maxRetries);
    RetryingRow(s.table, s.log, key, maxRetries);
    NobodyHolds(s, key, maxRetries);
    var tail := s.retry.batch[1..];
    assert forall j :: 0 <= j < |tail| ==> tail[j] == s.retry.batch[j + 1];
    BatchStaysSound(s.table, s.log, s'.table, s'.log, key, tail, maxRetries);
    RetryStepKeepsInv(s, s', key, maxRetries);
  }

  /** A row the retry task works on stays a row of the table, with its payment. */
  lemma RestOfBatchIsSound(s: System, fault: Fault, reply: NodeReply, maxRetries: nat)
    requires Inv(s, maxRetries) && RetryLive(s.retry)
    ensures SoundBatch(RetryTaskStep(s, fault, reply, maxRetries).table, s.retry.batch[1..], maxRetries)
  {
  }

  lemma RetryLiveKeepsInv(s: System, fault: Fault, reply: NodeReply, maxRetries: nat)
    requires Inv(s, maxRetries) && RetryLive(s.retry)
    ensures Inv(RetryTaskStep(s, fault, reply, maxRetries), maxRetries)
  {
    var s' := RetryTaskStep(s, fault, reply, maxRetries);
    var (key, payment) := s.retry.batch[0];
    assert RetryHolds(s, key);
    match s.retry.at {
      case Resending =>
        LogEvent(s.table, s.log, Sent(key, payment), maxRetries);
      case Awaiting =>
        if reply == Accepted {
          LogEvent(s.table, s.log, Paid(key), maxRetries);
        }
      case Noting(success) =>
        CompletedRow(s.table, s.log, key, success, maxRetries);
    }
    RestOfBatchIsSound(s, fault, reply, maxRetries);
    RetryStepKeepsInv(s, s', key, maxRetries);
  }

  lemma RetryKeepsInv(s: System, fault: Fault, reply: NodeReply, maxRetries: nat)
    requires Inv(s, maxRetries)
    ensures Inv(RetryTaskStep(s, fault, reply, maxRetries), maxRetries)
  {
    if s.retry.Idle? {
      BatchSoundAndFull(s.table, maxRetries);
      var s' := RetryTaskStep(s, fault, reply, maxRetries);
      assert forall j, k :: ActorHolds(s', j, k) ==> ActorHolds(s, j, k);
    } else if s.retry.at.Marking? {
      MarkingKeepsInv(s, fault, reply, maxRetries);
    } else {
      RetryLiveKeepsInv(s, fault, reply, maxRetries);
    }
  }

  lemma StepKeepsInv(s: System, step: Step, maxRetries: nat)
    requires Inv(s, maxRetries)
    ensures Inv(Exec(s, step, maxRetries), maxRetries)
  {
    match step
    case Start(_, _, _) =>
      var s' := Exec(s, step, maxRetries);
      assert forall j, k :: ActorHolds(s', j, k) ==> ActorHolds(s, j, k);
      assert forall k :: RetryHolds(s', k) ==> RetryHolds(s, k);
    case Act(i, fault, reply) =>
      if i < |s.actors| {
        ActorKeepsInv(s, i, fault, reply, maxRetries);
      }
    case RetryStep(fault, reply) => RetryKeepsInv(s, fault, reply, maxRetries);
    case Crash =>
  }

  lemma {:induction false} RunKeepsInv(steps: seq<Step>, maxRetries: nat)
    ensures Inv(Run(steps, maxRetries), maxRetries)
  {
    if steps == [] {
    } else {
      RunKeepsInv(steps[..|steps| - 1], maxRetries);
      StepKeepsInv(Run(steps[..|steps| - 1], maxRetries), steps[|steps| - 1], maxRetries);
    }
  }

  lemma RunSnoc(steps: seq<Step>, step: Step, maxRetries: nat)
    ensures Run(steps + [step], maxRetries) == Exec(Run(steps, maxRetries), step, maxRetries)
  {
    assert (steps + [step])[..|steps + [step]| - 1] == steps;
  }

  // ---- The theorem ----

  /** In every interleaving, with any database fault, node answer or crash at any
      point: one sender per key, at most one reported payout, no send after it,
      at most 1 + maxRetries sends, all of them for the stored payment, and no
      row or reply that claims a payout, of its key, that the node did not report. */
  lemma AtMostOncePayout(steps: seq<Step>, maxRetries: nat)
    ensures AtMostOnce(Run(steps, maxRetries), maxRetries)
    ensures Truthful(Run(steps, maxRetries))
    ensures SamePayment(Run(steps, maxRetries))
    ensures PaidAsStored(Run(steps, maxRetries))
  {
    RunKeepsInv(steps, maxRetries);
    var s := Run(steps, maxRetries);
    forall key
      ensures Paid(key) in s.log ==> key in s.table.rows && Sent(key, s.table.rows[key].payment) in s.log
      ensures Sends(s.log, key) <= 1 + maxRetries && Payouts(s.log, key) <= 1
      ensures key in s.table.rows && s.table.rows[key].status == Success ==> Paid(key) in s.log
      ensures key in s.table.rows && s.table.rows[key].status == Failed ==> Paid(key) !in s.log
    {
      assert KeyBooks(s.table, s.log, key, maxRetries);
    }
  }

  /** A caller that is told of success had its own payment sent exactly when the row of its key
      stores that payment: the key does not determine it. */
  lemma SuccessIsOwnIff(steps: seq<Step>, maxRetries: nat, i: nat)
    requires i < |Run(steps, maxRetries).actors|
    requires Run(steps, maxRetries).actors[i].phase == Finished(Answer(true))
    ensures var s, a := Run(steps, maxRetries), Run(steps, maxRetries).actors[i];
      && a.key in s.table.rows
      && (Sent(a.key, a.payment) in s.log <==> s.table.rows[a.key].payment == a.payment)
  {
    AtMostOncePayout(steps, maxRetries);
  }

  /** A call was told of success, and its payment was never sent. */
  predicate ToldOfAnother(s: System, i: nat, key: Key, mine: Payment) {
    && i < |s.actors| && s.actors[i] == Actor(Rpc, key, mine, Finished(Answer(true)))
    && Sent(key, mine) !in s.log
  }

  /** And it can be another: a second call with the key, but not the payment, of a paid one is
      told of success. */
  lemma SuccessOfAnother(key: Key, mine: Payment, other: Payment, maxRetries: nat)
    requires mine != other
    ensures exists steps, i :: ToldOfAnother(Run(steps, maxRetries), i, key, mine)
  {
    var steps := PaidCall(key, other, maxRetries);
    var start, look := Start(Rpc, key, mine), Act(1, NoFault, Lost);
    RunSnoc(steps, start, maxRetries);
    RunSnoc(steps + [start], look, maxRetries);
    var end := steps + [start] + [look];
    assert Run(end, maxRetries).actors[1] == Actor(Rpc, key, mine, Finished(Answer(true)));
    SuccessIsOwnIff(end, maxRetries, 1);
    assert ToldOfAnother(Run(end, maxRetries), 1, key, mine);
  }

  /** A call that went through. */
  lemma PaidCall(key: Key, payment: Payment, maxRetries: nat) returns (steps: seq<Step>)
    ensures var s := Run(steps, maxRetries);
      |s.actors| == 1 && key in s.table.rows && s.table.rows[key] == Row(payment, Success, 0)
  {
    var start, go := Start(Rpc, key, payment), Act(0, NoFault, Accepted);
    RunSnoc([], start, maxRetries);
    RunSnoc([] + [start], go, maxRetries);
    RunSnoc([] + [start] + [go], go, maxRetries);
    RunSnoc([] + [start] + [go] + [go], go, maxRetries);
    RunSnoc([] + [start] + [go] + [go] + [go], go, maxRetries);
    RunSnoc([] + [start] + [go] + [go] + [go] + [go], go, maxRetries);
    steps := [] + [start] + [go] + [go] + [go] + [go] + [go];
  }

  /** A handler that lost the insert race finds the winner's row: the fall-through
      to the send, written for a missing row, is never taken. */
  lemma LostRaceNeverSends(steps: seq<Step>, maxRetries: nat, i: nat, fault: Fault, reply: NodeReply)
    requires i < |Run(steps, maxRetries).actors| && Run(steps, maxRetries).actors[i].phase.Rereading?
    ensures Run(steps + [Act(i, fault, reply)], maxRetries).actors[i].phase.Finished?
  {
    RunKeepsInv(steps, maxRetries);
    assert Claim(Run(steps, maxRetries).table, Run(steps, maxRetries).log, Run(steps, maxRetries).actors[i]);
    RunSnoc(steps, Act(i, fault, reply), maxRetries);
  }

  /** Both looks, the first and the one after a lost insert, answer with the status of the row. */
  lemma LookAnswers(steps: seq<Step>, maxRetries: nat, i: nat, reply: NodeReply)
    requires var s := Run(steps, maxRetries);
      && i < |s.actors| && s.actors[i].kind == Rpc && (s.actors[i].phase == Checking || s.actors[i].phase == Rereading)
      && (s.actors[i].phase == Checking ==> s.actors[i].key in s.table.rows)
    ensures var s, s' := Run(steps, maxRetries), Run(steps + [Act(i, NoFault, reply)], maxRetries);
      var Actor(_, key, payment, _) := s.actors[i];
      && key in s.table.rows && s'.table == s.table && s'.log == s.log
      && s'.actors == s.actors[i := Actor(Rpc, key, payment, Finished(Answer(s.table.rows[key].status == Success)))]
  {
    RunKeepsInv(steps, maxRetries);
    assert Claim(Run(steps, maxRetries).table, Run(steps, maxRetries).log, Run(steps, maxRetries).actors[i]);
    RunSnoc(steps, Act(i, NoFault, reply), maxRetries);
  }

  // ---- The send bound is reached ----

  /** One full retry of the only, failed, row, unanswered by the node. */
  function Round(): seq<Step> {
    var r := RetryStep(NoFault, Lost);
    [r, r, r, r, r]
  }

  ghost predicate OneFailed(s: System, key: Key, payment: Payment, retries: nat) {
    && s.table == Table(map[key := Row(payment, Failed, retries)], [key])
    && s.retry == Idle
  }

  /** One turn of the retry task whose database answers and whose node does not. */
  function Turn(s: System, maxRetries: nat): System {
    RetryTaskStep(s, NoFault, Lost, maxRetries)
  }

  lemma RoundIsFiveTurns(steps: seq<Step>, maxRetries: nat)
    ensures Run(steps + Round(), maxRetries)
         == Turn(Turn(Turn(Turn(Turn(Run(steps, maxRetries), maxRetries), maxRetries), maxRetries), maxRetries),
                 maxRetries)
  {
    var r := RetryStep(NoFault, Lost);
    OneTurn(steps, maxRetries);
    OneTurn(steps + [r], maxRetries);
    OneTurn(steps + [r] + [r], maxRetries);
    OneTurn(steps + [r] + [r] + [r], maxRetries);
    OneTurn(steps + [r] + [r] + [r] + [r], maxRetries);
    assert steps + Round() == steps + [r] + [r] + [r] + [r] + [r];
  }

  lemma OneTurn(steps: seq<Step>, maxRetries: nat)
    ensures Run(steps + [RetryStep(NoFault, Lost)], maxRetries) == Turn(Run(steps, maxRetries), maxRetries)
  {
    RunSnoc(steps, RetryStep(NoFault, Lost), maxRetries);
  }

  /** The first two turns of a round take the failed row on. */
  lemma RoundStarts(s: System, key: Key, payment: Payment, retries: nat, maxRetries: nat)
    requires OneFailed(s, key, payment, retries) && retries < maxRetries
    ensures Turn(Turn(s, maxRetries), maxRetries)
         == s.(table := Table(map[key := Row(payment, Pending, retries + 1)], [key]),
               retry := Working([(key, payment)], Resending))
  {
    assert [key][1..] == [] && Failures(s.table, [], maxRetries) == [];
    assert Failures(s.table, [key], maxRetries) == [(key, payment)];
    assert FailedBatch(s.table, maxRetries) == [(key, payment)];
    assert Turn(s, maxRetries) == s.(retry := Working([(key, payment)], Marking));
  }

  /** The other three resend it, and record that no answer came. */
  lemma RoundEnds(s: System, key: Key, payment: Payment, retries: nat, maxRetries: nat)
    requires s.table == Table(map[key := Row(payment, Pending, retries)], [key])
    requires s.retry == Working([(key, payment)], Resending)
    ensures var s' := Turn(Turn(Turn(s, maxRetries), maxRetries), maxRetries);
      OneFailed(s', key, payment, retries) && Sends(s'.log, key) == Sends(s.log, key) + 1
  {
    LogSnoc(s.log, Sent(key, payment), key);
    var s2 := Turn(Turn(s, maxRetries), maxRetries);
    assert s2.retry == Working([(key, payment)], Noting(false));
    assert s2.table == s.table && s2.log == s.log + [Sent(key, payment)];
    assert Turn(s2, maxRetries).retry == Idle;
  }

  lemma RoundResends(steps: seq<Step>, key: Key, payment: Payment, retries: nat, maxRetries: nat)
    requires OneFailed(Run(steps, maxRetries), key, payment, retries) && retries < maxRetries
    ensures OneFailed(Run(steps + Round(), maxRetries), key, payment, retries + 1)
    ensures Sends(Run(steps + Round(), maxRetries).log, key) == Sends(Run(steps, maxRetries).log, key) + 1
  {
    var s := Run(steps, maxRetries);
    RoundIsFiveTurns(steps, maxRetries);
    RoundStarts(s, key, payment, retries, maxRetries);
    RoundEnds(Turn(Turn(s, maxRetries), maxRetries), key, payment, retries + 1, maxRetries);
  }

  lemma {:induction false} SendsReach(key: Key, payment: Payment, retries: nat, maxRetries: nat)
    returns (steps: seq<Step>)
    requires retries <= maxRetries
    ensures OneFailed(Run(steps, maxRetries), key, payment, retries)
    ensures Sends(Run(steps, maxRetries).log, key) == 1 + retries
  {
    if retries == 0 {
      steps := FirstSendFails(key, payment, maxRetries);
    } else {
      steps := SendsReach(key, payment, retries - 1, maxRetries);
      RoundResends(steps, key, payment, retries - 1, maxRetries);
      steps := steps + Round();
    }
  }

  lemma FirstSendFails(key: Key, payment: Payment, maxRetries: nat) returns (steps: seq<Step>)
    ensures OneFailed(Run(steps, maxRetries), key, payment, 0)
    ensures Sends(Run(steps, maxRetries).log, key) == 1
  {
    var go := Act(0, NoFault, Lost);
    var start := Start(Task, key, payment);
    RunSnoc([], start, maxRetries);
    var s1 := Run([] + [start], maxRetries);
    assert s1 == INITIAL.(actors := [Actor(Task, key, payment, Inserting)]);
    RunSnoc([] + [start], go, maxRetries);
    var s2 := Run([] + [start] + [go], maxRetries);
    assert s2.table == Table(map[key := Row(payment, Pending, 0)], [key]);
    RunSnoc([] + [start] + [go], go, maxRetries);
    var s3 := Run([] + [start] + [go] + [go], maxRetries);
    LogSnoc([], Sent(key, payment), key);
    assert s3.log == [] + [Sent(key, payment)];
    RunSnoc([] + [start] + [go] + [go], go, maxRetries);
    var s4 := Run([] + [start] + [go] + [go] + [go], maxRetries);
    assert s4.actors[0].phase == Recording(false);
    RunSnoc([] + [start] + [go] + [go] + [go], go, maxRetries);
    steps := [] + [start] + [go] + [go] + [go] + [go];
  }

  /** The bound on sends is exact: lost answers alone drive a key to 1 + maxRetries
      sends without one reported payout. A node that paid and then lost its answers
      would have paid that often. */
  lemma SendBoundIsTight(key: Key, payment: Payment, maxRetries: nat)
    ensures exists steps :: Sends(Run(steps, maxRetries).log, key) == 1 + maxRetries
                            && Payouts(Run(steps, maxRetries).log, key) == 0
  {
    var steps := SendsReach(key, payment, maxRetries, maxRetries);
    RunKeepsInv(steps, maxRetries);
    assert KeyBooks(Run(steps, maxRetries).table, Run(steps, maxRetries).log, key, maxRetries);
  }
}
