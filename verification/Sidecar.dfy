/** The handlers of the payout sidecar as code. Between any two of its database and node calls
    a handler may be interrupted by others; whatever they do, what happens is a run of the steps
    of the protocol, so the protocol's guarantees are the handlers'.
 */
module Sidecar {
  import opened DisbursementDb
  import opened Disbursement

  // ---- Interruptions ----

  /** Who is at work: a handler or spawned payout, or the retry task. */
  datatype Self = Worker(i: nat) | Retrier

  /** A step that somebody else takes. */
  predicate IsOther(self: Self, step: Step) {
    match step
    case Start(_, _, _) => true
    case Act(i, _, _) => self != Worker(i)
    case RetryStep(_, _) => self != Retrier
    case Crash => false
  }

  ghost predicate AllOthers(self: Self, steps: seq<Step>) {
    forall k :: 0 <= k < |steps| ==> IsOther(self, steps[k])
  }

  /** What others leave alone. */
  ghost predicate SelfKept(self: Self, s: System, s': System) {
    match self
    case Worker(i) => i < |s.actors| ==> i < |s'.actors| && s'.actors[i] == s.actors[i]
    case Retrier => s'.retry == s.retry
  }

  lemma StepKeepsSelf(self: Self, s: System, step: Step, maxRetries: nat)
    requires IsOther(self, step) && Consistent(s.table)
    ensures SelfKept(self, s, Exec(s, step, maxRetries)) && Consistent(Exec(s, step, maxRetries).table)
  {
  }

  lemma {:induction false} OthersKeepSelf(self: Self, history: seq<Step>, others: seq<Step>, maxRetries: nat)
    requires AllOthers(self, others) && Consistent(Run(history, maxRetries).table)
    ensures SelfKept(self, Run(history, maxRetries), Run(history + others, maxRetries))
    ensures Consistent(Run(history + others, maxRetries).table)
  {
    if others == [] {
      assert history + others == history;
    } else {
      var init, last := others[..|others| - 1], others[|others| - 1];
      OthersKeepSelf(self, history, init, maxRetries);
      StepKeepsSelf(self, Run(history + init, maxRetries), last, maxRetries);
      RunSnoc(history + init, last, maxRetries);
      assert history + others == (history + init) + [last];
    }
  }

  lemma StepKeepsLog(s: System, step: Step, maxRetries: nat)
    ensures s.log <= Exec(s, step, maxRetries).log
  {
  }

  /** What the node received and confirmed stays so. */
  lemma {:induction false} LogGrows(history: seq<Step>, more: seq<Step>, maxRetries: nat)
    ensures Run(history, maxRetries).log <= Run(history + more, maxRetries).log
  {
    if more == [] {
      assert history + more == history;
    } else {
      var init, last := more[..|more| - 1], more[|more| - 1];
      LogGrows(history, init, maxRetries);
      StepKeepsLog(Run(history + init, maxRetries), last, maxRetries);
      RunSnoc(history + init, last, maxRetries);
      assert history + more == (history + init) + [last];
    }
  }

  /** The event is one of those that came after `log0`. */
  ghost predicate Since(log0: seq<Event>, log: seq<Event>, e: Event) {
    log0 <= log && e in log[|log0|..]
  }

  lemma SinceLast(log0: seq<Event>, log1: seq<Event>, e: Event)
    requires log0 <= log1
    ensures Since(log0, log1 + [e], e)
  {
    assert (log1 + [e])[|log0|..][|log1| - |log0|] == e;
  }

  lemma SinceStays(log0: seq<Event>, log1: seq<Event>, log2: seq<Event>, log3: seq<Event>, e: Event)
    requires log0 <= log1 && Since(log1, log2, e) && log2 <= log3
    ensures Since(log0, log3, e)
  {
    var k :| 0 <= k < |log2[|log1|..]| && log2[|log1|..][k] == e;
    assert log3[|log0|..][|log1| - |log0| + k] == e;
  }

  // ---- The handlers ----

  /** The payment node, as far as it reports: the sends it received and the payouts it confirmed. */
  class Node {
    var log: seq<Event>

    method Receive(key: Key, payment: Payment)
      modifies this
      ensures log == old(log) + [Sent(key, payment)]
    {
      log := log + [Sent(key, payment)];
    }

    method Respond(key: Key, reply: NodeReply)
      modifies this
      ensures log == if reply == Accepted then old(log) + [Paid(key)] else old(log)
    {
      if reply == Accepted {
        log := log + [Paid(key)];
      }
    }
  }

  /** The table and the node are where the history leaves them. */
  ghost predicate Linked(db: Db, node: Node, history: seq<Step>, maxRetries: nat)
    reads db, node
  {
    var now := Run(history, maxRetries);
    db.table == now.table && node.log == now.log && Consistent(db.table)
  }

  /** Others act on the table and the node. */
  method Meanwhile(db: Db, node: Node, history: seq<Step>, self: Self, others: seq<Step>, maxRetries: nat)
    returns (history': seq<Step>)
    requires Linked(db, node, history, maxRetries) && AllOthers(self, others)
    modifies db, node
    ensures history' == history + others && Linked(db, node, history', maxRetries) && old(node.log) <= node.log
    ensures SelfKept(self, Run(history, maxRetries), Run(history', maxRetries))
  {
    history' := history + others;
    OthersKeepSelf(self, history, others, maxRetries);
    LogGrows(history, others, maxRetries);
    db.table := Run(history', maxRetries).table;
    node.log := Run(history', maxRetries).log;
  }

  /** Worker `i` is `a` after the history. */
  ghost predicate IsAt(history: seq<Step>, maxRetries: nat, i: nat, a: Actor) {
    var now := Run(history, maxRetries);
    i < |now.actors| && now.actors[i] == a
  }

  /** While worker `i` is sending, the row of its key stays as it inserted it. */
  lemma RowOfSender(history: seq<Step>, maxRetries: nat, i: nat, a: Actor)
    requires IsAt(history, maxRetries, i, a) && Live(a.phase)
    ensures var rows := Run(history, maxRetries).table.rows;
      a.key in rows && rows[a.key] == Row(a.payment, Pending, 0)
  {
    RunKeepsInv(history, maxRetries);
    assert Claim(Run(history, maxRetries).table, Run(history, maxRetries).log, Run(history, maxRetries).actors[i]);
  }

  /** After a lost insert the row is there: the second look's way to the send is never taken. */
  lemma RowOfLoser(history: seq<Step>, maxRetries: nat, i: nat, a: Actor)
    requires IsAt(history, maxRetries, i, a)
    ensures a.phase == Rereading ==> a.key in Run(history, maxRetries).table.rows
  {
    RunKeepsInv(history, maxRetries);
    assert Claim(Run(history, maxRetries).table, Run(history, maxRetries).log, Run(history, maxRetries).actors[i]);
  }

  /** Between the two histories the key had a row, and `success` says whether it was one of a success. */
  ghost predicate SeenBetween(history: seq<Step>, history': seq<Step>, key: Key, success: bool, maxRetries: nat) {
    exists h :: SeenAt(h, key, success, maxRetries) && history <= h && h <= history'
  }

  ghost predicate SeenAt(h: seq<Step>, key: Key, success: bool, maxRetries: nat) {
    var rows := Run(h, maxRetries).table.rows;
    key in rows && success == (rows[key].status == Success)
  }

  lemma SeenLater(h0: seq<Step>, h1: seq<Step>, h2: seq<Step>, key: Key, success: bool, maxRetries: nat)
    requires h0 <= h1 && SeenBetween(h1, h2, key, success, maxRetries)
    ensures SeenBetween(h0, h2, key, success, maxRetries)
  {
    var h :| SeenAt(h, key, success, maxRetries) && h1 <= h && h <= h2;
    assert h0 <= h;
  }

  // Each call of a handler is one step of its actor `a`, after whatever others did before it.

  /** SELECT by key: the first look, and the second one after a lost insert. */
  method Look(db: Db, node: Node, a: Actor, i: nat, others: seq<Step>, fault: Fault,
              history: seq<Step>, maxRetries: nat)
    returns (history': seq<Step>, next: Actor)
    requires Linked(db, node, history, maxRetries) && IsAt(history, maxRetries, i, a) && AllOthers(Worker(i), others)
    requires a.kind == Rpc && (a.phase == Checking || a.phase == Rereading)
    modifies db, node
    ensures Linked(db, node, history', maxRetries) && IsAt(history', maxRetries, i, next) && history <= history'
    ensures history' == history + others + [Act(i, fault, Lost)]
    ensures db.table == Run(history + others, maxRetries).table && node.log == Run(history + others, maxRetries).log
    ensures next == a.(phase :=
      if fault != NoFault then Finished(ServerError)
      else if a.key in db.table.rows then Finished(Answer(db.table.rows[a.key].status == Success)) else Inserting)
    ensures a.phase == Rereading ==> a.key in db.table.rows
    ensures a.key in db.table.rows && fault == NoFault ==>
      SeenBetween(history, history', a.key, db.table.rows[a.key].status == Success, maxRetries)
    ensures old(node.log) <= node.log
  {
    history' := Meanwhile(db, node, history, Worker(i), others, maxRetries);
    RowOfLoser(history', maxRetries, i, a);
    var existing := db.GetDisbursementByKey(a.key, fault);
    RunSnoc(history', Act(i, fault, Lost), maxRetries);
    history' := history' + [Act(i, fault, Lost)];
    assert a.key in db.table.rows ==>
      SeenAt(history + others, a.key, db.table.rows[a.key].status == Success, maxRetries);
    if existing.DbError? {
      next := a.(phase := Finished(ServerError));
    } else if a.key in existing.value {
      next := a.(phase := Finished(Answer(existing.value[a.key].status == Success)));
    } else {
      next := a.(phase := if a.phase == Checking then Inserting else Sending);
    }
  }

  /** INSERT: who finds the key taken looks again, or, as a spawned payout, stops. */
  method Insert(db: Db, node: Node, a: Actor, i: nat, others: seq<Step>, fault: Fault,
                history: seq<Step>, maxRetries: nat)
    returns (history': seq<Step>, next: Actor)
    requires Linked(db, node, history, maxRetries) && IsAt(history, maxRetries, i, a) && AllOthers(Worker(i), others)
    requires a.phase == Inserting
    modifies db, node
    ensures Linked(db, node, history', maxRetries) && IsAt(history', maxRetries, i, next) && history <= history'
    ensures history' == history + others + [Act(i, fault, Lost)] && node.log == Run(history + others, maxRetries).log
    ensures old(node.log) <= node.log
    ensures var found := Run(history + others, maxRetries).table.rows;
      && next == a.(phase := if fault == NoFault && a.key !in found then Sending
                             else if a.kind == Task then Finished(NoReply)
                             else if fault != NoFault then Finished(ServerError) else Rereading)
      && db.table.rows ==
           if fault == Refused || a.key in found then found else found[a.key := Row(a.payment, Pending, 0)]
  {
    history' := Meanwhile(db, node, history, Worker(i), others, maxRetries);
    var inserted := db.InsertDisbursement(a.key, a.payment, fault);
    RunSnoc(history', Act(i, fault, Lost), maxRetries);
    history' := history' + [Act(i, fault, Lost)];
    if inserted.DbError? {
      next := a.(phase := Finished(if a.kind == Rpc then ServerError else NoReply));
    } else if inserted.value {
      next := a.(phase := Sending);
    } else if a.kind == Rpc {
      next := a.(phase := Rereading);
    } else {
      next := a.(phase := Finished(NoReply));
    }
  }

  method Transmit(db: Db, node: Node, a: Actor, i: nat, others: seq<Step>, history: seq<Step>, maxRetries: nat)
    returns (history': seq<Step>, next: Actor)
    requires Linked(db, node, history, maxRetries) && IsAt(history, maxRetries, i, a) && AllOthers(Worker(i), others)
    requires a.phase == Sending
    modifies db, node
    ensures Linked(db, node, history', maxRetries) && IsAt(history', maxRetries, i, next) && history <= history'
    ensures next == a.(phase := InFlight) && history' == history + others + [Act(i, NoFault, Lost)]
    ensures db.table == Run(history + others, maxRetries).table
    ensures node.log == Run(history + others, maxRetries).log + [Sent(a.key, a.payment)]
    ensures Since(old(node.log), node.log, Sent(a.key, a.payment))
  {
    history' := Meanwhile(db, node, history, Worker(i), others, maxRetries);
    SinceLast(old(node.log), node.log, Sent(a.key, a.payment));
    node.Receive(a.key, a.payment);
    RunSnoc(history', Act(i, NoFault, Lost), maxRetries);
    history' := history' + [Act(i, NoFault, Lost)];
    next := a.(phase := InFlight);
  }

  /** A lost answer ends a call with an error, and counts as a failure for a spawned payout. */
  method Await(db: Db, node: Node, a: Actor, i: nat, others: seq<Step>, reply: NodeReply,
               history: seq<Step>, maxRetries: nat)
    returns (history': seq<Step>, next: Actor)
    requires Linked(db, node, history, maxRetries) && IsAt(history, maxRetries, i, a) && AllOthers(Worker(i), others)
    requires a.phase == InFlight
    modifies db, node
    ensures Linked(db, node, history', maxRetries) && IsAt(history', maxRetries, i, next) && history <= history'
    ensures next == if reply == Lost && a.kind == Rpc then a.(phase := Finished(ServerError))
                    else a.(phase := Recording(reply == Accepted))
    ensures history' == history + others + [Act(i, NoFault, reply)]
    ensures db.table == Run(history + others, maxRetries).table
    ensures node.log == Run(history + others, maxRetries).log + if reply == Accepted then [Paid(a.key)] else []
    ensures old(node.log) <= node.log && (reply == Accepted ==> Since(old(node.log), node.log, Paid(a.key)))
    ensures a.key in db.table.rows && db.table.rows[a.key] == Row(a.payment, Pending, 0)
  {
    history' := Meanwhile(db, node, history, Worker(i), others, maxRetries);
    SinceLast(old(node.log), node.log, Paid(a.key));
    RowOfSender(history', maxRetries, i, a);
    node.Respond(a.key, reply);
    RunSnoc(history', Act(i, NoFault, reply), maxRetries);
    history' := history' + [Act(i, NoFault, reply)];
    next := if reply == Lost && a.kind == Rpc then a.(phase := Finished(ServerError))
            else a.(phase := Recording(reply == Accepted));
  }

  /** The result of the recording itself is ignored. */
  method Record(db: Db, node: Node, a: Actor, i: nat, others: seq<Step>, fault: Fault,
                history: seq<Step>, maxRetries: nat)
    returns (history': seq<Step>, next: Actor)
    requires Linked(db, node, history, maxRetries) && IsAt(history, maxRetries, i, a) && AllOthers(Worker(i), others)
    requires a.phase.Recording?
    modifies db, node
    ensures Linked(db, node, history', maxRetries) && IsAt(history', maxRetries, i, next) && history <= history'
    ensures next == a.(phase := Finished(if a.kind == Rpc then Answer(a.phase.success) else NoReply))
    ensures history' == history + others + [Act(i, fault, Lost)] && old(node.log) <= node.log
    ensures node.log == Run(history + others, maxRetries).log
    ensures db.table.rows == Run(history + others, maxRetries).table.rows[a.key :=
      Row(a.payment, if fault == Refused then Pending else if a.phase.success then Success else Failed, 0)]
  {
    history' := Meanwhile(db, node, history, Worker(i), others, maxRetries);
    RowOfSender(history', maxRetries, i, a);
    var noted := db.CompleteDisbursement(a.key, a.phase.success, fault);
    RunSnoc(history', Act(i, fault, Lost), maxRetries);
    history' := history' + [Act(i, fault, Lost)];
    next := a.(phase := Finished(if a.kind == Rpc then Answer(a.phase.success) else NoReply));
  }

  /** A payment was sent, and the row of its key has the node's answer. */
  ghost predicate PaidOut(kind: Kind, key: Key, payment: Payment, reply: NodeReply, recording: Fault,
                          log0: seq<Event>, log: seq<Event>, rows: map<Key, Row>)
  {
    && Since(log0, log, Sent(key, payment)) && (reply == Accepted ==> Since(log0, log, Paid(key)))
    && key in rows
    && rows[key] == Row(payment, if recording == Refused || (reply == Lost && kind == Rpc) then Pending
                                 else if reply == Accepted then Success else Failed, 0)
  }

  lemma PaidSince(kind: Kind, key: Key, payment: Payment, reply: NodeReply, recording: Fault, log0: seq<Event>,
                  log1: seq<Event>, log: seq<Event>, rows: map<Key, Row>)
    requires log0 <= log1 && PaidOut(kind, key, payment, reply, recording, log1, log, rows)
    ensures PaidOut(kind, key, payment, reply, recording, log0, log, rows)
  {
    SinceStays(log0, log1, log, log, Sent(key, payment));
    if reply == Accepted {
      SinceStays(log0, log1, log, log, Paid(key));
    }
  }

  /** The send, from the decision to the recording: the same for a call and a spawned payout. */
  method Pay(db: Db, node: Node, a: Actor, i: nat, others: nat -> seq<Step>, first: nat, reply: NodeReply,
             recording: Fault, history: seq<Step>, maxRetries: nat)
    returns (history': seq<Step>, next: Actor)
    requires Linked(db, node, history, maxRetries) && IsAt(history, maxRetries, i, a) && a.phase == Sending
    requires forall n :: AllOthers(Worker(i), others(n))
    modifies db, node
    ensures Linked(db, node, history', maxRetries) && IsAt(history', maxRetries, i, next) && history <= history'
    ensures next == a.(phase := Finished(if a.kind == Task then NoReply else if reply == Lost then ServerError
                                         else Answer(reply == Accepted)))
    ensures PaidOut(a.kind, a.key, a.payment, reply, recording, old(node.log), node.log, db.table.rows)
  {
    ghost var log0 := node.log;
    history', next := Transmit(db, node, a, i, others(first), history, maxRetries);
    ghost var log1 := node.log;
    history', next := Await(db, node, next, i, others(first + 1), reply, history', maxRetries);
    ghost var log2 := node.log;
    if next.phase.Recording? {
      history', next := Record(db, node, next, i, others(first + 2), recording, history', maxRetries);
    }
    SinceStays(log0, log0, log1, node.log, Sent(a.key, a.payment));
    if reply == Accepted {
      SinceStays(log0, log1, log2, node.log, Paid(a.key));
    }
  }

  /** The history right before the (n + 1)-th call of worker `i`, if none of its calls failed. */
  ghost function Before(history: seq<Step>, i: nat, others: nat -> seq<Step>, n: nat): seq<Step> {
    if n == 0 then history + others(0)
    else Before(history, i, others, n - 1) + [Act(i, NoFault, Lost)] + others(n)
  }

  /** The rows that this call finds. */
  ghost function RowsAt(history: seq<Step>, i: nat, others: nat -> seq<Step>, n: nat, maxRetries: nat): map<Key, Row> {
    Run(Before(history, i, others, n), maxRetries).table.rows
  }

  /** What the checks come to, by the rows that each of them found. */
  ghost predicate Decided(key: Key, faults: nat -> Fault, first: map<Key, Row>, second: map<Key, Row>,
                          third: map<Key, Row>, end: Phase)
  {
    if faults(0) != NoFault then end == Finished(ServerError)
    else if key in first then end == Finished(Answer(first[key].status == Success))
    else if faults(1) != NoFault then end == Finished(ServerError)
    else if key !in second then end == Sending
    else if faults(2) != NoFault then end == Finished(ServerError)
    else key in third && end == Finished(Answer(third[key].status == Success))
  }

  /** The checks of a call before its send: only the inserter of the row gets to send. */
  method Decide(db: Db, node: Node, a: Actor, i: nat, faults: nat -> Fault, others: nat -> seq<Step>,
                history: seq<Step>, maxRetries: nat)
    returns (history': seq<Step>, next: Actor)
    requires Linked(db, node, history, maxRetries) && IsAt(history, maxRetries, i, a)
    requires a.kind == Rpc && a.phase == Checking && forall n :: AllOthers(Worker(i), others(n))
    modifies db, node
    ensures Linked(db, node, history', maxRetries) && IsAt(history', maxRetries, i, next) && history <= history'
    ensures next.phase.Finished? && next.phase.reply.Answer? ==>
      SeenBetween(history, history', a.key, next.phase.reply.success, maxRetries)
    ensures old(node.log) <= node.log
    ensures Decided(a.key, faults, RowsAt(history, i, others, 0, maxRetries), RowsAt(history, i, others, 1, maxRetries),
                    RowsAt(history, i, others, 2, maxRetries), next.phase) && next == a.(phase := next.phase)
  {
    history', next := Look(db, node, a, i, others(0), faults(0), history, maxRetries);
    if next.phase == Inserting {
      history', next := Insert(db, node, next, i, others(1), faults(1), history', maxRetries);
      ghost var inserted := history';
      if next.phase == Rereading {
        history', next := Look(db, node, next, i, others(2), faults(2), history', maxRetries);
        if next.phase.reply.Answer? {
          SeenLater(history, inserted, history', a.key, next.phase.reply.success, maxRetries);
        }
      }
    }
  }

  /** The answer of a call, by the rows it found and the node's answer to its own send. */
  ghost predicate ToldAs(key: Key, faults: nat -> Fault, first: map<Key, Row>, second: map<Key, Row>,
                         third: map<Key, Row>, reply: NodeReply, answer: Reply)
  {
    if faults(0) != NoFault then answer == ServerError
    else if key in first then answer == Answer(first[key].status == Success)
    else if faults(1) != NoFault then answer == ServerError
    else if key !in second then answer == if reply == Lost then ServerError else Answer(reply == Accepted)
    else if faults(2) != NoFault then answer == ServerError
    else key in third && answer == Answer(third[key].status == Success)
  }

  lemma Started(history: seq<Step>, kind: Kind, key: Key, payment: Payment, maxRetries: nat)
    ensures var s, s' := Run(history, maxRetries), Run(history + [Start(kind, key, payment)], maxRetries);
      s' == s.(actors := s.actors + [Actor(kind, key, payment, if kind == Rpc then Checking else Inserting)])
  {
    RunSnoc(history, Start(kind, key, payment), maxRetries);
  }

  /** A call from its first look to its reply. */
  method Serve(db: Db, node: Node, a: Actor, i: nat, faults: nat -> Fault, others: nat -> seq<Step>, reply: NodeReply,
               history: seq<Step>, maxRetries: nat)
    returns (history': seq<Step>, answer: Reply)
    requires Linked(db, node, history, maxRetries) && IsAt(history, maxRetries, i, a)
    requires a.kind == Rpc && a.phase == Checking && forall n :: AllOthers(Worker(i), others(n))
    modifies db, node
    ensures Linked(db, node, history', maxRetries) && history <= history' && old(node.log) <= node.log
    ensures IsAt(history', maxRetries, i, a.(phase := Finished(answer)))
    ensures answer.Answer? ==>
      || SeenBetween(history, history', a.key, answer.success, maxRetries)
      || (Since(old(node.log), node.log, Sent(a.key, a.payment)) && answer.success == (reply == Accepted))
    ensures var first, second := RowsAt(history, i, others, 0, maxRetries), RowsAt(history, i, others, 1, maxRetries);
      && ToldAs(a.key, faults, first, second, RowsAt(history, i, others, 2, maxRetries), reply, answer)
      && (faults(0) == NoFault && a.key !in first && faults(1) == NoFault && a.key !in second ==>
            PaidOut(Rpc, a.key, a.payment, reply, faults(3), old(node.log), node.log, db.table.rows))
  {
    var next;
    history', next := Decide(db, node, a, i, faults, others, history, maxRetries);
    if next.phase == Sending {
      ghost var log := node.log;
      history', next := Pay(db, node, next, i, others, 3, reply, faults(3), history', maxRetries);
      PaidSince(Rpc, a.key, a.payment, reply, faults(3), old(node.log), log, node.log, db.table.rows);
    }
    answer := next.phase.reply;
  }

  /** The `disburse` call from its key to its reply, interrupted before every call it makes. */
  method Disburse(db: Db, node: Node, key: Key, payment: Payment, faults: nat -> Fault, others: nat -> seq<Step>,
                  reply: NodeReply, history: seq<Step>, maxRetries: nat)
    returns (history': seq<Step>, answer: Reply)
    requires Linked(db, node, history, maxRetries)
    requires forall n :: AllOthers(Worker(|Run(history, maxRetries).actors|), others(n))
    modifies db, node
    ensures Linked(db, node, history', maxRetries) && history <= history'
    ensures IsAt(history', maxRetries, |Run(history, maxRetries).actors|, Actor(Rpc, key, payment, Finished(answer)))
    ensures answer.Answer? ==>
      || SeenBetween(history, history', key, answer.success, maxRetries)
      || (Since(old(node.log), node.log, Sent(key, payment)) && answer.success == (reply == Accepted))
    ensures answer == Answer(true) ==> Paid(key) in node.log && key in db.table.rows
    ensures answer == Answer(true) ==> (Sent(key, payment) in node.log <==> db.table.rows[key].payment == payment)
    ensures var i, begun := |Run(history, maxRetries).actors|, history + [Start(Rpc, key, payment)];
      var first, second := RowsAt(begun, i, others, 0, maxRetries), RowsAt(begun, i, others, 1, maxRetries);
      && ToldAs(key, faults, first, second, RowsAt(begun, i, others, 2, maxRetries), reply, answer)
      && (faults(0) == NoFault && key !in first && faults(1) == NoFault && key !in second ==>
            PaidOut(Rpc, key, payment, reply, faults(3), old(node.log), node.log, db.table.rows))
  {
    var i := |Run(history, maxRetries).actors|;
    Started(history, Rpc, key, payment, maxRetries);
    history' := history + [Start(Rpc, key, payment)];
    var a := Actor(Rpc, key, payment, Checking);
    history', answer := Serve(db, node, a, i, faults, others, reply, history', maxRetries);
    if answer.Answer? && SeenBetween(history + [Start(Rpc, key, payment)], history', key, answer.success, maxRetries) {
      SeenLater(history, history + [Start(Rpc, key, payment)], history', key, answer.success, maxRetries);
    }
    AtMostOncePayout(history', maxRetries);
    if answer == Answer(true) {
      SuccessIsOwnIff(history', maxRetries, i);
    }
  }

  /** The payout spawned for a contribution: insert, and only the inserter sends. */
  method SpawnedPayout(db: Db, node: Node, key: Key, payment: Payment, faults: nat -> Fault, others: nat -> seq<Step>,
                       reply: NodeReply, history: seq<Step>, maxRetries: nat)
    returns (history': seq<Step>)
    requires Linked(db, node, history, maxRetries)
    requires forall n :: AllOthers(Worker(|Run(history, maxRetries).actors|), others(n))
    modifies db, node
    ensures Linked(db, node, history', maxRetries) && history <= history'
    ensures IsAt(history', maxRetries, |Run(history, maxRetries).actors|, Actor(Task, key, payment, Finished(NoReply)))
    ensures var i, begun := |Run(history, maxRetries).actors|, history + [Start(Task, key, payment)];
      faults(0) == NoFault && key !in RowsAt(begun, i, others, 0, maxRetries) ==>
        PaidOut(Task, key, payment, reply, faults(1), old(node.log), node.log, db.table.rows)
  {
    var i := |Run(history, maxRetries).actors|;
    Started(history, Task, key, payment, maxRetries);
    history' := history + [Start(Task, key, payment)];
    var a := Actor(Task, key, payment, Inserting);
    history', a := Insert(db, node, a, i, others(0), faults(0), history', maxRetries);
    if a.phase == Sending {
      ghost var log := node.log;
      history', a := Pay(db, node, a, i, others, 1, reply, faults(1), history', maxRetries);
      PaidSince(Task, key, payment, reply, faults(1), old(node.log), log, node.log, db.table.rows);
    }
  }

  // ---- The retry loop ----

  /** The retry task is at `r` after the history. */
  ghost predicate RetryIs(history: seq<Step>, maxRetries: nat, r: Retry) {
    Run(history, maxRetries).retry == r
  }

  /** A row about to be marked is a failed one with retries left, and the row of a resend in
      progress is pending. */
  lemma RowOfRetry(history: seq<Step>, maxRetries: nat, batch: seq<(Key, Payment)>, at: RetryPhase)
    requires batch != [] && RetryIs(history, maxRetries, Working(batch, at))
    ensures var rows := Run(history, maxRetries).table.rows;
      && batch[0].0 in rows
      && rows[batch[0].0] == Row(batch[0].1, if at == Marking then Failed else Pending, rows[batch[0].0].retries)
      && (at == Marking ==> rows[batch[0].0].retries < maxRetries)
  {
    RunKeepsInv(history, maxRetries);
  }

  /** A failed row is pending again, with one more retry. */
  ghost predicate MarkedRow(key: Key, payment: Payment, marking: Fault, found: map<Key, Row>, rows: map<Key, Row>) {
    && key in found && found[key] == Row(payment, Failed, found[key].retries)
    && rows == if marking == Refused then found else found[key := Row(payment, Pending, found[key].retries + 1)]
  }

  /** A pending row has its outcome. */
  ghost predicate NotedRow(key: Key, payment: Payment, success: bool, recording: Fault, found: map<Key, Row>,
                           rows: map<Key, Row>)
  {
    && key in found && found[key] == Row(payment, Pending, found[key].retries)
    && rows == if recording == Refused then found
               else found[key := Row(payment, if success then Success else Failed, found[key].retries)]
  }

  // Each statement of the loop is one step of the retry task, after whatever others did before it.

  method Mark(db: Db, node: Node, batch: seq<(Key, Payment)>, others: seq<Step>, marking: Fault,
              history: seq<Step>, maxRetries: nat)
    returns (history': seq<Step>)
    requires Linked(db, node, history, maxRetries) && AllOthers(Retrier, others)
    requires batch != [] && RetryIs(history, maxRetries, Working(batch, Marking))
    modifies db, node
    ensures Linked(db, node, history', maxRetries) && history <= history' && old(node.log) <= node.log
    ensures RetryIs(history', maxRetries, if marking == NoFault then Working(batch, Resending) else NextRow(batch))
    ensures history' == history + others + [RetryStep(marking, Lost)]
    ensures node.log == Run(history + others, maxRetries).log
    ensures MarkedRow(batch[0].0, batch[0].1, marking, Run(history + others, maxRetries).table.rows, db.table.rows)
  {
    history' := Meanwhile(db, node, history, Retrier, others, maxRetries);
    RowOfRetry(history', maxRetries, batch, Marking);
    var marked := db.MarkDisbursementRetrying(batch[0].0, marking);
    RunSnoc(history', RetryStep(marking, Lost), maxRetries);
    history' := history' + [RetryStep(marking, Lost)];
  }

  method SendAgain(db: Db, node: Node, batch: seq<(Key, Payment)>, others: seq<Step>,
                   history: seq<Step>, maxRetries: nat)
    returns (history': seq<Step>)
    requires Linked(db, node, history, maxRetries) && AllOthers(Retrier, others)
    requires batch != [] && RetryIs(history, maxRetries, Working(batch, Resending))
    modifies db, node
    ensures Linked(db, node, history', maxRetries) && history <= history' && old(node.log) <= node.log
    ensures RetryIs(history', maxRetries, Working(batch, Awaiting))
    ensures Since(old(node.log), node.log, Sent(batch[0].0, batch[0].1))
    ensures history' == history + others + [RetryStep(NoFault, Lost)]
    ensures db.table == Run(history + others, maxRetries).table
    ensures node.log == Run(history + others, maxRetries).log + [Sent(batch[0].0, batch[0].1)]
  {
    history' := Meanwhile(db, node, history, Retrier, others, maxRetries);
    SinceLast(old(node.log), node.log, Sent(batch[0].0, batch[0].1));
    node.Receive(batch[0].0, batch[0].1);
    RunSnoc(history', RetryStep(NoFault, Lost), maxRetries);
    history' := history' + [RetryStep(NoFault, Lost)];
  }

  /** No answer counts as a failure. */
  method AwaitAgain(db: Db, node: Node, batch: seq<(Key, Payment)>, others: seq<Step>, reply: NodeReply,
                    history: seq<Step>, maxRetries: nat)
    returns (history': seq<Step>)
    requires Linked(db, node, history, maxRetries) && AllOthers(Retrier, others)
    requires batch != [] && RetryIs(history, maxRetries, Working(batch, Awaiting))
    modifies db, node
    ensures Linked(db, node, history', maxRetries) && history <= history' && old(node.log) <= node.log
    ensures RetryIs(history', maxRetries, Working(batch, Noting(reply == Accepted)))
    ensures reply == Accepted ==> Since(old(node.log), node.log, Paid(batch[0].0))
    ensures history' == history + others + [RetryStep(NoFault, reply)]
    ensures db.table == Run(history + others, maxRetries).table
    ensures node.log == Run(history + others, maxRetries).log + if reply == Accepted then [Paid(batch[0].0)] else []
  {
    history' := Meanwhile(db, node, history, Retrier, others, maxRetries);
    SinceLast(old(node.log), node.log, Paid(batch[0].0));
    node.Respond(batch[0].0, reply);
    RunSnoc(history', RetryStep(NoFault, reply), maxRetries);
    history' := history' + [RetryStep(NoFault, reply)];
  }

  method Note(db: Db, node: Node, batch: seq<(Key, Payment)>, others: seq<Step>, success: bool, recording: Fault,
              history: seq<Step>, maxRetries: nat)
    returns (history': seq<Step>)
    requires Linked(db, node, history, maxRetries) && AllOthers(Retrier, others)
    requires batch != [] && RetryIs(history, maxRetries, Working(batch, Noting(success)))
    modifies db, node
    ensures Linked(db, node, history', maxRetries) && history <= history' && old(node.log) <= node.log
    ensures RetryIs(history', maxRetries, NextRow(batch))
    ensures history' == history + others + [RetryStep(recording, Lost)]
    ensures node.log == Run(history + others, maxRetries).log
    ensures NotedRow(batch[0].0, batch[0].1, success, recording, Run(history + others, maxRetries).table.rows,
                     db.table.rows)
  {
    history' := Meanwhile(db, node, history, Retrier, others, maxRetries);
    RowOfRetry(history', maxRetries, batch, Noting(success));
    var noted := db.CompleteDisbursement(batch[0].0, success, recording);
    RunSnoc(history', RetryStep(recording, Lost), maxRetries);
    history' := history' + [RetryStep(recording, Lost)];
  }

  /** Marks the row and, unless that fails, sends its payment. */
  method Resend(db: Db, node: Node, batch: seq<(Key, Payment)>, others: nat -> seq<Step>, first: nat, marking: Fault,
                history: seq<Step>, maxRetries: nat)
    returns (history': seq<Step>, sent: bool)
    requires Linked(db, node, history, maxRetries) && forall n :: AllOthers(Retrier, others(n))
    requires batch != [] && RetryIs(history, maxRetries, Working(batch, Marking))
    modifies db, node
    ensures Linked(db, node, history', maxRetries) && history <= history' && old(node.log) <= node.log
    ensures RetryIs(history', maxRetries, if sent then Working(batch, Awaiting) else NextRow(batch))
    ensures sent == (marking == NoFault)
    ensures sent ==> Since(old(node.log), node.log, Sent(batch[0].0, batch[0].1))
    ensures !sent ==> history' == history + others(first) + [RetryStep(marking, Lost)]
  {
    history' := Mark(db, node, batch, others(first), marking, history, maxRetries);
    sent := marking == NoFault;
    if sent {
      ghost var log0, log1 := old(node.log), node.log;
      history' := SendAgain(db, node, batch, others(first + 1), history', maxRetries);
      SinceStays(log0, log1, node.log, node.log, Sent(batch[0].0, batch[0].1));
    }
  }

  /** The row of a concluded resend. */
  ghost predicate Outcome(rows: map<Key, Row>, row: (Key, Payment), reply: NodeReply, recording: Fault) {
    row.0 in rows && rows[row.0].payment == row.1
    && rows[row.0].status == if recording == Refused then Pending else if reply == Accepted then Success else Failed
  }

  /** Takes the node's answer and records it; no answer counts as a failure. */
  method Conclude(db: Db, node: Node, batch: seq<(Key, Payment)>, others: nat -> seq<Step>, first: nat,
                  reply: NodeReply, recording: Fault, history: seq<Step>, maxRetries: nat)
    returns (history': seq<Step>)
    requires Linked(db, node, history, maxRetries) && forall n :: AllOthers(Retrier, others(n))
    requires batch != [] && RetryIs(history, maxRetries, Working(batch, Awaiting))
    modifies db, node
    ensures Linked(db, node, history', maxRetries) && history <= history' && old(node.log) <= node.log
    ensures RetryIs(history', maxRetries, NextRow(batch))
    ensures reply == Accepted ==> Since(old(node.log), node.log, Paid(batch[0].0))
    ensures Outcome(db.table.rows, batch[0], reply, recording)
  {
    history' := AwaitAgain(db, node, batch, others(first), reply, history, maxRetries);
    ghost var log0, log1 := old(node.log), node.log;
    history' := Note(db, node, batch, others(first + 1), reply == Accepted, recording, history', maxRetries);
    if reply == Accepted {
      SinceStays(log0, log0, log1, node.log, Paid(batch[0].0));
    }
  }

  /** One row of the batch, from its mark to its outcome. */
  method RetryRow(db: Db, node: Node, batch: seq<(Key, Payment)>, others: nat -> seq<Step>, first: nat, marking: Fault,
                  reply: NodeReply, recording: Fault, history: seq<Step>, maxRetries: nat)
    returns (history': seq<Step>)
    requires Linked(db, node, history, maxRetries) && forall n :: AllOthers(Retrier, others(n))
    requires batch != [] && RetryIs(history, maxRetries, Working(batch, Marking))
    modifies db, node
    ensures Linked(db, node, history', maxRetries) && history <= history'
    ensures RetryIs(history', maxRetries, NextRow(batch)) && old(node.log) <= node.log
    ensures Retried(batch[0], marking, reply, old(node.log), node.log)
    ensures if marking == NoFault then Outcome(db.table.rows, batch[0], reply, recording)
            else history' == history + others(first) + [RetryStep(marking, Lost)]
  {
    var sent;
    history', sent := Resend(db, node, batch, others, first, marking, history, maxRetries);
    if sent {
      ghost var resent := node.log;
      history' := Conclude(db, node, batch, others, first + 2, reply, recording, history', maxRetries);
      SinceStays(old(node.log), old(node.log), resent, node.log, Sent(batch[0].0, batch[0].1));
      if reply == Accepted {
        SinceStays(old(node.log), resent, node.log, node.log, Paid(batch[0].0));
      }
    }
  }

  /** A row that could be marked was sent again since, and paid if the node says so. */
  ghost predicate Retried(row: (Key, Payment), marking: Fault, reply: NodeReply, log0: seq<Event>, log: seq<Event>) {
    marking == NoFault ==> Since(log0, log, Sent(row.0, row.1)) && (reply == Accepted ==> Since(log0, log, Paid(row.0)))
  }

  lemma RetriedStays(row: (Key, Payment), marking: Fault, reply: NodeReply, log0: seq<Event>, log1: seq<Event>,
                     log2: seq<Event>, log3: seq<Event>)
    requires log0 <= log1 && Retried(row, marking, reply, log1, log2) && log2 <= log3
    ensures Retried(row, marking, reply, log0, log3)
  {
    if marking == NoFault {
      SinceStays(log0, log1, log2, log3, Sent(row.0, row.1));
      if reply == Accepted {
        SinceStays(log0, log1, log2, log3, Paid(row.0));
      }
    }
  }

  ghost predicate AllRetried(rows: seq<(Key, Payment)>, n: nat, marking: nat -> Fault, replies: nat -> NodeReply,
                             log0: seq<Event>, log: seq<Event>)
  {
    n <= |rows| && log0 <= log && forall k: nat :: k < n ==> Retried(rows[k], marking(k), replies(k), log0, log)
  }

  lemma AllRetriedStep(rows: seq<(Key, Payment)>, n: nat, marking: nat -> Fault, replies: nat -> NodeReply,
                       log0: seq<Event>, log1: seq<Event>, log2: seq<Event>)
    requires AllRetried(rows, n, marking, replies, log0, log1) && n < |rows| && log1 <= log2
    requires Retried(rows[n], marking(n), replies(n), log1, log2)
    ensures AllRetried(rows, n + 1, marking, replies, log0, log2)
  {
    forall k: nat | k < n + 1 ensures Retried(rows[k], marking(k), replies(k), log0, log2) {
      if k < n {
        RetriedStays(rows[k], marking(k), replies(k), log0, log0, log1, log2);
      } else {
        RetriedStays(rows[k], marking(k), replies(k), log0, log1, log2, log2);
      }
    }
  }

  lemma NextOfRest(rows: seq<(Key, Payment)>, n: nat)
    requires n < |rows|
    ensures rows[n..] != []
    ensures NextRow(rows[n..]) == if n + 1 < |rows| then Working(rows[n + 1..], Marking) else Idle
  {
    assert n + 1 < |rows| ==> rows[n..][1..] == rows[n + 1..];
  }

  /** The query of a round. */
  method ReadBatch(db: Db, node: Node, query: Fault, others: seq<Step>, history: seq<Step>, maxRetries: nat)
    returns (history': seq<Step>, rows: seq<(Key, Payment)>)
    requires Linked(db, node, history, maxRetries) && AllOthers(Retrier, others) && RetryIs(history, maxRetries, Idle)
    modifies db, node
    ensures Linked(db, node, history', maxRetries) && history <= history' && old(node.log) <= node.log
    ensures RetryIs(history', maxRetries, if rows == [] then Idle else Working(rows, Marking))
    ensures rows == if query == NoFault then FailedBatch(Run(history + others, maxRetries).table, maxRetries) else []
  {
    history' := Meanwhile(db, node, history, Retrier, others, maxRetries);
    var failed := db.GetFailedDisbursementsForRetry(maxRetries, query);
    RunSnoc(history', RetryStep(query, Lost), maxRetries);
    history' := history' + [RetryStep(query, Lost)];
    rows := if failed.DbError? then [] else failed.value;
  }

  /** One round of the loop: read a batch, then retry its rows one after another. */
  method RetryRound(db: Db, node: Node, query: Fault, marking: nat -> Fault, replies: nat -> NodeReply,
                    recording: nat -> Fault, others: nat -> seq<Step>, history: seq<Step>, maxRetries: nat)
    returns (history': seq<Step>, rows: seq<(Key, Payment)>)
    requires Linked(db, node, history, maxRetries) && forall n :: AllOthers(Retrier, others(n))
    requires RetryIs(history, maxRetries, Idle)
    modifies db, node
    ensures Linked(db, node, history', maxRetries) && history <= history'
    ensures RetryIs(history', maxRetries, Idle)
    ensures rows ==
      if query == NoFault then FailedBatch(Run(history + others(0), maxRetries).table, maxRetries) else []
    ensures AllRetried(rows, |rows|, marking, replies, old(node.log), node.log)
  {
    history', rows := ReadBatch(db, node, query, others(0), history, maxRetries);
    if rows == [] {
      return;
    }
    ghost var log0 := old(node.log);
    for n := 0 to |rows|
      invariant Linked(db, node, history', maxRetries) && history <= history'
      invariant RetryIs(history', maxRetries, if n < |rows| then Working(rows[n..], Marking) else Idle)
      invariant AllRetried(rows, n, marking, replies, log0, node.log)
    {
      NextOfRest(rows, n);
      ghost var log1 := node.log;
      history' := RetryRow(db, node, rows[n..], others, 4 * n + 1, marking(n), replies(n), recording(n),
                           history', maxRetries);
      AllRetriedStep(rows, n, marking, replies, log0, log1, node.log);
    }
  }

  /** Whatever the handlers and the retry loop were interrupted by, the node's log and the
      table satisfy the protocol's guarantees. */
  lemma HandlersAreSafe(db: Db, node: Node, history: seq<Step>, maxRetries: nat, key: Key)
    requires Linked(db, node, history, maxRetries)
    ensures Payouts(node.log, key) <= 1 && Sends(node.log, key) <= 1 + maxRetries && NoSendAfterPayout(node.log)
    ensures key in db.table.rows && db.table.rows[key].status == Success ==> Paid(key) in node.log
    ensures key in db.table.rows && db.table.rows[key].status == Failed ==> Paid(key) !in node.log
  {
    AtMostOncePayout(history, maxRetries);
  }
}
