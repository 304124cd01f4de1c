/** The price of at-most-once: payouts that nobody works on any more. Which steps abandon a
    payout, exactly; that it then stays pending for ever; and which of them were paid.
 */
module Abandonment {
  import opened DisbursementDb
  import opened Disbursement

  /** A pending row that no actor is working on. */
  ghost predicate Abandoned(s: System, key: Key) {
    && key in s.table.rows
    && s.table.rows[key].status == Pending
    && (forall i :: !ActorHolds(s, i, key))
    && !RetryHolds(s, key)
  }

  /** The step leaves the row of the key and whoever has it in hand. */
  ghost predicate Untouched(s: System, s': System, key: Key) {
    && (key in s.table.rows <==> key in s'.table.rows)
    && (key in s.table.rows ==> s'.table.rows[key] == s.table.rows[key])
    && (forall i: nat :: ActorHolds(s', i, key) <==> ActorHolds(s, i, key))
    && (RetryHolds(s', key) <==> RetryHolds(s, key))
  }

  lemma UntouchedStays(s: System, s': System, key: Key)
    requires Untouched(s, s', key)
    ensures Abandoned(s', key) <==> Abandoned(s, key)
  {
  }

  /** The actor has nothing in hand and will not insert the row of its key. */
  predicate IdleOn(s: System, a: Actor) {
    !Live(a.phase) && (a.phase.Inserting? ==> a.key in s.table.rows)
  }

  /** A step of an actor with another key, or of an idle one. */
  lemma ActTouchesOwn(s: System, i: nat, fault: Fault, reply: NodeReply, key: Key)
    requires i < |s.actors| && (s.actors[i].phase.Rereading? ==> s.actors[i].key in s.table.rows)
    requires s.actors[i].key == key ==> IdleOn(s, s.actors[i])
    ensures var s' := ActorStep(s, i, fault, reply);
      && |s'.actors| == |s.actors| && s'.actors == s.actors[i := s'.actors[i]] && s'.retry == s.retry
      && (ActorHolds(s', i, key) <==> ActorHolds(s, i, key))
      && (key in s.table.rows <==> key in s'.table.rows)
      && (key in s.table.rows ==> s'.table.rows[key] == s.table.rows[key])
  {
  }

  lemma OthersHold(s: System, s': System, i: nat, key: Key)
    requires i < |s.actors| == |s'.actors| && s'.actors == s.actors[i := s'.actors[i]]
    requires ActorHolds(s', i, key) <==> ActorHolds(s, i, key)
    ensures forall j: nat :: ActorHolds(s', j, key) <==> ActorHolds(s, j, key)
  {
    forall j: nat ensures ActorHolds(s', j, key) <==> ActorHolds(s, j, key) {
      if j != i && j < |s.actors| {
        assert s'.actors[j] == s.actors[j];
      }
    }
  }

  lemma ActUntouched(s: System, i: nat, fault: Fault, reply: NodeReply, key: Key)
    requires i < |s.actors| && Claim(s.table, s.log, s.actors[i])
    requires s.actors[i].key == key ==> IdleOn(s, s.actors[i])
    ensures Untouched(s, ActorStep(s, i, fault, reply), key)
  {
    ActTouchesOwn(s, i, fault, reply, key);
    OthersHold(s, ActorStep(s, i, fault, reply), i, key);
  }

  /** Only a sender's step shows in the log, and only under its key. */
  lemma ActLogsOwn(s: System, i: nat, fault: Fault, reply: NodeReply, key: Key)
    requires i < |s.actors| && (s.actors[i].phase.Sending? || s.actors[i].phase.InFlight? ==> s.actors[i].key != key)
    ensures SameLog(s, ActorStep(s, i, fault, reply), key)
  {
    LogSnoc(s.log, Sent(s.actors[i].key, s.actors[i].payment), key);
    LogSnoc(s.log, Paid(s.actors[i].key), key);
  }

  ghost predicate SameLog(s: System, s': System, key: Key) {
    Sends(s'.log, key) == Sends(s.log, key) && Payouts(s'.log, key) == Payouts(s.log, key)
  }

  /** The retry task touches the row of its head only, and has nothing else in hand. */
  lemma RetryTouchesHead(s: System, fault: Fault, reply: NodeReply, key: Key, maxRetries: nat)
    requires s.retry.Working? ==> s.retry.batch != [] && s.retry.batch[0].0 != key
    ensures var s' := RetryTaskStep(s, fault, reply, maxRetries);
      && s'.actors == s.actors && !RetryHolds(s', key)
      && (key in s.table.rows <==> key in s'.table.rows)
      && (key in s.table.rows ==> s'.table.rows[key] == s.table.rows[key])
  {
    var s' := RetryTaskStep(s, fault, reply, maxRetries);
    if s.retry.Idle? {
      assert !RetryLive(s'.retry);
    } else {
      assert RetryLive(s'.retry) ==> s'.retry.batch == s.retry.batch;
    }
  }

  lemma RetryUntouched(s: System, fault: Fault, reply: NodeReply, key: Key, maxRetries: nat)
    requires s.retry.Working? ==> s.retry.batch != [] && s.retry.batch[0].0 != key
    ensures Untouched(s, RetryTaskStep(s, fault, reply, maxRetries), key)
  {
    RetryTouchesHead(s, fault, reply, key, maxRetries);
  }

  lemma RetryLogsHead(s: System, fault: Fault, reply: NodeReply, key: Key, maxRetries: nat)
    requires s.retry.Working? ==> s.retry.batch != [] && s.retry.batch[0].0 != key
    ensures SameLog(s, RetryTaskStep(s, fault, reply, maxRetries), key)
  {
    if s.retry.Working? {
      LogSnoc(s.log, Sent(s.retry.batch[0].0, s.retry.batch[0].1), key);
      LogSnoc(s.log, Paid(s.retry.batch[0].0), key);
    }
  }

  /** Nobody else's step touches an abandoned payout. */
  lemma AbandonedAct(s: System, key: Key, i: nat, fault: Fault, reply: NodeReply)
    requires Abandoned(s, key) && i < |s.actors| && Claim(s.table, s.log, s.actors[i])
    ensures Abandoned(ActorStep(s, i, fault, reply), key) && SameLog(s, ActorStep(s, i, fault, reply), key)
  {
    assert !ActorHolds(s, i, key);
    ActUntouched(s, i, fault, reply, key);
    UntouchedStays(s, ActorStep(s, i, fault, reply), key);
    ActLogsOwn(s, i, fault, reply, key);
  }

  lemma AbandonedRetry(s: System, key: Key, fault: Fault, reply: NodeReply, maxRetries: nat)
    requires Abandoned(s, key) && RetryClaim(s.table, s.log, s.retry, maxRetries)
    ensures var s' := RetryTaskStep(s, fault, reply, maxRetries);
      Abandoned(s', key) && SameLog(s, s', key)
  {
    if s.retry.Working? && s.retry.at.Marking? {
      assert Retryable(s.table, s.retry.batch[0].0, maxRetries);
    }
    RetryUntouched(s, fault, reply, key, maxRetries);
    UntouchedStays(s, RetryTaskStep(s, fault, reply, maxRetries), key);
    RetryLogsHead(s, fault, reply, key, maxRetries);
  }

  lemma AbandonedStep(s: System, key: Key, step: Step, maxRetries: nat)
    requires Inv(s, maxRetries) && Abandoned(s, key)
    ensures var s' := Exec(s, step, maxRetries);
      Abandoned(s', key) && SameLog(s, s', key)
  {
    match step {
      case Start(_, _, _) =>
        var s' := Exec(s, step, maxRetries);
        assert forall i :: ActorHolds(s', i, key) ==> ActorHolds(s, i, key);
      case Act(i, fault, reply) =>
        if i < |s.actors| {
          assert Claim(s.table, s.log, s.actors[i]);
          AbandonedAct(s, key, i, fault, reply);
        }
      case RetryStep(fault, reply) => AbandonedRetry(s, key, fault, reply, maxRetries);
      case Crash =>
    }
  }

  /** An abandoned payout stays pending for ever: never sent, paid or retried again. */
  lemma {:induction false} AbandonedForever(steps: seq<Step>, more: seq<Step>, key: Key, maxRetries: nat)
    requires Abandoned(Run(steps, maxRetries), key)
    ensures Abandoned(Run(steps + more, maxRetries), key)
    ensures Sends(Run(steps + more, maxRetries).log, key) == Sends(Run(steps, maxRetries).log, key)
    ensures Payouts(Run(steps + more, maxRetries).log, key) == Payouts(Run(steps, maxRetries).log, key)
    decreases |more|
  {
    if more == [] {
      assert steps + more == steps;
    } else {
      var init, last := more[..|more| - 1], more[|more| - 1];
      AbandonedForever(steps, init, key, maxRetries);
      AbandonedRun(steps + init, last, key, maxRetries);
      assert steps + more == (steps + init) + [last];
    }
  }

  lemma AbandonedRun(steps: seq<Step>, last: Step, key: Key, maxRetries: nat)
    requires Abandoned(Run(steps, maxRetries), key)
    ensures var s, s' := Run(steps, maxRetries), Run(steps + [last], maxRetries);
      Abandoned(s', key) && SameLog(s, s', key)
  {
    RunKeepsInv(steps, maxRetries);
    AbandonedStep(Run(steps, maxRetries), key, last, maxRetries);
    RunSnoc(steps, last, maxRetries);
  }

  // ---- Exactly which steps abandon a payout ----

  ghost predicate Held(s: System, key: Key) {
    (exists i: nat :: ActorHolds(s, i, key)) || RetryHolds(s, key)
  }

  /** The six ways to lose a payout: a crash while somebody has it in hand; an insert that took
      effect but reported an error; a call's send without a readable answer; a record of the
      outcome that did not take effect, by an actor or by the retry task; and a retry mark that
      took effect but reported an error. */
  ghost predicate Abandons(s: System, step: Step, key: Key) {
    match step
    case Start(_, _, _) => false
    case Crash => Held(s, key)
    case Act(i, fault, reply) =>
      && i < |s.actors| && s.actors[i].key == key
      && (match s.actors[i].phase
          case Inserting => key !in s.table.rows && fault == Unacknowledged
          case InFlight => s.actors[i].kind == Rpc && reply == Lost
          case Recording(_) => fault == Refused
          case _ => false)
    case RetryStep(fault, _) =>
      && s.retry.Working? && s.retry.batch != [] && s.retry.batch[0].0 == key
      && (match s.retry.at
          case Marking => fault == Unacknowledged
          case Noting(_) => fault == Refused
          case _ => false)
  }

  /** Under the invariant a payout in hand is pending, so a pending row is abandoned or in hand. */
  lemma HeldIsPending(s: System, key: Key, maxRetries: nat)
    requires Inv(s, maxRetries) && Held(s, key)
    ensures key in s.table.rows && s.table.rows[key].status == Pending && !Abandoned(s, key)
  {
    if i: nat :| ActorHolds(s, i, key) {
      assert Claim(s.table, s.log, s.actors[i]);
    }
  }

  /** Actor `i` stops working on its key, on which it was alone. */
  lemma NobodyLeft(s: System, s': System, i: nat, key: Key)
    requires i < |s.actors| == |s'.actors| && s'.actors == s.actors[i := s'.actors[i]] && !Live(s'.actors[i].phase)
    requires s'.retry == s.retry && !RetryHolds(s, key) && forall j: nat :: j != i ==> !ActorHolds(s, j, key)
    ensures !Held(s', key)
  {
    forall j: nat ensures !ActorHolds(s', j, key) {
      if j != i && j < |s.actors| {
        assert !ActorHolds(s, j, key);
      }
    }
  }

  lemma PendingIsAbandonedOrHeld(s: System, key: Key)
    requires key in s.table.rows && s.table.rows[key].status == Pending
    ensures Abandoned(s, key) <==> !Held(s, key)
  {
  }

  lemma InsertAbandons(s: System, i: nat, fault: Fault, reply: NodeReply, maxRetries: nat)
    requires Inv(s, maxRetries) && i < |s.actors| && s.actors[i].phase.Inserting?
    requires s.actors[i].key !in s.table.rows
    ensures Abandoned(ActorStep(s, i, fault, reply), s.actors[i].key) <==>
      Abandons(s, Act(i, fault, reply), s.actors[i].key)
  {
    var s', key := ActorStep(s, i, fault, reply), s.actors[i].key;
    if fault == Refused {
      assert key !in s'.table.rows;
    } else {
      NobodyHolds(s, key, maxRetries);
      PendingIsAbandonedOrHeld(s', key);
      if fault == NoFault {
        assert ActorHolds(s', i, key);
      } else {
        NobodyLeft(s, s', i, key);
      }
    }
  }

  lemma LiveAbandons(s: System, i: nat, fault: Fault, reply: NodeReply, maxRetries: nat)
    requires Inv(s, maxRetries) && i < |s.actors| && Live(s.actors[i].phase)
    ensures Abandoned(ActorStep(s, i, fault, reply), s.actors[i].key) <==>
      Abandons(s, Act(i, fault, reply), s.actors[i].key)
  {
    var s', key := ActorStep(s, i, fault, reply), s.actors[i].key;
    HolderIsAlone(s, i, maxRetries);
    if Live(s'.actors[i].phase) {
      assert ActorHolds(s', i, key);
    } else {
      NobodyLeft(s, s', i, key);
    }
  }

  lemma ActAbandons(s: System, i: nat, fault: Fault, reply: NodeReply, key: Key, maxRetries: nat)
    requires Inv(s, maxRetries) && i < |s.actors| && !Abandoned(s, key)
    ensures Abandoned(ActorStep(s, i, fault, reply), key) <==> Abandons(s, Act(i, fault, reply), key)
  {
    var a := s.actors[i];
    assert Claim(s.table, s.log, a);
    if a.key != key || IdleOn(s, a) {
      ActUntouched(s, i, fault, reply, key);
      UntouchedStays(s, ActorStep(s, i, fault, reply), key);
    } else if a.phase.Inserting? {
      InsertAbandons(s, i, fault, reply, maxRetries);
    } else {
      LiveAbandons(s, i, fault, reply, maxRetries);
    }
  }

  lemma RetryHeadAbandons(s: System, fault: Fault, reply: NodeReply, maxRetries: nat)
    requires Inv(s, maxRetries) && s.retry.Working? && !Abandoned(s, s.retry.batch[0].0)
    ensures Abandoned(RetryTaskStep(s, fault, reply, maxRetries), s.retry.batch[0].0) <==>
      Abandons(s, RetryStep(fault, reply), s.retry.batch[0].0)
  {
    var s', key := RetryTaskStep(s, fault, reply, maxRetries), s.retry.batch[0].0;
    if s.retry.at.Marking? {
      assert Retryable(s.table, key, maxRetries);
      NobodyHolds(s, key, maxRetries);
    } else {
      assert HeadClaim(s.table, s.log, s.retry.batch[0], s.retry.at);
      assert RetryHolds(s, key);
    }
    forall i: nat ensures !ActorHolds(s', i, key) {
      assert !ActorHolds(s, i, key);
    }
  }

  /** The exact condition: a step abandons a payout precisely in the six cases. */
  lemma AbandonedIff(s: System, step: Step, key: Key, maxRetries: nat)
    requires Inv(s, maxRetries) && !Abandoned(s, key)
    ensures Abandoned(Exec(s, step, maxRetries), key) <==> Abandons(s, step, key)
  {
    match step {
      case Start(_, _, _) =>
        var s' := Exec(s, step, maxRetries);
        forall i: nat ensures ActorHolds(s', i, key) <==> ActorHolds(s, i, key) {
        }
        UntouchedStays(s, s', key);
      case Crash =>
        if Held(s, key) {
          HeldIsPending(s, key, maxRetries);
        }
      case Act(i, fault, reply) =>
        if i < |s.actors| {
          ActAbandons(s, i, fault, reply, key, maxRetries);
        }
      case RetryStep(fault, reply) =>
        if s.retry.Working? && s.retry.batch[0].0 == key {
          RetryHeadAbandons(s, fault, reply, maxRetries);
        } else {
          RetryUntouched(s, fault, reply, key, maxRetries);
          UntouchedStays(s, RetryTaskStep(s, fault, reply, maxRetries), key);
        }
    }
  }

  // ---- Over whole runs ----

  /** Step `n` of the run abandons the key. */
  ghost predicate AbandonsAt(steps: seq<Step>, n: nat, key: Key, maxRetries: nat) {
    n < |steps| && Abandons(Run(steps[..n], maxRetries), steps[n], key)
  }

  lemma AbandonsAtLast(steps: seq<Step>, key: Key, maxRetries: nat)
    requires steps != []
    ensures var init, last: nat := steps[..|steps| - 1], |steps| - 1;
      && (AbandonsAt(steps, last, key, maxRetries) <==> Abandons(Run(init, maxRetries), steps[last], key))
      && (forall n: nat :: n < last ==>
            (AbandonsAt(steps, n, key, maxRetries) <==> AbandonsAt(init, n, key, maxRetries)))
  {
    var init := steps[..|steps| - 1];
    forall n: nat | n < |steps| - 1
      ensures AbandonsAt(steps, n, key, maxRetries) <==> AbandonsAt(init, n, key, maxRetries)
    {
      assert init[..n] == steps[..n] && init[n] == steps[n];
    }
  }

  /** A payout is abandoned after a run exactly when some step of the run abandoned it. */
  lemma {:induction false} AbandonedByStep(steps: seq<Step>, key: Key, maxRetries: nat)
    ensures Abandoned(Run(steps, maxRetries), key) <==> exists n: nat :: AbandonsAt(steps, n, key, maxRetries)
  {
    if steps == [] {
    } else {
      var init, last := steps[..|steps| - 1], steps[|steps| - 1];
      var s := Run(init, maxRetries);
      AbandonedByStep(init, key, maxRetries);
      AbandonsAtLast(steps, key, maxRetries);
      RunKeepsInv(init, maxRetries);
      if Abandoned(s, key) {
        var n: nat :| AbandonsAt(init, n, key, maxRetries);
        assert AbandonsAt(steps, n, key, maxRetries);
        AbandonedStep(s, key, last, maxRetries);
      } else {
        AbandonedIff(s, last, key, maxRetries);
        if n: nat :| AbandonsAt(steps, n, key, maxRetries) {
          assert n == |steps| - 1 || AbandonsAt(init, n, key, maxRetries);
        }
      }
    }
  }

  /** Exactly one sender has the key in hand. */
  ghost predicate OneSender(s: System, key: Key) {
    && Held(s, key)
    && (forall i: nat, j: nat :: ActorHolds(s, i, key) && ActorHolds(s, j, key) ==> i == j)
    && (forall i: nat :: ActorHolds(s, i, key) ==> !RetryHolds(s, key))
  }

  /** As long as no step abandons it, a pending payout has exactly one sender; and conversely. */
  lemma PendingHasOneSender(steps: seq<Step>, key: Key, maxRetries: nat)
    requires key in Run(steps, maxRetries).table.rows && Run(steps, maxRetries).table.rows[key].status == Pending
    ensures OneSender(Run(steps, maxRetries), key) <==> forall n: nat :: !AbandonsAt(steps, n, key, maxRetries)
  {
    RunKeepsInv(steps, maxRetries);
    AbandonedByStep(steps, key, maxRetries);
    PendingIsAbandonedOrHeld(Run(steps, maxRetries), key);
  }

  // ---- Abandoned, and yet paid ----

  /** Somebody has the node's report of the payout in hand, not yet recorded. */
  ghost predicate Reported(s: System, key: Key) {
    || (exists i: nat :: ActorHolds(s, i, key) && s.actors[i].phase == Recording(true))
    || (RetryHolds(s, key) && s.retry.at == Noting(true))
  }

  /** A pending payout was paid exactly when its sender holds an unrecorded report. */
  lemma PaidIffReported(s: System, key: Key, maxRetries: nat)
    requires Inv(s, maxRetries) && Held(s, key)
    ensures Paid(key) in s.log <==> Reported(s, key)
  {
    if i: nat :| ActorHolds(s, i, key) {
      HolderIsAlone(s, i, maxRetries);
      if Reported(s, key) {
        assert s.actors[i].phase == Recording(true);
      }
    } else {
      assert HeadClaim(s.table, s.log, s.retry.batch[0], s.retry.at);
    }
  }

  /** Exactly which abandoned payouts were paid: those whose report was lost with its record, or
      with the process. All others were never paid. */
  lemma AbandonedPaidIff(s: System, step: Step, key: Key, maxRetries: nat)
    requires Inv(s, maxRetries) && !Abandoned(s, key) && Abandons(s, step, key)
    ensures Paid(key) in Exec(s, step, maxRetries).log <==> Reported(s, key)
  {
    if Held(s, key) {
      PaidIffReported(s, key, maxRetries);
      assert Exec(s, step, maxRetries).log == s.log;
    } else {
      assert KeyBooks(s.table, s.log, key, maxRetries);
      NotHeldCauses(s, step, key, maxRetries);
    }
  }

  /** Without a sender, only a faulty insert or a faulty mark abandons. */
  lemma NotHeldCauses(s: System, step: Step, key: Key, maxRetries: nat)
    requires Inv(s, maxRetries) && Abandons(s, step, key) && !Held(s, key)
    ensures Paid(key) !in s.log && Exec(s, step, maxRetries).log == s.log
  {
    assert KeyBooks(s.table, s.log, key, maxRetries);
    match step {
      case Act(i, fault, reply) =>
        assert s.actors[i].phase.Inserting? || ActorHolds(s, i, key);
      case RetryStep(fault, reply) =>
        assert s.retry.at.Marking? || RetryHolds(s, key);
        assert s.retry.at.Marking? ==> Retryable(s.table, key, maxRetries);
      case _ =>
    }
  }

  /** A spawned payout that has the node's report in hand. */
  lemma ReportInHand(key: Key, payment: Payment, maxRetries: nat) returns (steps: seq<Step>)
    ensures Run(steps, maxRetries).actors == [Actor(Task, key, payment, Recording(true))]
    ensures Paid(key) in Run(steps, maxRetries).log
  {
    var start, go := Start(Task, key, payment), Act(0, NoFault, Accepted);
    RunSnoc([], start, maxRetries);
    RunSnoc([] + [start], go, maxRetries);
    RunSnoc([] + [start] + [go], go, maxRetries);
    RunSnoc([] + [start] + [go] + [go], go, maxRetries);
    steps := [] + [start] + [go] + [go] + [go];
  }

  /** So a confirmed payout can stay pending for ever: the record of a spawned payout fails. */
  lemma PaidButPending(key: Key, payment: Payment, maxRetries: nat)
    ensures exists steps :: Abandoned(Run(steps, maxRetries), key) && Paid(key) in Run(steps, maxRetries).log
  {
    var steps := ReportInHand(key, payment, maxRetries);
    var s, lost := Run(steps, maxRetries), Act(0, Refused, Accepted);
    RunKeepsInv(steps, maxRetries);
    assert ActorHolds(s, 0, key);
    RunSnoc(steps, lost, maxRetries);
    AbandonedIff(s, lost, key, maxRetries);
    assert Abandoned(Run(steps + [lost], maxRetries), key);
  }

  // ---- Two of the causes, over runs ----

  /** A call whose send gets no readable answer abandons its row; a spawned payout records a
      failure instead. */
  lemma LostReplyAbandons(steps: seq<Step>, maxRetries: nat, i: nat, fault: Fault)
    requires i < |Run(steps, maxRetries).actors|
    requires Run(steps, maxRetries).actors[i].phase.InFlight? && Run(steps, maxRetries).actors[i].kind == Rpc
    ensures Abandoned(Run(steps + [Act(i, fault, Lost)], maxRetries), Run(steps, maxRetries).actors[i].key)
  {
    var s := Run(steps, maxRetries);
    RunKeepsInv(steps, maxRetries);
    RunSnoc(steps, Act(i, fault, Lost), maxRetries);
    assert ActorHolds(s, i, s.actors[i].key);
    AbandonedIff(s, Act(i, fault, Lost), s.actors[i].key, maxRetries);
  }

  /** So does a crash while anybody has the payout in hand. */
  lemma CrashAbandons(steps: seq<Step>, maxRetries: nat, key: Key)
    requires var s := Run(steps, maxRetries);
      (exists i: nat :: ActorHolds(s, i, key)) || RetryHolds(s, key)
    ensures Abandoned(Run(steps + [Crash], maxRetries), key)
  {
    RunKeepsInv(steps, maxRetries);
    RunSnoc(steps, Crash, maxRetries);
    HeldIsPending(Run(steps, maxRetries), key, maxRetries);
    AbandonedIff(Run(steps, maxRetries), Crash, key, maxRetries);
  }
}
