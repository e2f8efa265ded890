// How far the relay gets when its reads, writes and saves go well.
module RelayProgress {
  import opened Outbox = OutboxRecord
  import opened Relay

  // A poll in which everything goes well.
  function Healthy(sys: System, limit: nat): Step {
    Poll(limit, true, true, |Unpublished(sys.outbox, Cursor(sys.relay, true), limit)|, 0, true)
  }

  function AfterPolls(sys: System, limit: nat, m: nat): System {
    if m == 0 then sys
    else var before := AfterPolls(sys, limit, m - 1); Next(before, Healthy(before, limit))
  }

  function BatchEnd(size: nat, from: nat, limit: nat): nat { if from + limit < size then from + limit else size }

  function Place(sys: System): nat { Cursor(sys.relay, true) }

  ghost predicate InRange(sys: System) { Numbered(sys.outbox) && Place(sys) <= |sys.outbox| }

  // A healthy poll sends the records of its batch with known topics, once each and in order, and leaves
  // the cursor, in memory and on disk, behind the last of them.
  lemma HealthyPoll(sys: System, limit: nat)
    requires InRange(sys)
    ensures Possible(sys, Healthy(sys, limit))
    ensures var c, end, after := Place(sys), BatchEnd(|sys.outbox|, Place(sys), limit), Next(sys, Healthy(sys, limit));
            && after.outbox == sys.outbox && c <= Place(after) <= end
            && after.relay.history == sys.relay.history + Between(sys.outbox, c, end)
            && (forall i :: Place(after) <= i < end ==> !KnownTopic(sys.outbox[i]))
            && (Place(after) > c ==> KnownTopic(sys.outbox[Place(after) - 1]) && after.relay.meta == Place(after))
  {
    var c, end := Place(sys), BatchEnd(|sys.outbox|, Place(sys), limit);
    var recs := Unpublished(sys.outbox, c, limit);
    if c < |sys.outbox| {
      assert recs == sys.outbox[c..end];
      LastInBatch(sys.outbox, c, end, |recs|);
      BetweenSlice(sys.outbox, c, end, |recs|);
    } else {
      assert sys.relay.history + [] == sys.relay.history;
    }
  }

  lemma {:induction false} LastInBatch(outbox: seq<Record>, c: nat, end: nat, k: nat)
    requires Numbered(outbox) && c <= end <= |outbox| && k <= end - c
    ensures var last := LastKnown(outbox[c..end], k, c);
            && c <= last <= c + k && (last > c ==> KnownTopic(outbox[last - 1]))
            && forall i :: last <= i < c + k ==> !KnownTopic(outbox[i])
  {
    if k > 0 { LastInBatch(outbox, c, end, k - 1); }
  }

  lemma {:induction false} BetweenSlice(outbox: seq<Record>, c: nat, end: nat, k: nat)
    requires c <= end <= |outbox| && k <= end - c
    ensures Between(outbox[c..end], 0, k) == Between(outbox, c, c + k)
  {
    if k > 0 { BetweenSlice(outbox, c, end, k - 1); }
  }

  ghost predicate NothingToSend(sys: System, limit: nat) {
    forall i :: Place(sys) <= i < BatchEnd(|sys.outbox|, Place(sys), limit) && i < |sys.outbox| ==>
      !KnownTopic(sys.outbox[i])
  }

  ghost predicate NeverMoves(sys: System, limit: nat) {
    forall m: nat :: Place(AfterPolls(sys, limit, m)) == Place(sys)
  }

  // Such polls never move the cursor exactly when there is no record with a known topic in the first batch
  // behind it: a whole batch of unknown topics stops the relay for good.
  lemma StuckExactlyWhen(sys: System, limit: nat)
    requires InRange(sys)
    ensures NeverMoves(sys, limit) <==> NothingToSend(sys, limit)
  {
    if NothingToSend(sys, limit) {
      forall m: nat ensures Place(AfterPolls(sys, limit, m)) == Place(sys) { StaysStuck(sys, limit, m); }
    }
    if NeverMoves(sys, limit) {
      HealthyPoll(sys, limit);
      assert AfterPolls(sys, limit, 0) == sys;
      assert AfterPolls(sys, limit, 1) == Next(sys, Healthy(sys, limit));
    }
  }

  lemma {:induction false} StaysStuck(sys: System, limit: nat, m: nat)
    requires InRange(sys) && NothingToSend(sys, limit)
    ensures Place(AfterPolls(sys, limit, m)) == Place(sys) && AfterPolls(sys, limit, m).outbox == sys.outbox
  {
    if m > 0 {
      StaysStuck(sys, limit, m - 1);
      HealthyPoll(AfterPolls(sys, limit, m - 1), limit);
    }
  }

  // If all topics are known, m such polls send the next m batches, each record once and in order, and the
  // cursor stands behind them: every record is sent in the end.
  lemma {:induction false} EverythingIsSent(sys: System, limit: nat, m: nat)
    requires InRange(sys) && forall i :: 0 <= i < |sys.outbox| ==> KnownTopic(sys.outbox[i])
    ensures Sends(sys, AfterPolls(sys, limit, m), BatchEnd(|sys.outbox|, Place(sys), m * limit))
  {
    if m == 0 {
      assert sys.relay.history + [] == sys.relay.history;
    } else {
      var before := AfterPolls(sys, limit, m - 1);
      EverythingIsSent(sys, limit, m - 1);
      BatchIsSent(before, limit);
      OneMoreBatch(sys, before, AfterPolls(sys, limit, m), limit, (m - 1) * limit);
      assert m * limit == (m - 1) * limit + limit;
    }
  }

  // From one state to the other the records up to end have been sent, and the cursor stands behind them.
  ghost predicate Sends(sys: System, after: System, end: nat) {
    && Place(sys) <= end <= |sys.outbox| && Place(after) == end && after.outbox == sys.outbox
    && after.relay.history == sys.relay.history + sys.outbox[Place(sys)..end]
  }

  lemma BatchIsSent(sys: System, limit: nat)
    requires InRange(sys) && forall i :: 0 <= i < |sys.outbox| ==> KnownTopic(sys.outbox[i])
    ensures Sends(sys, Next(sys, Healthy(sys, limit)), BatchEnd(|sys.outbox|, Place(sys), limit))
  {
    HealthyPoll(sys, limit);
    AllBetween(sys.outbox, Place(sys), BatchEnd(|sys.outbox|, Place(sys), limit));
  }

  lemma OneMoreBatch(sys: System, before: System, after: System, limit: nat, sent: nat)
    requires InRange(sys) && Sends(sys, before, BatchEnd(|sys.outbox|, Place(sys), sent))
    requires Sends(before, after, BatchEnd(|before.outbox|, Place(before), limit))
    ensures Sends(sys, after, BatchEnd(|sys.outbox|, Place(sys), sent + limit))
  {
    var c, mid, end := Place(sys), Place(before), Place(after);
    assert sys.outbox[c..mid] + sys.outbox[mid..end] == sys.outbox[c..end];
  }

  lemma {:induction false} AllBetween(outbox: seq<Record>, from: nat, end: nat)
    requires from <= end <= |outbox| && forall i :: 0 <= i < |outbox| ==> KnownTopic(outbox[i])
    ensures Between(outbox, from, end) == outbox[from..end]
    decreases end
  {
    if from < end { AllBetween(outbox, from, end - 1); }
  }
}
