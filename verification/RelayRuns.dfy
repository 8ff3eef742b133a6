/** What every run of requests keeps at a relay: caps, ceilings, and cursors that never come back. */
module RelayRuns {
  import opened Basics
  import opened Messages
  import opened Mailboxes
  import opened MailboxServices

  datatype Request = Request(caller: PublicKey, op: Op, now: nat)

  /** All served by some moment. */
  ghost predicate EndsBy(requests: seq<Request>, clock: nat) {
    forall i | 0 <= i < |requests| :: requests[i].now <= clock
  }

  function ServeAll(limits: Limits, policy: Policy, boxes: Mailboxes, requests: seq<Request>): Mailboxes
    decreases |requests|
  {
    if requests == [] then boxes else
      var r := requests[0];
      ServeAll(limits, policy, Serve(limits, policy, boxes, r.caller, r.op, r.now).0, requests[1..])
  }

  ghost predicate RelayOk(limits: Limits, policy: Policy, boxes: Mailboxes) {
    AllOk(limits, boxes) && |boxes| <= policy.maxMailboxes
  }

  lemma AppendedOk(limits: Limits, boxes: Mailboxes, key: PublicKey, deposit: Deposit, now: nat)
    requires AllOk(limits, boxes)
    ensures AllOk(limits, Appended(limits, boxes, key, deposit, now))
    ensures Appended(limits, boxes, key, deposit, now).Keys == boxes.Keys
  {
    if key in boxes {
      DepositedOk(limits, boxes[key], deposit, now, now);
    }
  }

  lemma {:induction false} FannedOutOk(
      limits: Limits, boxes: Mailboxes, deposit: Deposit, recipients: seq<PublicKey>, now: nat)
    requires AllOk(limits, boxes)
    ensures AllOk(limits, FannedOut(limits, boxes, deposit, recipients, now))
    ensures FannedOut(limits, boxes, deposit, recipients, now).Keys == boxes.Keys
    decreases |recipients|
  {
    if recipients != [] {
      AppendedOk(limits, boxes, recipients[0], deposit, now);
      FannedOutOk(limits, Appended(limits, boxes, recipients[0], deposit, now), deposit, recipients[1..], now);
    }
  }

  lemma SameCount(a: Mailboxes, b: Mailboxes)
    requires a.Keys == b.Keys
    ensures |a| == |b|
  {
    assert |a.Keys| == |a| && |b.Keys| == |b|;
  }

  lemma OneMoreKey(boxes: Mailboxes, key: PublicKey, box: Mailbox)
    requires key !in boxes
    ensures |boxes[key := box]| == |boxes| + 1
  {
    var after := boxes[key := box];
    assert after.Keys == boxes.Keys + {key};
    assert |after.Keys| == |after| && |boxes.Keys| == |boxes|;
  }

  lemma RegisteredOk(limits: Limits, policy: Policy, boxes: Mailboxes, key: PublicKey)
    requires RelayOk(limits, policy, boxes) && Admits(policy, boxes, key)
    ensures RelayOk(limits, policy, Registered(boxes, key))
  {
    if key !in boxes {
      OneMoreKey(boxes, key, EMPTY_MAILBOX);
      assert BoxOk(limits, EMPTY_MAILBOX);
    }
  }

  lemma PurgedOk(limits: Limits, boxes: Mailboxes, key: PublicKey, now: nat)
    requires AllOk(limits, boxes)
    ensures AllOk(limits, Purged(limits, boxes, key, now))
    ensures Purged(limits, boxes, key, now).Keys == boxes.Keys
  {
    if key in boxes {
      PurgeSubsequence(limits, now, boxes[key].items);
      FewerItemsOk(limits, boxes[key], Purge(limits, now, boxes[key].items));
    }
  }

  lemma AckedOk(limits: Limits, boxes: Mailboxes, key: PublicKey, upTo: nat)
    requires AllOk(limits, boxes)
    ensures AllOk(limits, Acked(boxes, key, upTo))
    ensures Acked(boxes, key, upTo).Keys == boxes.Keys
  {
    if key in boxes {
      AboveSubsequence(boxes[key].items, upTo);
      FewerItemsOk(limits, boxes[key], Above(boxes[key].items, upTo));
    }
  }

  /** A hosted key the policy permits is never refused, however full the relay; a refusal changes nothing. */
  lemma RegistrationOutcome(limits: Limits, policy: Policy, boxes: Mailboxes, caller: PublicKey, now: nat)
    ensures var (after, response) := Serve(limits, policy, boxes, caller, Register, now);
            && response in {Welcome, Refused}
            && (policy.permits(caller) && caller in boxes ==> response == Welcome && after == boxes)
            && (response == Welcome ==>
                  && policy.permits(caller)
                  && after.Keys == boxes.Keys + {caller}
                  && (forall key | key in boxes :: after[key] == boxes[key])
                  && (caller !in boxes ==> after[caller] == EMPTY_MAILBOX))
            && (response == Refused ==> after == boxes && (policy.permits(caller) ==> |boxes| >= policy.maxMailboxes))
  {
  }

  lemma {:induction false} FannedOutKeys(
      limits: Limits, boxes: Mailboxes, deposit: Deposit, recipients: seq<PublicKey>, now: nat)
    ensures FannedOut(limits, boxes, deposit, recipients, now).Keys == boxes.Keys
    decreases |recipients|
  {
    if recipients != [] {
      FannedOutKeys(limits, Appended(limits, boxes, recipients[0], deposit, now), deposit, recipients[1..], now);
    }
  }

  lemma ServeHosts(limits: Limits, policy: Policy, boxes: Mailboxes, r: Request)
    ensures Serve(limits, policy, boxes, r.caller, r.op, r.now).0.Keys ==
              boxes.Keys +
              (if r.op == Register && policy.permits(r.caller) && |boxes| < policy.maxMailboxes then {r.caller} else {})
  {
    match r.op
    case Register =>
    case Submit(deposit) =>
      FannedOutKeys(limits, boxes, deposit, deposit.recipients, r.now);
    case Fetch(_) =>
    case Ack(_) =>
  }

  /** Only who asked and was permitted is hosted. */
  lemma {:induction false} HostedHaveAsked(limits: Limits, policy: Policy, boxes: Mailboxes, requests: seq<Request>)
    ensures forall key | key in ServeAll(limits, policy, boxes, requests) && key !in boxes ::
              policy.permits(key) && exists r :: r in requests && r.caller == key && r.op == Register
    decreases |requests|
  {
    if requests != [] {
      var r := requests[0];
      var next := Serve(limits, policy, boxes, r.caller, r.op, r.now).0;
      HostedHaveAsked(limits, policy, next, requests[1..]);
      ServeHosts(limits, policy, boxes, r);
      assert forall x | x in requests[1..] :: x in requests;
    }
  }

  lemma ServeOk(limits: Limits, policy: Policy, boxes: Mailboxes, r: Request)
    requires RelayOk(limits, policy, boxes)
    ensures RelayOk(limits, policy, Serve(limits, policy, boxes, r.caller, r.op, r.now).0)
  {
    match r.op
    case Register =>
      if Admits(policy, boxes, r.caller) {
        RegisteredOk(limits, policy, boxes, r.caller);
      }
    case Submit(deposit) =>
      FannedOutOk(limits, boxes, deposit, deposit.recipients, r.now);
      SameCount(boxes, FannedOut(limits, boxes, deposit, deposit.recipients, r.now));
    case Fetch(_) =>
      PurgedOk(limits, boxes, r.caller, r.now);
      SameCount(boxes, Purged(limits, boxes, r.caller, r.now));
    case Ack(upTo) =>
      AckedOk(limits, boxes, r.caller, upTo);
      SameCount(boxes, Acked(boxes, r.caller, upTo));
  }

  lemma {:induction false} RunsStayOk(limits: Limits, policy: Policy, boxes: Mailboxes, requests: seq<Request>)
    requires RelayOk(limits, policy, boxes)
    ensures RelayOk(limits, policy, ServeAll(limits, policy, boxes, requests))
    decreases |requests|
  {
    if requests != [] {
      var r := requests[0];
      ServeOk(limits, policy, boxes, r);
      RunsStayOk(limits, policy, Serve(limits, policy, boxes, r.caller, r.op, r.now).0, requests[1..]);
    }
  }

  ghost function TotalBytes(boxes: Mailboxes): nat {
    SumOver(boxes.Keys, key => if key in boxes then BytesHeld(boxes[key].items) else 0)
  }

  /** The total counts each mailbox once. */
  lemma TotalBytesOf(boxes: Mailboxes, key: PublicKey)
    ensures TotalBytes(map[]) == 0
    ensures key in boxes ==> TotalBytes(boxes) == BytesHeld(boxes[key].items) + TotalBytes(boxes - {key})
  {
    var rest := boxes - {key};
    var size := (k: PublicKey) => if k in boxes then BytesHeld(boxes[k].items) else 0;
    var left := (k: PublicKey) => if k in rest then BytesHeld(rest[k].items) else 0;
    assert TotalBytes(boxes) == SumOver(boxes.Keys, size) && TotalBytes(rest) == SumOver(rest.Keys, left);
    if key in boxes {
      SumOverRemove(boxes.Keys, size, key);
      assert rest.Keys == boxes.Keys - {key};
      SumOverSame(rest.Keys, size, left);
    }
  }

  lemma MulMonotone(a: nat, b: nat, c: nat)
    requires a <= b
    ensures a * c <= b * c
  {
    assert b * c == a * c + (b - a) * c;
  }

  lemma BytesWithin(limits: Limits, boxes: Mailboxes, count: nat)
    requires AllOk(limits, boxes) && |boxes| <= count
    ensures TotalBytes(boxes) <= count * limits.maxBytes
  {
    SumOverBound(boxes.Keys, key => if key in boxes then BytesHeld(boxes[key].items) else 0, limits.maxBytes);
    assert |boxes.Keys| == |boxes|;
    MulMonotone(|boxes|, count, limits.maxBytes);
  }

  /** Live or not yet purged, the mailboxes never hold more than `max_mailboxes * max_bytes`. */
  lemma ByteCeiling(limits: Limits, policy: Policy, requests: seq<Request>)
    ensures TotalBytes(ServeAll(limits, policy, map[], requests)) <= policy.maxMailboxes * limits.maxBytes
  {
    RunsStayOk(limits, policy, map[], requests);
    BytesWithin(limits, ServeAll(limits, policy, map[], requests), policy.maxMailboxes);
  }

  // ---- Cursors ------------------------------------------------------------------

  /** A mailbox later on: the mark has not gone back, and anything new lies above the old mark. */
  ghost predicate Succeeds(later: Mailbox, earlier: Mailbox) {
    && earlier.lastCursor <= later.lastCursor
    && forall item | item in later.items :: item in earlier.items || item.cursor > earlier.lastCursor
  }

  ghost predicate AllSucceed(later: Mailboxes, earlier: Mailboxes) {
    forall key | key in earlier :: key in later && Succeeds(later[key], earlier[key])
  }

  lemma DepositedSucceeds(limits: Limits, box: Mailbox, deposit: Deposit, now: nat)
    ensures Succeeds(Deposited(limits, box, deposit, now), box)
  {
    var later := Deposited(limits, box, deposit, now);
    var items := Purge(limits, now, box.items);
    var added := Item(box.lastCursor + 1, now, deposit);
    assert forall item :: item in items + [added] <==> item in items || item == added;
  }

  lemma SucceedsTransitive(c: Mailbox, b: Mailbox, a: Mailbox)
    requires Succeeds(b, a) && Succeeds(c, b)
    ensures Succeeds(c, a)
  {
  }

  lemma {:induction false} FannedOutSucceeds(
      limits: Limits, boxes: Mailboxes, deposit: Deposit, recipients: seq<PublicKey>, now: nat)
    ensures AllSucceed(FannedOut(limits, boxes, deposit, recipients, now), boxes)
    decreases |recipients|
  {
    if recipients != [] {
      var key := recipients[0];
      var next := Appended(limits, boxes, key, deposit, now);
      if key in boxes {
        DepositedSucceeds(limits, boxes[key], deposit, now);
      }
      FannedOutSucceeds(limits, next, deposit, recipients[1..], now);
      var last := FannedOut(limits, next, deposit, recipients[1..], now);
      forall k | k in boxes
        ensures k in last && Succeeds(last[k], boxes[k])
      {
        SucceedsTransitive(last[k], next[k], boxes[k]);
      }
    }
  }

  lemma ServeSucceeds(limits: Limits, policy: Policy, boxes: Mailboxes, r: Request)
    ensures AllSucceed(Serve(limits, policy, boxes, r.caller, r.op, r.now).0, boxes)
  {
    if r.op.Submit? {
      FannedOutSucceeds(limits, boxes, r.op.deposit, r.op.deposit.recipients, r.now);
    }
  }

  lemma {:induction false} RunsSucceed(limits: Limits, policy: Policy, boxes: Mailboxes, requests: seq<Request>)
    ensures AllSucceed(ServeAll(limits, policy, boxes, requests), boxes)
    decreases |requests|
  {
    if requests != [] {
      var r := requests[0];
      var next := Serve(limits, policy, boxes, r.caller, r.op, r.now).0;
      ServeSucceeds(limits, policy, boxes, r);
      RunsSucceed(limits, policy, next, requests[1..]);
      var last := ServeAll(limits, policy, next, requests[1..]);
      forall key | key in boxes
        ensures key in last && Succeeds(last[key], boxes[key])
      {
        SucceedsTransitive(last[key], next[key], boxes[key]);
      }
    }
  }

  /** Once hosted, a key the policy permits is welcome after any run, however full the relay has become. */
  lemma HostedKeysStayWelcome(
      limits: Limits, policy: Policy, boxes: Mailboxes, requests: seq<Request>, caller: PublicKey, now: nat)
    requires caller in boxes && policy.permits(caller)
    ensures var later := ServeAll(limits, policy, boxes, requests);
            Serve(limits, policy, later, caller, Register, now) == (later, Welcome)
  {
    RunsSucceed(limits, policy, boxes, requests);
  }

  /** A cursor names one item for ever: seen again after any run, it is the same deposit. */
  lemma CursorNeverReissued(
      limits: Limits, policy: Policy, boxes: Mailboxes, requests: seq<Request>, key: PublicKey, a: Item, b: Item)
    requires RelayOk(limits, policy, boxes) && key in boxes
    requires a in boxes[key].items
    requires var later := ServeAll(limits, policy, boxes, requests); key in later && b in later[key].items
    requires a.cursor == b.cursor
    ensures a == b
  {
    RunsSucceed(limits, policy, boxes, requests);
    assert b in boxes[key].items;
  }
}
