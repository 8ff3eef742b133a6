/**
 * When retrying a deposit makes a second copy after all: a mailbox knows an id only by the
 * items it holds, so what matters is whether the first copy is still there.
 */
module SecondCopies {
  import opened Messages
  import opened Mailboxes
  import opened MailboxServices
  import opened RelayRuns

  predicate Acks(r: Request, key: PublicKey, cursor: nat) {
    r.caller == key && r.op.Ack? && cursor <= r.op.upTo
  }

  /** Some request of the key's own device acknowledged this cursor. */
  ghost predicate WasAcked(requests: seq<Request>, key: PublicKey, cursor: nat) {
    exists i :: 0 <= i < |requests| && Acks(requests[i], key, cursor)
  }

  /** No request deposits this id. */
  predicate NobodySends(requests: seq<Request>, id: MessageId) {
    forall i | 0 <= i < |requests| :: requests[i].op.Submit? ==> requests[i].op.deposit.id != id
  }

  /** Whatever a mailbox holds under the id of `first` is `first`. */
  ghost predicate OnlyCopy(items: seq<Item>, first: Item) {
    forall item | item in items && item.deposit.id == first.deposit.id :: item == first
  }

  /** What happened to the first copy between two states of its mailbox. */
  ghost predicate Fate(limits: Limits, before: seq<Item>, after: seq<Item>, first: Item, clock: nat) {
    && OnlyCopy(after, first)
    && (first in after ==> first in before)
    && (first in before && Live(limits, clock, first.depositedAt) ==> first in after)
  }

  lemma DepositFate(limits: Limits, box: Mailbox, deposit: Deposit, now: nat, clock: nat, first: Item)
    requires OnlyCopy(box.items, first) && deposit.id != first.deposit.id && now <= clock
    ensures Fate(limits, box.items, Deposited(limits, box, deposit, now).items, first, clock)
  {
    var items, added := Purge(limits, now, box.items), Item(box.lastCursor + 1, now, deposit);
    assert forall item :: item in items + [added] <==> item in items || item == added;
  }

  lemma {:induction false} FanOutFate(
      limits: Limits, boxes: Mailboxes, deposit: Deposit, recipients: seq<PublicKey>, now: nat, clock: nat,
      key: PublicKey, first: Item)
    requires key in boxes && OnlyCopy(boxes[key].items, first) && deposit.id != first.deposit.id && now <= clock
    ensures var after := FannedOut(limits, boxes, deposit, recipients, now);
            key in after && Fate(limits, boxes[key].items, after[key].items, first, clock)
    decreases |recipients|
  {
    if recipients != [] {
      var next := Appended(limits, boxes, recipients[0], deposit, now);
      if recipients[0] == key {
        DepositFate(limits, boxes[key], deposit, now, clock, first);
      }
      FanOutFate(limits, next, deposit, recipients[1..], now, clock, key, first);
    }
  }

  /** One request that does not send the id and does not acknowledge the first copy only lets it expire. */
  lemma RequestFate(
      limits: Limits, policy: Policy, boxes: Mailboxes, r: Request, clock: nat, key: PublicKey, first: Item)
    requires key in boxes && OnlyCopy(boxes[key].items, first) && r.now <= clock
    requires r.op.Submit? ==> r.op.deposit.id != first.deposit.id
    ensures var after := Serve(limits, policy, boxes, r.caller, r.op, r.now).0;
            && key in after
            && (!Acks(r, key, first.cursor) ==> Fate(limits, boxes[key].items, after[key].items, first, clock))
            && (Acks(r, key, first.cursor) ==> OnlyCopy(after[key].items, first) && first !in after[key].items)
  {
    if r.op.Submit? {
      FanOutFate(limits, boxes, r.op.deposit, r.op.deposit.recipients, r.now, clock, key, first);
    }
  }

  lemma {:induction false} StaysGone(
      limits: Limits, policy: Policy, boxes: Mailboxes, requests: seq<Request>, clock: nat, key: PublicKey, first: Item)
    requires key in boxes && OnlyCopy(boxes[key].items, first) && first !in boxes[key].items
    requires NobodySends(requests, first.deposit.id) && EndsBy(requests, clock)
    ensures var later := ServeAll(limits, policy, boxes, requests);
            key in later && OnlyCopy(later[key].items, first) && first !in later[key].items
    decreases |requests|
  {
    if requests != [] {
      var r, rest := requests[0], requests[1..];
      RequestFate(limits, policy, boxes, r, clock, key, first);
      assert forall i | 0 <= i < |rest| :: rest[i] == requests[i + 1];
      StaysGone(limits, policy, Serve(limits, policy, boxes, r.caller, r.op, r.now).0, rest, clock, key, first);
    }
  }

  /** After any run, the first copy is held, and live, exactly if it was never acknowledged and has not expired. */
  lemma {:induction false} FirstCopyFate(
      limits: Limits, policy: Policy, boxes: Mailboxes, requests: seq<Request>, clock: nat, key: PublicKey, first: Item)
    requires key in boxes && OnlyCopy(boxes[key].items, first) && first in boxes[key].items
    requires NobodySends(requests, first.deposit.id) && EndsBy(requests, clock)
    ensures var later := ServeAll(limits, policy, boxes, requests);
            && key in later && OnlyCopy(later[key].items, first)
            && (Live(limits, clock, first.depositedAt) ==>
                  (first in later[key].items <==> !WasAcked(requests, key, first.cursor)))
    decreases |requests|
  {
    if requests != [] {
      var r, rest := requests[0], requests[1..];
      var next := Serve(limits, policy, boxes, r.caller, r.op, r.now).0;
      RequestFate(limits, policy, boxes, r, clock, key, first);
      assert forall i | 0 <= i < |rest| :: rest[i] == requests[i + 1];
      assert WasAcked(requests, key, first.cursor) <==>
          Acks(r, key, first.cursor) || WasAcked(rest, key, first.cursor) by {
        if WasAcked(rest, key, first.cursor) {
          var i :| 0 <= i < |rest| && Acks(rest[i], key, first.cursor);
          assert Acks(requests[i + 1], key, first.cursor);
        }
        if WasAcked(requests, key, first.cursor) && !Acks(r, key, first.cursor) {
          var i :| 0 <= i < |requests| && Acks(requests[i], key, first.cursor);
          assert Acks(rest[i - 1], key, first.cursor);
        }
      }
      if first in next[key].items {
        FirstCopyFate(limits, policy, next, rest, clock, key, first);
      } else {
        StaysGone(limits, policy, next, rest, clock, key, first);
      }
    }
  }

  /**
   * A deposit was taken; any requests follow, but nobody else sends that id; then it is
   * retried. Where there is room, the retry makes a second copy exactly when the first was
   * acknowledged or has expired.
   */
  lemma SecondCopyIff(
      limits: Limits, policy: Policy, boxes: Mailboxes, requests: seq<Request>,
      key: PublicKey, first: Item, deposit: Deposit, now: nat)
    requires AllOk(limits, boxes) && key in boxes && first in boxes[key].items && deposit.id == first.deposit.id
    requires NobodySends(requests, deposit.id) && EndsBy(requests, now)
    ensures var later := ServeAll(limits, policy, boxes, requests);
            key in later
            && (var live := Purge(limits, now, later[key].items);
                |live| < limits.maxItems && BytesHeld(live) + |deposit.wire| <= limits.maxBytes ==>
                  (Deposited(limits, later[key], deposit, now).lastCursor > later[key].lastCursor <==>
                     WasAcked(requests, key, first.cursor) || !Live(limits, now, first.depositedAt)))
  {
    var items := boxes[key].items;
    assert OnlyCopy(items, first) by {
      assert BoxOk(limits, boxes[key]);
    }
    FirstCopyFate(limits, policy, boxes, requests, now, key, first);
    var later := ServeAll(limits, policy, boxes, requests);
    var live := Purge(limits, now, later[key].items);
    assert HasId(live, deposit.id) <==> first in live;
  }
}
