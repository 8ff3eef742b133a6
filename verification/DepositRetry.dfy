/**
 * The sender's retry loop. A transport error tells the sender nothing: the relay may have
 * served the deposit for none, some or all of its recipients. Retrying is safe because a
 * mailbox that took the deposit recognises its id.
 */
module DepositRetries {
  import opened Messages
  import opened Mailboxes
  import opened InMemoryStores
  import opened MailboxServices

  const ATTEMPTS: nat := 3

  /**
   * How one attempt goes. `Lost` is a transport error, `Failed` a relay that answered
   * `Internal`; either may come after any number of recipients were served.
   */
  datatype Outcome = CannotConnect | Lost(served: nat) | Failed(served: nat) | Served

  datatype Try = Try(now: nat, outcome: Outcome)

  datatype Sent = Delivered | NotReached | UnexpectedAnswer | GaveUp

  function CutShort(limits: Limits, boxes: Mailboxes, deposit: Deposit, served: nat, now: nat): Mailboxes {
    var n := if served < |deposit.recipients| then served else |deposit.recipients|;
    FannedOut(limits, boxes, deposit, deposit.recipients[..n], now)
  }

  /** What the loop does over a plan of attempts: only a lost attempt leads to the next one. */
  function Retry(limits: Limits, boxes: Mailboxes, deposit: Deposit, plan: seq<Try>): (Mailboxes, Sent)
    decreases |plan|
  {
    if plan == [] then (boxes, GaveUp) else
      var t := plan[0];
      match t.outcome
      case CannotConnect => (boxes, NotReached)
      case Served => (FannedOut(limits, boxes, deposit, deposit.recipients, t.now), Delivered)
      case Failed(served) => (CutShort(limits, boxes, deposit, served, t.now), UnexpectedAnswer)
      case Lost(served) => Retry(limits, CutShort(limits, boxes, deposit, served, t.now), deposit, plan[1..])
  }

  /** The answer is that of the first attempt that was not lost; when all were, the sender gives up. */
  lemma {:induction false} FirstAnswerCounts(limits: Limits, boxes: Mailboxes, deposit: Deposit, plan: seq<Try>)
    ensures forall i | 0 <= i < |plan| && (forall j | 0 <= j < i :: plan[j].outcome.Lost?) ::
              var sent := Retry(limits, boxes, deposit, plan).1;
              && (plan[i].outcome == Served ==> sent == Delivered)
              && (plan[i].outcome == CannotConnect ==> sent == NotReached)
              && (plan[i].outcome.Failed? ==> sent == UnexpectedAnswer)
    ensures (forall i | 0 <= i < |plan| :: plan[i].outcome.Lost?) <==>
              Retry(limits, boxes, deposit, plan).1 == GaveUp
    decreases |plan|
  {
    if plan != [] && plan[0].outcome.Lost? {
      var t := plan[0];
      var cut := CutShort(limits, boxes, deposit, t.outcome.served, t.now);
      FirstAnswerCounts(limits, cut, deposit, plan[1..]);
      assert forall i | 0 < i < |plan| :: plan[i] == plan[1..][i - 1];
      hide CutShort;
      assert forall j | 0 <= j < |plan| - 1 :: plan[1..][j] == plan[j + 1];
    }
  }

  /** The relay's fan-out, cut off after some recipients. */
  method ServeRecipients(store: InMemoryStore, deposit: Deposit, served: nat, now: nat)
    requires store.Valid()
    modifies store
    ensures store.Valid()
    ensures store.mailboxes == CutShort(store.limits, old(store.mailboxes), deposit, served, now)
  {
    var n := if served < |deposit.recipients| then served else |deposit.recipients|;
    for i := 0 to n
      invariant store.Valid()
      invariant FannedOut(store.limits, store.mailboxes, deposit, deposit.recipients[..n][i..], now) ==
                FannedOut(store.limits, old(store.mailboxes), deposit, deposit.recipients[..n], now)
    {
      var rest := deposit.recipients[..n][i..];
      assert rest[0] == deposit.recipients[i] && rest[1..] == deposit.recipients[..n][i + 1..];
      store.Append(deposit.recipients[i], deposit, now, now);
    }
  }

  method DepositWithRetry(store: InMemoryStore, deposit: Deposit, plan: seq<Try>) returns (result: Sent)
    requires store.Valid() && |plan| == ATTEMPTS
    modifies store
    ensures store.Valid()
    ensures (store.mailboxes, result) == Retry(store.limits, old(store.mailboxes), deposit, plan)
    ensures forall i | 0 <= i < ATTEMPTS && (forall j | 0 <= j < i :: plan[j].outcome.Lost?) ::
              && (plan[i].outcome == Served ==> result == Delivered)
              && (plan[i].outcome == CannotConnect ==> result == NotReached)
              && (plan[i].outcome.Failed? ==> result == UnexpectedAnswer)
  {
    FirstAnswerCounts(store.limits, store.mailboxes, deposit, plan);
    for attempt := 0 to ATTEMPTS
      invariant store.Valid()
      invariant Retry(store.limits, store.mailboxes, deposit, plan[attempt..]) ==
                Retry(store.limits, old(store.mailboxes), deposit, plan)
    {
      var t := plan[attempt];
      assert plan[attempt..][0] == t && plan[attempt..][1..] == plan[attempt + 1..];
      match t.outcome
      case CannotConnect =>
        return NotReached;
      case Served =>
        assert deposit.recipients[..|deposit.recipients|] == deposit.recipients;
        ServeRecipients(store, deposit, |deposit.recipients|, t.now);
        return Delivered;
      case Failed(served) =>
        ServeRecipients(store, deposit, served, t.now);
        return UnexpectedAnswer;
      case Lost(served) =>
        ServeRecipients(store, deposit, served, t.now);
    }
    return GaveUp;
  }

  // ---- Why retrying is safe -----------------------------------------------------

  /** Nothing expires between two moments: not what is held, not what arrives in between. */
  ghost predicate Steady(limits: Limits, boxes: Mailboxes, first: nat, last: nat) {
    && first <= last
    && last - first < limits.retention
    && forall key, item | key in boxes && item in boxes[key].items && Live(limits, first, item.depositedAt) ::
         Live(limits, last, item.depositedAt)
  }

  ghost predicate SteadyBox(limits: Limits, items: seq<Item>, first: nat, last: nat) {
    && first <= last
    && last - first < limits.retention
    && forall item | item in items && Live(limits, first, item.depositedAt) :: Live(limits, last, item.depositedAt)
  }

  lemma {:induction false} SteadyPurge(limits: Limits, items: seq<Item>, first: nat, last: nat, now: nat)
    requires SteadyBox(limits, items, first, last) && first <= now <= last
    ensures Purge(limits, now, items) == Purge(limits, first, items)
    decreases |items|
  {
    if items != [] {
      assert items[0] in items;
      SteadyPurge(limits, items[1..], first, last, now);
    }
  }

  /** A mailbox offered a deposit again while nothing expires does not change. */
  lemma SecondOfferIgnored(limits: Limits, box: Mailbox, deposit: Deposit, first: nat, now: nat, again: nat, last: nat)
    requires SteadyBox(limits, box.items, first, last) && first <= now <= again <= last
    ensures var once := Deposited(limits, box, deposit, now);
            Deposited(limits, once, deposit, again) == once
  {
    var kept, once := Purge(limits, now, box.items), Deposited(limits, box, deposit, now);
    var added := Item(box.lastCursor + 1, now, deposit);
    SteadyPurge(limits, box.items, first, last, now);
    assert forall item | item in kept :: Live(limits, again, item.depositedAt);
    assert forall item | item in once.items :: item in kept || item == added;
    PurgeLive(limits, again, once.items);
    if Takes(limits, kept, deposit) {
      assert added in once.items;
    }
  }

  /** A mailbox without the moments its items arrived. */
  function Undated(box: Mailbox): (nat, seq<(nat, Deposit)>) {
    (box.lastCursor, seq(|box.items|, i requires 0 <= i < |box.items| => (box.items[i].cursor, box.items[i].deposit)))
  }

  lemma SameWhenever(limits: Limits, box: Mailbox, deposit: Deposit, first: nat, last: nat, a: nat, b: nat)
    requires SteadyBox(limits, box.items, first, last) && first <= a <= last && first <= b <= last
    ensures Undated(Deposited(limits, box, deposit, a)) == Undated(Deposited(limits, box, deposit, b))
  {
    SteadyPurge(limits, box.items, first, last, a);
    SteadyPurge(limits, box.items, first, last, b);
    var x, y := Deposited(limits, box, deposit, a), Deposited(limits, box, deposit, b);
    assert forall i | 0 <= i < |x.items| ::
      x.items[i].cursor == y.items[i].cursor && x.items[i].deposit == y.items[i].deposit;
    assert Undated(x).1 == Undated(y).1;
  }

  /** A mailbox that has seen the deposit at most once so far. */
  ghost predicate Offered(limits: Limits, before: Mailbox, box: Mailbox, deposit: Deposit, first: nat, upTo: nat) {
    box == before || exists t :: first <= t <= upTo && box == Deposited(limits, before, deposit, t)
  }

  ghost predicate AllOffered(
      limits: Limits, before: Mailboxes, boxes: Mailboxes, deposit: Deposit, first: nat, upTo: nat)
  {
    && boxes.Keys == before.Keys
    && forall key | key in before ::
         && Offered(limits, before[key], boxes[key], deposit, first, upTo)
         && (key !in deposit.recipients ==> boxes[key] == before[key])
  }

  lemma OfferOnce(
      limits: Limits, before: Mailbox, box: Mailbox, deposit: Deposit, first: nat, upTo: nat, now: nat, last: nat)
    requires SteadyBox(limits, before.items, first, last) && first <= upTo <= now <= last
    requires Offered(limits, before, box, deposit, first, upTo)
    ensures exists t :: first <= t <= now &&
              Deposited(limits, box, deposit, now) == Deposited(limits, before, deposit, t)
    ensures Offered(limits, before, Deposited(limits, box, deposit, now), deposit, first, now)
  {
    var moment: nat := now;
    if box != before {
      moment :| first <= moment <= upTo && box == Deposited(limits, before, deposit, moment);
      SecondOfferIgnored(limits, before, deposit, first, moment, now, last);
    }
    assert Deposited(limits, box, deposit, now) == Deposited(limits, before, deposit, moment);
  }

  lemma {:induction false} FanOutOffers(
      limits: Limits, before: Mailboxes, boxes: Mailboxes, deposit: Deposit, recipients: seq<PublicKey>,
      first: nat, upTo: nat, now: nat, last: nat)
    requires Steady(limits, before, first, last) && first <= upTo <= now <= last
    requires AllOffered(limits, before, boxes, deposit, first, upTo)
    requires forall r | r in recipients :: r in deposit.recipients
    ensures AllOffered(limits, before, FannedOut(limits, boxes, deposit, recipients, now), deposit, first, now)
    decreases |recipients|
  {
    forall key | key in before
      ensures Offered(limits, before[key], boxes[key], deposit, first, now)
    {
    }
    if recipients != [] {
      var r := recipients[0];
      var next := Appended(limits, boxes, r, deposit, now);
      if r in before {
        OfferOnce(limits, before[r], boxes[r], deposit, first, upTo, now, last);
      }
      FanOutOffers(limits, before, next, deposit, recipients[1..], first, now, now, last);
    }
  }

  lemma {:induction false} FanOutElsewhere(
      limits: Limits, boxes: Mailboxes, deposit: Deposit, recipients: seq<PublicKey>, now: nat, key: PublicKey)
    requires key in boxes && key !in recipients
    ensures key in FannedOut(limits, boxes, deposit, recipients, now)
    ensures FannedOut(limits, boxes, deposit, recipients, now)[key] == boxes[key]
    decreases |recipients|
  {
    if recipients != [] {
      FanOutElsewhere(limits, Appended(limits, boxes, recipients[0], deposit, now), deposit, recipients[1..], now, key);
    }
  }

  /** A full fan-out leaves every recipient's mailbox offered exactly once. */
  lemma {:induction false} FanOutReaches(
      limits: Limits, before: Mailboxes, boxes: Mailboxes, deposit: Deposit, recipients: seq<PublicKey>,
      first: nat, upTo: nat, now: nat, last: nat, key: PublicKey)
    requires Steady(limits, before, first, last) && first <= upTo <= now <= last
    requires AllOffered(limits, before, boxes, deposit, first, upTo)
    requires forall r | r in recipients :: r in deposit.recipients
    requires key in recipients && key in before
    ensures key in FannedOut(limits, boxes, deposit, recipients, now)
    ensures exists t :: first <= t <= now &&
              FannedOut(limits, boxes, deposit, recipients, now)[key] == Deposited(limits, before[key], deposit, t)
    decreases |recipients|
  {
    var r, rest := recipients[0], recipients[1..];
    var next := Appended(limits, boxes, r, deposit, now);
    FanOutOffers(limits, before, boxes, deposit, [r], first, upTo, now, last);
    assert FannedOut(limits, boxes, deposit, [r], now) == next;
    if key in rest {
      FanOutReaches(limits, before, next, deposit, rest, first, now, now, last, key);
    } else {
      OfferOnce(limits, before[r], boxes[r], deposit, first, upTo, now, last);
      FanOutElsewhere(limits, next, deposit, rest, now, key);
    }
  }

  ghost predicate PlanWithin(plan: seq<Try>, first: nat, last: nat) {
    && (forall i | 0 <= i < |plan| :: first <= plan[i].now <= last)
    && forall i, j | 0 <= i < j < |plan| :: plan[i].now <= plan[j].now
  }

  lemma OfferedLater(
      limits: Limits, before: Mailboxes, boxes: Mailboxes, deposit: Deposit, first: nat, upTo: nat, last: nat)
    requires upTo <= last && AllOffered(limits, before, boxes, deposit, first, upTo)
    ensures AllOffered(limits, before, boxes, deposit, first, last)
  {
  }

  /** Whatever the plan, no mailbox takes the deposit twice; after success every recipient's has been offered it. */
  lemma {:induction false} RetryOffers(
      limits: Limits, before: Mailboxes, boxes: Mailboxes, deposit: Deposit, plan: seq<Try>,
      first: nat, upTo: nat, last: nat)
    requires Steady(limits, before, first, last) && first <= upTo <= last
    requires PlanWithin(plan, upTo, last)
    requires AllOffered(limits, before, boxes, deposit, first, upTo)
    ensures var (end, sent) := Retry(limits, boxes, deposit, plan);
            && AllOffered(limits, before, end, deposit, first, last)
            && (sent.Delivered? ==> forall key | key in before && key in deposit.recipients ::
                  exists t :: first <= t <= last && end[key] == Deposited(limits, before[key], deposit, t))
    decreases |plan|
  {
    if plan != [] {
      var now, outcome := plan[0].now, plan[0].outcome;
      var n := |deposit.recipients|;
      var cut := match outcome
        case Lost(served) => if served < n then served else n
        case Failed(served) => if served < n then served else n
        case _ => n;
      FanOutOffers(limits, before, boxes, deposit, deposit.recipients[..cut], first, upTo, now, last);
      assert deposit.recipients[..n] == deposit.recipients;
      if outcome.Lost? {
        assert PlanWithin(plan[1..], now, last) by {
          assert forall i | 0 <= i < |plan[1..]| :: plan[1..][i] == plan[i + 1];
        }
        RetryOffers(limits, before, FannedOut(limits, boxes, deposit, deposit.recipients[..cut], now),
                    deposit, plan[1..], first, now, last);
      } else if outcome.Served? {
        forall key | key in before && key in deposit.recipients
          ensures exists t :: first <= t <= last &&
                    FannedOut(limits, boxes, deposit, deposit.recipients, now)[key] ==
                    Deposited(limits, before[key], deposit, t)
        {
          FanOutReaches(limits, before, boxes, deposit, deposit.recipients, first, upTo, now, last, key);
        }
      }
    }
    OfferedLater(limits, before, boxes, deposit, first, upTo, last);
  }

  /** What a successful retry makes of one mailbox. */
  lemma RetriedBox(
      limits: Limits, boxes: Mailboxes, deposit: Deposit, plan: seq<Try>, first: nat, last: nat, key: PublicKey)
      returns (at: nat)
    requires Steady(limits, boxes, first, last) && PlanWithin(plan, first, last)
    requires Retry(limits, boxes, deposit, plan).1.Delivered? && key in boxes
    ensures var retried := Retry(limits, boxes, deposit, plan).0;
            && key in retried && first <= at <= last
            && retried[key] ==
                 if key in deposit.recipients then Deposited(limits, boxes[key], deposit, at) else boxes[key]
  {
    at := first;
    RetryOffers(limits, boxes, boxes, deposit, plan, first, first, last);
    hide Deposited, Steady, Retry;
    if key in deposit.recipients {
      at :| first <= at <= last &&
            Retry(limits, boxes, deposit, plan).0[key] == Deposited(limits, boxes[key], deposit, at);
    }
  }

  lemma FannedBox(limits: Limits, boxes: Mailboxes, deposit: Deposit, first: nat, last: nat, key: PublicKey)
      returns (at: nat)
    requires Steady(limits, boxes, first, last) && key in boxes
    ensures var once := FannedOut(limits, boxes, deposit, deposit.recipients, last);
            && key in once && first <= at <= last
            && once[key] == if key in deposit.recipients then Deposited(limits, boxes[key], deposit, at) else boxes[key]
  {
    at := first;
    if key in deposit.recipients {
      FanOutReaches(limits, boxes, boxes, deposit, deposit.recipients, first, first, last, last, key);
      hide Deposited, Steady, FannedOut;
      at :| first <= at <= last &&
            FannedOut(limits, boxes, deposit, deposit.recipients, last)[key] ==
              Deposited(limits, boxes[key], deposit, at);
    } else {
      FanOutElsewhere(limits, boxes, deposit, deposit.recipients, last, key);
    }
  }

  /** Two mailboxes that each took the deposit once, or were left alone; they differ in recorded moments at most. */
  ghost predicate OneDeposit(
      limits: Limits, before: Mailbox, a: Mailbox, b: Mailbox, deposit: Deposit, listed: bool, first: nat, last: nat)
  {
    && (listed ==> exists t :: first <= t <= last && a == Deposited(limits, before, deposit, t))
    && (!listed ==> a == before)
    && Undated(a) == Undated(b)
    && (first == last ==> a == b)
  }

  lemma BothOneDeposit(
      limits: Limits, before: Mailbox, a: Mailbox, b: Mailbox, deposit: Deposit, listed: bool,
      first: nat, last: nat, s: nat, t: nat)
    requires SteadyBox(limits, before.items, first, last) && first <= s <= last && first <= t <= last
    requires a == if listed then Deposited(limits, before, deposit, s) else before
    requires b == if listed then Deposited(limits, before, deposit, t) else before
    ensures OneDeposit(limits, before, a, b, deposit, listed, first, last)
  {
    SameWhenever(limits, before, deposit, first, last, s, t);
  }

  /**
   * A retry that succeeds leaves every mailbox as one successful deposit would, whatever
   * was lost on the way: recipients listed twice, fan-outs cut short, replies that never
   * arrived. Each recipient's mailbox is what a single deposit at one moment makes of it,
   * so only the recorded moments can differ from one fan-out, and not even those when the
   * clock stands still.
   */
  lemma RetryIsOneDeposit(
      limits: Limits, boxes: Mailboxes, deposit: Deposit, plan: seq<Try>, first: nat, last: nat, key: PublicKey)
    requires Steady(limits, boxes, first, last) && PlanWithin(plan, first, last)
    requires Retry(limits, boxes, deposit, plan).1.Delivered?
    requires key in boxes
    ensures var retried := Retry(limits, boxes, deposit, plan).0;
            var once := FannedOut(limits, boxes, deposit, deposit.recipients, last);
            && key in retried && key in once
            && OneDeposit(limits, boxes[key], retried[key], once[key], deposit, key in deposit.recipients, first, last)
  {
    var s := RetriedBox(limits, boxes, deposit, plan, first, last, key);
    var t := FannedBox(limits, boxes, deposit, first, last, key);
    assert SteadyBox(limits, boxes[key].items, first, last);
    hide *;
    BothOneDeposit(limits, boxes[key], Retry(limits, boxes, deposit, plan).0[key],
                   FannedOut(limits, boxes, deposit, deposit.recipients, last)[key],
                   deposit, key in deposit.recipients, first, last, s, t);
  }
}
