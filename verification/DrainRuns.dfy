/**
 * One device draining its mailbox while everyone else keeps using the relay: other
 * devices register, deposit, fetch and acknowledge between any two of its requests, and
 * its own connection may start over. No message is lost.
 */
module DrainRuns {
  import opened Basics
  import opened Messages
  import opened Mailboxes
  import opened MailboxServices
  import opened RelayRuns
  import opened Drains

  /**
   * The relay, its clock, and the draining client: where it fetches from, the page cursor
   * it has yet to acknowledge, and everything it has received. `history` collects every
   * item ever held for the client, `expired` those that went without being acknowledged.
   */
  datatype World = World(
    boxes: Mailboxes,
    clock: nat,
    after: nat,
    pending: Option<nat>,
    received: set<Item>,
    history: set<Item>,
    expired: set<Item>)

  /** Each event comes `wait` after the one before it. */
  datatype Event =
    | Other(caller: PublicKey, op: Op, wait: nat)
    | FetchPage(wait: nat)
    | AckPage(wait: nat)
    | Restart

  function MarkOf(boxes: Mailboxes, me: PublicKey): nat {
    if me in boxes then boxes[me].lastCursor else 0
  }

  /** Book-keeping around a request other than the client's own acknowledgement. */
  function Observe(w: World, boxes: Mailboxes, me: PublicKey, now: nat): World {
    var before, held := ToSet(HeldFor(w.boxes, me)), ToSet(HeldFor(boxes, me));
    World(boxes, now, w.after, w.pending, w.received, w.history + held, w.expired + (before - held))
  }

  function LastCursorOf(page: seq<Item>): Option<nat> {
    if |page| == 0 then None else Some(page[|page| - 1].cursor)
  }

  function Receive(w: World, page: seq<Item>): World {
    World(w.boxes, w.clock, w.after, LastCursorOf(page), w.received + ToSet(page), w.history, w.expired)
  }

  function Serving(
      limits: Limits, policy: Policy, me: PublicKey, w: World, caller: PublicKey, op: Op, now: nat): World
  {
    Observe(w, Serve(limits, policy, w.boxes, caller, op, now).0, me, now)
  }

  function Acknowledging(me: PublicKey, w: World, now: nat): World
    requires w.pending.Some?
  {
    World(Acked(w.boxes, me, w.pending.value), now, w.pending.value, None, w.received, w.history, w.expired)
  }

  function Restarting(w: World): World {
    World(w.boxes, w.clock, 0, None, w.received, w.history, w.expired)
  }

  function Fetching(limits: Limits, me: PublicKey, w: World, now: nat): World {
    Receive(Observe(w, Purged(limits, w.boxes, me, now), me, now), RoundPageOf(limits, w.boxes, me, w.after, now))
  }

  function Step(limits: Limits, policy: Policy, me: PublicKey, w: World, event: Event): World {
    match event
    case Other(caller, op, wait) =>
      if caller == me && op.Ack? then w else
        Serving(limits, policy, me, w, caller, op, w.clock + wait)
    case FetchPage(wait) =>
      if w.pending.Some? then w else Fetching(limits, me, w, w.clock + wait)
    case AckPage(wait) =>
      if w.pending.None? then w else
        Acknowledging(me, w, w.clock + wait)
    case Restart => Restarting(w)
  }

  function Run(limits: Limits, policy: Policy, me: PublicKey, w: World, events: seq<Event>): World
    decreases |events|
  {
    if events == [] then w else Run(limits, policy, me, Step(limits, policy, me, w, events[0]), events[1..])
  }

  lemma QuietSteps(limits: Limits, policy: Policy, me: PublicKey, w: World, at: nat, later: nat)
    requires w.pending == None
    ensures var served := Serve(limits, policy, w.boxes, me, Op.Fetch(w.after), at);
            && served.1.Envelopes?
            && var page, fetched := served.1.items, Fetching(limits, me, w, at);
            && fetched.received == w.received + ToSet(page)
            && fetched.boxes == served.0 && fetched.after == w.after && fetched.clock == at
            && (|page| == 0 ==> fetched.pending == None)
            && (|page| > 0 ==>
                  && fetched.pending == Some(page[|page| - 1].cursor)
                  && var end := Acknowledging(me, fetched, later);
                  && end.received == fetched.received && end.pending == None
                  && end.after == page[|page| - 1].cursor
                  && end.boxes == Serve(limits, policy, served.0, me, Op.Ack(page[|page| - 1].cursor), later).0)
  {
    hide Page, Purged, Fetched, Acked;
  }

  lemma ClientStep(limits: Limits, policy: Policy, me: PublicKey, w: World, event: Event, at: nat)
    requires event.FetchPage? || event.AckPage?
    requires at == w.clock + event.wait
    ensures Step(limits, policy, me, w, event) ==
              if w.pending.Some? == event.FetchPage? then w
              else if event.FetchPage? then Fetching(limits, me, w, at)
              else Acknowledging(me, w, at)
  {
    hide Fetching, Acknowledging;
  }

  lemma TwoEvents(limits: Limits, policy: Policy, me: PublicKey, w: World, a: Event, b: Event)
    ensures Run(limits, policy, me, w, [a, b]) == Step(limits, policy, me, Step(limits, policy, me, w, a), b)
  {
    hide Step;
    var next := Step(limits, policy, me, w, a);
    assert [a, b][1..] == [b] && [b][1..] == [];
    assert Run(limits, policy, me, next, [b]) == Step(limits, policy, me, next, b);
  }

  /** A round nothing comes between: the page served is received, and its last cursor acknowledged if it has one. */
  lemma QuietRound(
      limits: Limits, policy: Policy, me: PublicKey, w: World, fetch: nat, ack: nat, at: nat, later: nat)
    requires w.pending == None && at == w.clock + fetch && later == at + ack
    ensures var served := Serve(limits, policy, w.boxes, me, Op.Fetch(w.after), at);
            var end := Run(limits, policy, me, w, [FetchPage(fetch), AckPage(ack)]);
            && served.1.Envelopes?
            && var page := served.1.items;
            && end.received == w.received + ToSet(page)
            && end.pending == None
            && end.after == (if |page| == 0 then w.after else page[|page| - 1].cursor)
            && end.boxes ==
                 if |page| == 0 then served.0
                 else Serve(limits, policy, served.0, me, Op.Ack(page[|page| - 1].cursor), later).0
  {
    hide *;
    TwoEvents(limits, policy, me, w, FetchPage(fetch), AckPage(ack));
    QuietSteps(limits, policy, me, w, at, later);
    ClientStep(limits, policy, me, w, FetchPage(fetch), at);
    ClientStep(limits, policy, me, Fetching(limits, me, w, at), AckPage(ack), later);
  }

  // ---- The invariant ------------------------------------------------------------

  /** Everything up to a cursor has been received. */
  ghost predicate CoveredUpTo(held: seq<Item>, received: set<Item>, cursor: nat) {
    forall item | item in held && item.cursor <= cursor :: item in received
  }

  ghost predicate Covered(w: World, me: PublicKey) {
    var held := HeldFor(w.boxes, me);
    && w.after <= MarkOf(w.boxes, me)
    && CoveredUpTo(held, w.received, w.after)
    && (w.pending.Some? ==>
          w.pending.value <= MarkOf(w.boxes, me) && CoveredUpTo(held, w.received, w.pending.value))
  }

  /** Everything ever held is still held, was received, or outlived the retention backstop. */
  ghost predicate Accounted(limits: Limits, w: World, me: PublicKey) {
    && ToSet(HeldFor(w.boxes, me)) <= w.history
    && w.history <= ToSet(HeldFor(w.boxes, me)) + w.received + w.expired
    && forall item | item in w.expired :: !Live(limits, w.clock, item.depositedAt)
  }

  ghost predicate WorldOk(limits: Limits, w: World, me: PublicKey) {
    AllOk(limits, w.boxes) && Covered(w, me) && Accounted(limits, w, me)
  }

  /** A request that is not the client's acknowledgement: the mark stands, news lies above it, only expired items go. */
  ghost predicate Disturbs(limits: Limits, boxes: Mailboxes, boxes': Mailboxes, me: PublicKey, now: nat) {
    && MarkOf(boxes, me) <= MarkOf(boxes', me)
    && (forall item | item in HeldFor(boxes', me) :: item in HeldFor(boxes, me) || item.cursor > MarkOf(boxes, me))
    && forall item | item in HeldFor(boxes, me) && item !in HeldFor(boxes', me) :: !Live(limits, now, item.depositedAt)
  }

  lemma ObserveKeeps(limits: Limits, w: World, boxes': Mailboxes, me: PublicKey, now: nat)
    requires WorldOk(limits, w, me) && AllOk(limits, boxes')
    requires w.clock <= now && Disturbs(limits, w.boxes, boxes', me, now)
    ensures WorldOk(limits, Observe(w, boxes', me, now), me)
  {
  }

  lemma {:induction false} FanOutKeepsLive(
      limits: Limits, boxes: Mailboxes, deposit: Deposit, recipients: seq<PublicKey>, now: nat, me: PublicKey)
    ensures forall item | item in HeldFor(boxes, me) && Live(limits, now, item.depositedAt) ::
              item in HeldFor(FannedOut(limits, boxes, deposit, recipients, now), me)
    decreases |recipients|
  {
    if recipients != [] {
      var next := Appended(limits, boxes, recipients[0], deposit, now);
      FanOutKeepsLive(limits, next, deposit, recipients[1..], now, me);
      if me in boxes && recipients[0] == me {
        var live := Purge(limits, now, boxes[me].items);
        assert forall item | item in live :: item in HeldFor(next, me);
      }
    }
  }

  lemma {:induction false} FanOutKeys(
      limits: Limits, boxes: Mailboxes, deposit: Deposit, recipients: seq<PublicKey>, now: nat)
    ensures FannedOut(limits, boxes, deposit, recipients, now).Keys == boxes.Keys
    decreases |recipients|
  {
    if recipients != [] {
      FanOutKeys(limits, Appended(limits, boxes, recipients[0], deposit, now), deposit, recipients[1..], now);
    }
  }

  lemma OthersDisturb(
      limits: Limits, policy: Policy, boxes: Mailboxes, caller: PublicKey, op: Op, me: PublicKey, now: nat)
    requires !(caller == me && op.Ack?)
    ensures Disturbs(limits, boxes, Serve(limits, policy, boxes, caller, op, now).0, me, now)
  {
    var boxes' := Serve(limits, policy, boxes, caller, op, now).0;
    ServeSucceeds(limits, policy, boxes, Request(caller, op, now));
    if op.Submit? {
      FanOutKeepsLive(limits, boxes, op.deposit, op.deposit.recipients, now, me);
      FanOutKeys(limits, boxes, op.deposit, op.deposit.recipients, now);
    }
    assert me !in boxes ==> HeldFor(boxes', me) == [];
  }

  lemma PurgeDisturbs(limits: Limits, boxes: Mailboxes, me: PublicKey, now: nat)
    ensures Disturbs(limits, boxes, Purged(limits, boxes, me, now), me, now)
  {
  }

  lemma ServeAllOk(limits: Limits, policy: Policy, boxes: Mailboxes, caller: PublicKey, op: Op, now: nat)
    requires AllOk(limits, boxes)
    ensures AllOk(limits, Serve(limits, policy, boxes, caller, op, now).0)
  {
    match op
    case Register =>
    case Submit(deposit) => FannedOutOk(limits, boxes, deposit, deposit.recipients, now);
    case Fetch(_) => PurgedOk(limits, boxes, caller, now);
    case Ack(upTo) => AckedOk(limits, boxes, caller, upTo);
  }

  /** A page leaves nothing unreceived below its last cursor. */
  lemma PageCovers(limits: Limits, boxes: Mailboxes, me: PublicKey, after: nat, now: nat, received: set<Item>)
    requires AllOk(limits, boxes)
    requires CoveredUpTo(HeldFor(boxes, me), received, after)
    ensures var page := RoundPageOf(limits, boxes, me, after, now);
            var held := HeldFor(Purged(limits, boxes, me, now), me);
            page != [] ==>
              && page[|page| - 1].cursor <= MarkOf(Purged(limits, boxes, me, now), me)
              && CoveredUpTo(held, received + ToSet(page), page[|page| - 1].cursor)
  {
    var due := Fetched(limits, boxes, me, after, now);
    var page := RoundPageOf(limits, boxes, me, after, now);
    PageIsMaximalPrefix(due, MAX_FETCH_PAGE_BYTES);
    if page != [] {
      var live := Purge(limits, now, boxes[me].items);
      PurgeSubsequence(limits, now, boxes[me].items);
      SubsequenceKeeps(live, boxes[me].items);
      IncreasingAbove(live, after);
      var cut := page[|page| - 1].cursor;
      PrefixCursors(due, page);
      forall item | item in live && item.cursor <= cut
        ensures item in received + ToSet(page)
      {
        if item.cursor > after {
          PrefixHoldsAllUpTo(due, page, item);
        }
      }
    }
  }

  ghost predicate PageReaches(w: World, me: PublicKey, page: seq<Item>)
    requires page != []
  {
    && page[|page| - 1].cursor <= MarkOf(w.boxes, me)
    && CoveredUpTo(HeldFor(w.boxes, me), w.received + ToSet(page), page[|page| - 1].cursor)
  }

  /** Receiving a page that covers everything up to its cursor. */
  lemma ReceiveKeeps(limits: Limits, w: World, me: PublicKey, page: seq<Item>)
    requires WorldOk(limits, w, me)
    requires page != [] ==> PageReaches(w, me, page)
    ensures WorldOk(limits, Receive(w, page), me)
  {
  }

  lemma FetchKeeps(
      limits: Limits, me: PublicKey, w: World, now: nat, page: seq<Item>, purged: Mailboxes, seen: World)
    requires WorldOk(limits, w, me) && w.clock <= now
    requires page == RoundPageOf(limits, w.boxes, me, w.after, now)
    requires purged == Purged(limits, w.boxes, me, now) && seen == Observe(w, purged, me, now)
    ensures WorldOk(limits, Receive(seen, page), me)
  {
    PurgeDisturbs(limits, w.boxes, me, now);
    PurgedOk(limits, w.boxes, me, now);
    ObserveKeeps(limits, w, purged, me, now);
    PageCovers(limits, w.boxes, me, w.after, now, w.received);
    ReceiveKeeps(limits, seen, me, page);
  }

  lemma AckDropsReceived(me: PublicKey, w: World, now: nat, item: Item)
    requires w.pending.Some? && Covered(w, me)
    requires item in HeldFor(w.boxes, me) && item !in HeldFor(Acknowledging(me, w, now).boxes, me)
    ensures item in w.received && item.cursor <= w.pending.value
  {
  }

  lemma AckKeeps(limits: Limits, me: PublicKey, w: World, now: nat)
    requires WorldOk(limits, w, me) && w.pending.Some? && w.clock <= now
    ensures WorldOk(limits, Acknowledging(me, w, now), me)
  {
    AckedOk(limits, w.boxes, me, w.pending.value);
  }

  lemma OtherKeeps(
      limits: Limits, policy: Policy, me: PublicKey, w: World, caller: PublicKey, op: Op, now: nat)
    requires WorldOk(limits, w, me) && !(caller == me && op.Ack?) && w.clock <= now
    ensures WorldOk(limits, Serving(limits, policy, me, w, caller, op, now), me)
  {
    OthersDisturb(limits, policy, w.boxes, caller, op, me, now);
    ServeAllOk(limits, policy, w.boxes, caller, op, now);
    ObserveKeeps(limits, w, Serve(limits, policy, w.boxes, caller, op, now).0, me, now);
  }

  /** Which book-keeping each event amounts to. */
  lemma StepCases(limits: Limits, policy: Policy, me: PublicKey, w: World, event: Event)
    ensures var next := Step(limits, policy, me, w, event);
            || next == w
            || (event.Other? && !(event.caller == me && event.op.Ack?)
                && next == Serving(limits, policy, me, w, event.caller, event.op, w.clock + event.wait))
            || (event.FetchPage? && w.pending.None? && next == Fetching(limits, me, w, w.clock + event.wait))
            || (event.AckPage? && w.pending.Some? && next == Acknowledging(me, w, w.clock + event.wait))
            || next == Restarting(w)
  {
    hide Fetching, Serving, Acknowledging, Restarting;
  }

  lemma FetchingKeeps(limits: Limits, me: PublicKey, w: World, now: nat)
    requires WorldOk(limits, w, me) && w.clock <= now
    ensures WorldOk(limits, Fetching(limits, me, w, now), me)
  {
    var page, purged := RoundPageOf(limits, w.boxes, me, w.after, now), Purged(limits, w.boxes, me, now);
    var seen := Observe(w, purged, me, now);
    FetchKeeps(limits, me, w, now, page, purged, seen);
  }

  lemma RestartKeeps(limits: Limits, me: PublicKey, w: World)
    requires WorldOk(limits, w, me)
    ensures WorldOk(limits, Restarting(w), me)
  {
  }

  lemma StepKeeps(limits: Limits, policy: Policy, me: PublicKey, w: World, event: Event)
    requires WorldOk(limits, w, me)
    ensures WorldOk(limits, Step(limits, policy, me, w, event), me)
  {
    hide *;
    StepCases(limits, policy, me, w, event);
    RestartKeeps(limits, me, w);
    if event.Other? && !(event.caller == me && event.op.Ack?) {
      OtherKeeps(limits, policy, me, w, event.caller, event.op, w.clock + event.wait);
    } else if event.FetchPage? && w.pending.None? {
      FetchingKeeps(limits, me, w, w.clock + event.wait);
    } else if event.AckPage? && w.pending.Some? {
      AckKeeps(limits, me, w, w.clock + event.wait);
    }
  }

  lemma {:induction false} RunKeeps(limits: Limits, policy: Policy, me: PublicKey, w: World, events: seq<Event>)
    requires WorldOk(limits, w, me)
    ensures WorldOk(limits, Run(limits, policy, me, w, events), me)
    decreases |events|
  {
    if events != [] {
      StepKeeps(limits, policy, me, w, events[0]);
      RunKeeps(limits, policy, me, Step(limits, policy, me, w, events[0]), events[1..]);
    }
  }

  /** A drain about to start. */
  function Starting(boxes: Mailboxes, clock: nat, me: PublicKey): World {
    World(boxes, clock, 0, None, {}, ToSet(HeldFor(boxes, me)), {})
  }

  lemma RunFromStartKeeps(
      limits: Limits, policy: Policy, me: PublicKey, boxes: Mailboxes, clock: nat, events: seq<Event>)
    requires AllOk(limits, boxes)
    ensures WorldOk(limits, Run(limits, policy, me, Starting(boxes, clock, me), events), me)
  {
    RunKeeps(limits, policy, me, Starting(boxes, clock, me), events);
  }

  /**
   * Starting a drain at any relay: whatever interleaves, every item that was ever held for
   * the client is still held, has been received, or has outlived the retention backstop.
   */
  lemma NothingIsLost(limits: Limits, policy: Policy, me: PublicKey, boxes: Mailboxes, clock: nat, events: seq<Event>)
    requires AllOk(limits, boxes)
    ensures var w := Run(limits, policy, me, Starting(boxes, clock, me), events);
            forall item | item in w.history ::
              || item in HeldFor(w.boxes, me)
              || item in w.received
              || !Live(limits, w.clock, item.depositedAt)
  {
    RunFromStartKeeps(limits, policy, me, boxes, clock, events);
  }

  /** At any point of any such run, the client's next acknowledgement removes only items it has received. */
  lemma AckRemovesOnlyReceived(
      limits: Limits, policy: Policy, me: PublicKey, boxes: Mailboxes, clock: nat, events: seq<Event>,
      wait: nat, item: Item)
    requires AllOk(limits, boxes)
    requires var w := Run(limits, policy, me, Starting(boxes, clock, me), events);
             item in HeldFor(w.boxes, me) && item !in HeldFor(Step(limits, policy, me, w, AckPage(wait)).boxes, me)
    ensures item in Run(limits, policy, me, Starting(boxes, clock, me), events).received
  {
    var w := Run(limits, policy, me, Starting(boxes, clock, me), events);
    RunFromStartKeeps(limits, policy, me, boxes, clock, events);
    StepCases(limits, policy, me, w, AckPage(wait));
    assert Covered(w, me);
    hide *;
    if w.pending.Some? {
      AckDropsReceived(me, w, w.clock + wait, item);
    }
  }

  /** And while a page is unacknowledged, whatever arrives lies above its cursor. */
  lemma DepositsLieAbovePage(
      limits: Limits, policy: Policy, me: PublicKey, boxes: Mailboxes, clock: nat, events: seq<Event>,
      caller: PublicKey, op: Op, wait: nat, item: Item)
    requires AllOk(limits, boxes) && !(caller == me && op.Ack?)
    requires var w := Run(limits, policy, me, Starting(boxes, clock, me), events);
             && w.pending.Some?
             && item !in HeldFor(w.boxes, me)
             && item in HeldFor(Step(limits, policy, me, w, Other(caller, op, wait)).boxes, me)
    ensures item.cursor > Run(limits, policy, me, Starting(boxes, clock, me), events).pending.value
  {
    var w := Run(limits, policy, me, Starting(boxes, clock, me), events);
    RunFromStartKeeps(limits, policy, me, boxes, clock, events);
    assert Covered(w, me);
    hide Run, WorldOk, Accounted, Starting;
    OthersDisturb(limits, policy, w.boxes, caller, op, me, w.clock + wait);
  }
}
