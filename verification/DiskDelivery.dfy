/**
 * What a device is promised of the relay as deployed: draining its mailbox, and retrying a
 * deposit, over the on-disk store. Both are carried over from the memory store, which the
 * files follow request by request.
 */
module DiskDeliveries {
  import opened Basics
  import opened Messages
  import opened Mailboxes
  import opened FsMailboxes
  import opened StoreRefinement
  import opened MailboxServices
  import opened RelayRuns
  import opened DiskRelays
  import opened DiskCeilings
  import opened Drains
  import opened DrainRuns
  import opened DepositRetries

  /** Everything the files of one mailbox record, expired or not. */
  ghost function OnFile(root: Root, me: PublicKey): set<Item>
    requires AllIntact(root)
  {
    if me in root then set n | n in NamesIn(root[me]) :: ItemOf(root[me], n) else {}
  }

  // ---- Any relay a run of requests leaves ---------------------------------------

  lemma {:induction false} RunKeepsRelated(
      limits: Limits, policy: Policy, last: nat, root: Root, boxes: Mailboxes, requests: seq<Request>, clock: nat)
    requires Related(limits, last, root, boxes) && ClockAdvances(last, requests)
    requires last <= clock && EndsBy(requests, clock)
    ensures Related(limits, clock, RootAfter(limits, policy, root, requests), ServeAll(limits, policy, boxes, requests))
    decreases |requests|
  {
    if requests == [] {
      RelatedLater(limits, last, clock, root, boxes);
    } else {
      var r, rest := requests[0], requests[1..];
      RequestRefines(limits, policy, last, root, boxes, r);
      assert ClockAdvances(r.now, rest) && EndsBy(rest, clock) by {
        assert forall i | 0 <= i < |rest| :: rest[i] == requests[i + 1];
      }
      RunKeepsRelated(limits, policy, r.now, ServeOnDisk(limits, policy, root, r).0,
                      Serve(limits, policy, boxes, r.caller, r.op, r.now).0, rest, clock);
    }
  }

  /** A relay on disk after some requests, and what one in memory would hold. */
  lemma FromFresh(limits: Limits, policy: Policy, requests: seq<Request>, clock: nat)
    requires ClockAdvances(0, requests) && EndsBy(requests, clock)
    ensures var root, boxes := RootAfter(limits, policy, map[], requests), ServeAll(limits, policy, map[], requests);
            Related(limits, clock, root, boxes) && AllBacked(root, boxes)
  {
    RunKeepsRelated(limits, policy, 0, map[], map[], requests, clock);
    RunKeepsBacked(limits, policy, 0, map[], map[], requests);
  }

  // ---- Draining -----------------------------------------------------------------

  /** The relay's files, its clock, and the draining client; `history` collects every item ever on file for it. */
  datatype DiskWorld = DiskWorld(
    root: Root,
    clock: nat,
    after: nat,
    pending: Option<nat>,
    received: set<Item>,
    history: set<Item>)

  ghost function StartingOnDisk(root: Root, clock: nat, me: PublicKey): DiskWorld
    requires AllIntact(root)
  {
    DiskWorld(root, clock, 0, None, {}, OnFile(root, me))
  }

  /** The relay after one request. */
  ghost function ServedOnDisk(
      limits: Limits, policy: Policy, me: PublicKey, d: DiskWorld, caller: PublicKey, op: Op, now: nat): (r: DiskWorld)
    requires AllIntact(d.root)
    ensures AllIntact(r.root)
  {
    var root := ServeOnDisk(limits, policy, d.root, Request(caller, op, now)).0;
    DiskWorld(root, now, d.after, d.pending, d.received, d.history + OnFile(root, me))
  }

  ghost function PageOnDisk(limits: Limits, policy: Policy, me: PublicKey, d: DiskWorld, now: nat): seq<Item>
    requires AllIntact(d.root)
  {
    ServeOnDisk(limits, policy, d.root, Request(me, Op.Fetch(d.after), now)).1.items
  }

  ghost function FetchingOnDisk(
      limits: Limits, policy: Policy, me: PublicKey, d: DiskWorld, now: nat): (r: DiskWorld)
    requires AllIntact(d.root)
    ensures AllIntact(r.root)
  {
    var page := PageOnDisk(limits, policy, me, d, now);
    var next := ServedOnDisk(limits, policy, me, d, me, Op.Fetch(d.after), now);
    DiskWorld(next.root, now, d.after, LastCursorOf(page), d.received + ToSet(page), next.history)
  }

  ghost function AckingOnDisk(limits: Limits, policy: Policy, me: PublicKey, d: DiskWorld, now: nat): (r: DiskWorld)
    requires AllIntact(d.root) && d.pending.Some?
    ensures AllIntact(r.root)
  {
    var next := ServedOnDisk(limits, policy, me, d, me, Op.Ack(d.pending.value), now);
    DiskWorld(next.root, now, d.pending.value, None, d.received, next.history)
  }

  ghost function StepOnDisk(limits: Limits, policy: Policy, me: PublicKey, d: DiskWorld, event: Event): (r: DiskWorld)
    requires AllIntact(d.root)
    ensures AllIntact(r.root)
  {
    match event
    case Other(caller, op, wait) =>
      if caller == me && op.Ack? then d else ServedOnDisk(limits, policy, me, d, caller, op, d.clock + wait)
    case FetchPage(wait) =>
      if d.pending.Some? then d else FetchingOnDisk(limits, policy, me, d, d.clock + wait)
    case AckPage(wait) =>
      if d.pending.None? then d else AckingOnDisk(limits, policy, me, d, d.clock + wait)
    case Restart => DiskWorld(d.root, d.clock, 0, None, d.received, d.history)
  }

  ghost function RunOnDisk(
      limits: Limits, policy: Policy, me: PublicKey, d: DiskWorld, events: seq<Event>): (r: DiskWorld)
    requires AllIntact(d.root)
    ensures AllIntact(r.root)
    decreases |events|
  {
    if events == [] then d else
      RunOnDisk(limits, policy, me, StepOnDisk(limits, policy, me, d, events[0]), events[1..])
  }

  /** The same client at a relay on disk and at one in memory. */
  ghost predicate Follows(limits: Limits, me: PublicKey, d: DiskWorld, w: World) {
    && Related(limits, d.clock, d.root, w.boxes)
    && AllBacked(d.root, w.boxes)
    && d.clock == w.clock && d.after == w.after && d.pending == w.pending && d.received == w.received
    && d.history <= w.history
  }

  lemma OnFileIsHeld(root: Root, boxes: Mailboxes, me: PublicKey)
    requires AllIntact(root) && AllBacked(root, boxes)
    ensures OnFile(root, me) <= ToSet(HeldFor(boxes, me))
  {
    if me in root {
      assert Backed(root[me], boxes[me]);
    }
  }

  /** One request keeps the relays in step. */
  lemma RequestFollows(
      limits: Limits, policy: Policy, last: nat, root: Root, boxes: Mailboxes, r: Request, me: PublicKey)
    requires Related(limits, last, root, boxes) && AllBacked(root, boxes) && last <= r.now
    ensures var disk := ServeOnDisk(limits, policy, root, r);
            var memory := Serve(limits, policy, boxes, r.caller, r.op, r.now);
            && Related(limits, r.now, disk.0, memory.0)
            && AllBacked(disk.0, memory.0)
            && disk.1 == memory.1
            && OnFile(disk.0, me) <= ToSet(HeldFor(memory.0, me))
  {
    RelatedLater(limits, last, r.now, root, boxes);
    RequestRefines(limits, policy, last, root, boxes, r);
    RequestKeepsBacked(limits, policy, root, boxes, r);
    OnFileIsHeld(ServeOnDisk(limits, policy, root, r).0, Serve(limits, policy, boxes, r.caller, r.op, r.now).0, me);
  }

  lemma OtherFollows(
      limits: Limits, policy: Policy, me: PublicKey, d: DiskWorld, w: World, caller: PublicKey, op: Op, now: nat)
    requires Follows(limits, me, d, w) && d.clock <= now
    ensures Follows(limits, me, ServedOnDisk(limits, policy, me, d, caller, op, now),
                    Serving(limits, policy, me, w, caller, op, now))
  {
    RequestFollows(limits, policy, d.clock, d.root, w.boxes, Request(caller, op, now), me);
    hide Related, AllBacked, ServeOnDisk, Serve, OnFile, HeldFor;
  }

  /** What a fetch is, in memory, as a request. */
  lemma FetchIsServed(limits: Limits, policy: Policy, me: PublicKey, w: World, now: nat)
    ensures var served := Serve(limits, policy, w.boxes, me, Op.Fetch(w.after), now);
            served == (Purged(limits, w.boxes, me, now), Envelopes(RoundPageOf(limits, w.boxes, me, w.after, now)))
  {
    hide Purged, Page, Fetched;
  }

  /** Where a fetch leaves the client in memory. */
  lemma FetchingFields(limits: Limits, me: PublicKey, w: World, now: nat)
    ensures var next, page := Fetching(limits, me, w, now), RoundPageOf(limits, w.boxes, me, w.after, now);
            && next.boxes == Purged(limits, w.boxes, me, now)
            && next.clock == now && next.after == w.after && next.pending == LastCursorOf(page)
            && next.received == w.received + ToSet(page)
            && next.history == w.history + ToSet(HeldFor(next.boxes, me))
  {
    hide Purged, RoundPageOf, HeldFor, LastCursorOf, ToSet;
  }

  lemma FetchFollows(limits: Limits, policy: Policy, me: PublicKey, d: DiskWorld, w: World, now: nat)
    requires Follows(limits, me, d, w) && d.clock <= now
    ensures Follows(limits, me, FetchingOnDisk(limits, policy, me, d, now), Fetching(limits, me, w, now))
  {
    RequestFollows(limits, policy, d.clock, d.root, w.boxes, Request(me, Op.Fetch(d.after), now), me);
    FetchIsServed(limits, policy, me, w, now);
    FetchingFields(limits, me, w, now);
    hide Related, AllBacked, ServeOnDisk, Serve, OnFile, HeldFor, Purged, RoundPageOf, LastCursorOf, ToSet, Fetching;
  }

  lemma AckIsServed(limits: Limits, policy: Policy, boxes: Mailboxes, me: PublicKey, cursor: nat, now: nat)
    ensures Serve(limits, policy, boxes, me, Op.Ack(cursor), now).0 == Acked(boxes, me, cursor)
    ensures ToSet(HeldFor(Acked(boxes, me, cursor), me)) <= ToSet(HeldFor(boxes, me))
  {
  }

  lemma AckFollows(limits: Limits, policy: Policy, me: PublicKey, d: DiskWorld, w: World, now: nat)
    requires Follows(limits, me, d, w) && d.clock <= now
    requires d.pending.Some? && ToSet(HeldFor(w.boxes, me)) <= w.history
    ensures Follows(limits, me, AckingOnDisk(limits, policy, me, d, now), Acknowledging(me, w, now))
  {
    var cursor := d.pending.value;
    RequestFollows(limits, policy, d.clock, d.root, w.boxes, Request(me, Op.Ack(cursor), now), me);
    AckIsServed(limits, policy, w.boxes, me, cursor, now);
    hide Related, AllBacked, ServeOnDisk, Serve, OnFile, HeldFor, Acked, ToSet;
  }

  /** Whether an event does anything: the client acknowledges only through `AckPage`, in turn with its fetches. */
  predicate Idles(me: PublicKey, pending: Option<nat>, event: Event) {
    match event
    case Other(caller, op, _) => caller == me && op.Ack?
    case FetchPage(_) => pending.Some?
    case AckPage(_) => pending.None?
    case Restart => false
  }

  /** What an event that does something comes to, on disk. */
  lemma StepOnDiskIs(limits: Limits, policy: Policy, me: PublicKey, d: DiskWorld, event: Event, now: nat)
    requires AllIntact(d.root) && !Idles(me, d.pending, event) && !event.Restart? && now == d.clock + event.wait
    ensures var next := StepOnDisk(limits, policy, me, d, event);
            && (event.Other? ==> next == ServedOnDisk(limits, policy, me, d, event.caller, event.op, now))
            && (event.FetchPage? ==> next == FetchingOnDisk(limits, policy, me, d, now))
            && (event.AckPage? ==> d.pending.Some? && next == AckingOnDisk(limits, policy, me, d, now))
  {
    hide ServedOnDisk, FetchingOnDisk, AckingOnDisk, AllIntact;
  }

  /** And in memory. */
  lemma StepInMemoryIs(limits: Limits, policy: Policy, me: PublicKey, w: World, event: Event, now: nat)
    requires !Idles(me, w.pending, event) && !event.Restart? && now == w.clock + event.wait
    ensures var next := Step(limits, policy, me, w, event);
            && (event.Other? ==> next == Serving(limits, policy, me, w, event.caller, event.op, now))
            && (event.FetchPage? ==> next == Fetching(limits, me, w, now))
            && (event.AckPage? ==> w.pending.Some? && next == Acknowledging(me, w, now))
  {
    hide Serving, Fetching, Acknowledging;
  }

  lemma RestartFollows(limits: Limits, me: PublicKey, d: DiskWorld, w: World)
    requires Follows(limits, me, d, w)
    ensures Follows(limits, me, DiskWorld(d.root, d.clock, 0, None, d.received, d.history), Restarting(w))
  {
    hide Related, AllBacked;
  }

  lemma StillFollows(limits: Limits, policy: Policy, me: PublicKey, d: DiskWorld, w: World, event: Event)
    requires Follows(limits, me, d, w) && (event.Restart? || Idles(me, d.pending, event))
    ensures Follows(limits, me, StepOnDisk(limits, policy, me, d, event), Step(limits, policy, me, w, event))
  {
    RestartFollows(limits, me, d, w);
    hide Related, AllBacked, ServedOnDisk, Serving, FetchingOnDisk, Fetching, AckingOnDisk, Acknowledging;
  }

  lemma StepFollows(limits: Limits, policy: Policy, me: PublicKey, d: DiskWorld, w: World, event: Event)
    requires Follows(limits, me, d, w) && WorldOk(limits, w, me)
    ensures Follows(limits, me, StepOnDisk(limits, policy, me, d, event), Step(limits, policy, me, w, event))
  {
    assert ToSet(HeldFor(w.boxes, me)) <= w.history;
    assert AllIntact(d.root) && w.clock == d.clock && w.pending == d.pending;
    hide *;
    if event.Restart? || Idles(me, d.pending, event) {
      StillFollows(limits, policy, me, d, w, event);
    } else {
      var now := d.clock + event.wait;
      StepOnDiskIs(limits, policy, me, d, event, now);
      StepInMemoryIs(limits, policy, me, w, event, now);
      match event
      case Other(caller, op, _) => OtherFollows(limits, policy, me, d, w, caller, op, now);
      case FetchPage(_) => FetchFollows(limits, policy, me, d, w, now);
      case AckPage(_) => AckFollows(limits, policy, me, d, w, now);
    }
  }

  lemma {:induction false} RunFollows(
      limits: Limits, policy: Policy, me: PublicKey, d: DiskWorld, w: World, events: seq<Event>)
    requires Follows(limits, me, d, w) && WorldOk(limits, w, me)
    ensures Follows(limits, me, RunOnDisk(limits, policy, me, d, events), Run(limits, policy, me, w, events))
    decreases |events|
  {
    if events != [] {
      StepFollows(limits, policy, me, d, w, events[0]);
      StepKeeps(limits, policy, me, w, events[0]);
      RunFollows(limits, policy, me, StepOnDisk(limits, policy, me, d, events[0]),
                 Step(limits, policy, me, w, events[0]), events[1..]);
      hide StepOnDisk, Step, WorldOk, Follows;
    }
  }

  lemma LiveIsOnFile(limits: Limits, now: nat, root: Root, boxes: Mailboxes, me: PublicKey, item: Item)
    requires Related(limits, now, root, boxes)
    requires item in HeldFor(boxes, me) && Live(limits, now, item.depositedAt)
    ensures item in OnFile(root, me)
  {
    assert item in ToSet(Purge(limits, now, boxes[me].items));
    assert Represents(limits, now, root[me], boxes[me]);
    LiveItemSetMembers(limits, now, root[me]);
  }

  /**
   * A device draining its mailbox at any relay a run of requests has left, everyone else
   * using it meanwhile: every item ever on file for the device is still on file, has been
   * received, or has outlived the retention backstop.
   */
  lemma NothingIsLostOnDisk(
      limits: Limits, policy: Policy, me: PublicKey, before: seq<Request>, clock: nat, events: seq<Event>)
    requires ClockAdvances(0, before) && EndsBy(before, clock)
    ensures var start := StartingOnDisk(RootAfter(limits, policy, map[], before), clock, me);
            var d := RunOnDisk(limits, policy, me, start, events);
            forall item | item in d.history ::
              item in OnFile(d.root, me) || item in d.received || !Live(limits, d.clock, item.depositedAt)
  {
    var root, boxes := RootAfter(limits, policy, map[], before), ServeAll(limits, policy, map[], before);
    var start, inMemory := StartingOnDisk(root, clock, me), Starting(boxes, clock, me);
    FromFresh(limits, policy, before, clock);
    OnFileIsHeld(root, boxes, me);
    RunFollows(limits, policy, me, start, inMemory, events);
    NothingIsLost(limits, policy, me, boxes, clock, events);
    var d, w := RunOnDisk(limits, policy, me, start, events), Run(limits, policy, me, inMemory, events);
    forall item | item in d.history && Live(limits, d.clock, item.depositedAt) && item !in d.received
      ensures item in OnFile(d.root, me)
    {
      LiveIsOnFile(limits, d.clock, d.root, w.boxes, me, item);
    }
  }

  // ---- Retrying a deposit -------------------------------------------------------

  ghost function CutShortOnDisk(limits: Limits, root: Root, deposit: Deposit, served: nat, now: nat): (r: Root)
    requires AllIntact(root)
    ensures AllIntact(r)
  {
    var n := if served < |deposit.recipients| then served else |deposit.recipients|;
    FannedOutOnDisk(limits, root, deposit, deposit.recipients[..n], now)
  }

  /** The sender's loop against the relay on disk. */
  ghost function RetryOnDisk(limits: Limits, root: Root, deposit: Deposit, plan: seq<Try>): (r: (Root, Sent))
    requires AllIntact(root)
    ensures AllIntact(r.0)
    decreases |plan|
  {
    if plan == [] then (root, GaveUp) else
      var t := plan[0];
      match t.outcome
      case CannotConnect => (root, NotReached)
      case Served => (FannedOutOnDisk(limits, root, deposit, deposit.recipients, t.now), Delivered)
      case Failed(served) => (CutShortOnDisk(limits, root, deposit, served, t.now), UnexpectedAnswer)
      case Lost(served) => RetryOnDisk(limits, CutShortOnDisk(limits, root, deposit, served, t.now), deposit, plan[1..])
  }

  lemma {:induction false} RetryRefines(
      limits: Limits, root: Root, boxes: Mailboxes, deposit: Deposit, plan: seq<Try>, first: nat, last: nat)
    requires Related(limits, first, root, boxes) && first <= last && PlanWithin(plan, first, last)
    ensures var disk, memory := RetryOnDisk(limits, root, deposit, plan), Retry(limits, boxes, deposit, plan);
            disk.1 == memory.1 && Related(limits, last, disk.0, memory.0)
    decreases |plan|
  {
    if plan == [] {
      RelatedLater(limits, first, last, root, boxes);
    } else {
      var t := plan[0];
      RelatedLater(limits, first, t.now, root, boxes);
      var n := |deposit.recipients|;
      var cut := match t.outcome
        case Lost(served) => if served < n then served else n
        case Failed(served) => if served < n then served else n
        case _ => n;
      var part := deposit.recipients[..cut];
      assert deposit.recipients[..n] == deposit.recipients;
      FanOutRefines(limits, root, boxes, deposit, part, t.now);
      var disk := FannedOutOnDisk(limits, root, deposit, part, t.now);
      var memory := FannedOut(limits, boxes, deposit, part, t.now);
      if t.outcome.Lost? {
        assert PlanWithin(plan[1..], t.now, last) by {
          assert forall i | 0 <= i < |plan[1..]| :: plan[1..][i] == plan[i + 1];
        }
        RetryRefines(limits, disk, memory, deposit, plan[1..], t.now, last);
      } else {
        RelatedLater(limits, t.now, last, disk, memory);
        RelatedLater(limits, t.now, last, root, boxes);
      }
      hide FannedOutOnDisk, FannedOut, Related;
    }
  }

  /** Nothing on file expires between two moments, nor what arrives in between. */
  ghost predicate SteadyOnDisk(limits: Limits, root: Root, first: nat, last: nat) {
    && first <= last
    && last - first < limits.retention
    && forall key, n | key in root && n in NamesIn(root[key]) && Live(limits, first, n.depositedMs) ::
         Live(limits, last, n.depositedMs)
  }

  lemma SteadyInMemory(limits: Limits, root: Root, boxes: Mailboxes, first: nat, last: nat)
    requires Related(limits, first, root, boxes) && SteadyOnDisk(limits, root, first, last)
    ensures Steady(limits, boxes, first, last)
  {
    forall key, item | key in boxes && item in boxes[key].items && Live(limits, first, item.depositedAt)
      ensures Live(limits, last, item.depositedAt)
    {
      assert item in ToSet(Purge(limits, first, boxes[key].items));
      assert Represents(limits, first, root[key], boxes[key]);
      LiveItemSetMembers(limits, first, root[key]);
      var n :| n in NamesIn(root[key]) && Live(limits, first, n.depositedMs) && ItemOf(root[key], n) == item;
    }
  }

  /** What a directory amounts to at some moment: its counter, and its live items without their times. */
  ghost function Record(limits: Limits, now: nat, dir: Directory): (nat, seq<(nat, Deposit)>)
    requires Intact(dir)
  {
    (LastCursor(dir), Cursored(ItemsOf(dir, LiveListing(limits, now, dir))))
  }

  lemma RecordIsUndated(limits: Limits, now: nat, root: Root, boxes: Mailboxes, key: PublicKey)
    requires Related(limits, now, root, boxes) && key in root
    ensures Record(limits, now, root[key]) == Undated(boxes[key].(items := Purge(limits, now, boxes[key].items)))
  {
    var items, box := ItemsOf(root[key], LiveListing(limits, now, root[key])), boxes[key];
    ListingIsPurge(limits, now, root[key], box);
    assert Represents(limits, now, root[key], box);
    assert items == Purge(limits, now, box.items);
    hide Purge, ItemsOf, LiveListing, Related, Represents;
    assert Cursored(items) == Undated(box.(items := items)).1;
  }

  lemma DepositStaysLive(limits: Limits, before: Mailbox, deposit: Deposit, at: nat, first: nat, last: nat)
    requires SteadyBox(limits, before.items, first, last) && first <= at <= last
    ensures var box := Deposited(limits, before, deposit, at);
            Purge(limits, last, box.items) == box.items
  {
    var kept, box := Purge(limits, at, before.items), Deposited(limits, before, deposit, at);
    var added := Item(before.lastCursor + 1, at, deposit);
    SteadyPurge(limits, before.items, first, last, at);
    assert forall item | item in kept :: Live(limits, last, item.depositedAt);
    assert forall item | item in box.items :: item in kept || item == added;
    PurgeLive(limits, last, box.items);
  }

  /** Two mailboxes alike but for the times in them keep alike when nothing in either expires. */
  lemma SteadyRecords(
      limits: Limits, before: Mailbox, a: Mailbox, b: Mailbox, deposit: Deposit, s: nat, t: nat, first: nat, last: nat)
    requires SteadyBox(limits, before.items, first, last) && first <= s <= last && first <= t <= last
    requires a == Deposited(limits, before, deposit, s) && b == Deposited(limits, before, deposit, t)
    ensures Undated(a.(items := Purge(limits, last, a.items))) == Undated(b.(items := Purge(limits, last, b.items)))
  {
    DepositStaysLive(limits, before, deposit, s, first, last);
    DepositStaysLive(limits, before, deposit, t, first, last);
    SameWhenever(limits, before, deposit, first, last, s, t);
  }

  lemma RetryMovesByOne(
      limits: Limits, boxes: Mailboxes, deposit: Deposit, plan: seq<Try>, first: nat, last: nat, key: PublicKey)
    requires Steady(limits, boxes, first, last) && PlanWithin(plan, first, last) && key in boxes
    ensures var retried := Retry(limits, boxes, deposit, plan).0;
            && key in retried
            && boxes[key].lastCursor <= retried[key].lastCursor <= boxes[key].lastCursor + 1
  {
    RetryOffers(limits, boxes, boxes, deposit, plan, first, first, last);
    var retried := Retry(limits, boxes, deposit, plan).0;
    assert Offered(limits, boxes[key], retried[key], deposit, first, last);
  }

  lemma SameMark(limits: Limits, now: nat, root: Root, boxes: Mailboxes, key: PublicKey)
    requires Related(limits, now, root, boxes) && key in boxes
    ensures key in root && LastCursor(root[key]) == boxes[key].lastCursor
  {
    assert Represents(limits, now, root[key], boxes[key]);
  }

  /** What a retry, and one fan-out, make of one directory. */
  lemma RetriedDirectory(
      limits: Limits, root: Root, boxes: Mailboxes, deposit: Deposit, plan: seq<Try>,
      first: nat, last: nat, key: PublicKey)
    requires Related(limits, first, root, boxes) && key in root
    requires SteadyOnDisk(limits, root, first, last) && PlanWithin(plan, first, last)
    ensures var (retried, sent) := RetryOnDisk(limits, root, deposit, plan);
            key in retried && LastCursor(root[key]) <= LastCursor(retried[key]) <= LastCursor(root[key]) + 1
  {
    SteadyInMemory(limits, root, boxes, first, last);
    RetryRefines(limits, root, boxes, deposit, plan, first, last);
    RetryMovesByOne(limits, boxes, deposit, plan, first, last, key);
    SameMark(limits, first, root, boxes, key);
    SameMark(limits, last, RetryOnDisk(limits, root, deposit, plan).0, Retry(limits, boxes, deposit, plan).0, key);
  }

  lemma RetriedRecord(
      limits: Limits, root: Root, boxes: Mailboxes, deposit: Deposit, plan: seq<Try>,
      first: nat, last: nat, key: PublicKey)
    requires Related(limits, first, root, boxes) && key in root
    requires SteadyOnDisk(limits, root, first, last) && PlanWithin(plan, first, last)
    requires RetryOnDisk(limits, root, deposit, plan).1.Delivered?
    ensures var retried := RetryOnDisk(limits, root, deposit, plan).0;
            var once := FannedOutOnDisk(limits, root, deposit, deposit.recipients, last);
            && key in retried && key in once
            && Record(limits, last, retried[key]) == Record(limits, last, once[key])
  {
    var retried, again := RetryOnDisk(limits, root, deposit, plan).0, Retry(limits, boxes, deposit, plan).0;
    var once := FannedOutOnDisk(limits, root, deposit, deposit.recipients, last);
    var full := FannedOut(limits, boxes, deposit, deposit.recipients, last);
    assert key in boxes;
    SteadyInMemory(limits, root, boxes, first, last);
    assert SteadyBox(limits, boxes[key].items, first, last);
    RetryRefines(limits, root, boxes, deposit, plan, first, last);
    RelatedLater(limits, first, last, root, boxes);
    FanOutRefines(limits, root, boxes, deposit, deposit.recipients, last);
    hide *;
    var s := RetriedBox(limits, boxes, deposit, plan, first, last, key);
    var t := FannedBox(limits, boxes, deposit, first, last, key);
    SameMark(limits, last, retried, again, key);
    SameMark(limits, last, once, full, key);
    RecordIsUndated(limits, last, retried, again, key);
    RecordIsUndated(limits, last, once, full, key);
    if key in deposit.recipients {
      SteadyRecords(limits, boxes[key], again[key], full[key], deposit, s, t, first, last);
    }
  }

  /**
   * Against the relay on disk too: while nothing expires, a retry that succeeds leaves every
   * directory with the counter and the live items one successful deposit would, whatever
   * was lost on the way; and however it ends, no counter moves by more than one.
   */
  lemma RetryIsOneDepositOnDisk(
      limits: Limits, policy: Policy, before: seq<Request>, deposit: Deposit, plan: seq<Try>,
      first: nat, last: nat, key: PublicKey)
    requires ClockAdvances(0, before) && EndsBy(before, first)
    requires var root := RootAfter(limits, policy, map[], before);
             SteadyOnDisk(limits, root, first, last) && PlanWithin(plan, first, last) && key in root
    ensures var root := RootAfter(limits, policy, map[], before);
            var (retried, sent) := RetryOnDisk(limits, root, deposit, plan);
            var once := FannedOutOnDisk(limits, root, deposit, deposit.recipients, last);
            && key in retried
            && LastCursor(root[key]) <= LastCursor(retried[key]) <= LastCursor(root[key]) + 1
            && (sent.Delivered? ==>
                  key in once && Record(limits, last, retried[key]) == Record(limits, last, once[key]))
  {
    var root, boxes := RootAfter(limits, policy, map[], before), ServeAll(limits, policy, map[], before);
    FromFresh(limits, policy, before, first);
    assert AllIntact(root);
    hide *;
    RetriedDirectory(limits, root, boxes, deposit, plan, first, last, key);
    if RetryOnDisk(limits, root, deposit, plan).1.Delivered? {
      RetriedRecord(limits, root, boxes, deposit, plan, first, last, key);
    }
  }
}
