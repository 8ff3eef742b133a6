/**
 * The on-disk store refines the in-memory one: driven by the same calls on the same
 * non-decreasing clock, both give the same answers.
 *
 * The stores purge at different moments (on disk `ack` purges, in memory it does not),
 * so they are related through what is still live: the files of a directory record
 * exactly the unexpired items of the mailbox.
 */
module StoreRefinement {
  import opened Basics
  import opened Messages
  import opened Mailboxes
  import opened FsMailboxes

  datatype Call =
    | Register(key: PublicKey)
    | Append(key: PublicKey, deposit: Deposit)
    | Fetch(key: PublicKey, after: nat)
    | Ack(key: PublicKey, upTo: nat)
    | CountRegistered
    | AskRegistered(key: PublicKey)

  datatype Answer = Done | Items(items: seq<(nat, Deposit)>) | Count(n: nat) | Flag(b: bool)

  /**
   * Store calls as they reach a store: what is asked, and what the clock reads when it is
   * served. Only an append reads it a second time, `at`.
   */
  datatype Timed = Timed(call: Call, now: nat, at: nat)

  function Cursored(items: seq<Item>): seq<(nat, Deposit)> {
    seq(|items|, i requires 0 <= i < |items| => (items[i].cursor, items[i].deposit))
  }

  function MemoryStep(limits: Limits, boxes: Mailboxes, t: Timed): (Mailboxes, Answer) {
    match t.call
    case Register(key) => (Registered(boxes, key), Done)
    case Append(key, deposit) => (AppendedAt(limits, boxes, key, deposit, t.now, t.at), Done)
    case Fetch(key, after) =>
      (Purged(limits, boxes, key, t.now), Items(Cursored(Fetched(limits, boxes, key, after, t.now))))
    case Ack(key, upTo) => (Acked(boxes, key, upTo), Done)
    case CountRegistered => (boxes, Count(|boxes|))
    case AskRegistered(key) => (boxes, Flag(key in boxes))
  }

  ghost function DiskStep(limits: Limits, root: Root, t: Timed): (Root, Answer)
    requires AllIntact(root)
  {
    match t.call
    case Register(key) => (if key in root then root else root[key := map[]], Done)
    case Append(key, deposit) =>
      (if key in root then root[key := DepositedInAt(limits, root[key], deposit, t.now, t.at)] else root, Done)
    case Fetch(key, after) =>
      if key !in root then (root, Items([])) else
        var dir := root[key];
        (root[key := PurgedDir(limits, t.now, dir)],
         Items(Cursored(Above(ItemsOf(dir, LiveListing(limits, t.now, dir)), after))))
    case Ack(key, upTo) =>
      (if key in root then root[key := AckedIn(limits, root[key], upTo, t.now)] else root, Done)
    case CountRegistered => (root, Count(|root|))
    case AskRegistered(key) => (root, Flag(key in root))
  }

  // ---- The relation between a directory and a mailbox ---------------------------

  ghost predicate Represents(limits: Limits, now: nat, dir: Directory, box: Mailbox)
    requires Intact(dir)
  {
    && LastCursor(dir) == box.lastCursor
    && LiveItemSet(limits, now, dir) == ToSet(Purge(limits, now, box.items))
  }

  ghost predicate Related(limits: Limits, now: nat, root: Root, boxes: Mailboxes) {
    && AllIntact(root)
    && AllOk(limits, boxes)
    && root.Keys == boxes.Keys
    && forall key | key in root :: Represents(limits, now, root[key], boxes[key])
  }

  lemma LiveItemSetMembers(limits: Limits, now: nat, dir: Directory)
    requires Intact(dir)
    ensures forall item :: item in LiveItemSet(limits, now, dir) <==>
              exists n :: n in NamesIn(dir) && Live(limits, now, n.depositedMs) && ItemOf(dir, n) == item
  {
    assert forall n :: n in LiveNames(limits, now, dir) <==> n in NamesIn(dir) && Live(limits, now, n.depositedMs);
  }

  /** Time passing expires the same items on both sides. */
  lemma RepresentsLater(limits: Limits, earlier: nat, later: nat, dir: Directory, box: Mailbox)
    requires earlier <= later
    requires Intact(dir) && Represents(limits, earlier, dir, box)
    ensures Represents(limits, later, dir, box)
  {
    LiveItemSetMembers(limits, earlier, dir);
    LiveItemSetMembers(limits, later, dir);
    forall item
      ensures item in LiveItemSet(limits, later, dir) <==>
                item in LiveItemSet(limits, earlier, dir) && Live(limits, later, item.depositedAt)
    {
    }
    assert forall item :: item in Purge(limits, later, box.items) <==>
      item in ToSet(Purge(limits, earlier, box.items)) && Live(limits, later, item.depositedAt);
  }

  lemma RelatedLater(limits: Limits, earlier: nat, later: nat, root: Root, boxes: Mailboxes)
    requires earlier <= later && Related(limits, earlier, root, boxes)
    ensures Related(limits, later, root, boxes)
  {
    forall key | key in root
      ensures Represents(limits, later, root[key], boxes[key])
    {
      RepresentsLater(limits, earlier, later, root[key], boxes[key]);
    }
  }

  /** Listing the live files in cursor order gives the purged mailbox, item for item. */
  lemma ListingIsPurge(limits: Limits, now: nat, dir: Directory, box: Mailbox)
    requires Intact(dir) && BoxOk(limits, box) && Represents(limits, now, dir, box)
    ensures ItemsOf(dir, LiveListing(limits, now, dir)) == Purge(limits, now, box.items)
  {
    var names := LiveListing(limits, now, dir);
    var items := ItemsOf(dir, names);
    PurgeSubsequence(limits, now, box.items);
    SubsequenceKeeps(Purge(limits, now, box.items), box.items);
    assert ToSet(items) == LiveItemSet(limits, now, dir) by {
      forall n | n in LiveNames(limits, now, dir)
        ensures ItemOf(dir, n) in items
      {
        assert n in ToSet(names);
        var i :| 0 <= i < |names| && names[i] == n;
        assert items[i] == ItemOf(dir, n);
      }
      forall item | item in items
        ensures item in LiveItemSet(limits, now, dir)
      {
        var i :| 0 <= i < |items| && items[i] == item;
        assert names[i] in ToSet(names);
      }
    }
    IncreasingIsUnique(items, Purge(limits, now, box.items));
  }

  // ---- Each operation preserves the relation ------------------------------------

  lemma PurgedDirRepresents(limits: Limits, now: nat, dir: Directory, box: Mailbox)
    requires Intact(dir) && Represents(limits, now, dir, box)
    ensures Intact(PurgedDir(limits, now, dir))
    ensures LiveItemSet(limits, now, PurgedDir(limits, now, dir)) == LiveItemSet(limits, now, dir)
    ensures Represents(limits, now, PurgedDir(limits, now, dir), box)
    ensures Represents(limits, now, PurgedDir(limits, now, dir), box.(items := Purge(limits, now, box.items)))
  {
    LiveNamesAreNames(limits, now, dir);
    LiveItemSetMembers(limits, now, dir);
    LiveItemSetMembers(limits, now, PurgedDir(limits, now, dir));
    PurgeTwice(limits, now, now, box.items);
  }

  lemma TakesAgree(limits: Limits, now: nat, dir: Directory, box: Mailbox, deposit: Deposit)
    requires Intact(dir) && BoxOk(limits, box) && Represents(limits, now, dir, box)
    ensures var names := LiveListing(limits, now, dir);
            FsTakes(limits, ItemsOf(dir, names), names, deposit) <==>
            Takes(limits, Purge(limits, now, box.items), deposit)
  {
    var names := LiveListing(limits, now, dir);
    var items := ItemsOf(dir, names);
    ListingIsPurge(limits, now, dir, box);
    LiveNamesAreNames(limits, now, dir);
    forall i | 0 <= i < |names|
      ensures names[i].id == items[i].deposit.id
    {
      assert names[i] in ToSet(names) && names[i] in NamesIn(dir);
    }
    assert (exists n :: n in names && n.id == deposit.id) <==> HasId(items, deposit.id) by {
      if exists n :: n in names && n.id == deposit.id {
        var i :| 0 <= i < |names| && names[i].id == deposit.id;
        assert items[i] in items;
      }
      if HasId(items, deposit.id) {
        var i :| 0 <= i < |items| && items[i].deposit.id == deposit.id;
        assert names[i] in names;
      }
    }
  }

  lemma StoreRepresents(limits: Limits, now: nat, at: nat, dir: Directory, box: Mailbox, deposit: Deposit)
    requires Intact(dir) && Represents(limits, now, dir, box) && now <= at
    requires box.items == Purge(limits, now, box.items)
    requires forall n | n in NamesIn(dir) :: n.id != deposit.id
    ensures var next := box.lastCursor + 1;
            && Intact(StoredIn(dir, deposit, at))
            && Represents(limits, now, StoredIn(dir, deposit, at),
                          Mailbox(next, box.items + [Item(next, at, deposit)]))
  {
    StoredInIntact(dir, deposit, at);
    var dir' := StoredIn(dir, deposit, at);
    var name := ItemName(LastCursor(dir) + 1, at, deposit.id);
    var added := Item(box.lastCursor + 1, at, deposit);
    LiveItemSetMembers(limits, now, dir);
    LiveItemSetMembers(limits, now, dir');
    PurgeAppend(limits, now, box.items, [added]);
    assert ItemOf(dir', name) == added;
    assert forall n | n in NamesIn(dir) :: ItemOf(dir', n) == ItemOf(dir, n);
    assert LiveItemSet(limits, now, dir') ==
           LiveItemSet(limits, now, dir) + (if Live(limits, now, at) then {added} else {});
    if Live(limits, now, at) {
      ToSetAppend(box.items, added);
      assert Purge(limits, now, [added]) == [added];
    } else {
      assert Purge(limits, now, [added]) == [];
    }
  }

  lemma NewDepositRepresents(limits: Limits, now: nat, at: nat, dir: Directory, box: Mailbox, deposit: Deposit)
    requires Intact(dir) && Represents(limits, now, dir, box) && now <= at
    requires forall n | n in LiveListing(limits, now, dir) :: n.id != deposit.id
    ensures var next, purged := box.lastCursor + 1, PurgedDir(limits, now, dir);
            && Intact(StoredIn(purged, deposit, at))
            && Represents(limits, now, StoredIn(purged, deposit, at),
                          Mailbox(next, Purge(limits, now, box.items) + [Item(next, at, deposit)]))
  {
    PurgedDirRepresents(limits, now, dir, box);
    PurgeTwice(limits, now, now, box.items);
    LiveNamesAreNames(limits, now, dir);
    var purged := PurgedDir(limits, now, dir);
    forall n | n in NamesIn(purged)
      ensures n.id != deposit.id
    {
      assert n in ToSet(LiveListing(limits, now, dir));
    }
    StoreRepresents(limits, now, at, purged, box.(items := Purge(limits, now, box.items)), deposit);
  }

  lemma DepositRepresents(limits: Limits, now: nat, at: nat, dir: Directory, box: Mailbox, deposit: Deposit)
    requires Intact(dir) && BoxOk(limits, box) && Represents(limits, now, dir, box) && now <= at
    ensures Intact(DepositedInAt(limits, dir, deposit, now, at))
    ensures Represents(
              limits, now, DepositedInAt(limits, dir, deposit, now, at), DepositedAt(limits, box, deposit, now, at))
  {
    TakesAgree(limits, now, dir, box, deposit);
    var names := LiveListing(limits, now, dir);
    if FsTakes(limits, ItemsOf(dir, names), names, deposit) {
      NewDepositRepresents(limits, now, at, dir, box, deposit);
    } else {
      PurgedDirRepresents(limits, now, dir, box);
    }
  }

  lemma AckRepresents(limits: Limits, now: nat, dir: Directory, box: Mailbox, upTo: nat)
    requires Intact(dir) && Represents(limits, now, dir, box)
    ensures Intact(AckedIn(limits, dir, upTo, now))
    ensures Represents(limits, now, AckedIn(limits, dir, upTo, now), box.(items := Above(box.items, upTo)))
  {
    AckedInIntact(limits, dir, upTo, now);
    var acked := AckedIn(limits, dir, upTo, now);
    LiveItemSetMembers(limits, now, dir);
    LiveItemSetMembers(limits, now, acked);
    PurgeAbove(limits, now, box.items, upTo);
    forall n
      ensures n in NamesIn(acked) <==>
                n in NamesIn(dir) && Live(limits, now, n.depositedMs) && n.cursor > upTo
      ensures n in NamesIn(acked) ==> ItemOf(acked, n) == ItemOf(dir, n)
    {
      assert n in NamesIn(dir) <==> ItemFile(n) in dir;
      assert n in NamesIn(acked) <==> ItemFile(n) in acked;
    }
    forall item
      ensures item in LiveItemSet(limits, now, acked) <==>
                item in LiveItemSet(limits, now, dir) && item.cursor > upTo
    {
    }
  }

  // ---- Steps and runs -----------------------------------------------------------

  lemma RelatedUpdate(
      limits: Limits, now: nat, root: Root, boxes: Mailboxes, key: PublicKey, dir: Directory, box: Mailbox)
    requires Related(limits, now, root, boxes)
    requires Intact(dir) && BoxOk(limits, box) && Represents(limits, now, dir, box)
    ensures Related(limits, now, root[key := dir], boxes[key := box])
  {
  }

  lemma FreshRepresents(limits: Limits, now: nat)
    ensures Intact(map[]) && Represents(limits, now, map[], EMPTY_MAILBOX) && BoxOk(limits, EMPTY_MAILBOX)
  {
    LiveItemSetMembers(limits, now, map[]);
  }

  lemma RegisterRefines(limits: Limits, root: Root, boxes: Mailboxes, t: Timed)
    requires t.call.Register? && Related(limits, t.now, root, boxes)
    ensures Related(limits, t.now, DiskStep(limits, root, t).0, MemoryStep(limits, boxes, t).0)
  {
    FreshRepresents(limits, t.now);
    RelatedUpdate(limits, t.now, root, boxes, t.call.key, map[], EMPTY_MAILBOX);
  }

  /** What an append on disk comes to. */
  lemma AppendOnDisk(limits: Limits, root: Root, t: Timed)
    requires AllIntact(root) && t.call.Append?
    ensures var key, deposit, at := t.call.key, t.call.deposit, t.at;
            DiskStep(limits, root, t).0 ==
              if key in root then root[key := DepositedInAt(limits, root[key], deposit, t.now, at)] else root
  {
    assert t.call.key in root ==> Intact(root[t.call.key]);
    hide DepositedInAt, Intact, AllIntact;
  }

  lemma AppendInMemory(limits: Limits, boxes: Mailboxes, t: Timed)
    requires t.call.Append?
    ensures var key, deposit, at := t.call.key, t.call.deposit, t.at;
            MemoryStep(limits, boxes, t).0 ==
              if key in boxes then boxes[key := DepositedAt(limits, boxes[key], deposit, t.now, at)] else boxes
  {
    hide DepositedAt;
  }

  lemma AppendRefines(limits: Limits, root: Root, boxes: Mailboxes, t: Timed)
    requires t.call.Append? && Related(limits, t.now, root, boxes) && t.now <= t.at
    ensures Related(limits, t.now, DiskStep(limits, root, t).0, MemoryStep(limits, boxes, t).0)
  {
    var key, deposit, at := t.call.key, t.call.deposit, t.at;
    assert AllIntact(root) && (key in root <==> key in boxes);
    assert key in root ==>
      Intact(root[key]) && BoxOk(limits, boxes[key]) && Represents(limits, t.now, root[key], boxes[key]);
    hide *;
    AppendOnDisk(limits, root, t);
    AppendInMemory(limits, boxes, t);
    if key in root {
      DepositRepresents(limits, t.now, at, root[key], boxes[key], deposit);
      DepositedOk(limits, boxes[key], deposit, t.now, at);
      RelatedUpdate(limits, t.now, root, boxes, key, DepositedInAt(limits, root[key], deposit, t.now, at),
                    DepositedAt(limits, boxes[key], deposit, t.now, at));
    }
  }

  lemma FetchRefines(limits: Limits, root: Root, boxes: Mailboxes, t: Timed)
    requires t.call.Fetch? && Related(limits, t.now, root, boxes)
    ensures DiskStep(limits, root, t).1 == MemoryStep(limits, boxes, t).1
    ensures Related(limits, t.now, DiskStep(limits, root, t).0, MemoryStep(limits, boxes, t).0)
  {
    var key := t.call.key;
    if key in root {
      var box := boxes[key];
      var purged := box.(items := Purge(limits, t.now, box.items));
      ListingIsPurge(limits, t.now, root[key], box);
      PurgedDirRepresents(limits, t.now, root[key], box);
      PurgeSubsequence(limits, t.now, box.items);
      FewerItemsOk(limits, box, purged.items);
      RelatedUpdate(limits, t.now, root, boxes, key, PurgedDir(limits, t.now, root[key]), purged);
    }
  }

  lemma AckRefines(limits: Limits, root: Root, boxes: Mailboxes, t: Timed)
    requires t.call.Ack? && Related(limits, t.now, root, boxes)
    ensures Related(limits, t.now, DiskStep(limits, root, t).0, MemoryStep(limits, boxes, t).0)
  {
    var key, upTo := t.call.key, t.call.upTo;
    if key in root {
      var box := boxes[key];
      var acked := box.(items := Above(box.items, upTo));
      AckRepresents(limits, t.now, root[key], box, upTo);
      AboveSubsequence(box.items, upTo);
      FewerItemsOk(limits, box, acked.items);
      RelatedUpdate(limits, t.now, root, boxes, key, AckedIn(limits, root[key], upTo, t.now), acked);
    }
  }

  lemma SameSize(root: Root, boxes: Mailboxes)
    requires root.Keys == boxes.Keys
    ensures |root| == |boxes|
  {
    assert |root.Keys| == |root| && |boxes.Keys| == |boxes|;
  }

  /** One call, at any moment not earlier than the last: same answer, still related. */
  lemma StepRefines(limits: Limits, last: nat, root: Root, boxes: Mailboxes, t: Timed)
    requires Related(limits, last, root, boxes) && last <= t.now <= t.at
    ensures DiskStep(limits, root, t).1 == MemoryStep(limits, boxes, t).1
    ensures Related(limits, t.now, DiskStep(limits, root, t).0, MemoryStep(limits, boxes, t).0)
  {
    RelatedLater(limits, last, t.now, root, boxes);
    match t.call
    case Register(_) => RegisterRefines(limits, root, boxes, t);
    case Append(_, _) => AppendRefines(limits, root, boxes, t);
    case Fetch(_, _) => FetchRefines(limits, root, boxes, t);
    case Ack(_, _) => AckRefines(limits, root, boxes, t);
    case CountRegistered => SameSize(root, boxes);
    case AskRegistered(_) =>
  }

  ghost predicate ClockRuns(last: nat, calls: seq<Timed>) {
    && (calls != [] ==> last <= calls[0].now)
    && (forall i | 0 <= i < |calls| :: calls[i].now <= calls[i].at)
    && forall i, j :: 0 <= i < j < |calls| ==> calls[i].now <= calls[j].now
  }

  function MemoryRun(limits: Limits, boxes: Mailboxes, calls: seq<Timed>): seq<Answer>
    decreases |calls|
  {
    if calls == [] then [] else
      var (next, answer) := MemoryStep(limits, boxes, calls[0]);
      [answer] + MemoryRun(limits, next, calls[1..])
  }

  lemma AppendStepIntact(limits: Limits, root: Root, t: Timed)
    requires AllIntact(root) && t.call.Append?
    ensures AllIntact(DiskStep(limits, root, t).0)
  {
    var key, at := t.call.key, t.at;
    assert key in root ==> Intact(root[key]);
    hide *;
    AppendOnDisk(limits, root, t);
    if key in root {
      DepositedInIntact(limits, root[key], t.call.deposit, t.now, at);
      UpdateIntact(root, key, DepositedInAt(limits, root[key], t.call.deposit, t.now, at));
    }
  }

  lemma DiskStepIntact(limits: Limits, root: Root, t: Timed)
    requires AllIntact(root)
    ensures AllIntact(DiskStep(limits, root, t).0)
  {
    match t.call
    case Register(_) =>
    case Append(_, _) =>
      AppendStepIntact(limits, root, t);
    case Fetch(key, _) =>
      if key in root {
        LiveNamesAreNames(limits, t.now, root[key]);
      }
    case Ack(key, upTo) =>
      if key in root {
        AckedInIntact(limits, root[key], upTo, t.now);
      }
    case CountRegistered =>
    case AskRegistered(_) =>
  }

  ghost function DiskRun(limits: Limits, root: Root, calls: seq<Timed>): seq<Answer>
    requires AllIntact(root)
    decreases |calls|
  {
    if calls == [] then [] else
      DiskStepIntact(limits, root, calls[0]);
      var step := DiskStep(limits, root, calls[0]);
      [step.1] + DiskRun(limits, step.0, calls[1..])
  }

  lemma {:induction false} RunFromRelatedRefines(
      limits: Limits, last: nat, root: Root, boxes: Mailboxes, calls: seq<Timed>)
    requires Related(limits, last, root, boxes) && ClockRuns(last, calls)
    ensures DiskRun(limits, root, calls) == MemoryRun(limits, boxes, calls)
    decreases |calls|
  {
    if calls != [] {
      var t, rest := calls[0], calls[1..];
      StepRefines(limits, last, root, boxes, t);
      assert ClockRuns(t.now, rest) by {
        assert forall i | 0 <= i < |rest| :: rest[i] == calls[i + 1];
      }
      RunFromRelatedRefines(limits, t.now, DiskStep(limits, root, t).0, MemoryStep(limits, boxes, t).0, rest);
    }
  }

  /** From empty stores, every run on a non-decreasing clock is answered alike. */
  lemma DiskRefinesMemory(limits: Limits, calls: seq<Timed>)
    requires ClockRuns(0, calls)
    ensures DiskRun(limits, map[], calls) == MemoryRun(limits, map[], calls)
  {
    RunFromRelatedRefines(limits, 0, map[], map[], calls);
  }
}
