/**
 * What an operator is told about the data directory. Files that have expired but not been
 * purged count too, so it is not enough that live items agree with memory: every item
 * file, expired or not, is an item some mailbox in memory still holds.
 */
module DiskCeilings {
  import opened Basics
  import opened Messages
  import opened Mailboxes
  import opened FsMailboxes
  import opened StoreRefinement
  import opened MailboxServices
  import opened RelayRuns
  import opened DiskRelays

  /** Every item file records an item of the mailbox. */
  ghost predicate Backed(dir: Directory, box: Mailbox)
    requires Intact(dir)
  {
    forall n | n in NamesIn(dir) :: ItemOf(dir, n) in box.items
  }

  ghost predicate AllBacked(root: Root, boxes: Mailboxes)
    requires AllIntact(root)
  {
    root.Keys == boxes.Keys && forall key | key in root :: Backed(root[key], boxes[key])
  }

  // ---- Every operation keeps files backed ---------------------------------------

  lemma PurgeKeepsBacked(limits: Limits, now: nat, dir: Directory, box: Mailbox)
    requires Intact(dir) && Backed(dir, box)
    ensures Intact(PurgedDir(limits, now, dir))
    ensures Backed(PurgedDir(limits, now, dir), box.(items := Purge(limits, now, box.items)))
  {
    LiveNamesAreNames(limits, now, dir);
    var purged := PurgedDir(limits, now, dir);
    forall n | n in NamesIn(purged)
      ensures ItemOf(purged, n) in Purge(limits, now, box.items)
    {
      assert ItemOf(purged, n) == ItemOf(dir, n);
    }
  }

  lemma AckKeepsBacked(limits: Limits, now: nat, dir: Directory, box: Mailbox, upTo: nat)
    requires Intact(dir) && Backed(dir, box)
    ensures Intact(AckedIn(limits, dir, upTo, now))
    ensures Backed(AckedIn(limits, dir, upTo, now), box.(items := Above(box.items, upTo)))
  {
    AckedInIntact(limits, dir, upTo, now);
    var acked := AckedIn(limits, dir, upTo, now);
    forall n | n in NamesIn(acked)
      ensures ItemOf(acked, n) in Above(box.items, upTo)
    {
      assert n in NamesIn(dir) && ItemOf(acked, n) == ItemOf(dir, n);
    }
  }

  lemma StoreKeepsBacked(dir: Directory, box: Mailbox, deposit: Deposit, now: nat)
    requires Intact(dir) && Backed(dir, box) && LastCursor(dir) == box.lastCursor
    requires forall n | n in NamesIn(dir) :: n.id != deposit.id
    ensures var next := box.lastCursor + 1;
            && Intact(StoredIn(dir, deposit, now))
            && Backed(StoredIn(dir, deposit, now), Mailbox(next, box.items + [Item(next, now, deposit)]))
  {
    StoredInIntact(dir, deposit, now);
    var next, dir' := box.lastCursor + 1, StoredIn(dir, deposit, now);
    var items := box.items + [Item(next, now, deposit)];
    assert forall item :: item in items <==> item in box.items || item == Item(next, now, deposit);
    forall n | n in NamesIn(dir')
      ensures ItemOf(dir', n) in items
    {
      assert n in NamesIn(dir) ==> ItemOf(dir', n) == ItemOf(dir, n);
    }
  }

  lemma DepositKeepsBacked(limits: Limits, now: nat, dir: Directory, box: Mailbox, deposit: Deposit)
    requires Intact(dir) && BoxOk(limits, box) && Represents(limits, now, dir, box) && Backed(dir, box)
    ensures Intact(DepositedIn(limits, dir, deposit, now))
    ensures Backed(DepositedIn(limits, dir, deposit, now), Deposited(limits, box, deposit, now))
  {
    var names, purged := LiveListing(limits, now, dir), PurgedDir(limits, now, dir);
    TakesAgree(limits, now, dir, box, deposit);
    PurgeKeepsBacked(limits, now, dir, box);
    LiveNamesAreNames(limits, now, dir);
    if FsTakes(limits, ItemsOf(dir, names), names, deposit) {
      forall n | n in NamesIn(purged)
        ensures n.id != deposit.id
      {
        assert n in ToSet(names);
      }
      StoreKeepsBacked(purged, box.(items := Purge(limits, now, box.items)), deposit, now);
    }
  }

  lemma UpdateKeepsBacked(root: Root, boxes: Mailboxes, key: PublicKey, dir: Directory, box: Mailbox)
    requires AllIntact(root) && AllBacked(root, boxes) && Intact(dir) && Backed(dir, box)
    ensures AllIntact(root[key := dir]) && AllBacked(root[key := dir], boxes[key := box])
  {
  }

  lemma {:induction false} FanOutKeepsBacked(
      limits: Limits, root: Root, boxes: Mailboxes, deposit: Deposit, recipients: seq<PublicKey>, now: nat)
    requires Related(limits, now, root, boxes) && AllBacked(root, boxes)
    ensures AllBacked(FannedOutOnDisk(limits, root, deposit, recipients, now),
                      FannedOut(limits, boxes, deposit, recipients, now))
    decreases |recipients|
  {
    if recipients != [] {
      var key := recipients[0];
      var call := Timed(Call.Append(key, deposit), now, now);
      AppendRefines(limits, root, boxes, call);
      if key in root {
        DepositKeepsBacked(limits, now, root[key], boxes[key], deposit);
        UpdateKeepsBacked(root, boxes, key, DepositedIn(limits, root[key], deposit, now),
                          Deposited(limits, boxes[key], deposit, now));
      }
      FanOutKeepsBacked(limits, DiskStep(limits, root, call).0, MemoryStep(limits, boxes, call).0,
                        deposit, recipients[1..], now);
    }
  }

  ghost predicate RequestBacked(limits: Limits, policy: Policy, root: Root, boxes: Mailboxes, r: Request)
    requires AllIntact(root)
  {
    AllBacked(ServeOnDisk(limits, policy, root, r).0, Serve(limits, policy, boxes, r.caller, r.op, r.now).0)
  }

  lemma RegisterKeepsBacked(limits: Limits, policy: Policy, root: Root, boxes: Mailboxes, r: Request)
    requires AllIntact(root) && AllBacked(root, boxes) && r.op.Register?
    ensures RequestBacked(limits, policy, root, boxes, r)
  {
    SameSize(root, boxes);
    RegisterOnDisk(limits, policy, root, r);
    RegisterInMemory(limits, policy, boxes, r);
    UpdateKeepsBacked(root, boxes, r.caller, map[], EMPTY_MAILBOX);
    assert AdmitsOnDisk(policy, root, r.caller) == Admits(policy, boxes, r.caller);
    hide ServeOnDisk, Serve;
  }

  lemma FetchKeepsBacked(limits: Limits, policy: Policy, root: Root, boxes: Mailboxes, r: Request)
    requires AllIntact(root) && AllBacked(root, boxes) && r.op.Fetch?
    ensures RequestBacked(limits, policy, root, boxes, r)
  {
    var key := r.caller;
    if key in root {
      var box := boxes[key];
      PurgeKeepsBacked(limits, r.now, root[key], box);
      UpdateKeepsBacked(root, boxes, key, PurgedDir(limits, r.now, root[key]),
                        box.(items := Purge(limits, r.now, box.items)));
    }
    hide Purge, PurgedDir, Page, LiveListing, AllBacked, Backed, Intact;
  }

  lemma SubmitKeepsBacked(limits: Limits, policy: Policy, root: Root, boxes: Mailboxes, r: Request)
    requires Related(limits, r.now, root, boxes) && AllBacked(root, boxes) && r.op.Submit?
    ensures RequestBacked(limits, policy, root, boxes, r)
  {
    FanOutKeepsBacked(limits, root, boxes, r.op.deposit, r.op.deposit.recipients, r.now);
    hide AllBacked, FannedOutOnDisk, FannedOut;
  }

  lemma AckRequestKeepsBacked(limits: Limits, policy: Policy, root: Root, boxes: Mailboxes, r: Request)
    requires AllIntact(root) && AllBacked(root, boxes) && r.op.Ack?
    ensures RequestBacked(limits, policy, root, boxes, r)
  {
    var key, upTo := r.caller, r.op.upTo;
    if key in root {
      var box := boxes[key];
      AckKeepsBacked(limits, r.now, root[key], box, upTo);
      UpdateKeepsBacked(root, boxes, key, AckedIn(limits, root[key], upTo, r.now),
                        box.(items := Above(box.items, upTo)));
    }
    hide Above, AckedIn, AllBacked, Backed, Intact;
  }

  lemma RequestKeepsBacked(limits: Limits, policy: Policy, root: Root, boxes: Mailboxes, r: Request)
    requires Related(limits, r.now, root, boxes) && AllBacked(root, boxes)
    ensures RequestBacked(limits, policy, root, boxes, r)
  {
    assert AllIntact(root);
    hide RequestBacked, AllBacked, AllIntact;
    match r.op
    case Register =>
      RegisterKeepsBacked(limits, policy, root, boxes, r);
    case Submit(_) =>
      SubmitKeepsBacked(limits, policy, root, boxes, r);
    case Fetch(_) =>
      FetchKeepsBacked(limits, policy, root, boxes, r);
    case Ack(_) =>
      AckRequestKeepsBacked(limits, policy, root, boxes, r);
  }

  // ---- Whole runs ---------------------------------------------------------------

  ghost function RootAfter(limits: Limits, policy: Policy, root: Root, requests: seq<Request>): (r: Root)
    requires AllIntact(root)
    ensures AllIntact(r)
    decreases |requests|
  {
    if requests == [] then root else
      RootAfter(limits, policy, ServeOnDisk(limits, policy, root, requests[0]).0, requests[1..])
  }

  lemma {:induction false} RunKeepsBacked(
      limits: Limits, policy: Policy, last: nat, root: Root, boxes: Mailboxes, requests: seq<Request>)
    requires Related(limits, last, root, boxes) && AllBacked(root, boxes) && ClockAdvances(last, requests)
    ensures AllBacked(RootAfter(limits, policy, root, requests), ServeAll(limits, policy, boxes, requests))
    decreases |requests|
  {
    if requests != [] {
      var r, rest := requests[0], requests[1..];
      RelatedLater(limits, last, r.now, root, boxes);
      RequestRefines(limits, policy, last, root, boxes, r);
      RequestKeepsBacked(limits, policy, root, boxes, r);
      assert ClockAdvances(r.now, rest) by {
        assert forall i | 0 <= i < |rest| :: rest[i] == requests[i + 1];
      }
      RunKeepsBacked(limits, policy, r.now, ServeOnDisk(limits, policy, root, r).0,
                     Serve(limits, policy, boxes, r.caller, r.op, r.now).0, rest);
    }
  }

  // ---- Counting files and bytes -------------------------------------------------

  /** Bytes of all item files, expired or not. */
  ghost function RootBytes(root: Root): nat {
    SumOver(root.Keys, key => if key in root then BytesOnDisk(root[key], NamesIn(root[key])) else 0)
  }

  lemma RestIsBacked(dir: Directory, names: set<ItemName>, items: seq<Item>, first: ItemName)
    requires Intact(dir) && names <= NamesIn(dir) && first in names
    requires forall n | n in names :: ItemOf(dir, n) in items
    requires items != [] && ItemOf(dir, first) == items[0]
    ensures forall n | n in names && n != first :: ItemOf(dir, n) in items[1..]
    ensures BytesHeld(items) == SizeOf(dir, first) + BytesHeld(items[1..])
  {
    forall n | n in names && n != first
      ensures ItemOf(dir, n) in items[1..]
    {
      assert n.cursor != first.cursor;
    }
  }

  /** The total counts each directory once. */
  lemma RootBytesOf(root: Root, key: PublicKey)
    ensures RootBytes(map[]) == 0
    ensures key in root ==> RootBytes(root) == BytesOnDisk(root[key], NamesIn(root[key])) + RootBytes(root - {key})
  {
    var rest := root - {key};
    var size := (k: PublicKey) => if k in root then BytesOnDisk(root[k], NamesIn(root[k])) else 0;
    var left := (k: PublicKey) => if k in rest then BytesOnDisk(rest[k], NamesIn(rest[k])) else 0;
    assert RootBytes(root) == SumOver(root.Keys, size) && RootBytes(rest) == SumOver(rest.Keys, left);
    if key in root {
      SumOverRemove(root.Keys, size, key);
      assert rest.Keys == root.Keys - {key};
      SumOverSame(rest.Keys, size, left);
    }
  }

  /** Distinct files recording items of a list are no more than the list, in number and in bytes. */
  lemma {:induction false} BackedFits(dir: Directory, names: set<ItemName>, items: seq<Item>)
    requires Intact(dir) && names <= NamesIn(dir)
    requires forall n | n in names :: ItemOf(dir, n) in items
    ensures |names| <= |items|
    ensures BytesOnDisk(dir, names) <= BytesHeld(items)
    decreases |items|
  {
    if items == [] {
      assert names == {};
    } else if first :| first in names && ItemOf(dir, first) == items[0] {
      var rest := names - {first};
      RestIsBacked(dir, names, items, first);
      BytesOnDiskAdd(dir, rest, first);
      hide *;
      assert rest + {first} == names;
      BackedFits(dir, rest, items[1..]);
    } else {
      assert forall n | n in names :: ItemOf(dir, n) != items[0] && ItemOf(dir, n) in items[1..];
      BackedFits(dir, names, items[1..]);
    }
  }

  /**
   * Any run of requests on an advancing clock leaves every directory within both caps and
   * the whole tree within `max_mailboxes * max_bytes`, whatever has yet to be purged.
   */
  lemma DiskCeiling(limits: Limits, policy: Policy, requests: seq<Request>)
    requires ClockAdvances(0, requests)
    ensures var root := RootAfter(limits, policy, map[], requests);
            && |root| <= policy.maxMailboxes
            && (forall key | key in root :: |NamesIn(root[key])| <= limits.maxItems)
            && (forall key | key in root :: BytesOnDisk(root[key], NamesIn(root[key])) <= limits.maxBytes)
            && RootBytes(root) <= policy.maxMailboxes * limits.maxBytes
  {
    var root, boxes := RootAfter(limits, policy, map[], requests), ServeAll(limits, policy, map[], requests);
    RunKeepsBacked(limits, policy, 0, map[], map[], requests);
    RunsStayOk(limits, policy, map[], requests);
    SameSize(root, boxes);
    forall key | key in root
      ensures |NamesIn(root[key])| <= limits.maxItems && BytesOnDisk(root[key], NamesIn(root[key])) <= limits.maxBytes
    {
      assert BoxOk(limits, boxes[key]) && Backed(root[key], boxes[key]);
      BackedFits(root[key], NamesIn(root[key]), boxes[key].items);
    }
    SumOverBound(
      root.Keys, key => if key in root then BytesOnDisk(root[key], NamesIn(root[key])) else 0, limits.maxBytes);
    assert |root.Keys| == |root|;
    MulMonotone(|root|, policy.maxMailboxes, limits.maxBytes);
  }
}
