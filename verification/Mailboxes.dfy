/**
 * The meaning of one relay mailbox: what register, append, fetch and ack do to its
 * high-water mark and its items, and what every run of them keeps. Times are
 * milliseconds on one clock; an age never goes below zero.
 */
module Mailboxes {
  import opened Basics
  import opened Messages

  /** What a relay sees of a deposit: the id, who it is for, and its wire bytes. */
  datatype Deposit = Deposit(id: MessageId, recipients: seq<PublicKey>, wire: Bytes)

  datatype Item = Item(cursor: nat, depositedAt: nat, deposit: Deposit)

  datatype Mailbox = Mailbox(lastCursor: nat, items: seq<Item>)

  datatype Limits = Limits(retention: nat, maxItems: nat, maxBytes: nat)

  type Mailboxes = map<PublicKey, Mailbox>

  const EMPTY_MAILBOX := Mailbox(0, [])

  function Age(now: nat, at: nat): nat {
    if at <= now then now - at else 0
  }

  predicate Live(limits: Limits, now: nat, depositedAt: nat) {
    Age(now, depositedAt) < limits.retention
  }

  /** The items the retention backstop leaves, in order. */
  function Purge(limits: Limits, now: nat, items: seq<Item>): (r: seq<Item>)
    ensures forall item :: item in r <==> item in items && Live(limits, now, item.depositedAt)
  {
    if items == [] then [] else
      var rest := Purge(limits, now, items[1..]);
      if Live(limits, now, items[0].depositedAt) then [items[0]] + rest else rest
  }

  /** The items above a cursor, in order. */
  function Above(items: seq<Item>, after: nat): (r: seq<Item>)
    ensures forall item :: item in r <==> item in items && item.cursor > after
  {
    if items == [] then [] else
      var rest := Above(items[1..], after);
      if items[0].cursor > after then [items[0]] + rest else rest
  }

  predicate HasId(items: seq<Item>, id: MessageId) {
    exists item :: item in items && item.deposit.id == id
  }

  function BytesHeld(items: seq<Item>): nat {
    if items == [] then 0 else |items[0].deposit.wire| + BytesHeld(items[1..])
  }

  /** Whether a deposit is stored: news to the live items, and within both caps. */
  predicate Takes(limits: Limits, items: seq<Item>, deposit: Deposit) {
    && !HasId(items, deposit.id)
    && |items| < limits.maxItems
    && BytesHeld(items) + |deposit.wire| <= limits.maxBytes
  }

  /** A deposit into a registered mailbox: purge by the clock at `now`, then store with the time `at`, or skip. */
  function DepositedAt(limits: Limits, box: Mailbox, deposit: Deposit, now: nat, at: nat): Mailbox {
    var items := Purge(limits, now, box.items);
    if Takes(limits, items, deposit) then
      Mailbox(box.lastCursor + 1, items + [Item(box.lastCursor + 1, at, deposit)])
    else
      Mailbox(box.lastCursor, items)
  }

  /** The same with the clock standing still in between. */
  function Deposited(limits: Limits, box: Mailbox, deposit: Deposit, now: nat): Mailbox {
    DepositedAt(limits, box, deposit, now, now)
  }

  function Registered(boxes: Mailboxes, key: PublicKey): Mailboxes {
    if key in boxes then boxes else boxes[key := EMPTY_MAILBOX]
  }

  function AppendedAt(limits: Limits, boxes: Mailboxes, key: PublicKey, deposit: Deposit, now: nat, at: nat)
    : Mailboxes
  {
    if key in boxes then boxes[key := DepositedAt(limits, boxes[key], deposit, now, at)] else boxes
  }

  function Appended(limits: Limits, boxes: Mailboxes, key: PublicKey, deposit: Deposit, now: nat): Mailboxes {
    if key in boxes then boxes[key := Deposited(limits, boxes[key], deposit, now)] else boxes
  }

  /** One registered mailbox with other items, its high-water mark unchanged. */
  function WithItems(boxes: Mailboxes, key: PublicKey, items: seq<Item>): Mailboxes {
    if key in boxes then boxes[key := boxes[key].(items := items)] else boxes
  }

  lemma SetTwice(boxes: Mailboxes, key: PublicKey, first: Mailbox, second: Mailbox)
    ensures boxes[key := first][key := second] == boxes[key := second]
  {
  }

  lemma WithItemsTwice(boxes: Mailboxes, key: PublicKey, first: seq<Item>, second: seq<Item>)
    ensures WithItems(WithItems(boxes, key, first), key, second) == WithItems(boxes, key, second)
  {
    if key in boxes {
      assert boxes[key := boxes[key].(items := first)][key := boxes[key].(items := second)] ==
             boxes[key := boxes[key].(items := second)];
    }
  }

  /** Everything held for a key, expired or not. */
  function HeldFor(boxes: Mailboxes, me: PublicKey): seq<Item> {
    if me in boxes then boxes[me].items else []
  }

  function Purged(limits: Limits, boxes: Mailboxes, key: PublicKey, now: nat): Mailboxes {
    if key in boxes then WithItems(boxes, key, Purge(limits, now, boxes[key].items)) else boxes
  }

  function Fetched(limits: Limits, boxes: Mailboxes, key: PublicKey, after: nat, now: nat): seq<Item> {
    if key in boxes then Above(Purge(limits, now, boxes[key].items), after) else []
  }

  function Acked(boxes: Mailboxes, key: PublicKey, upTo: nat): Mailboxes {
    if key in boxes then WithItems(boxes, key, Above(boxes[key].items, upTo)) else boxes
  }

  // ---- What every operation keeps -----------------------------------------------

  ghost predicate Increasing(items: seq<Item>) {
    forall i, j :: 0 <= i < j < |items| ==> items[i].cursor < items[j].cursor
  }

  ghost predicate DistinctIds(items: seq<Item>) {
    forall i, j :: 0 <= i < j < |items| ==> items[i].deposit.id != items[j].deposit.id
  }

  /** Cursors strictly increase up to the high-water mark, ids are distinct, both caps hold. */
  ghost predicate BoxOk(limits: Limits, box: Mailbox) {
    && Increasing(box.items)
    && (forall item | item in box.items :: 1 <= item.cursor <= box.lastCursor)
    && DistinctIds(box.items)
    && |box.items| <= limits.maxItems
    && BytesHeld(box.items) <= limits.maxBytes
  }

  ghost predicate AllOk(limits: Limits, boxes: Mailboxes) {
    forall key | key in boxes :: BoxOk(limits, boxes[key])
  }

  /** `s` keeps some of the items of `t`, in order. */
  ghost predicate Subsequence(s: seq<Item>, t: seq<Item>)
    decreases |t|
  {
    || s == []
    || (t != [] && s[0] == t[0] && Subsequence(s[1..], t[1..]))
    || (t != [] && Subsequence(s, t[1..]))
  }

  lemma {:induction false} SubsequenceMembers(s: seq<Item>, t: seq<Item>)
    requires Subsequence(s, t)
    ensures forall item | item in s :: item in t
    ensures |s| <= |t| && BytesHeld(s) <= BytesHeld(t)
    decreases |t|
  {
    if s != [] {
      if s[0] == t[0] && Subsequence(s[1..], t[1..]) {
        SubsequenceMembers(s[1..], t[1..]);
        assert forall item | item in s :: item == s[0] || item in s[1..];
      } else {
        SubsequenceMembers(s, t[1..]);
      }
    }
  }

  lemma TailKeeps(t: seq<Item>)
    requires t != [] && Increasing(t) && DistinctIds(t)
    ensures Increasing(t[1..]) && DistinctIds(t[1..])
  {
  }

  lemma ConsKeeps(s: seq<Item>)
    requires s != [] && Increasing(s[1..]) && DistinctIds(s[1..])
    requires forall j | 0 < j < |s| :: s[0].cursor < s[j].cursor && s[0].deposit.id != s[j].deposit.id
    ensures Increasing(s) && DistinctIds(s)
  {
    forall i, j | 0 <= i < j < |s|
      ensures s[i].cursor < s[j].cursor && s[i].deposit.id != s[j].deposit.id
    {
      if i > 0 {
        assert s[i] == s[1..][i - 1] && s[j] == s[1..][j - 1];
      }
    }
  }

  lemma {:induction false} SubsequenceKeeps(s: seq<Item>, t: seq<Item>)
    requires Subsequence(s, t) && Increasing(t) && DistinctIds(t)
    ensures Increasing(s) && DistinctIds(s)
    decreases |t|
  {
    if s != [] {
      TailKeeps(t);
      if s[0] == t[0] && Subsequence(s[1..], t[1..]) {
        SubsequenceKeeps(s[1..], t[1..]);
        SubsequenceMembers(s[1..], t[1..]);
        forall j | 0 < j < |s|
          ensures s[0].cursor < s[j].cursor && s[0].deposit.id != s[j].deposit.id
        {
          assert s[j] == s[1..][j - 1] && s[j] in t[1..];
          var k :| 0 <= k < |t[1..]| && t[1..][k] == s[j];
          assert t[k + 1] == s[j];
        }
        ConsKeeps(s);
      } else {
        SubsequenceKeeps(s, t[1..]);
      }
    }
  }

  lemma {:induction false} PurgeSubsequence(limits: Limits, now: nat, items: seq<Item>)
    ensures Subsequence(Purge(limits, now, items), items)
    decreases |items|
  {
    if items != [] {
      PurgeSubsequence(limits, now, items[1..]);
    }
  }

  lemma {:induction false} AboveSubsequence(items: seq<Item>, after: nat)
    ensures Subsequence(Above(items, after), items)
    decreases |items|
  {
    if items != [] {
      AboveSubsequence(items[1..], after);
    }
  }

  lemma {:induction false} BytesHeldAppend(items: seq<Item>, item: Item)
    ensures BytesHeld([]) == 0
    ensures BytesHeld(items + [item]) == BytesHeld(items) + |item.deposit.wire|
    decreases |items|
  {
    if items == [] {
      assert items + [item] == [item];
    } else {
      assert (items + [item])[1..] == items[1..] + [item];
      BytesHeldAppend(items[1..], item);
    }
  }

  lemma FewerItemsOk(limits: Limits, box: Mailbox, items: seq<Item>)
    requires BoxOk(limits, box) && Subsequence(items, box.items)
    ensures BoxOk(limits, box.(items := items))
  {
    SubsequenceMembers(items, box.items);
    SubsequenceKeeps(items, box.items);
  }

  lemma AppendKeeps(limits: Limits, box: Mailbox, deposit: Deposit, now: nat)
    requires BoxOk(limits, box) && Takes(limits, box.items, deposit)
    ensures var next := box.lastCursor + 1;
            BoxOk(limits, Mailbox(next, box.items + [Item(next, now, deposit)]))
  {
    var items, added := box.items, Item(box.lastCursor + 1, now, deposit);
    var grown := items + [added];
    BytesHeldAppend(items, added);
    assert forall item | item in grown :: item in items || item == added;
    forall i, j | 0 <= i < j < |grown|
      ensures grown[i].cursor < grown[j].cursor && grown[i].deposit.id != grown[j].deposit.id
    {
      assert grown[i] == items[i] && items[i] in items;
    }
  }

  lemma DepositedOk(limits: Limits, box: Mailbox, deposit: Deposit, now: nat, at: nat)
    requires BoxOk(limits, box)
    ensures BoxOk(limits, DepositedAt(limits, box, deposit, now, at))
  {
    var items := Purge(limits, now, box.items);
    var purged, after := Mailbox(box.lastCursor, items), DepositedAt(limits, box, deposit, now, at);
    PurgeSubsequence(limits, now, box.items);
    FewerItemsOk(limits, box, items);
    assert BoxOk(limits, purged);
    if Takes(limits, items, deposit) {
      AppendKeeps(limits, purged, deposit, at);
      assert after == Mailbox(purged.lastCursor + 1, purged.items + [Item(purged.lastCursor + 1, at, deposit)]);
    } else {
      assert after == purged;
    }
  }

  /** Passing through a longer list loses nothing. */
  lemma {:induction false} SubsequenceTransitive(s: seq<Item>, t: seq<Item>, u: seq<Item>)
    requires Subsequence(s, t) && Subsequence(t, u)
    ensures Subsequence(s, u)
    decreases |t| + |u|
  {
    if s != [] {
      if t[0] == u[0] && Subsequence(t[1..], u[1..]) {
        if s[0] == t[0] && Subsequence(s[1..], t[1..]) {
          SubsequenceTransitive(s[1..], t[1..], u[1..]);
        } else {
          SubsequenceTransitive(s, t[1..], u[1..]);
        }
      } else {
        SubsequenceTransitive(s, t, u[1..]);
      }
    }
  }

  lemma {:induction false} SubsequenceAfter(prefix: seq<Item>, s: seq<Item>, t: seq<Item>)
    requires Subsequence(s, t)
    ensures Subsequence(prefix + s, prefix + t)
    decreases |prefix|
  {
    if prefix == [] {
      assert prefix + s == s && prefix + t == t;
    } else {
      SubsequenceAfter(prefix[1..], s, t);
      assert (prefix + s)[1..] == prefix[1..] + s && (prefix + t)[1..] == prefix[1..] + t;
    }
  }

  lemma {:induction false} SubsequenceRefl(s: seq<Item>)
    ensures Subsequence(s, s)
    decreases |s|
  {
    if s != [] {
      SubsequenceRefl(s[1..]);
    }
  }

  lemma IncreasingIsUnique(a: seq<Item>, b: seq<Item>)
    requires Increasing(a) && Increasing(b) && ToSet(a) == ToSet(b)
    ensures a == b
  {
    SortedIsUnique(a, b, (x: Item, y: Item) => x.cursor < y.cursor);
  }

  // ---- Retention in plain terms -------------------------------------------------

  /**
   * What is returned at `now` are exactly the items held above the cursor that were
   * deposited less than the retention ago, by cursor.
   */
  lemma FetchedIsInDate(limits: Limits, boxes: Mailboxes, key: PublicKey, after: nat, now: nat)
    requires AllOk(limits, boxes)
    ensures var found := Fetched(limits, boxes, key, after, now);
            && (forall item :: item in found <==>
                  && key in boxes && item in boxes[key].items && item.cursor > after
                  && 0 < limits.retention && now < item.depositedAt + limits.retention)
            && forall i, j | 0 <= i < j < |found| :: found[i].cursor < found[j].cursor
  {
    if key in boxes {
      assert BoxOk(limits, boxes[key]);
      var live := Purge(limits, now, boxes[key].items);
      PurgeSubsequence(limits, now, boxes[key].items);
      AboveSubsequence(live, after);
      SubsequenceKeeps(live, boxes[key].items);
      SubsequenceKeeps(Above(live, after), live);
    }
  }

  /**
   * A deposit at `now` is judged against exactly the items deposited less than the retention
   * ago, and those stay; it is stored last, under the next cursor, with the time read for it.
   */
  ghost predicate JudgedInDate(limits: Limits, box: Mailbox, r: Mailbox, deposit: Deposit, now: nat, at: nat) {
    var stored := r.lastCursor != box.lastCursor;
    var live := if stored && r.items != [] then r.items[..|r.items| - 1] else r.items;
    && (forall item :: item in live <==>
          item in box.items && 0 < limits.retention && now < item.depositedAt + limits.retention)
    && (forall i, j | 0 <= i < j < |live| :: live[i].cursor < live[j].cursor)
    && (stored ==> r == Mailbox(box.lastCursor + 1, live + [Item(box.lastCursor + 1, at, deposit)]))
    && (stored <==>
          && (forall item | item in live :: item.deposit.id != deposit.id)
          && |live| < limits.maxItems
          && BytesHeld(live) + |deposit.wire| <= limits.maxBytes)
  }

  lemma JudgedBy(
      limits: Limits, box: Mailbox, r: Mailbox, live: seq<Item>, deposit: Deposit, now: nat, at: nat)
    requires forall item :: item in live <==>
               item in box.items && 0 < limits.retention && now < item.depositedAt + limits.retention
    requires Increasing(live)
    requires var cursor := box.lastCursor + 1;
             r == if Takes(limits, live, deposit) then Mailbox(cursor, live + [Item(cursor, at, deposit)])
                  else Mailbox(box.lastCursor, live)
    ensures JudgedInDate(limits, box, r, deposit, now, at)
  {
    hide BytesHeld;
    assert HasId(live, deposit.id) <==> !forall item | item in live :: item.deposit.id != deposit.id;
    var stored := r.lastCursor != box.lastCursor;
    assert live == if stored && r.items != [] then r.items[..|r.items| - 1] else r.items;
  }

  lemma DepositedInDate(limits: Limits, box: Mailbox, deposit: Deposit, now: nat, at: nat)
    requires BoxOk(limits, box)
    ensures JudgedInDate(limits, box, DepositedAt(limits, box, deposit, now, at), deposit, now, at)
  {
    var live := Purge(limits, now, box.items);
    PurgeSubsequence(limits, now, box.items);
    SubsequenceKeeps(live, box.items);
    assert DepositedAt(limits, box, deposit, now, at) ==
           if Takes(limits, live, deposit)
           then Mailbox(box.lastCursor + 1, live + [Item(box.lastCursor + 1, at, deposit)])
           else Mailbox(box.lastCursor, live);
    hide Purge, Subsequence, Takes, DepositedAt, JudgedInDate;
    JudgedBy(limits, box, DepositedAt(limits, box, deposit, now, at), live, deposit, now, at);
  }

  // ---- Composing purges ---------------------------------------------------------

  lemma {:induction false} PurgeLive(limits: Limits, now: nat, items: seq<Item>)
    requires forall item | item in items :: Live(limits, now, item.depositedAt)
    ensures Purge(limits, now, items) == items
    decreases |items|
  {
    if items != [] {
      PurgeLive(limits, now, items[1..]);
    }
  }

  /** Purging later leaves what purging twice leaves. */
  lemma {:induction false} PurgeTwice(limits: Limits, earlier: nat, later: nat, items: seq<Item>)
    requires earlier <= later
    ensures Purge(limits, later, Purge(limits, earlier, items)) == Purge(limits, later, items)
    decreases |items|
  {
    if items != [] {
      PurgeTwice(limits, earlier, later, items[1..]);
      var rest := Purge(limits, earlier, items[1..]);
      if Live(limits, earlier, items[0].depositedAt) {
        assert ([items[0]] + rest)[1..] == rest;
      }
    }
  }

  lemma {:induction false} PurgeAppend(limits: Limits, now: nat, s: seq<Item>, t: seq<Item>)
    ensures Purge(limits, now, s + t) == Purge(limits, now, s) + Purge(limits, now, t)
    decreases |s|
  {
    if s == [] {
      assert s + t == t;
    } else {
      assert (s + t)[1..] == s[1..] + t;
      PurgeAppend(limits, now, s[1..], t);
    }
  }

  lemma {:induction false} AboveAppend(s: seq<Item>, t: seq<Item>, after: nat)
    ensures Above(s + t, after) == Above(s, after) + Above(t, after)
    decreases |s|
  {
    if s == [] {
      assert s + t == t;
    } else {
      assert (s + t)[1..] == s[1..] + t;
      AboveAppend(s[1..], t, after);
    }
  }

  lemma AboveOne(item: Item, after: nat)
    ensures Above([item], after) == if item.cursor > after then [item] else []
  {
  }

  /** Dropping acknowledged items and dropping expired ones commute. */
  lemma {:induction false} PurgeAbove(limits: Limits, now: nat, items: seq<Item>, after: nat)
    ensures Purge(limits, now, Above(items, after)) == Above(Purge(limits, now, items), after)
    decreases |items|
  {
    if items != [] {
      PurgeAbove(limits, now, items[1..], after);
      var above, live := Above(items[1..], after), Purge(limits, now, items[1..]);
      assert ([items[0]] + above)[1..] == above;
      assert ([items[0]] + live)[1..] == live;
    }
  }
}
