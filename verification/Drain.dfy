/**
 * A device draining its own mailbox: page by page, acknowledging each page's largest
 * cursor, until a page comes back empty.
 */
module Drains {
  import opened Messages
  import opened Mailboxes
  import opened MailboxServices

  // ---- Order facts --------------------------------------------------------------

  /** Every item of an increasing list up to some member's cursor lies within the prefix ending there. */
  lemma PrefixHoldsAllUpTo(items: seq<Item>, page: seq<Item>, item: Item)
    requires Increasing(items) && page <= items && page != []
    requires item in items && item.cursor <= page[|page| - 1].cursor
    ensures item in page
  {
    var i :| 0 <= i < |items| && items[i] == item;
    assert items[|page| - 1] == page[|page| - 1];
    assert i < |page|;
    assert page[i] == item;
  }

  lemma IncreasingAbove(items: seq<Item>, after: nat)
    requires Increasing(items) && DistinctIds(items)
    ensures Increasing(Above(items, after)) && DistinctIds(Above(items, after))
  {
    AboveSubsequence(items, after);
    SubsequenceKeeps(Above(items, after), items);
  }

  lemma {:induction false} AboveTwice(items: seq<Item>, low: nat, high: nat)
    requires low <= high
    ensures Above(Above(items, low), high) == Above(items, high)
    decreases |items|
  {
    if items != [] {
      AboveTwice(items[1..], low, high);
      var rest := Above(items[1..], low);
      assert ([items[0]] + rest)[1..] == rest;
    }
  }

  lemma {:induction false} AboveAll(items: seq<Item>, after: nat)
    requires forall item | item in items :: item.cursor > after
    ensures Above(items, after) == items
    decreases |items|
  {
    if items != [] {
      AboveAll(items[1..], after);
    }
  }

  lemma {:induction false} AboveNone(items: seq<Item>, after: nat)
    requires forall item | item in items :: item.cursor <= after
    ensures Above(items, after) == []
    decreases |items|
  {
    if items != [] {
      AboveNone(items[1..], after);
    }
  }

  /** The last cursor of a prefix separates it from the rest. */
  lemma PrefixCursors(items: seq<Item>, page: seq<Item>)
    requires Increasing(items) && page <= items && page != []
    ensures var cut := page[|page| - 1].cursor;
            && page[|page| - 1] in items
            && (forall item | item in page :: item.cursor <= cut)
            && (forall item | item in items[|page|..] :: item.cursor > cut)
  {
    var cut, rest := page[|page| - 1].cursor, items[|page|..];
    assert items[|page| - 1] == page[|page| - 1];
    forall item | item in page
      ensures item.cursor <= cut
    {
      var i :| 0 <= i < |page| && page[i] == item;
      assert items[i] == item;
    }
    forall item | item in rest
      ensures item.cursor > cut
    {
      var i :| 0 <= i < |rest| && rest[i] == item;
      assert items[|page| + i] == item;
    }
  }

  /** Past a prefix's last cursor lies exactly the rest. */
  lemma AbovePrefix(items: seq<Item>, page: seq<Item>)
    requires Increasing(items) && page <= items && page != []
    ensures Above(items, page[|page| - 1].cursor) == items[|page|..]
  {
    var cut, rest := page[|page| - 1].cursor, items[|page|..];
    assert items == page + rest;
    PrefixCursors(items, page);
    AboveAppend(page, rest, cut);
    AboveNone(page, cut);
    AboveAll(rest, cut);
  }

  // ---- Draining with nobody else writing ----------------------------------------

  /** The pages a reader gets by always asking from the last cursor of the page before. */
  function Pages(items: seq<Item>, after: nat, budget: nat): seq<seq<Item>>
    requires Increasing(items) && DistinctIds(items)
    decreases |Above(items, after)|
  {
    var due := Above(items, after);
    var page := Page(due, budget);
    if page == [] then [] else
      PageIsMaximalPrefix(due, budget);
      IncreasingAbove(items, after);
      AbovePrefix(due, page);
      assert page[|page| - 1] in due;
      AboveTwice(items, after, page[|page| - 1].cursor);
      [page] + Pages(items, page[|page| - 1].cursor, budget)
  }

  function Concat(pages: seq<seq<Item>>): seq<Item> {
    if pages == [] then [] else pages[0] + Concat(pages[1..])
  }

  /** What is due is a page and what is due past the page's last cursor. */
  lemma DueSplits(items: seq<Item>, after: nat, page: seq<Item>)
    requires Increasing(items) && DistinctIds(items)
    requires page <= Above(items, after) && page != []
    ensures var cut := page[|page| - 1].cursor;
            Above(items, after) == page + Above(items, cut) && cut > after
  {
    var due, cut := Above(items, after), page[|page| - 1].cursor;
    IncreasingAbove(items, after);
    AbovePrefix(due, page);
    assert page[|page| - 1] == due[|page| - 1] && due[|page| - 1] in due;
    AboveTwice(items, after, cut);
    assert due == page + due[|page|..];
  }

  /** Paging loses nothing, repeats nothing and keeps the order: the pages concatenate to what was due. */
  lemma {:induction false} PagesConcatenate(items: seq<Item>, after: nat, budget: nat)
    requires Increasing(items) && DistinctIds(items)
    ensures Concat(Pages(items, after, budget)) == Above(items, after)
    decreases |Above(items, after)|
  {
    var page := Page(Above(items, after), budget);
    PageIsMaximalPrefix(Above(items, after), budget);
    hide Above, Page;
    if page != [] {
      DueSplits(items, after, page);
      var cut := page[|page| - 1].cursor;
      PagesConcatenate(items, cut, budget);
      var rest := Pages(items, cut, budget);
      assert ([page] + rest)[1..] == rest;
    }
  }

  // ---- One round ----------------------------------------------------------------

  function RoundPageOf(limits: Limits, boxes: Mailboxes, me: PublicKey, after: nat, now: nat): seq<Item> {
    Page(Fetched(limits, boxes, me, after, now), MAX_FETCH_PAGE_BYTES)
  }

  /** A fetch, then an acknowledgement of the last cursor if the page holds anything. */
  function FetchThenAck(limits: Limits, boxes: Mailboxes, me: PublicKey, page: seq<Item>, now: nat): Mailboxes {
    var purged := Purged(limits, boxes, me, now);
    if page == [] then purged else Acked(purged, me, page[|page| - 1].cursor)
  }

  /** A relay that keeps its mailboxes in order sends pages that advance, their last cursor the largest. */
  lemma HonestPage(limits: Limits, boxes: Mailboxes, me: PublicKey, after: nat, now: nat)
    requires AllOk(limits, boxes)
    ensures var page := RoundPageOf(limits, boxes, me, after, now);
            page != [] ==>
              && page[|page| - 1] in page
              && page[|page| - 1].cursor > after
              && forall item | item in page :: item.cursor <= page[|page| - 1].cursor
  {
    if me in boxes {
      var live := Purge(limits, now, boxes[me].items);
      PurgeSubsequence(limits, now, boxes[me].items);
      SubsequenceKeeps(live, boxes[me].items);
      IncreasingAbove(live, after);
      var due := Above(live, after);
      var page := Page(due, MAX_FETCH_PAGE_BYTES);
      PageIsMaximalPrefix(due, MAX_FETCH_PAGE_BYTES);
      if page != [] {
        PrefixCursors(due, page);
        assert page[|page| - 1] in due;
      }
    }
  }

  method FetchOnce(service: MailboxService, me: PublicKey, after: nat, now: nat) returns (items: seq<Item>)
    requires service.store.Valid()
    modifies service.store
    ensures service.store.Valid()
    ensures service.store.mailboxes == Purged(service.store.limits, old(service.store.mailboxes), me, now)
    ensures items == RoundPageOf(service.store.limits, old(service.store.mailboxes), me, after, now)
  {
    var response := service.Handle(me, Fetch(after), now);
    items := response.items;
  }

  method AckOnce(service: MailboxService, me: PublicKey, upTo: nat, now: nat)
    requires service.store.Valid()
    modifies service.store
    ensures service.store.Valid()
    ensures service.store.mailboxes == Acked(old(service.store.mailboxes), me, upTo)
  {
    var _ := service.Handle(me, Ack(upTo), now);
  }

  ghost predicate IsMaxCursor(page: seq<Item>, cursor: nat) {
    (exists item :: item in page && item.cursor == cursor) && forall item | item in page :: item.cursor <= cursor
  }

  method MaxCursor(items: seq<Item>) returns (max: nat)
    requires items != []
    ensures IsMaxCursor(items, max)
  {
    max := items[0].cursor;
    for i := 1 to |items|
      invariant exists item :: item in items && item.cursor == max
      invariant forall j | 0 <= j < i :: items[j].cursor <= max
    {
      if max < items[i].cursor {
        max := items[i].cursor;
      }
    }
  }

  /**
   * One round of the client's loop: fetch a page and acknowledge its largest cursor. An
   * empty page, or one that does not advance, ends the drain.
   */
  method DrainRound(service: MailboxService, me: PublicKey, after: nat, now: nat)
      returns (items: seq<Item>, next: nat, more: bool)
    requires service.store.Valid()
    modifies service.store
    ensures service.store.Valid()
    ensures items == RoundPageOf(service.store.limits, old(service.store.mailboxes), me, after, now)
    ensures service.store.mailboxes == FetchThenAck(service.store.limits, old(service.store.mailboxes), me, items, now)
    ensures more <==> items != []
    ensures more ==> next == items[|items| - 1].cursor && next > after
  {
    HonestPage(service.store.limits, service.store.mailboxes, me, after, now);
    next, more := after, false;
    items := FetchOnce(service, me, after, now);
    if items != [] {
      var pageCursor := MaxCursor(items);
      assert pageCursor == items[|items| - 1].cursor;
      if pageCursor > after {
        AckOnce(service, me, pageCursor, now);
        next, more := pageCursor, true;
      }
    }
  }

  // ---- A whole drain with nobody else writing -----------------------------------

  /**
   * Part-way through a drain of `all`: `received` so far, `rest` still held. Together they
   * are `all` in order but for what expired before it could be fetched.
   */
  ghost predicate PartDrained(
      limits: Limits, first: nat, last: nat, all: seq<Item>, received: seq<Item>, rest: seq<Item>, after: nat)
  {
    && Increasing(all) && DistinctIds(all)
    && Subsequence(received + rest, all)
    && (forall item | item in rest :: item.cursor > after)
    && (forall item | item in received :: Live(limits, first, item.depositedAt))
    && forall item | item in all :: item in received || item in rest || !Live(limits, last, item.depositedAt)
  }

  /** The purge before a page costs only what has expired. */
  lemma LiveStaysPartDrained(
      limits: Limits, first: nat, last: nat, now: nat,
      all: seq<Item>, received: seq<Item>, rest: seq<Item>, after: nat)
    requires PartDrained(limits, first, last, all, received, rest, after) && first <= last <= now
    ensures var live := Purge(limits, now, rest);
            && |live| <= |rest|
            && PartDrained(limits, first, now, all, received, live, after)
            && (forall item | item in live :: Live(limits, first, item.depositedAt))
  {
    var live := Purge(limits, now, rest);
    PurgeSubsequence(limits, now, rest);
    SubsequenceMembers(live, rest);
    SubsequenceAfter(received, live, rest);
    SubsequenceTransitive(received + live, received + rest, all);
    hide Subsequence, Increasing, DistinctIds;
  }

  lemma TailOf(prefix: seq<Item>, items: seq<Item>)
    requires Increasing(prefix + items) && DistinctIds(prefix + items)
    ensures Increasing(items) && DistinctIds(items)
  {
    assert forall i | 0 <= i < |items| :: items[i] == (prefix + items)[|prefix| + i];
  }

  /** A page moves from what is held to what was received. */
  lemma PageMovesOver(
      limits: Limits, first: nat, now: nat,
      all: seq<Item>, received: seq<Item>, live: seq<Item>, after: nat, page: seq<Item>)
    requires PartDrained(limits, first, now, all, received, live, after)
    requires forall item | item in live :: Live(limits, first, item.depositedAt)
    requires page <= live && page != []
    ensures var cut := page[|page| - 1].cursor;
            && |Above(live, cut)| < |live|
            && PartDrained(limits, first, now, all, received + page, Above(live, cut), cut)
  {
    var tail := live[|page|..];
    SubsequenceKeeps(received + live, all);
    TailOf(received, live);
    AbovePrefix(live, page);
    PrefixCursors(live, page);
    hide Subsequence, Increasing, DistinctIds, Above, Live;
    assert received + page + tail == received + live by {
      assert live == page + tail;
    }
    forall item
      ensures item in received + page <==> item in received || item in page
      ensures item in live <==> item in page || item in tail
    {
      assert item in live <==> item in page + tail;
    }
  }

  /** Fetching what is left, and acknowledging a page of it. */
  lemma RoundKeepsPartDrained(
      limits: Limits, first: nat, last: nat, now: nat,
      all: seq<Item>, received: seq<Item>, rest: seq<Item>, after: nat, page: seq<Item>)
    requires PartDrained(limits, first, last, all, received, rest, after) && first <= last <= now
    requires page == Page(Above(Purge(limits, now, rest), after), MAX_FETCH_PAGE_BYTES)
    ensures var live := Purge(limits, now, rest);
            && (page == [] ==> live == [] && PartDrained(limits, first, now, all, received, live, after))
            && (page != [] ==>
                  var cut := page[|page| - 1].cursor;
                  && |Above(live, cut)| < |rest|
                  && PartDrained(limits, first, now, all, received + page, Above(live, cut), cut))
  {
    var live := Purge(limits, now, rest);
    LiveStaysPartDrained(limits, first, last, now, all, received, rest, after);
    AboveAll(live, after);
    PageIsMaximalPrefix(live, MAX_FETCH_PAGE_BYTES);
    if page != [] {
      PageMovesOver(limits, first, now, all, received, live, after, page);
    }
    hide Purge, Above, Page, PartDrained;
  }

  /** Only the items of one mailbox differ, and that mailbox is part-way drained. */
  ghost predicate DrainedSoFar(
      limits: Limits, first: nat, last: nat, before: Mailboxes, boxes: Mailboxes, me: PublicKey,
      received: seq<Item>, after: nat)
  {
    && boxes == WithItems(before, me, HeldFor(boxes, me))
    && PartDrained(limits, first, last, HeldFor(before, me), received, HeldFor(boxes, me), after)
  }

  lemma RoundKeepsDraining(
      limits: Limits, first: nat, last: nat, now: nat, before: Mailboxes, boxes: Mailboxes, me: PublicKey,
      received: seq<Item>, after: nat)
    requires DrainedSoFar(limits, first, last, before, boxes, me, received, after) && first <= last <= now
    ensures var page := RoundPageOf(limits, boxes, me, after, now);
            var next := FetchThenAck(limits, boxes, me, page, now);
            && (page == [] ==> next == WithItems(before, me, []) &&
                               PartDrained(limits, first, now, HeldFor(before, me), received, [], after))
            && (page != [] ==>
                  && |HeldFor(next, me)| < |HeldFor(boxes, me)|
                  && DrainedSoFar(limits, first, now, before, next, me, received + page, page[|page| - 1].cursor))
  {
    var rest, page := HeldFor(boxes, me), RoundPageOf(limits, boxes, me, after, now);
    var live := Purge(limits, now, rest);
    if me in before {
      RoundKeepsPartDrained(limits, first, last, now, HeldFor(before, me), received, rest, after, page);
      WithItemsTwice(before, me, rest, live);
      if page != [] {
        WithItemsTwice(before, me, live, Above(live, page[|page| - 1].cursor));
      }
    }
  }

  ghost predicate Advances(clock: nat -> nat) {
    forall i, j :: i <= j ==> clock(i) <= clock(j)
  }

  lemma DrainStarts(limits: Limits, boxes: Mailboxes, me: PublicKey, now: nat)
    requires AllOk(limits, boxes)
    ensures DrainedSoFar(limits, now, now, boxes, boxes, me, [], 0)
  {
    var held := HeldFor(boxes, me);
    assert [] + held == held;
    SubsequenceRefl(held);
    assert me in boxes ==> boxes == boxes[me := boxes[me].(items := held)];
  }

  lemma DrainEnds(limits: Limits, first: nat, last: nat, all: seq<Item>, received: seq<Item>, after: nat)
    requires PartDrained(limits, first, last, all, received, [], after)
    ensures Increasing(received)
    ensures forall item | item in received :: item in all && Live(limits, first, item.depositedAt)
    ensures forall item | item in all && Live(limits, last, item.depositedAt) :: item in received
  {
    assert received + [] == received;
    SubsequenceKeeps(received, all);
    SubsequenceMembers(received, all);
  }

  /**
   * The client's drain loop against a relay nobody else writes to, round `i` at
   * `clock(i)`. It receives items once each and oldest first, all of them live when it
   * started, and misses only what expired meanwhile; its mailbox is left empty and every
   * other one alone.
   */
  method DrainConnection(service: MailboxService, me: PublicKey, clock: nat -> nat)
      returns (received: seq<Item>, rounds: nat)
    requires service.store.Valid() && Advances(clock)
    modifies service.store
    ensures service.store.Valid()
    ensures service.store.mailboxes == WithItems(old(service.store.mailboxes), me, [])
    ensures var limits, held := service.store.limits, HeldFor(old(service.store.mailboxes), me);
            && Increasing(received)
            && (forall item | item in received :: item in held && Live(limits, clock(0), item.depositedAt))
            && (forall item | item in held && Live(limits, clock(rounds), item.depositedAt) :: item in received)
  {
    ghost var limits, before := service.store.limits, service.store.mailboxes;
    ghost var last := clock(0);
    DrainStarts(limits, before, me, last);
    hide DrainedSoFar, PartDrained, FetchThenAck, RoundPageOf;
    received, rounds := [], 0;
    var after := 0;
    while true
      invariant service.store.Valid()
      invariant clock(0) <= last <= clock(rounds)
      invariant DrainedSoFar(limits, clock(0), last, before, service.store.mailboxes, me, received, after)
      decreases |HeldFor(service.store.mailboxes, me)|
    {
      ghost var boxes, now := service.store.mailboxes, clock(rounds);
      RoundKeepsDraining(limits, clock(0), last, now, before, boxes, me, received, after);
      var items, next, more := DrainRound(service, me, after, clock(rounds));
      if !more {
        break;
      }
      last := now;
      received, after, rounds := received + items, next, rounds + 1;
    }
    DrainEnds(limits, clock(0), clock(rounds), HeldFor(before, me), received, after);
  }

  /** If nothing expires while it runs, that is exactly what one fetch without paging would have returned. */
  lemma DrainIsOneFetch(limits: Limits, boxes: Mailboxes, me: PublicKey, now: nat, last: nat, received: seq<Item>)
    requires AllOk(limits, boxes) && Increasing(received)
    requires forall item | item in received :: item in HeldFor(boxes, me) && Live(limits, now, item.depositedAt)
    requires forall item | item in HeldFor(boxes, me) && Live(limits, last, item.depositedAt) :: item in received
    requires forall item | item in HeldFor(boxes, me) && Live(limits, now, item.depositedAt) ::
               Live(limits, last, item.depositedAt)
    ensures received == Fetched(limits, boxes, me, 0, now)
  {
    var live := Purge(limits, now, HeldFor(boxes, me));
    if me in boxes {
      PurgeSubsequence(limits, now, boxes[me].items);
      SubsequenceKeeps(live, boxes[me].items);
      AboveAll(live, 0);
    }
    IncreasingIsUnique(received, live);
  }

  // ---- The same loop against any relay at all -----------------------------------

  ghost predicate Rising(cursors: seq<nat>) {
    forall i, j :: 0 <= i < j < |cursors| ==> cursors[i] < cursors[j]
  }

  /** Where the next fetch starts. */
  function LastOf(cursors: seq<nat>): nat {
    if cursors == [] then 0 else cursors[|cursors| - 1]
  }

  lemma {:induction false} ConcatAppend(pages: seq<seq<Item>>, page: seq<Item>)
    ensures Concat(pages + [page]) == Concat(pages) + page
    decreases |pages|
  {
    if pages == [] {
      assert [page][1..] == [] && pages + [page] == [page];
    } else {
      assert (pages + [page])[1..] == pages[1..] + [page];
      ConcatAppend(pages[1..], page);
    }
  }

  /**
   * Relays are untrusted: here `answers` is whatever one sends, page after page, until the
   * connection ends. The client acknowledges only cursors it received, each the largest
   * of its page and above all before; it keeps exactly the pages it acknowledged; and it
   * abandons the relay at the first page that is empty or does not advance.
   */
  method DrainUntrusted(answers: seq<seq<Item>>) returns (received: seq<Item>, acked: seq<nat>)
    ensures |acked| <= |answers|
    ensures received == Concat(answers[..|acked|])
    ensures Rising(acked) && forall i | 0 <= i < |acked| :: acked[i] > i
    ensures forall i | 0 <= i < |acked| :: IsMaxCursor(answers[i], acked[i])
    ensures |acked| < |answers| ==> forall item | item in answers[|acked|] :: item.cursor <= LastOf(acked)
  {
    received, acked := [], [];
    var after := 0;
    for round := 0 to |answers|
      invariant |acked| == round && after == LastOf(acked)
      invariant received == Concat(answers[..round])
      invariant Rising(acked) && forall i | 0 <= i < round :: acked[i] > i
      invariant forall i | 0 <= i < round :: IsMaxCursor(answers[i], acked[i])
    {
      var items := answers[round];
      if items == [] {
        return;
      }
      var pageCursor := MaxCursor(items);
      if pageCursor <= after {
        return;
      }
      ConcatAppend(answers[..round], items);
      assert answers[..round + 1] == answers[..round] + [items];
      received := received + items;
      acked := acked + [pageCursor];
      after := pageCursor;
    }
    assert answers[..|answers|] == answers;
  }
}
