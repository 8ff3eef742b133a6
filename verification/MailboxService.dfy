/**
 * What a relay does with the request of a caller whose key is already proven. `Serve` is
 * what a request means; `MailboxService` computes it over a store.
 */
module MailboxServices {
  import opened Messages
  import opened Mailboxes
  import opened InMemoryStores

  /** The byte budget of a page; only a page of a single envelope may pass it. */
  const MAX_FETCH_PAGE_BYTES: nat := 12 * 1024 * 1024

  /** Who may register, and how many mailboxes are hosted. */
  datatype Policy = Policy(permits: PublicKey -> bool, maxMailboxes: nat)

  datatype Op = Register | Submit(deposit: Deposit) | Fetch(after: nat) | Ack(upTo: nat)

  datatype Response = Welcome | Refused | Receipt(id: MessageId) | Envelopes(items: seq<Item>) | Acknowledged

  function Admits(policy: Policy, boxes: Mailboxes, caller: PublicKey): bool {
    policy.permits(caller) && (caller in boxes || |boxes| < policy.maxMailboxes)
  }

  /** A deposit fans out to its recipients, one after the other. */
  function FannedOut(
      limits: Limits, boxes: Mailboxes, deposit: Deposit, recipients: seq<PublicKey>, now: nat): Mailboxes
    decreases |recipients|
  {
    if recipients == [] then boxes else
      FannedOut(limits, Appended(limits, boxes, recipients[0], deposit, now), deposit, recipients[1..], now)
  }

  // ---- Paging -------------------------------------------------------------------

  /** Take items while the page stays within the budget. */
  function TakeWithin(items: seq<Item>, used: nat, budget: nat): seq<Item> {
    if items == [] || used + |items[0].deposit.wire| > budget then [] else
      [items[0]] + TakeWithin(items[1..], used + |items[0].deposit.wire|, budget)
  }

  /** One page: the first item whatever its size, then as many as fit. */
  function Page(items: seq<Item>, budget: nat): seq<Item> {
    if items == [] then [] else [items[0]] + TakeWithin(items[1..], |items[0].deposit.wire|, budget)
  }

  lemma {:induction false} TakeWithinIsMaximal(items: seq<Item>, used: nat, budget: nat)
    ensures var taken := TakeWithin(items, used, budget);
            && taken <= items
            && (taken != [] ==> used + BytesHeld(taken) <= budget)
            && (|taken| < |items| ==> used + BytesHeld(items[..|taken| + 1]) > budget)
    decreases |items|
  {
    if items != [] && used + |items[0].deposit.wire| <= budget {
      var size := |items[0].deposit.wire|;
      TakeWithinIsMaximal(items[1..], used + size, budget);
      var rest := TakeWithin(items[1..], used + size, budget);
      var taken := [items[0]] + rest;
      assert taken[1..] == rest;
      if |taken| < |items| {
        assert items[..|taken| + 1] == [items[0]] + items[1..][..|rest| + 1];
        assert items[..|taken| + 1][1..] == items[1..][..|rest| + 1];
      }
    } else if items != [] {
      assert items[..1] == [items[0]];
    }
  }

  /**
   * A page is a prefix of what is due, never empty when something is due, within the
   * budget unless it is a single envelope, and one more envelope would not have fitted.
   */
  lemma PageIsMaximalPrefix(items: seq<Item>, budget: nat)
    ensures var page := Page(items, budget);
            && page <= items
            && (page == [] <==> items == [])
            && (|page| > 1 ==> BytesHeld(page) <= budget)
            && (|page| < |items| ==> BytesHeld(items[..|page| + 1]) > budget)
  {
    if items != [] {
      var rest := TakeWithin(items[1..], |items[0].deposit.wire|, budget);
      TakeWithinIsMaximal(items[1..], |items[0].deposit.wire|, budget);
      var page := [items[0]] + rest;
      assert page[1..] == rest;
      if |page| < |items| {
        assert items[..|page| + 1] == [items[0]] + items[1..][..|rest| + 1];
        assert items[..|page| + 1][1..] == items[1..][..|rest| + 1];
      }
    }
  }

  /** Of what is due in cursor order, a page is the front; whatever it leaves lies above its last cursor. */
  lemma PageIsFront(due: seq<Item>, budget: nat)
    requires Increasing(due)
    ensures var page := Page(due, budget);
            && Increasing(page)
            && (forall item | item in page :: item in due)
            && forall item | item in due && item !in page :: page != [] && page[|page| - 1].cursor < item.cursor
  {
    var page := Page(due, budget);
    PageIsMaximalPrefix(due, budget);
    hide Page;
    assert forall i | 0 <= i < |page| :: page[i] == due[i];
    forall item | item in due && item !in page
      ensures page != [] && page[|page| - 1].cursor < item.cursor
    {
      var i :| 0 <= i < |due| && due[i] == item;
      assert i >= |page|;
    }
  }

  // ---- Requests -----------------------------------------------------------------

  function Serve(limits: Limits, policy: Policy, boxes: Mailboxes, caller: PublicKey, op: Op, now: nat)
    : (Mailboxes, Response)
  {
    match op
    case Register =>
      if Admits(policy, boxes, caller) then (Registered(boxes, caller), Welcome) else (boxes, Refused)
    case Submit(deposit) =>
      (FannedOut(limits, boxes, deposit, deposit.recipients, now), Receipt(deposit.id))
    case Fetch(after) =>
      (Purged(limits, boxes, caller, now),
       Envelopes(Page(Fetched(limits, boxes, caller, after, now), MAX_FETCH_PAGE_BYTES)))
    case Ack(upTo) => (Acked(boxes, caller, upTo), Acknowledged)
  }

  /** After `i` items of `bytes` bytes, the rest of the page is what still fits. */
  ghost predicate PageFrom(due: seq<Item>, i: nat, bytes: nat)
    requires i <= |due|
  {
    Page(due, MAX_FETCH_PAGE_BYTES) == due[..i] + TakeWithin(due[i..], bytes, MAX_FETCH_PAGE_BYTES)
  }

  lemma PageStep(due: seq<Item>, i: nat, bytes: nat)
    requires i < |due|
    requires i > 0 ==> PageFrom(due, i, bytes)
    requires i == 0 ==> bytes == 0
    ensures i > 0 && bytes + |due[i].deposit.wire| > MAX_FETCH_PAGE_BYTES ==>
              Page(due, MAX_FETCH_PAGE_BYTES) == due[..i]
    ensures i == 0 || bytes + |due[i].deposit.wire| <= MAX_FETCH_PAGE_BYTES ==>
              PageFrom(due, i + 1, bytes + |due[i].deposit.wire|)
  {
    assert due[i..][1..] == due[i + 1..];
    assert due[..i + 1] == due[..i] + [due[i]];
  }

  class MailboxService {
    const store: InMemoryStore
    const policy: Policy

    constructor (store: InMemoryStore, policy: Policy)
      ensures this.store == store && this.policy == policy
    {
      this.store := store;
      this.policy := policy;
    }

    /** Whether a caller may register: the ceiling binds only permitted callers the relay does not host. */
    method Admission(caller: PublicKey) returns (ok: bool)
      requires store.Valid()
      ensures ok == Admits(policy, store.mailboxes, caller)
      ensures ok <==>
                policy.permits(caller) && (caller in store.mailboxes || |store.mailboxes| < policy.maxMailboxes)
    {
      if !policy.permits(caller) {
        return false;
      }
      if store.IsRegistered(caller) {
        return true;
      }
      return store.RegisteredCount() < policy.maxMailboxes;
    }

    method FanOut(deposit: Deposit, now: nat)
      requires store.Valid()
      modifies store
      ensures store.Valid()
      ensures store.mailboxes ==
                FannedOut(store.limits, old(store.mailboxes), deposit, deposit.recipients, now)
    {
      for i := 0 to |deposit.recipients|
        invariant store.Valid()
        invariant FannedOut(store.limits, store.mailboxes, deposit, deposit.recipients[i..], now) ==
                  FannedOut(store.limits, old(store.mailboxes), deposit, deposit.recipients, now)
      {
        var rest := deposit.recipients[i..];
        assert rest[0] == deposit.recipients[i] && rest[1..] == deposit.recipients[i + 1..];
        store.Append(deposit.recipients[i], deposit, now, now);
      }
    }

    static method FillPage(due: seq<Item>) returns (page: seq<Item>)
      ensures page == Page(due, MAX_FETCH_PAGE_BYTES)
      ensures |page| > 1 ==> BytesHeld(page) <= 12 * 1024 * 1024
    {
      PageIsMaximalPrefix(due, MAX_FETCH_PAGE_BYTES);
      page := [];
      var bytes := 0;
      for i := 0 to |due|
        invariant page == due[..i]
        invariant bytes == BytesHeld(page)
        invariant i > 0 ==> PageFrom(due, i, bytes)
      {
        var size := |due[i].deposit.wire|;
        BytesHeldAppend(page, due[i]);
        assert due[..i + 1] == due[..i] + [due[i]];
        PageStep(due, i, bytes);
        if page != [] && bytes + size > MAX_FETCH_PAGE_BYTES {
          return;
        }
        bytes := bytes + size;
        page := page + [due[i]];
      }
      assert due[..|due|] == due;
    }

    /** The first item whatever its size, then one after the other while the budget lasts. */
    method FetchPage(caller: PublicKey, after: nat, now: nat) returns (page: seq<Item>)
      requires store.Valid()
      modifies store
      ensures store.Valid() && store.mailboxes == Purged(store.limits, old(store.mailboxes), caller, now)
      ensures page == Page(Fetched(store.limits, old(store.mailboxes), caller, after, now), MAX_FETCH_PAGE_BYTES)
      ensures forall item | item in page ::
                && caller in old(store.mailboxes) && item in old(store.mailboxes)[caller].items
                && item.cursor > after
                && 0 < store.limits.retention && now < item.depositedAt + store.limits.retention
      ensures caller in old(store.mailboxes) ==>
                forall item |
                  && item in old(store.mailboxes)[caller].items && item.cursor > after
                  && 0 < store.limits.retention && now < item.depositedAt + store.limits.retention ::
                  item in page || (page != [] && page[|page| - 1].cursor < item.cursor)
    {
      var due := store.Fetch(caller, after, now);
      page := FillPage(due);
      PageIsFront(due, MAX_FETCH_PAGE_BYTES);
    }

    method Handle(caller: PublicKey, op: Op, now: nat) returns (response: Response)
      requires store.Valid()
      modifies store
      ensures store.Valid()
      ensures (store.mailboxes, response) == Serve(store.limits, policy, old(store.mailboxes), caller, op, now)
      ensures op.Register? && response == Welcome ==> policy.permits(caller) && caller in store.mailboxes
      ensures op.Register? && response != Welcome ==>
                && response == Refused && store.mailboxes == old(store.mailboxes)
                && (policy.permits(caller) ==>
                      caller !in store.mailboxes && |store.mailboxes| >= policy.maxMailboxes)
      ensures op.Fetch? ==> response.Envelopes?
      ensures op.Fetch? ==>
                forall item | item in response.items ::
                  && caller in old(store.mailboxes) && item in old(store.mailboxes)[caller].items
                  && item.cursor > op.after
                  && 0 < store.limits.retention && now < item.depositedAt + store.limits.retention
      ensures op.Fetch? && caller in old(store.mailboxes) ==>
                forall item |
                  && item in old(store.mailboxes)[caller].items && item.cursor > op.after
                  && 0 < store.limits.retention && now < item.depositedAt + store.limits.retention ::
                  || item in response.items
                  || (response.items != [] && response.items[|response.items| - 1].cursor < item.cursor)
    {
      match op
      case Register =>
        var admitted := Admission(caller);
        if admitted {
          store.Register(caller);
          response := Welcome;
        } else {
          response := Refused;
        }
      case Submit(deposit) =>
        FanOut(deposit, now);
        response := Receipt(deposit.id);
      case Fetch(after) =>
        var page := FetchPage(caller, after, now);
        response := Envelopes(page);
      case Ack(upTo) =>
        store.Ack(caller, upTo);
        response := Acknowledged;
    }
  }
}
