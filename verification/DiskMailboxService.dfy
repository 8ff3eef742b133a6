/**
 * The mailbox service as deployed, over the on-disk store: its requests compute what
 * `DiskRelays` says they come to.
 */
module DiskMailboxServices {
  import opened Messages
  import opened Mailboxes
  import opened FsMailboxes
  import opened FsMailboxStores
  import opened StoreRefinement
  import opened MailboxServices
  import opened RelayRuns
  import opened DiskRelays

  /** One append, as a step of the disk store. */
  lemma AppendIsStep(limits: Limits, root: Root, key: PublicKey, deposit: Deposit, now: nat, next: Root)
    requires AllIntact(root)
    requires key !in root ==> next == root
    requires key in root ==> next == root[key := DepositedInAt(limits, root[key], deposit, now, now)]
    ensures DiskStep(limits, root, Timed(Call.Append(key, deposit), now, now)).0 == next
  {
    AppendOnDisk(limits, root, Timed(Call.Append(key, deposit), now, now));
  }

  /** A page served from a directory, in plain terms: files not past their retention, the lowest cursors first. */
  lemma PageIsInDate(limits: Limits, dir: Directory, after: nat, now: nat)
    requires Intact(dir)
    ensures var page := Page(Above(ItemsOf(dir, LiveListing(limits, now, dir)), after), MAX_FETCH_PAGE_BYTES);
            && (forall item | item in page ::
                  var file := ItemFile(ItemName(item.cursor, item.depositedAt, item.deposit.id));
                  && file in dir && dir[file] == Envelope(item.deposit) && item.cursor > after
                  && 0 < limits.retention && now < item.depositedAt + limits.retention)
            && forall n, deposit |
                 && ItemFile(n) in dir && dir[ItemFile(n)] == Envelope(deposit) && n.cursor > after
                 && 0 < limits.retention && now < n.depositedMs + limits.retention ::
                 || Item(n.cursor, n.depositedMs, deposit) in page
                 || (page != [] && page[|page| - 1].cursor < n.cursor)
  {
    var due := Above(ItemsOf(dir, LiveListing(limits, now, dir)), after);
    ListedIsInDate(limits, dir, after, now);
    PageIsFront(due, MAX_FETCH_PAGE_BYTES);
    hide Page, LiveListing, Above, ItemsOf;
    forall n, deposit |
      && ItemFile(n) in dir && dir[ItemFile(n)] == Envelope(deposit) && n.cursor > after
      && 0 < limits.retention && now < n.depositedMs + limits.retention
      ensures Item(n.cursor, n.depositedMs, deposit) in due
    {
      assert n in NamesIn(dir) && n.id == deposit.id;
    }
  }

  class DiskMailboxService {
    const store: FsMailboxStore
    const policy: Policy

    constructor (store: FsMailboxStore, policy: Policy)
      ensures this.store == store && this.policy == policy
    {
      this.store := store;
      this.policy := policy;
    }

    method Admission(caller: PublicKey) returns (ok: bool)
      ensures ok == AdmitsOnDisk(policy, store.root, caller)
      ensures ok <==> policy.permits(caller) && (caller in store.root || |store.root| < policy.maxMailboxes)
    {
      if !policy.permits(caller) {
        return false;
      }
      if store.IsRegistered(caller) {
        return true;
      }
      return store.RegisteredCount() < policy.maxMailboxes;
    }

    method FanOut(deposit: Deposit, now: nat)
      requires store.Valid()
      modifies store
      ensures store.Valid()
      ensures store.root == FannedOutOnDisk(store.limits, old(store.root), deposit, deposit.recipients, now)
    {
      for i := 0 to |deposit.recipients|
        invariant store.Valid()
        invariant FannedOutOnDisk(store.limits, store.root, deposit, deposit.recipients[i..], now) ==
                  FannedOutOnDisk(store.limits, old(store.root), deposit, deposit.recipients, now)
      {
        var rest := deposit.recipients[i..];
        ghost var before := store.root;
        assert rest[0] == deposit.recipients[i] && rest[1..] == deposit.recipients[i + 1..];
        store.Append(deposit.recipients[i], deposit, now, now);
        AppendIsStep(store.limits, before, rest[0], deposit, now, store.root);
      }
    }

    method FetchPage(caller: PublicKey, after: nat, now: nat) returns (page: seq<Item>)
      requires store.Valid()
      modifies store
      ensures store.Valid()
      ensures (store.root, Response.Envelopes(page)) ==
                ServeOnDisk(store.limits, policy, old(store.root), Request(caller, Op.Fetch(after), now))
      ensures forall item | item in page ::
                var file := ItemFile(ItemName(item.cursor, item.depositedAt, item.deposit.id));
                && caller in old(store.root) && file in old(store.root)[caller]
                && old(store.root)[caller][file] == Envelope(item.deposit) && item.cursor > after
                && 0 < store.limits.retention && now < item.depositedAt + store.limits.retention
      ensures caller in old(store.root) ==>
                forall n, deposit |
                  && ItemFile(n) in old(store.root)[caller]
                  && old(store.root)[caller][ItemFile(n)] == Envelope(deposit) && n.cursor > after
                  && 0 < store.limits.retention && now < n.depositedMs + store.limits.retention ::
                  || Item(n.cursor, n.depositedMs, deposit) in page
                  || (page != [] && page[|page| - 1].cursor < n.cursor)
    {
      ghost var before := store.root;
      if caller in before {
        PageIsInDate(store.limits, before[caller], after, now);
      }
      hide PageFrom, TakeWithin, Above, ItemsOf, LiveNames, ReadBack, InDateNames;
      var due := store.Fetch(caller, after, now);
      page := MailboxService.FillPage(due);
      assert caller !in before ==> page == [];
      assert (store.root, Response.Envelopes(page)) ==
             ServeOnDisk(store.limits, policy, before, Request(caller, Op.Fetch(after), now));
      hide *;
    }

    method Handle(caller: PublicKey, op: Op, now: nat) returns (response: Response)
      requires store.Valid()
      modifies store
      ensures store.Valid()
      ensures (store.root, response) == ServeOnDisk(store.limits, policy, old(store.root), Request(caller, op, now))
      ensures op.Register? && response == Welcome ==> policy.permits(caller) && caller in store.root
      ensures op.Register? && response != Welcome ==>
                && response == Refused && store.root == old(store.root)
                && (policy.permits(caller) ==> caller !in store.root && |store.root| >= policy.maxMailboxes)
      ensures op.Fetch? ==> response.Envelopes?
      ensures op.Fetch? ==>
                forall item | item in response.items ::
                  var file := ItemFile(ItemName(item.cursor, item.depositedAt, item.deposit.id));
                  && caller in old(store.root) && file in old(store.root)[caller]
                  && old(store.root)[caller][file] == Envelope(item.deposit) && item.cursor > op.after
                  && 0 < store.limits.retention && now < item.depositedAt + store.limits.retention
      ensures op.Fetch? && caller in old(store.root) ==>
                forall n, deposit |
                  && ItemFile(n) in old(store.root)[caller]
                  && old(store.root)[caller][ItemFile(n)] == Envelope(deposit) && n.cursor > op.after
                  && 0 < store.limits.retention && now < n.depositedMs + store.limits.retention ::
                  || Item(n.cursor, n.depositedMs, deposit) in response.items
                  || (response.items != [] && response.items[|response.items| - 1].cursor < n.cursor)
    {
      match op
      case Register =>
        var admitted := Admission(caller);
        if admitted {
          store.Register(caller);
          response := Welcome;
        } else {
          response := Refused;
        }
      case Submit(deposit) =>
        FanOut(deposit, now);
        response := Receipt(deposit.id);
      case Fetch(after) =>
        var page := FetchPage(caller, after, now);
        response := Envelopes(page);
      case Ack(upTo) =>
        store.Ack(caller, upTo, now);
        response := Acknowledged;
    }
  }
}
