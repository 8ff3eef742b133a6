/**
 * The deployed relay: the mailbox service over the on-disk store. Every request becomes a
 * few store calls, so the store refinement carries over to whole requests: a relay on
 * disk answers as one in memory does. What its files amount to is `DiskCeilings`.
 */
module DiskRelays {
  import opened Messages
  import opened Mailboxes
  import opened FsMailboxes
  import opened StoreRefinement
  import opened MailboxServices
  import opened RelayRuns

  ghost function AdmitsOnDisk(policy: Policy, root: Root, caller: PublicKey): bool {
    policy.permits(caller) && (caller in root || |root| < policy.maxMailboxes)
  }

  ghost function FannedOutOnDisk(
      limits: Limits, root: Root, deposit: Deposit, recipients: seq<PublicKey>, now: nat): (r: Root)
    requires AllIntact(root)
    ensures AllIntact(r)
    decreases |recipients|
  {
    if recipients == [] then root else
      var call := Timed(Call.Append(recipients[0], deposit), now, now);
      DiskStepIntact(limits, root, call);
      FannedOutOnDisk(limits, DiskStep(limits, root, call).0, deposit, recipients[1..], now)
  }

  ghost function ServeOnDisk(limits: Limits, policy: Policy, root: Root, r: Request): (out: (Root, Response))
    requires AllIntact(root)
    ensures AllIntact(out.0)
  {
    match r.op
    case Register =>
      if AdmitsOnDisk(policy, root, r.caller)
      then (if r.caller in root then root else root[r.caller := map[]], Welcome) else (root, Refused)
    case Submit(deposit) =>
      (FannedOutOnDisk(limits, root, deposit, deposit.recipients, r.now), Receipt(deposit.id))
    case Fetch(after) =>
      if r.caller !in root then (root, Envelopes([])) else
        var dir := root[r.caller];
        LiveNamesAreNames(limits, r.now, dir);
        (root[r.caller := PurgedDir(limits, r.now, dir)],
         Envelopes(Page(Above(ItemsOf(dir, LiveListing(limits, r.now, dir)), after), MAX_FETCH_PAGE_BYTES)))
    case Ack(upTo) =>
      var call := Timed(Call.Ack(r.caller, upTo), r.now, r.now);
      DiskStepIntact(limits, root, call);
      (DiskStep(limits, root, call).0, Acknowledged)
  }

  lemma {:induction false} FanOutRefines(
      limits: Limits, root: Root, boxes: Mailboxes, deposit: Deposit, recipients: seq<PublicKey>, now: nat)
    requires Related(limits, now, root, boxes)
    ensures Related(limits, now, FannedOutOnDisk(limits, root, deposit, recipients, now),
                    FannedOut(limits, boxes, deposit, recipients, now))
    decreases |recipients|
  {
    if recipients != [] {
      var call := Timed(Call.Append(recipients[0], deposit), now, now);
      AppendRefines(limits, root, boxes, call);
      FanOutRefines(limits, DiskStep(limits, root, call).0, MemoryStep(limits, boxes, call).0,
                    deposit, recipients[1..], now);
    }
  }

  lemma FetchRefinesItems(limits: Limits, root: Root, boxes: Mailboxes, key: PublicKey, after: nat, now: nat)
    requires Related(limits, now, root, boxes) && key in root
    ensures Above(ItemsOf(root[key], LiveListing(limits, now, root[key])), after) ==
              Fetched(limits, boxes, key, after, now)
  {
    ListingIsPurge(limits, now, root[key], boxes[key]);
  }

  /** On either side a registration is the store call, taken when the policy and the ceiling allow it. */
  ghost predicate RegistersAs<S>(out: (S, Response), admitted: bool, before: S, after: S) {
    out == if admitted then (after, Welcome) else (before, Refused)
  }

  lemma RegisterOnDisk(limits: Limits, policy: Policy, root: Root, r: Request)
    requires AllIntact(root) && r.op.Register?
    ensures var step := DiskStep(limits, root, Timed(Call.Register(r.caller), r.now, r.now));
            RegistersAs(ServeOnDisk(limits, policy, root, r), AdmitsOnDisk(policy, root, r.caller), root, step.0)
  {
    hide AllIntact;
  }

  lemma RegisterInMemory(limits: Limits, policy: Policy, boxes: Mailboxes, r: Request)
    requires r.op.Register?
    ensures var step := MemoryStep(limits, boxes, Timed(Call.Register(r.caller), r.now, r.now));
            RegistersAs(
              Serve(limits, policy, boxes, r.caller, r.op, r.now), Admits(policy, boxes, r.caller), boxes, step.0)
  {
  }

  /** The same response, and stores still related. */
  ghost predicate RequestAgrees(limits: Limits, policy: Policy, root: Root, boxes: Mailboxes, r: Request)
    requires AllIntact(root)
  {
    var disk, memory := ServeOnDisk(limits, policy, root, r), Serve(limits, policy, boxes, r.caller, r.op, r.now);
    disk.1 == memory.1 && Related(limits, r.now, disk.0, memory.0)
  }

  lemma RegisterRequestRefines(limits: Limits, policy: Policy, root: Root, boxes: Mailboxes, r: Request)
    requires Related(limits, r.now, root, boxes) && r.op.Register?
    ensures RequestAgrees(limits, policy, root, boxes, r)
  {
    SameSize(root, boxes);
    RegisterOnDisk(limits, policy, root, r);
    RegisterInMemory(limits, policy, boxes, r);
    RegisterRefines(limits, root, boxes, Timed(Call.Register(r.caller), r.now, r.now));
    hide Related, AllIntact, ServeOnDisk, Serve, DiskStep, MemoryStep;
  }

  lemma FetchRequestRefines(limits: Limits, policy: Policy, root: Root, boxes: Mailboxes, r: Request)
    requires Related(limits, r.now, root, boxes) && r.op.Fetch?
    ensures RequestAgrees(limits, policy, root, boxes, r)
  {
    if r.caller in root {
      FetchRefinesItems(limits, root, boxes, r.caller, r.op.after, r.now);
      FetchRefines(limits, root, boxes, Timed(Call.Fetch(r.caller, r.op.after), r.now, r.now));
    }
  }

  lemma RequestRefines(limits: Limits, policy: Policy, last: nat, root: Root, boxes: Mailboxes, r: Request)
    requires Related(limits, last, root, boxes) && last <= r.now
    ensures RequestAgrees(limits, policy, root, boxes, r)
  {
    RelatedLater(limits, last, r.now, root, boxes);
    if r.op.Register? {
      RegisterRequestRefines(limits, policy, root, boxes, r);
    } else if r.op.Submit? {
      FanOutRefines(limits, root, boxes, r.op.deposit, r.op.deposit.recipients, r.now);
    } else if r.op.Fetch? {
      FetchRequestRefines(limits, policy, root, boxes, r);
    } else {
      AckRefines(limits, root, boxes, Timed(Call.Ack(r.caller, r.op.upTo), r.now, r.now));
    }
  }

  function ResponsesInMemory(limits: Limits, policy: Policy, boxes: Mailboxes, requests: seq<Request>): seq<Response>
    decreases |requests|
  {
    if requests == [] then [] else
      var r := requests[0];
      var (next, response) := Serve(limits, policy, boxes, r.caller, r.op, r.now);
      [response] + ResponsesInMemory(limits, policy, next, requests[1..])
  }

  ghost function ResponsesOnDisk(limits: Limits, policy: Policy, root: Root, requests: seq<Request>): seq<Response>
    requires AllIntact(root)
    decreases |requests|
  {
    if requests == [] then [] else
      var step := ServeOnDisk(limits, policy, root, requests[0]);
      [step.1] + ResponsesOnDisk(limits, policy, step.0, requests[1..])
  }

  ghost predicate ClockAdvances(last: nat, requests: seq<Request>) {
    && (requests != [] ==> last <= requests[0].now)
    && forall i, j :: 0 <= i < j < |requests| ==> requests[i].now <= requests[j].now
  }

  lemma {:induction false} RelatedRelaysAnswerAlike(
      limits: Limits, policy: Policy, last: nat, root: Root, boxes: Mailboxes, requests: seq<Request>)
    requires Related(limits, last, root, boxes) && ClockAdvances(last, requests)
    ensures ResponsesOnDisk(limits, policy, root, requests) == ResponsesInMemory(limits, policy, boxes, requests)
    decreases |requests|
  {
    if requests != [] {
      var r, rest := requests[0], requests[1..];
      RequestRefines(limits, policy, last, root, boxes, r);
      assert ClockAdvances(r.now, rest) by {
        assert forall i | 0 <= i < |rest| :: rest[i] == requests[i + 1];
      }
      RelatedRelaysAnswerAlike(limits, policy, r.now, ServeOnDisk(limits, policy, root, r).0,
                               Serve(limits, policy, boxes, r.caller, r.op, r.now).0, rest);
    }
  }

  /** A fresh relay on disk answers every run of requests as one in memory would. */
  lemma DiskRelayAnswersAlike(limits: Limits, policy: Policy, requests: seq<Request>)
    requires ClockAdvances(0, requests)
    ensures ResponsesOnDisk(limits, policy, map[], requests) == ResponsesInMemory(limits, policy, map[], requests)
  {
    RelatedRelaysAnswerAlike(limits, policy, 0, map[], map[], requests);
  }
}
