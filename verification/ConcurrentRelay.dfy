/**
 * A relay whose handlers interleave: registrations in the three store visits they are made
 * of, everything else served in between. The byte caps hold whatever interleaves, so the
 * bytes held are bounded by the mailboxes that interleaving can let in.
 */
module ConcurrentRelays {
  import opened Messages
  import opened Mailboxes
  import opened MailboxServices
  import opened RelayRuns
  import opened Admission

  datatype State = State(boxes: Mailboxes, handlers: seq<Handler>)

  /** A handler takes a step of a registration, or one whole request of another kind is served. */
  datatype Action = Registering(event: Event) | Serving(request: Request)

  /** The policy is asked first, and a caller it does not permit gets no further. */
  predicate Allowed(policy: Policy, event: Event) {
    event.Begin? ==> policy.permits(event.key)
  }

  /** What admission sees of the relay. */
  function Seen(s: State): Relay {
    Relay(s.boxes.Keys, s.handlers)
  }

  /** The mailboxes of these keys: those there were, and empty ones for the others. */
  function Hosting(boxes: Mailboxes, keys: set<PublicKey>): Mailboxes {
    map key | key in keys :: if key in boxes then boxes[key] else EMPTY_MAILBOX
  }

  lemma HostingOk(limits: Limits, boxes: Mailboxes, keys: set<PublicKey>)
    requires AllOk(limits, boxes)
    ensures AllOk(limits, Hosting(boxes, keys)) && Hosting(boxes, keys).Keys == keys
  {
    assert BoxOk(limits, EMPTY_MAILBOX);
  }

  function TakeStep(policy: Policy, s: State, event: Event): State {
    if !Allowed(policy, event) then s else
      var next := Step(policy.maxMailboxes, Seen(s), event);
      State(Hosting(s.boxes, next.hosted), next.handlers)
  }

  function Act(limits: Limits, policy: Policy, s: State, action: Action): State {
    match action
    case Registering(event) => TakeStep(policy, s, event)
    case Serving(r) =>
      if r.op.Register? then s else
        State(Serve(limits, policy, s.boxes, r.caller, r.op, r.now).0, s.handlers)
  }

  function ActAll(limits: Limits, policy: Policy, s: State, actions: seq<Action>): State
    decreases |actions|
  {
    if actions == [] then s else ActAll(limits, policy, Act(limits, policy, s, actions[0]), actions[1..])
  }

  lemma ActThree(limits: Limits, policy: Policy, s: State, a: Action, b: Action, c: Action)
    ensures ActAll(limits, policy, s, [a, b, c]) ==
              Act(limits, policy, Act(limits, policy, Act(limits, policy, s, a), b), c)
  {
    hide Act;
    assert [a, b, c][1..] == [b, c] && [b, c][1..] == [c] && [c][1..] == [];
    var next := Act(limits, policy, s, a);
    var last := Act(limits, policy, next, b);
    assert ActAll(limits, policy, last, [c]) == Act(limits, policy, last, c);
    assert ActAll(limits, policy, next, [b, c]) == ActAll(limits, policy, last, [c]);
  }

  lemma HostingAgain(boxes: Mailboxes)
    ensures Hosting(boxes, boxes.Keys) == boxes
    ensures forall key | key !in boxes :: Hosting(boxes, boxes.Keys + {key}) == boxes[key := EMPTY_MAILBOX]
    ensures forall key | key in boxes :: Hosting(boxes, boxes.Keys + {key}) == boxes
    ensures |boxes.Keys| == |boxes|
  {
    forall key | key in boxes
      ensures Hosting(boxes, boxes.Keys + {key}) == boxes
    {
      assert boxes.Keys + {key} == boxes.Keys;
    }
  }

  /** A registration nothing comes between is the one `Serve` performs, and its handler is free again. */
  lemma UninterruptedIsServed(limits: Limits, policy: Policy, s: State, h: nat, caller: PublicKey, now: nat)
    requires h < |s.handlers| && s.handlers[h] == Free
    ensures ActAll(limits, policy, s,
                   [Registering(Begin(h, caller)), Registering(Count(h)), Registering(Finish(h))]) ==
              State(Serve(limits, policy, s.boxes, caller, Register, now).0, s.handlers)
  {
    ActThree(limits, policy, s, Registering(Begin(h, caller)), Registering(Count(h)), Registering(Finish(h)));
    HostingAgain(s.boxes);
    hide Hosting, ActAll;
    var begun := TakeStep(policy, s, Begin(h, caller));
    if !policy.permits(caller) {
      assert begun == s;
    } else if caller in s.boxes {
      assert begun == State(s.boxes, s.handlers[h := Admitted(caller)]);
      assert TakeStep(policy, begun, Count(h)) == begun;
      assert begun.handlers[h := Free] == s.handlers;
    } else {
      assert begun == State(s.boxes, s.handlers[h := Asked(caller)]);
      var counted := TakeStep(policy, begun, Count(h));
      var answer := if |s.boxes| < policy.maxMailboxes then Admitted(caller) else Free;
      assert counted == State(s.boxes, s.handlers[h := answer]);
      assert counted.handlers[h := Free] == s.handlers;
    }
  }

  lemma ServeKeepsKeys(limits: Limits, policy: Policy, boxes: Mailboxes, r: Request)
    requires AllOk(limits, boxes) && !r.op.Register?
    ensures var next := Serve(limits, policy, boxes, r.caller, r.op, r.now).0;
            AllOk(limits, next) && next.Keys == boxes.Keys
  {
    match r.op
    case Submit(deposit) => FannedOutOk(limits, boxes, deposit, deposit.recipients, r.now);
    case Fetch(_) => PurgedOk(limits, boxes, r.caller, r.now);
    case Ack(upTo) => AckedOk(limits, boxes, r.caller, upTo);
  }

  ghost predicate StateOk(limits: Limits, policy: Policy, s: State) {
    && AllOk(limits, s.boxes)
    && |s.handlers| > 0
    && WithinSlack(policy.maxMailboxes, Seen(s))
  }

  /** Handlers only ever add mailboxes, and new ones are empty. */
  lemma TakeStepKeeps(limits: Limits, policy: Policy, s: State, event: Event)
    requires StateOk(limits, policy, s)
    ensures StateOk(limits, policy, TakeStep(policy, s, event))
    ensures |TakeStep(policy, s, event).handlers| == |s.handlers|
  {
    var next := Step(policy.maxMailboxes, Seen(s), event);
    HostingOk(limits, s.boxes, next.hosted);
    StepWithinSlack(policy.maxMailboxes, Seen(s), event);
    hide Step, Hosting, WithinSlack, AllOk;
  }

  lemma {:induction false} ActionsKeep(limits: Limits, policy: Policy, s: State, actions: seq<Action>)
    requires StateOk(limits, policy, s)
    ensures StateOk(limits, policy, ActAll(limits, policy, s, actions))
    ensures |ActAll(limits, policy, s, actions).handlers| == |s.handlers|
    decreases |actions|
  {
    if actions != [] {
      match actions[0] {
        case Registering(event) => TakeStepKeeps(limits, policy, s, event);
        case Serving(r) =>
          if !r.op.Register? {
            ServeKeepsKeys(limits, policy, s.boxes, r);
          }
      }
      ActionsKeep(limits, policy, Act(limits, policy, s, actions[0]), actions[1..]);
    }
  }

  /**
   * With `n` handlers, whatever interleaves: at most `max + n - 1` mailboxes, and no more
   * bytes held than that many full ones.
   */
  lemma CeilingsWithInterleaving(limits: Limits, policy: Policy, n: nat, actions: seq<Action>)
    requires n > 0
    ensures var s := ActAll(limits, policy, State(map[], Idle(n)), actions);
            && |s.boxes| <= policy.maxMailboxes + n - 1
            && TotalBytes(s.boxes) <= (policy.maxMailboxes + n - 1) * limits.maxBytes
  {
    var start := State(map[], Idle(n));
    var s := ActAll(limits, policy, start, actions);
    assert AdmittedKeys(start.handlers) == {} && Committed(Seen(start)) == {};
    ActionsKeep(limits, policy, start, actions);
    hide ActAll, AllOk, AdmittedKeys, Idle;
    SubsetSize(s.boxes.Keys, Committed(Seen(s)));
    assert |s.boxes.Keys| == |s.boxes|;
    BytesWithin(limits, s.boxes, policy.maxMailboxes + n - 1);
  }
}
