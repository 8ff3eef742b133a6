/**
 * Registration with handlers interleaving. Asking whether a key is registered, counting
 * the mailboxes and creating one are three separate visits to the store, so concurrent
 * handlers can all pass the ceiling before any of them registers.
 */
module Admission {
  import opened Messages

  datatype Handler = Free | Asked(key: PublicKey) | Admitted(key: PublicKey)

  datatype Relay = Relay(hosted: set<PublicKey>, handlers: seq<Handler>)

  /** `Begin` is the policy and `is_registered` check, `Count` the ceiling, `Finish` the registration. */
  datatype Event = Begin(handler: nat, key: PublicKey) | Count(handler: nat) | Finish(handler: nat)

  function Step(max: nat, relay: Relay, event: Event): Relay {
    var h := event.handler;
    if h >= |relay.handlers| then relay else
      match (event, relay.handlers[h])
      case (Begin(_, key), Free) =>
        var next := if key in relay.hosted then Admitted(key) else Asked(key);
        relay.(handlers := relay.handlers[h := next])
      case (Count(_), Asked(key)) =>
        var next := if |relay.hosted| < max then Admitted(key) else Free;
        relay.(handlers := relay.handlers[h := next])
      case (Finish(_), Admitted(key)) =>
        Relay(relay.hosted + {key}, relay.handlers[h := Free])
      case _ => relay
  }

  function Run(max: nat, relay: Relay, events: seq<Event>): Relay
    decreases |events|
  {
    if events == [] then relay else Run(max, Step(max, relay, events[0]), events[1..])
  }

  function AdmittedKeys(handlers: seq<Handler>): set<PublicKey> {
    set h | h in handlers && h.Admitted? :: h.key
  }

  lemma {:induction false} AtMostOneKeyEach(handlers: seq<Handler>)
    ensures |AdmittedKeys(handlers)| <= |handlers|
    decreases |handlers|
  {
    if handlers != [] {
      var rest := handlers[1..];
      AtMostOneKeyEach(rest);
      var first := if handlers[0].Admitted? then {handlers[0].key} else {};
      assert forall h :: h in handlers <==> h == handlers[0] || h in rest;
      assert AdmittedKeys(handlers) == first + AdmittedKeys(rest);
    }
  }

  /** Everything hosted or about to be. */
  function Committed(relay: Relay): set<PublicKey> {
    relay.hosted + AdmittedKeys(relay.handlers)
  }

  ghost predicate WithinSlack(max: nat, relay: Relay) {
    |Committed(relay)| <= max + |relay.handlers| - 1
  }

  lemma SubsetSize<T>(a: set<T>, b: set<T>)
    requires a <= b
    ensures |a| <= |b|
  {
    assert |b| == |a| + |b - a| by { assert a + (b - a) == b; }
  }

  lemma UpdatedKeys(handlers: seq<Handler>, h: nat, next: Handler)
    requires h < |handlers|
    ensures AdmittedKeys(handlers[h := next]) <=
              AdmittedKeys(handlers) + (if next.Admitted? then {next.key} else {})
  {
    assert forall x | x in handlers[h := next] :: x == next || x in handlers;
  }

  lemma UnionSize<T>(a: set<T>, b: set<T>)
    ensures |a + b| <= |a| + |b|
  {
    assert a + b == a + (b - a);
    SubsetSize(b - a, b);
  }

  lemma StepWithinSlack(max: nat, relay: Relay, event: Event)
    requires |relay.handlers| > 0 && WithinSlack(max, relay)
    ensures WithinSlack(max, Step(max, relay, event))
    ensures |Step(max, relay, event).handlers| == |relay.handlers|
  {
    var next := Step(max, relay, event);
    var h := event.handler;
    if next != relay {
      UpdatedKeys(relay.handlers, h, next.handlers[h]);
      if event.Count? && next.handlers[h].Admitted? {
        AtMostOneKeyEach(next.handlers);
        assert |Committed(next)| <= |relay.hosted| + |AdmittedKeys(next.handlers)| by {
          UnionSize(relay.hosted, AdmittedKeys(next.handlers));
        }
      } else {
        assert event.Finish? ==> relay.handlers[h] in relay.handlers;
        SubsetSize(Committed(next), Committed(relay));
      }
    }
  }

  lemma {:induction false} RunWithinSlack(max: nat, relay: Relay, events: seq<Event>)
    requires |relay.handlers| > 0 && WithinSlack(max, relay)
    ensures WithinSlack(max, Run(max, relay, events))
    ensures |Run(max, relay, events).handlers| == |relay.handlers|
    decreases |events|
  {
    if events != [] {
      StepWithinSlack(max, relay, events[0]);
      RunWithinSlack(max, Step(max, relay, events[0]), events[1..]);
    }
  }

  function Idle(n: nat): seq<Handler> {
    seq(n, _ => Free)
  }

  /** With `n` handlers, no interleaving hosts more than `max + n - 1` mailboxes. */
  lemma CeilingWithInterleaving(max: nat, n: nat, events: seq<Event>)
    requires n > 0
    ensures |Run(max, Relay({}, Idle(n)), events).hosted| <= max + n - 1
  {
    var relay := Relay({}, Idle(n));
    assert AdmittedKeys(relay.handlers) == {};
    RunWithinSlack(max, relay, events);
    var last := Run(max, relay, events);
    SubsetSize(last.hosted, Committed(last));
  }

  // ---- The slack is used --------------------------------------------------------

  /** The key of a device, any number of which can ask. */
  function KeyOf(i: nat): PublicKey {
    DeviceKey(i).Public()
  }

  /** The first `n` of a supply of distinct devices. */
  function Keys(n: nat): (keys: set<PublicKey>)
    ensures |keys| == n
    ensures forall i: nat :: KeyOf(i) in keys <==> i < n
    ensures forall key | key in keys :: key.PublicOf?
  {
    if n == 0 then {} else Keys(n - 1) + {KeyOf(n - 1)}
  }

  lemma {:induction false} RunAppend(max: nat, relay: Relay, s: seq<Event>, t: seq<Event>)
    ensures Run(max, relay, s + t) == Run(max, Run(max, relay, s), t)
    decreases |s|
  {
    if s == [] {
      assert s + t == t;
    } else {
      assert (s + t)[1..] == s[1..] + t;
      RunAppend(max, Step(max, relay, s[0]), s[1..], t);
    }
  }

  lemma RunLast(max: nat, relay: Relay, s: seq<Event>, event: Event)
    ensures Run(max, relay, s + [event]) == Step(max, Run(max, relay, s), event)
  {
    RunAppend(max, relay, s, [event]);
    assert [event][1..] == [];
  }

  /** One handler at a time fills a relay up to its ceiling. */
  lemma {:induction false} FillOneByOne(max: nat, n: nat, count: nat) returns (events: seq<Event>)
    requires n > 0 && count <= max
    ensures Run(max, Relay({}, Idle(n)), events) == Relay(Keys(count), Idle(n))
    decreases count
  {
    events := [];
    if count > 0 {
      var before := FillOneByOne(max, n, count - 1);
      var key := KeyOf(count - 1);
      events := before + [Begin(0, key)] + [Count(0)] + [Finish(0)];
      RunLast(max, Relay({}, Idle(n)), before, Begin(0, key));
      RunLast(max, Relay({}, Idle(n)), before + [Begin(0, key)], Count(0));
      RunLast(max, Relay({}, Idle(n)), before + [Begin(0, key)] + [Count(0)], Finish(0));
      assert Idle(n)[0 := Asked(key)][0 := Admitted(key)][0 := Free] == Idle(n);
    }
  }

  /** Handlers half-way through a phase: the first `done` have moved on, each with a key of its own. */
  function Asking(first: nat, done: nat, n: nat): seq<Handler> {
    seq(n, i => if 0 <= i < done then Asked(KeyOf(first + i)) else Free)
  }

  function Passing(first: nat, done: nat, n: nat): seq<Handler> {
    seq(n, i => if 0 <= i < done then Admitted(KeyOf(first + i))
                else if 0 <= i then Asked(KeyOf(first + i)) else Free)
  }

  function Finishing(first: nat, done: nat, n: nat): seq<Handler> {
    seq(n, i => if 0 <= i < done then Free else if 0 <= i then Admitted(KeyOf(first + i)) else Free)
  }

  lemma {:induction false} AllBegin(max: nat, first: nat, n: nat, done: nat) returns (events: seq<Event>)
    requires done <= n
    ensures Run(max, Relay(Keys(first), Idle(n)), events) == Relay(Keys(first), Asking(first, done, n))
    decreases done
  {
    events := [];
    if done == 0 {
      assert Asking(first, 0, n) == Idle(n);
    } else {
      var before := AllBegin(max, first, n, done - 1);
      var event := Begin(done - 1, KeyOf(first + done - 1));
      RunLast(max, Relay(Keys(first), Idle(n)), before, event);
      events := before + [event];
      assert Asking(first, done, n) ==
             Asking(first, done - 1, n)[done - 1 := Asked(KeyOf(first + done - 1))];
    }
  }

  lemma {:induction false} AllCount(max: nat, first: nat, n: nat, done: nat) returns (events: seq<Event>)
    requires done <= n && first < max
    ensures Run(max, Relay(Keys(first), Asking(first, n, n)), events) == Relay(Keys(first), Passing(first, done, n))
    decreases done
  {
    events := [];
    if done == 0 {
      assert Passing(first, 0, n) == Asking(first, n, n);
    } else {
      var before := AllCount(max, first, n, done - 1);
      RunLast(max, Relay(Keys(first), Asking(first, n, n)), before, Count(done - 1));
      events := before + [Count(done - 1)];
      assert Passing(first, done, n) ==
             Passing(first, done - 1, n)[done - 1 := Admitted(KeyOf(first + done - 1))];
    }
  }

  /** A relay whose first `done` handlers have finished. */
  function Finished(first: nat, done: nat, n: nat): Relay {
    Relay(Keys(first + done), Finishing(first, done, n))
  }

  lemma FinishOne(max: nat, first: nat, n: nat, done: nat)
    requires done < n
    ensures Step(max, Finished(first, done, n), Finish(done)) == Finished(first, done + 1, n)
  {
    assert Finishing(first, done, n)[done] == Admitted(KeyOf(first + done));
    assert Finishing(first, done + 1, n) == Finishing(first, done, n)[done := Free];
    assert Keys(first + done + 1) == Keys(first + done) + {KeyOf(first + done)};
  }

  lemma {:induction false} AllFinish(max: nat, first: nat, n: nat, done: nat) returns (events: seq<Event>)
    requires done <= n
    ensures Run(max, Relay(Keys(first), Passing(first, n, n)), events) == Finished(first, done, n)
    decreases done
  {
    events := [];
    if done == 0 {
      assert Finishing(first, 0, n) == Passing(first, n, n);
    } else {
      var before := AllFinish(max, first, n, done - 1);
      hide *;
      RunLast(max, Relay(Keys(first), Passing(first, n, n)), before, Finish(done - 1));
      FinishOne(max, first, n, done - 1);
      events := before + [Finish(done - 1)];
    }
  }

  /**
   * The slack is real: whatever the ceiling and the number of handlers, some interleaving
   * hosts exactly `max + n - 1` mailboxes, each of a real device.
   */
  lemma CeilingIsReached(max: nat, n: nat) returns (events: seq<Event>)
    requires max > 0 && n > 0
    ensures |Run(max, Relay({}, Idle(n)), events).hosted| == max + n - 1
    ensures forall key | key in Run(max, Relay({}, Idle(n)), events).hosted :: key.PublicOf?
  {
    var start, first := Relay({}, Idle(n)), max - 1;
    var fill := FillOneByOne(max, n, first);
    var begin := AllBegin(max, first, n, n);
    var count := AllCount(max, first, n, n);
    var finish := AllFinish(max, first, n, n);
    events := fill + begin + count + finish;
    RunAppend(max, start, fill, begin);
    RunAppend(max, start, fill + begin, count);
    RunAppend(max, start, fill + begin + count, finish);
  }

  lemma {:induction false} ClosedRelayHostsNobody(relay: Relay, events: seq<Event>)
    requires Committed(relay) == {}
    ensures Committed(Run(0, relay, events)) == {}
    decreases |events|
  {
    if events != [] {
      var next, h := Step(0, relay, events[0]), events[0].handler;
      if next != relay {
        UpdatedKeys(relay.handlers, h, next.handlers[h]);
        assert relay.handlers[h] in relay.handlers;
      }
      ClosedRelayHostsNobody(next, events[1..]);
    }
  }

  /** The ceiling itself holds for every interleaving exactly when requests are handled one at a time. */
  lemma CeilingHoldsIff(max: nat, n: nat)
    requires n > 0
    ensures (forall events: seq<Event> :: |Run(max, Relay({}, Idle(n)), events).hosted| <= max) <==> n == 1 || max == 0
  {
    var start := Relay({}, Idle(n));
    if max == 0 {
      forall events: seq<Event>
        ensures |Run(max, start, events).hosted| <= max
      {
        assert AdmittedKeys(start.handlers) == {};
        ClosedRelayHostsNobody(start, events);
        assert Run(max, start, events).hosted <= Committed(Run(max, start, events));
      }
    } else if n == 1 {
      forall events: seq<Event>
        ensures |Run(max, start, events).hosted| <= max
      {
        CeilingWithInterleaving(max, n, events);
      }
    } else {
      var events := CeilingIsReached(max, n);
    }
  }
}
