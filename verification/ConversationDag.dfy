/**
 * One conversation's DAG store. The store keeps children, heads and the missing
 * frontier up to date one insert at a time; `Valid` ties each of them to what the
 * held messages mean as a graph.
 */
module ConversationDags {
  import opened Basics
  import opened Messages
  import opened DagGraph
  import opened DagOrder
  import opened DagSeqs

  datatype InsertOutcome = Inserted | AlreadyKnown

  datatype DagError = InvalidGenesis | WrongConversation | MissingParents | InvalidLogical

  predicate GenesisShaped(core: MessageCore) {
    core.conversation == None && core.parents == [] && core.seqNo == 0 && core.logical == 0
  }

  /** Why a core is refused, if it is: a matter of the core and the conversation alone. */
  function Rejection(conversation: MessageId, core: MessageCore): Option<DagError> {
    if core.conversation == None then
      if core.Id() == conversation then None else Some(WrongConversation)
    else if core.conversation != Some(conversation) then Some(WrongConversation)
    else if core.parents == [] then Some(DagError.MissingParents)
    else if core.logical == 0 then Some(InvalidLogical)
    else None
  }

  predicate Accepted(conversation: MessageId, core: MessageCore) {
    Rejection(conversation, core) == None
  }

  /** The held messages after offering one more core. */
  function Absorb(conversation: MessageId, m: Held, core: MessageCore): Held {
    if Accepted(conversation, core) && core.Id() !in m then m[core.Id() := core] else m
  }

  function AbsorbAll(conversation: MessageId, m: Held, cores: seq<MessageCore>): Held
    decreases |cores|
  {
    if cores == [] then m
    else AbsorbAll(conversation, Absorb(conversation, m, cores[0]), cores[1..])
  }

  ghost predicate HoldsConversation(conversation: MessageId, m: Held) {
    && WellKeyed(m)
    && conversation in m
    && GenesisShaped(m[conversation])
    && forall id | id in m :: Accepted(conversation, m[id])
  }

  /** Which core is refused, and for what, by what it says of itself. */
  lemma RefusedExactly(conversation: MessageId, core: MessageCore)
    ensures Rejection(conversation, core) == Some(WrongConversation) <==>
              if core.conversation.None? then CoreHash(core) != conversation
              else core.conversation.value != conversation
    ensures Rejection(conversation, core) == Some(DagError.MissingParents) <==>
              core.conversation == Some(conversation) && |core.parents| == 0
    ensures Rejection(conversation, core) == Some(InvalidLogical) <==>
              core.conversation == Some(conversation) && |core.parents| > 0 && core.logical == 0
    ensures Rejection(conversation, core) != Some(InvalidGenesis)
  {
  }

  /** Everything held belongs here: the genesis names no conversation, all else names this one and a parent. */
  lemma HeldBelongs(conversation: MessageId, m: Held)
    requires HoldsConversation(conversation, m)
    ensures conversation in m
    ensures forall id | id in m ::
              if id == conversation
              then m[id].conversation == None && m[id].parents == [] && m[id].seqNo == 0 && m[id].logical == 0
              else m[id].conversation == Some(conversation) && m[id].parents != [] && m[id].logical > 0
  {
    forall id | id in m && id != conversation
      ensures m[id].conversation == Some(conversation) && m[id].parents != [] && m[id].logical > 0
    {
      RefusedExactly(conversation, m[id]);
      assert Accepted(conversation, m[id]);
    }
  }

  lemma AbsorbHolds(conversation: MessageId, m: Held, core: MessageCore)
    requires HoldsConversation(conversation, m)
    ensures HoldsConversation(conversation, Absorb(conversation, m, core))
  {
  }

  /** A message has been expanded: all its parents are on record and none is the target. */
  ghost predicate ParentsSeen(m: Held, seen: set<MessageId>, ancestor: MessageId, id: MessageId) {
    forall parent | Edge(m, id, parent) :: parent in seen && parent != ancestor
  }

  /** The children index half-way through an insert: `id` is filed under the parents visited so far. */
  function ChildrenWith(m: Held, id: MessageId, visited: seq<MessageId>, parent: MessageId): set<MessageId> {
    ChildrenOf(m, parent) + (if parent in visited then {id} else {})
  }

  lemma NotOwnParent(core: MessageCore)
    ensures core.Id() !in core.parents
  {
    if core.Id() in core.parents {
      ParentIsShallower(core, core.Id());
    }
  }

  function LinkedIndex(m: Held, id: MessageId, visited: seq<MessageId>): map<MessageId, set<MessageId>> {
    map p | p in Referenced(m) + ToSet(visited) :: ChildrenWith(m, id, visited, p)
  }

  lemma LinkOneMore(m: Held, id: MessageId, visited: seq<MessageId>, parent: MessageId)
    ensures var index := LinkedIndex(m, id, visited);
            var known := if parent in index then index[parent] else {};
            LinkedIndex(m, id, visited + [parent]) == index[parent := known + {id}]
  {
    var index := LinkedIndex(m, id, visited);
    if parent !in index {
      assert forall c :: c in m && parent in m[c].parents ==> parent in Referenced(m);
      assert ChildrenOf(m, parent) == {};
    }
    hide Referenced, ChildrenOf;
    ToSetAppend(visited, parent);
    assert ChildrenWith(m, id, visited + [parent], parent) == ChildrenWith(m, id, visited, parent) + {id};
    assert forall p | p != parent :: ChildrenWith(m, id, visited + [parent], p) == ChildrenWith(m, id, visited, p);
  }

  lemma InsertChildren(m: Held, core: MessageCore, p: MessageId)
    requires core.Id() !in m
    ensures ChildrenOf(m[core.Id() := core], p) == ChildrenWith(m, core.Id(), core.parents, p)
  {
  }

  lemma InsertHeads(m: Held, core: MessageCore)
    requires core.Id() !in m
    ensures var id := core.Id();
            HeadsOf(m[id := core]) ==
              HeadsOf(m) - ToSet(core.parents) + (if ChildrenOf(m, id) == {} then {id} else {})
  {
    var id := core.Id();
    NotOwnParent(core);
    forall x
      ensures ChildrenOf(m[id := core], x) == ChildrenWith(m, id, core.parents, x)
      ensures x in core.parents <==> ChildrenWith(m, id, core.parents, x) != ChildrenOf(m, x)
    {
      InsertChildren(m, core, x);
      assert id !in ChildrenOf(m, x);
      assert x in core.parents ==> id in ChildrenWith(m, id, core.parents, x);
    }
  }

  lemma InsertReferenced(m: Held, core: MessageCore)
    requires core.Id() !in m
    ensures Referenced(m[core.Id() := core]) == Referenced(m) + ToSet(core.parents)
  {
    var id := core.Id();
    var m' := m[id := core];
    forall p | p in Referenced(m)
      ensures p in Referenced(m')
    {
      var c :| c in m && p in m[c].parents;
      assert c in m' && p in m'[c].parents;
    }
    forall p | p in core.parents
      ensures p in Referenced(m')
    {
      assert id in m' && p in m'[id].parents;
    }
  }

  /** What one more message does to the graph. */
  lemma InsertMeaning(m: Held, core: MessageCore)
    requires core.Id() !in m
    ensures var id := core.Id(); var m' := m[id := core];
            && ChildIndex(m') == LinkedIndex(m, id, core.parents)
            && MissingOf(m') == MissingOf(m) + (ToSet(core.parents) - m.Keys) - {id}
            && HeadsOf(m') == HeadsOf(m) - ToSet(core.parents) + (if ChildrenOf(m, id) == {} then {id} else {})
  {
    NotOwnParent(core);
    InsertReferenced(m, core);
    forall p
      ensures ChildrenOf(m[core.Id() := core], p) == ChildrenWith(m, core.Id(), core.parents, p)
    {
      InsertChildren(m, core, p);
    }
    hide Referenced, ChildrenOf;
    InsertHeads(m, core);
  }

  /** `n` is a hole in the numbers of a sender: none of its messages carries it, although one carries a larger one. */
  ghost predicate IsHole(m: Held, sender: PublicKey, n: nat) {
    && (exists id :: id in m && m[id].sender == sender && m[id].seqNo > n)
    && forall id | id in m && m[id].sender == sender :: m[id].seqNo != n
  }

  lemma GapsInWords(m: Held, gaps: map<PublicKey, seq<nat>>)
    requires forall sender :: sender in gaps <==> GapsOf(m, sender) != {}
    requires forall sender | sender in gaps :: ToSet(gaps[sender]) == GapsOf(m, sender)
    ensures forall sender, n: nat :: IsHole(m, sender, n) <==> sender in gaps && n in gaps[sender]
  {
    hide GapsOf;
    forall sender, n: nat
      ensures IsHole(m, sender, n) <==> sender in gaps && n in gaps[sender]
    {
      GapsAreHoles(m, sender, n);
      assert IsHole(m, sender, n) <==> n in GapsOf(m, sender);
      if sender in gaps {
        assert n in gaps[sender] <==> n in ToSet(gaps[sender]);
      }
    }
  }

  class ConversationDag {
    var conversation: MessageId
    var messages: map<MessageId, MessageCore>
    var children: map<MessageId, set<MessageId>>
    var heads: set<MessageId>
    var missing: set<MessageId>

    ghost predicate Valid()
      reads this
    {
      && HoldsConversation(conversation, messages)
      && children == ChildIndex(messages)
      && heads == HeadsOf(messages)
      && missing == MissingOf(messages)
    }

    /** The in-memory shape of a conversation that so far holds only its genesis. */
    constructor Rooted(genesis: MessageCore)
      requires GenesisShaped(genesis)
      ensures Valid()
      ensures conversation == genesis.Id() && messages == map[genesis.Id() := genesis]
    {
      conversation := genesis.Id();
      messages := map[genesis.Id() := genesis];
      children := map[];
      heads := {genesis.Id()};
      missing := {};
      new;
      assert Referenced(messages) == {};
    }

    static method New(genesis: MessageCore) returns (r: Result<ConversationDag, DagError>)
      ensures r.Err? <==> !GenesisShaped(genesis)
      ensures r.Err? ==> r.error == InvalidGenesis
      ensures r.Ok? ==> fresh(r.value) && r.value.Valid()
      ensures r.Ok? ==> r.value.conversation == genesis.Id()
      ensures r.Ok? ==> r.value.messages == map[genesis.Id() := genesis]
    {
      if !GenesisShaped(genesis) {
        return Err(InvalidGenesis);
      }
      var dag := new ConversationDag.Rooted(genesis);
      r := Ok(dag);
    }

    /** The per-parent loop of `Insert`: a new child edge, one head fewer, perhaps one gap more. */
    method LinkToParents(id: MessageId, parents: seq<MessageId>)
      requires Valid() && id !in messages && id !in parents
      modifies this`children, this`heads, this`missing
      ensures children == LinkedIndex(messages, id, parents)
      ensures heads == HeadsOf(messages) - ToSet(parents)
      ensures missing == MissingOf(messages) + (ToSet(parents) - messages.Keys)
    {
      assert forall p :: ChildrenWith(messages, id, [], p) == ChildrenOf(messages, p);
      assert LinkedIndex(messages, id, []) == ChildIndex(messages);
      for i := 0 to |parents|
        invariant children == LinkedIndex(messages, id, parents[..i])
        invariant heads == HeadsOf(messages) - ToSet(parents[..i])
        invariant missing == MissingOf(messages) + (ToSet(parents[..i]) - messages.Keys)
      {
        var parent := parents[i];
        assert parents[..i + 1] == parents[..i] + [parent];
        LinkOneMore(messages, id, parents[..i], parent);
        ToSetAppend(parents[..i], parent);
        var known := if parent in children then children[parent] else {};
        children := children[parent := known + {id}];
        heads := heads - {parent};
        if parent !in messages {
          missing := missing + {parent};
        }
      }
      assert parents[..|parents|] == parents;
    }

    /** Referenced parents that are not held. */
    function MissingParents(): (r: set<MessageId>)
      requires Valid()
      reads this
      ensures forall id :: id in r <==> id !in messages && exists child :: Edge(messages, child, id)
    {
      ReferencedMeaning(messages);
      missing
    }

    method Insert(core: MessageCore) returns (r: Result<InsertOutcome, DagError>)
      requires Valid()
      modifies this
      ensures Valid() && conversation == old(conversation)
      ensures messages == Absorb(conversation, old(messages), core)
      ensures Rejection(conversation, core).Some? ==> r == Err(Rejection(conversation, core).value)
      ensures Accepted(conversation, core) ==>
                r == Ok(if core.Id() in old(messages) then AlreadyKnown else Inserted)
    {
      if core.conversation == None {
        return if core.Id() == conversation then Ok(AlreadyKnown) else Err(WrongConversation);
      }
      if core.conversation != Some(conversation) {
        return Err(WrongConversation);
      }
      if core.parents == [] {
        return Err(DagError.MissingParents);
      }
      if core.logical == 0 {
        return Err(InvalidLogical);
      }
      var id := core.Id();
      if id in messages {
        return Ok(AlreadyKnown);
      }
      NotOwnParent(core);
      LinkToParents(id, core.parents);
      missing := missing - {id};
      var hasKnownChildren := id in children && children[id] != {};
      InsertMeaning(messages, core);
      AbsorbHolds(conversation, messages, core);
      if !hasKnownChildren {
        heads := heads + {id};
      }
      messages := messages[id := core];
      return Ok(Inserted);
    }

    /** The ids a client sending now would name as parents. */
    function Heads(): (r: set<MessageId>)
      requires Valid()
      reads this
      ensures forall id :: id in r <==> id in messages && !exists child :: Edge(messages, child, id)
    {
      assert forall id, child :: child in ChildrenOf(messages, id) <==> Edge(messages, child, id);
      heads
    }

    ghost function NextLogical(): (n: nat)
      requires Valid()
      reads this
      ensures forall head | head in heads :: head in messages && messages[head].logical < n
      ensures exists head :: head in heads && messages[head].logical + 1 == n
      ensures NeverLower(messages) ==> n == 1 + MaxLogical(messages, messages.Keys)
    {
      HeadsNonEmpty(messages);
      NextLogicalExceedsAll(messages);
      1 + MaxLogical(messages, heads)
    }

    /**
     * The causal-order test: a worklist over parent edges. The work left is measured by
     * the referenced ids not yet seen, then by the pending stack.
     */
    method IsAncestor(ancestor: MessageId, descendant: MessageId) returns (r: bool)
      requires Valid()
      ensures r <==> Reaches(messages, ancestor, descendant)
    {
      hide Reaches, Referenced, ChildIndex, HeadsOf, MissingOf;
      var pending := [descendant];
      var seen: set<MessageId> := {};
      while pending != []
        invariant seen <= Referenced(messages)
        invariant forall x | x in pending :: x == descendant || x in seen
        invariant descendant in pending || ParentsSeen(messages, seen, ancestor, descendant)
        invariant forall id | id in seen :: Reaches(messages, id, descendant)
        invariant forall id | id in seen :: id in pending || ParentsSeen(messages, seen, ancestor, id)
        decreases Referenced(messages) - seen, |pending|
      {
        var id := pending[|pending| - 1];
        ghost var before := pending;
        assert id in pending;
        pending := pending[..|pending| - 1];
        assert forall x | x in before :: x == id || x in pending;
        if id in messages {
          var parents := messages[id].parents;
          ghost var seenBefore := seen;
          for i := 0 to |parents|
            invariant seenBefore <= seen <= Referenced(messages)
            invariant seen == seenBefore ==> pending == before[..|before| - 1]
            invariant forall x | x in pending :: x == descendant || x in seen
            invariant forall x | x in before :: x == id || x in pending
            invariant forall x | x in seen :: Reaches(messages, x, descendant)
            invariant forall x | x in seen && x !in seenBefore :: x in pending
            invariant ancestor !in parents[..i]
            invariant ToSet(parents[..i]) <= seen
          {
            var parent := parents[i];
            assert Edge(messages, id, parent);
            EdgeReferences(messages, id, parent);
            EdgeReaches(messages, parent, id);
            if id != descendant {
              ReachesTransitive(messages, parent, id, descendant);
            }
            if parent == ancestor {
              return true;
            }
            assert parents[..i + 1] == parents[..i] + [parent];
            if parent !in seen {
              seen := seen + {parent};
              pending := pending + [parent];
            }
          }
          assert parents[..|parents|] == parents;
        }
        assert ParentsSeen(messages, seen, ancestor, id);
      }
      ClosedSetCannotReach(messages, seen + {descendant}, ancestor, descendant);
      return false;
    }

    /** The linear view. Each id is put in its place among those already sorted. */
    method Linearize(digest: Digest) returns (order: seq<MessageId>)
      requires Valid() && DistinctOn(digest, messages.Keys)
      ensures IsLinear(messages, digest, messages.Keys, order)
      ensures forall id :: id in order <==> id in messages
      ensures forall i, j | 0 <= i < j < |order| ::
                || messages[order[i]].logical < messages[order[j]].logical
                || (messages[order[i]].logical == messages[order[j]].logical && digest(order[i]) < digest(order[j]))
    {
      order := [];
      var left := messages.Keys;
      while left != {}
        invariant left <= messages.Keys
        invariant IsLinear(messages, digest, messages.Keys - left, order)
      {
        var id :| id in left;
        var at := 0;
        while at < |order| && Before(messages, digest, order[at], id)
          invariant at <= |order|
          invariant forall i | 0 <= i < at :: Before(messages, digest, order[i], id)
        {
          at := at + 1;
        }
        InsertIntoLinear(messages, digest, messages.Keys - left, order, id, at);
        assert messages.Keys - left + {id} == messages.Keys - (left - {id});
        order := order[..at] + [id] + order[at..];
        left := left - {id};
      }
      assert messages.Keys - {} == messages.Keys;
      assert forall id :: id in order <==> id in ToSet(order);
      assert forall i, j | 0 <= i < j < |order| :: Before(messages, digest, order[i], order[j]);
    }

    /** Messages listed next to one they crossed in flight. */
    method CrossedInFlight(digest: Digest) returns (crossed: set<MessageId>)
      requires Valid() && DistinctOn(digest, messages.Keys)
      ensures forall order | IsLinear(messages, digest, messages.Keys, order) :: crossed == Crossed(messages, order)
      ensures forall id :: id in crossed <==>
                exists p :: JustBefore(messages, digest, p, id) && !Reaches(messages, p, id)
    {
      var order := Linearize(digest);
      crossed := {};
      for i := 1 to |order|
        invariant crossed == Crossed(messages, order[..i])
      {
        var follows := IsAncestor(order[i - 1], order[i]);
        CrossedExtend(messages, order, i);
        if !follows {
          crossed := crossed + {order[i]};
        }
      }
      assert order != [] ==> order[..|order|] == order;
      forall other | IsLinear(messages, digest, messages.Keys, other)
        ensures crossed == Crossed(messages, other)
      {
        LinearIsUnique(messages, digest, messages.Keys, order, other);
      }
      forall id
        ensures id in crossed <==>
                  exists p :: JustBefore(messages, digest, p, id) && !Reaches(messages, p, id)
      {
        CrossedByPredecessor(messages, digest, order, id);
      }
    }

    method LargestOf(seqs: set<nat>) returns (max: nat)
      requires seqs != {}
      ensures max in seqs
      ensures forall s | s in seqs :: s <= max
    {
      max :| max in seqs;
      var left := seqs - {max};
      while left != {}
        invariant left <= seqs
        invariant max in seqs
        invariant forall s | s in seqs :: s in left || s <= max
      {
        var s :| s in left;
        if max < s {
          max := s;
        }
        left := left - {s};
      }
    }

    /** `(0..max)` without the numbers seen, where `max` is the largest of them. */
    method GapsBelow(seqs: set<nat>) returns (missed: seq<nat>)
      requires seqs != {}
      ensures Ascending(missed)
      ensures ToSet(missed) == GapsIn(seqs)
    {
      var max := LargestOf(seqs);
      OneAboveIsUnique(seqs, max + 1);
      missed := [];
      for n := 0 to max
        invariant Ascending(missed)
        invariant forall i | 0 <= i < |missed| :: missed[i] < n
        invariant forall k: nat :: k in missed <==> k < n && k !in seqs
      {
        if n !in seqs {
          missed := missed + [n];
        }
      }
    }

    /** One pass over the held messages, filing each number under its sender. */
    method CollectSeqs() returns (seen: map<PublicKey, set<nat>>)
      ensures seen == SeqIndex(messages)
      ensures forall sender | sender in seen :: seen[sender] != {}
    {
      seen := map[];
      var left := messages.Keys;
      ghost var done: Held := map[];
      while left != {}
        invariant left <= messages.Keys
        invariant done.Keys == messages.Keys - left
        invariant forall id | id in done :: done[id] == messages[id]
        invariant seen == SeqIndex(done)
        invariant forall sender | sender in seen :: seen[sender] != {}
      {
        var id :| id in left;
        var core := messages[id];
        SeqIndexExtend(done, id, core);
        var known := if core.sender in seen then seen[core.sender] else {};
        seen := seen[core.sender := known + {core.seqNo}];
        done := done[id := core];
        left := left - {id};
      }
      assert done == messages;
    }

    /** Per sender with a hole, the missing numbers below that sender's highest one. */
    method SeqGaps() returns (gaps: map<PublicKey, seq<nat>>)
      requires Valid()
      ensures forall sender :: sender in gaps <==> GapsOf(messages, sender) != {}
      ensures forall sender | sender in gaps ::
                Ascending(gaps[sender]) && ToSet(gaps[sender]) == GapsOf(messages, sender)
      ensures forall sender, n: nat :: IsHole(messages, sender, n) <==> sender in gaps && n in gaps[sender]
    {
      var seen := CollectSeqs();
      gaps := map[];
      var senders := seen.Keys;
      while senders != {}
        invariant senders <= seen.Keys
        invariant ReportsGaps(gaps, seen, senders)
      {
        var sender :| sender in senders;
        var missed := GapsBelow(seen[sender]);
        ReportOneMore(gaps, seen, senders, sender, missed);
        if missed != [] {
          gaps := gaps[sender := missed];
        }
        senders := senders - {sender};
      }
      GapsReported(messages, gaps);
      hide GapsOf, IsHole;
      GapsInWords(messages, gaps);
    }
  }
}
