/**
 * Healing a conversation from a peer: first backward, fetching the parents that are
 * missing, then forward, asking for the children of everything stored. A peer may answer
 * anything at all; one that answers honestly and holds all ancestors of what it holds
 * hands over everything it has.
 */
module Backfills {
  import opened Basics
  import opened Messages
  import opened DagGraph
  import opened ClientStates
  import Envelopes

  /** What a peer answers: an envelope, or none, for an id; and the ids it claims are a message's children. */
  datatype Peer = Peer(get: MessageId -> Option<MessageEnvelope>, successors: MessageId -> seq<MessageId>)

  /** An answer is stored only if it is the message asked for, its sender signed it, and it belongs here. */
  predicate Usable(e: MessageEnvelope, id: MessageId, conversation: MessageId) {
    e.Id() == id && Envelopes.Verify(e) == None && ConversationFor(e) == conversation
  }

  /** The same said of the envelope itself: its id, the conversation it names, and its sender's signature. */
  ghost predicate Genuine(e: MessageEnvelope, id: MessageId, conversation: MessageId) {
    && e.core.Id() == id
    && (e.core.conversation == Some(conversation) || (e.core.conversation == None && id == conversation))
    && e.core.sender.PublicOf?
    && e.sig == SignatureBy(e.core.sender.device, id)
  }

  function Answer(peer: Peer, id: MessageId, conversation: MessageId): Option<MessageEnvelope> {
    match peer.get(id)
    case None => None
    case Some(e) => if Usable(e, id, conversation) then Some(e) else None
  }

  /** What is stored of a conversation. */
  function Local(state: ClientState, conversation: MessageId): Directory
    reads state
  {
    Stored(FilesOf(state.conversations, conversation))
  }

  /** The other conversations, which a sync leaves alone. */
  function Others(state: ClientState, conversation: MessageId): map<MessageId, Files>
    reads state
  {
    state.conversations - {conversation}
  }

  lemma WithoutRewritten(conversations: map<MessageId, Files>, c: MessageId, files: Files)
    ensures conversations[c := files] - {c} == conversations - {c}
  {
  }

  /** Everything stored before is still stored, and everything new is a usable answer. */
  ghost predicate Grew(peer: Peer, conversation: MessageId, before: Directory, after: Directory) {
    && (forall id | id in before :: id in after && after[id] == before[id])
    && forall id | id in after && id !in before :: Answer(peer, id, conversation) == Some(after[id])
  }

  lemma GenuineIsAnswer(peer: Peer, id: MessageId, conversation: MessageId)
    ensures Answer(peer, id, conversation) ==
              if peer.get(id).Some? && Genuine(peer.get(id).value, id, conversation) then peer.get(id) else None
  {
  }

  lemma GrewMore(
      peer: Peer, conversation: MessageId, before: Directory, after: Directory, id: MessageId, e: MessageEnvelope)
    requires Grew(peer, conversation, before, after) && id !in after && Answer(peer, id, conversation) == Some(e)
    ensures Grew(peer, conversation, before, after[id := e])
    ensures |after[id := e]| == |after| + 1
  {
    var more := after[id := e];
    assert more.Keys == after.Keys + {id};
    assert |more.Keys| == |more| && |after.Keys| == |after|;
  }

  /** The peer has no answer for anything that is missing. */
  ghost predicate NothingBehind(peer: Peer, conversation: MessageId, dir: Directory) {
    forall id | id in FileFrontier(dir) :: Answer(peer, id, conversation).None?
  }

  /** Of these ids, those the peer can hand over are stored. */
  ghost predicate Covered(peer: Peer, conversation: MessageId, dir: Directory, ids: seq<MessageId>) {
    forall id | id in ids :: id in dir || Answer(peer, id, conversation).None?
  }

  ghost predicate CoveredTo(peer: Peer, conversation: MessageId, dir: Directory, ids: seq<MessageId>, n: nat)
    requires n <= |ids|
  {
    Covered(peer, conversation, dir, ids[..n])
  }

  /** That goes for the children the peer claims for a message. */
  ghost predicate ChildrenStored(peer: Peer, conversation: MessageId, dir: Directory, id: MessageId) {
    Covered(peer, conversation, dir, peer.successors(id))
  }

  ghost predicate NothingAhead(peer: Peer, conversation: MessageId, dir: Directory) {
    forall id | id in dir :: ChildrenStored(peer, conversation, dir, id)
  }

  /** What is new was signed by the sender it names, and belongs here. */
  ghost predicate NewAreGenuine(conversation: MessageId, before: Directory, after: Directory) {
    forall id | id in after && id !in before :: Genuine(after[id], id, conversation)
  }

  /** Of the parents still missing, the peer hands over none that is genuine. */
  ghost predicate NoneGenuineBehind(peer: Peer, conversation: MessageId, dir: Directory) {
    forall id, child |
      child in dir && id in dir[child].core.parents && id !in dir && peer.get(id).Some? ::
      !Genuine(peer.get(id).value, id, conversation)
  }

  /** Of the children it claims that are still missing, none either. */
  ghost predicate NoneGenuineAhead(peer: Peer, conversation: MessageId, dir: Directory) {
    forall id, child |
      id in dir && child in peer.successors(id) && child !in dir && peer.get(child).Some? ::
      !Genuine(peer.get(child).value, child, conversation)
  }

  lemma GrewIsGenuine(peer: Peer, conversation: MessageId, before: Directory, after: Directory)
    requires Grew(peer, conversation, before, after)
    ensures NewAreGenuine(conversation, before, after)
  {
    forall id | id in after && id !in before
      ensures Genuine(after[id], id, conversation)
    {
      assert Answer(peer, id, conversation) == Some(after[id]);
    }
  }

  lemma BehindIsGenuine(peer: Peer, conversation: MessageId, dir: Directory)
    ensures NothingBehind(peer, conversation, dir) ==> NoneGenuineBehind(peer, conversation, dir)
  {
    forall id, child | child in dir && id in dir[child].core.parents && id !in dir
      ensures id in FileFrontier(dir)
    {
      assert child in StoredCores(dir) && id in StoredCores(dir)[child].parents;
    }
    forall id {
      GenuineIsAnswer(peer, id, conversation);
    }
  }

  lemma AheadIsGenuine(peer: Peer, conversation: MessageId, dir: Directory)
    ensures NothingAhead(peer, conversation, dir) ==> NoneGenuineAhead(peer, conversation, dir)
  {
    if NothingAhead(peer, conversation, dir) {
      forall id, child | id in dir && child in peer.successors(id) && child !in dir
        ensures Answer(peer, child, conversation).None?
      {
        assert ChildrenStored(peer, conversation, dir, id);
      }
    }
  }

  /** One round trip: ask for a message, and store it if the answer is usable. */
  method FetchOne(state: ClientState, peer: Peer, id: MessageId, conversation: MessageId, now: nat)
      returns (stored: bool)
    requires state.Valid()
    modifies state
    ensures state.Valid()
    ensures Others(state, conversation) == old(Others(state, conversation))
    ensures stored <==> Answer(peer, id, conversation).Some?
    ensures Local(state, conversation) ==
              if stored then old(Local(state, conversation))[id := Answer(peer, id, conversation).value]
              else old(Local(state, conversation))
    ensures stored <==>
              && peer.get(id).Some?
              && var e := peer.get(id).value;
              && e.core.Id() == id
              && (e.core.conversation == Some(conversation) || (e.core.conversation == None && id == conversation))
              && e.core.sender.PublicOf?
              && e.sig == SignatureBy(e.core.sender.device, id)
    ensures Local(state, conversation) ==
              if stored then old(Local(state, conversation))[id := peer.get(id).value]
              else old(Local(state, conversation))
  {
    GenuineIsAnswer(peer, id, conversation);
    var answer := peer.get(id);
    if answer.None? {
      return false;
    }
    var envelope := answer.value;
    if envelope.Id() != id {
      return false;
    }
    if Envelopes.Verify(envelope).Some? {
      return false;
    }
    if ConversationFor(envelope) != conversation {
      return false;
    }
    ghost var was := state.conversations;
    state.Remember(envelope, now);
    WithoutRewritten(was, conversation, FilesOf(state.conversations, conversation));
    return true;
  }

  method FrontierOf(state: ClientState, conversation: MessageId) returns (frontier: set<MessageId>)
    requires state.Valid()
    ensures frontier == FileFrontier(Local(state, conversation))
    ensures frontier !! Local(state, conversation).Keys
  {
    frontier := state.MissingAncestors(conversation);
  }

  lemma GrewNot(peer: Peer, conversation: MessageId, dir: Directory)
    ensures Grew(peer, conversation, dir, dir)
  {
  }

  /** One round of the backward pass; it stops early when the budget is spent. */
  method FetchFrontier(
      state: ClientState, peer: Peer, conversation: MessageId, frontier: set<MessageId>, budget: nat, now: nat)
      returns (spent: bool, fetched: nat)
    requires state.Valid() && frontier !! Local(state, conversation).Keys
    modifies state
    ensures state.Valid()
    ensures Others(state, conversation) == old(Others(state, conversation))
    ensures Grew(peer, conversation, old(Local(state, conversation)), Local(state, conversation))
    ensures fetched == |Local(state, conversation)| - |old(Local(state, conversation))| && fetched <= budget
    ensures spent ==> fetched == budget
    ensures !spent ==> forall id | id in frontier ::
              id in Local(state, conversation) || Answer(peer, id, conversation).None?
    ensures (forall id | id in frontier :: Answer(peer, id, conversation).None?) ==> fetched == 0
  {
    ghost var before, others := Local(state, conversation), Others(state, conversation);
    fetched := 0;
    var left := frontier;
    while left != {}
      invariant left <= frontier
      invariant state.Valid() && Others(state, conversation) == others
      invariant left !! Local(state, conversation).Keys
      invariant Grew(peer, conversation, before, Local(state, conversation))
      invariant fetched == |Local(state, conversation)| - |before| && fetched <= budget
      invariant forall id | id in frontier && id !in left ::
                  id in Local(state, conversation) || Answer(peer, id, conversation).None?
      invariant (forall id | id in frontier :: Answer(peer, id, conversation).None?) ==> fetched == 0
    {
      var id :| id in left;
      if fetched >= budget {
        return true, fetched;
      }
      ghost var start := Local(state, conversation);
      var stored := FetchOne(state, peer, id, conversation, now);
      if stored {
        GrewMore(peer, conversation, before, start, id, Answer(peer, id, conversation).value);
        fetched := fetched + 1;
      }
      left := left - {id};
    }
    return false, fetched;
  }

  lemma GrewOn(peer: Peer, conversation: MessageId, before: Directory, middle: Directory, after: Directory)
    requires Grew(peer, conversation, before, middle) && Grew(peer, conversation, middle, after)
    ensures Grew(peer, conversation, before, after)
  {
  }

  lemma SameSizeSame(peer: Peer, conversation: MessageId, before: Directory, after: Directory)
    requires Grew(peer, conversation, before, after) && |after| == |before|
    ensures after == before
  {
    assert |before.Keys| == |before| && |after.Keys| == |after|;
    assert after.Keys == before.Keys + (after.Keys - before.Keys);
    assert after.Keys - before.Keys == {};
  }

  /** The backward pass. */
  method FillBackward(state: ClientState, peer: Peer, conversation: MessageId, budget: nat, now: nat)
      returns (fetched: nat)
    requires state.Valid()
    modifies state
    ensures state.Valid()
    ensures Others(state, conversation) == old(Others(state, conversation))
    ensures Grew(peer, conversation, old(Local(state, conversation)), Local(state, conversation))
    ensures NewAreGenuine(conversation, old(Local(state, conversation)), Local(state, conversation))
    ensures fetched < budget ==> NoneGenuineBehind(peer, conversation, Local(state, conversation))
    ensures fetched == |Local(state, conversation)| - |old(Local(state, conversation))| && fetched <= budget
    ensures fetched < budget ==> NothingBehind(peer, conversation, Local(state, conversation))
    ensures old(NothingBehind(peer, conversation, Local(state, conversation))) ==>
              Local(state, conversation) == old(Local(state, conversation))
  {
    ghost var before, others := Local(state, conversation), Others(state, conversation);
    hide Local, Grew, Answer, NewAreGenuine, NoneGenuineBehind;
    fetched := 0;
    GrewNot(peer, conversation, before);
    while true
      invariant state.Valid() && Others(state, conversation) == others
      invariant Grew(peer, conversation, before, Local(state, conversation))
      invariant fetched == |Local(state, conversation)| - |before| && fetched <= budget
      invariant NothingBehind(peer, conversation, before) ==> Local(state, conversation) == before
      decreases budget - fetched
    {
      var frontier := FrontierOf(state, conversation);
      if frontier == {} {
        break;
      }
      ghost var start := Local(state, conversation);
      var enough, more := FetchFrontier(state, peer, conversation, frontier, budget - fetched, now);
      fetched := fetched + more;
      GrewOn(peer, conversation, before, start, Local(state, conversation));
      if more == 0 {
        SameSizeSame(peer, conversation, start, Local(state, conversation));
      }
      GrewIsGenuine(peer, conversation, before, Local(state, conversation));
      BehindIsGenuine(peer, conversation, Local(state, conversation));
      if enough {
        return;
      }
      if more == 0 {
        break;
      }
    }
    GrewIsGenuine(peer, conversation, before, Local(state, conversation));
    BehindIsGenuine(peer, conversation, Local(state, conversation));
  }

  lemma CoveredAt(peer: Peer, conversation: MessageId, dir: Directory, ids: seq<MessageId>, i: nat)
    requires i < |ids|
    ensures Covered(peer, conversation, dir, ids) ==> ids[i] in dir || Answer(peer, ids[i], conversation).None?
  {
  }

  lemma CoveredStep(
      peer: Peer, conversation: MessageId, before: Directory, after: Directory, ids: seq<MessageId>, i: nat)
    requires i < |ids| && CoveredTo(peer, conversation, before, ids, i)
    requires forall id | id in before :: id in after
    requires ids[i] in after || Answer(peer, ids[i], conversation).None?
    ensures CoveredTo(peer, conversation, after, ids, i + 1)
  {
    assert ids[..i + 1] == ids[..i] + [ids[i]];
  }

  lemma CoveredWhole(peer: Peer, conversation: MessageId, dir: Directory, ids: seq<MessageId>)
    ensures CoveredTo(peer, conversation, dir, ids, |ids|) <==> Covered(peer, conversation, dir, ids)
  {
    assert ids[..|ids|] == ids;
  }

  /** The children claimed for one message, fetched one by one; `stored` is what the pass knows to be stored. */
  method FetchChildren(
      state: ClientState, peer: Peer, conversation: MessageId, ids: seq<MessageId>, known: set<MessageId>,
      budget: nat, now: nat)
      returns (spent: bool, learned: seq<MessageId>, stored: set<MessageId>)
    requires state.Valid() && forall id :: id in known <==> id in Local(state, conversation)
    modifies state
    ensures state.Valid() && forall id :: id in stored <==> id in Local(state, conversation)
    ensures Others(state, conversation) == old(Others(state, conversation))
    ensures Grew(peer, conversation, old(Local(state, conversation)), Local(state, conversation))
    ensures |learned| == |Local(state, conversation)| - |old(Local(state, conversation))| && |learned| <= budget
    ensures spent ==> |learned| == budget
    ensures !spent ==> Covered(peer, conversation, Local(state, conversation), ids)
    ensures forall id :: id in stored <==> id in known || id in learned
    ensures Covered(peer, conversation, old(Local(state, conversation)), ids) ==> learned == []
  {
    ghost var before, others := Local(state, conversation), Others(state, conversation);
    GrewNot(peer, conversation, before);
    assert CoveredTo(peer, conversation, before, ids, 0);
    hide *;
    learned, stored := [], known;
    ghost var here := before;
    for i := 0 to |ids|
      invariant state.Valid() && here == Local(state, conversation)
      invariant Others(state, conversation) == others
      invariant forall id :: id in stored <==> id in here
      invariant forall id :: id in stored <==> id in known || id in learned
      invariant Grew(peer, conversation, before, here)
      invariant |learned| == |here| - |before| && |learned| <= budget
      invariant CoveredTo(peer, conversation, here, ids, i)
      invariant Covered(peer, conversation, before, ids) ==> learned == [] && here == before
    {
      var child := ids[i];
      ghost var start := here;
      if |learned| >= budget {
        return true, learned, stored;
      }
      CoveredAt(peer, conversation, before, ids, i);
      if child !in stored {
        var taken := FetchOne(state, peer, child, conversation, now);
        if taken {
          GrewMore(peer, conversation, before, start, child, Answer(peer, child, conversation).value);
          stored := stored + {child};
          learned := learned + [child];
        }
        here := Local(state, conversation);
      }
      CoveredStep(peer, conversation, start, here, ids, i);
    }
    CoveredWhole(peer, conversation, here, ids);
    return false, learned, stored;
  }

  lemma StoredIds(state: ClientState, conversation: MessageId, loaded: Result<seq<MessageEnvelope>, LoadError>)
    requires state.Valid()
    requires loaded.Ok? <==> conversation in state.conversations
    requires loaded.Ok? ==> Listing(Stored(state.conversations[conversation]), loaded.value)
    ensures (if loaded.Ok? then set e | e in loaded.value :: e.Id() else {}) == Local(state, conversation).Keys
  {
    if loaded.Ok? {
      var dir := Stored(state.conversations[conversation]);
      assert Filed(conversation, dir);
      forall id | id in dir
        ensures exists e :: e in loaded.value && e.Id() == id
      {
        assert dir[id] in loaded.value && dir[id].Id() == id;
      }
    } else {
      assert Stored(map[]) == map[];
    }
  }

  /** Each stored message has had its children asked for, or is still to be asked about, in this round or the next. */
  ghost predicate Awaiting(
      peer: Peer, conversation: MessageId, dir: Directory, now: seq<MessageId>, next: seq<MessageId>)
  {
    && (forall id | id in now || id in next :: id in dir)
    && forall id | id in dir :: id in now || id in next || ChildrenStored(peer, conversation, dir, id)
  }

  ghost predicate AwaitingFrom(
      peer: Peer, conversation: MessageId, dir: Directory, query: seq<MessageId>, i: nat, next: seq<MessageId>)
    requires i <= |query|
  {
    Awaiting(peer, conversation, dir, query[i..], next)
  }

  lemma AwaitingAt(
      peer: Peer, conversation: MessageId, dir: Directory, query: seq<MessageId>, i: nat, learned: seq<MessageId>)
    requires i < |query| && AwaitingFrom(peer, conversation, dir, query, i, learned)
    ensures NothingAhead(peer, conversation, dir) ==> Covered(peer, conversation, dir, peer.successors(query[i]))
  {
    assert query[i] in query[i..];
  }

  /** One message asked about: its children are covered, and what was learned waits for the next round. */
  lemma AwaitingStep(
      peer: Peer, conversation: MessageId, before: Directory, after: Directory,
      query: seq<MessageId>, i: nat, learned: seq<MessageId>, more: seq<MessageId>)
    requires i < |query| && AwaitingFrom(peer, conversation, before, query, i, learned)
    requires Grew(peer, conversation, before, after)
    requires Covered(peer, conversation, after, peer.successors(query[i]))
    requires forall id :: id in after <==> id in before || id in more
    ensures AwaitingFrom(peer, conversation, after, query, i + 1, learned + more)
  {
    assert query[i..] == [query[i]] + query[i + 1..];
    forall id | id in before && ChildrenStored(peer, conversation, before, id)
      ensures ChildrenStored(peer, conversation, after, id)
    {
    }
  }

  lemma AwaitingNone(peer: Peer, conversation: MessageId, dir: Directory)
    requires Awaiting(peer, conversation, dir, [], [])
    ensures NothingAhead(peer, conversation, dir)
  {
  }

  lemma AwaitingWhole(peer: Peer, conversation: MessageId, dir: Directory, query: seq<MessageId>)
    requires Awaiting(peer, conversation, dir, query, [])
    ensures AwaitingFrom(peer, conversation, dir, query, 0, [])
  {
    assert query[0..] == query;
  }

  lemma AwaitingSwap(
      peer: Peer, conversation: MessageId, dir: Directory, query: seq<MessageId>, learned: seq<MessageId>)
    requires AwaitingFrom(peer, conversation, dir, query, |query|, learned)
    ensures Awaiting(peer, conversation, dir, learned, [])
  {
  }

  /** One round of the forward pass. */
  method AskRound(
      state: ClientState, peer: Peer, conversation: MessageId, query: seq<MessageId>, known: set<MessageId>,
      budget: nat, now: nat)
      returns (spent: bool, learned: seq<MessageId>, fetched: nat, stored: set<MessageId>)
    requires state.Valid() && forall id :: id in known <==> id in Local(state, conversation)
    requires Awaiting(peer, conversation, Local(state, conversation), query, [])
    modifies state
    ensures state.Valid() && forall id :: id in stored <==> id in Local(state, conversation)
    ensures Others(state, conversation) == old(Others(state, conversation))
    ensures Grew(peer, conversation, old(Local(state, conversation)), Local(state, conversation))
    ensures fetched == |Local(state, conversation)| - |old(Local(state, conversation))| && fetched <= budget
    ensures |learned| == fetched
    ensures spent ==> fetched == budget
    ensures !spent ==> Awaiting(peer, conversation, Local(state, conversation), learned, [])
    ensures old(NothingAhead(peer, conversation, Local(state, conversation))) ==> fetched == 0
  {
    ghost var before, others := Local(state, conversation), Others(state, conversation);
    ghost var here := before;
    GrewNot(peer, conversation, before);
    AwaitingWhole(peer, conversation, before, query);
    hide *;
    learned, fetched, stored := [], 0, known;
    for i := 0 to |query|
      invariant state.Valid() && here == Local(state, conversation)
      invariant Others(state, conversation) == others
      invariant forall id :: id in stored <==> id in here
      invariant Grew(peer, conversation, before, here)
      invariant |learned| == fetched == |here| - |before| && fetched <= budget
      invariant AwaitingFrom(peer, conversation, here, query, i, learned)
      invariant NothingAhead(peer, conversation, before) ==> fetched == 0 && here == before
    {
      ghost var start := here;
      AwaitingAt(peer, conversation, start, query, i, learned);
      var more;
      spent, more, stored := FetchChildren(
        state, peer, conversation, peer.successors(query[i]), stored, budget - fetched, now);
      here := Local(state, conversation);
      GrewOn(peer, conversation, before, start, here);
      if more == [] {
        SameSizeSame(peer, conversation, start, here);
      }
      if !spent {
        AwaitingStep(peer, conversation, start, here, query, i, learned, more);
      }
      fetched := fetched + |more|;
      learned := learned + more;
      if spent {
        return;
      }
    }
    AwaitingSwap(peer, conversation, here, query, learned);
    spent := false;
  }

  method AskRounds(
      state: ClientState, peer: Peer, conversation: MessageId, first: seq<MessageId>, known: set<MessageId>,
      budget: nat, now: nat)
      returns (fetched: nat)
    requires state.Valid() && forall id :: id in known <==> id in Local(state, conversation)
    requires Awaiting(peer, conversation, Local(state, conversation), first, [])
    modifies state
    ensures state.Valid()
    ensures Others(state, conversation) == old(Others(state, conversation))
    ensures Grew(peer, conversation, old(Local(state, conversation)), Local(state, conversation))
    ensures fetched == |Local(state, conversation)| - |old(Local(state, conversation))| && fetched <= budget
    ensures fetched < budget ==> NothingAhead(peer, conversation, Local(state, conversation))
    ensures old(NothingAhead(peer, conversation, Local(state, conversation))) ==>
              Local(state, conversation) == old(Local(state, conversation))
  {
    ghost var before, others := Local(state, conversation), Others(state, conversation);
    hide *;
    fetched := 0;
    var query, stored := first, known;
    ghost var here := before;
    GrewNot(peer, conversation, before);
    while query != []
      invariant state.Valid() && here == Local(state, conversation)
      invariant Others(state, conversation) == others
      invariant forall id :: id in stored <==> id in here
      invariant Grew(peer, conversation, before, here)
      invariant fetched == |here| - |before| && fetched <= budget
      invariant Awaiting(peer, conversation, here, query, [])
      invariant NothingAhead(peer, conversation, before) ==> here == before
      decreases budget - fetched, |query|
    {
      var spent, learned, more;
      ghost var start := here;
      spent, learned, more, stored := AskRound(state, peer, conversation, query, stored, budget - fetched, now);
      here := Local(state, conversation);
      GrewOn(peer, conversation, before, start, here);
      if more == 0 {
        SameSizeSame(peer, conversation, start, here);
      }
      fetched := fetched + more;
      if spent {
        return;
      }
      query := learned;
    }
    AwaitingNone(peer, conversation, here);
  }

  lemma AwaitingAll(peer: Peer, conversation: MessageId, dir: Directory, ids: seq<MessageId>)
    requires forall id :: id in ids <==> id in dir
    ensures Awaiting(peer, conversation, dir, ids, [])
  {
  }

  method ListStored(state: ClientState, conversation: MessageId) returns (ids: seq<MessageId>)
    requires state.Valid()
    ensures forall id :: id in ids <==> id in Local(state, conversation)
  {
    var loaded := state.LoadEnvelopes(conversation);
    StoredIds(state, conversation, loaded);
    ids := [];
    if loaded.Ok? {
      for i := 0 to |loaded.value|
        invariant forall id :: id in ids <==> exists j :: 0 <= j < i && loaded.value[j].Id() == id
      {
        ids := ids + [loaded.value[i].Id()];
      }
    }
  }

  /** The forward pass: every stored message is asked about once, then those just learned, until none are new. */
  method FillForward(state: ClientState, peer: Peer, conversation: MessageId, budget: nat, now: nat)
      returns (fetched: nat)
    requires state.Valid()
    modifies state
    ensures state.Valid()
    ensures Others(state, conversation) == old(Others(state, conversation))
    ensures Grew(peer, conversation, old(Local(state, conversation)), Local(state, conversation))
    ensures NewAreGenuine(conversation, old(Local(state, conversation)), Local(state, conversation))
    ensures fetched < budget ==> NoneGenuineAhead(peer, conversation, Local(state, conversation))
    ensures fetched == |Local(state, conversation)| - |old(Local(state, conversation))| && fetched <= budget
    ensures fetched < budget ==> NothingAhead(peer, conversation, Local(state, conversation))
    ensures old(NothingAhead(peer, conversation, Local(state, conversation))) ==>
              Local(state, conversation) == old(Local(state, conversation))
  {
    var query := ListStored(state, conversation);
    ghost var before := Local(state, conversation);
    AwaitingAll(peer, conversation, before, query);
    hide Grew, NothingAhead, NewAreGenuine, NoneGenuineAhead;
    fetched := AskRounds(state, peer, conversation, query, ToSet(query), budget, now);
    GrewIsGenuine(peer, conversation, before, Local(state, conversation));
    AheadIsGenuine(peer, conversation, Local(state, conversation));
  }

  // ---- Healing from an honest peer ----------------------------------------------

  ghost predicate OneRoot(conversation: MessageId, held: Directory) {
    forall id | id in held :: held[id].core.parents == [] ==> id == conversation
  }

  /**
   * A peer that answers with what it holds and nothing else. `held` is what it holds of the
   * conversation: with every message all its parents, and no root but the genesis.
   */
  ghost predicate Honest(peer: Peer, conversation: MessageId, held: Directory) {
    && (forall id :: Answer(peer, id, conversation) == if id in held then Some(held[id]) else None)
    && (forall id, child | child in held :: child in peer.successors(id) <==> id in held[child].core.parents)
    && Filed(conversation, held) && ParentClosed(held) && OneRoot(conversation, held)
  }

  /** Something to start from: a message both hold, or a parent one misses and the other holds. */
  ghost predicate Touches(dir: Directory, held: Directory) {
    exists id :: id in held && (id in dir || id in FileFrontier(dir))
  }

  /** Backward from any common message lies the genesis. */
  lemma {:induction false} ReachesGenesis(
      peer: Peer, conversation: MessageId, held: Directory, dir: Directory, id: MessageId)
    requires Honest(peer, conversation, held) && NothingBehind(peer, conversation, dir)
    requires id in held && id in dir && Filed(conversation, dir)
    ensures conversation in held && conversation in dir
    decreases Depth(id)
  {
    if held[id].core.parents != [] {
      var parent := held[id].core.parents[0];
      assert dir[id].core == held[id].core;
      assert parent in held[id].core.parents && parent in held;
      ParentIsShallower(held[id].core, parent);
      assert parent !in dir ==> parent in FileFrontier(dir) by {
        assert id in StoredCores(dir) && parent in StoredCores(dir)[id].parents;
      }
      ReachesGenesis(peer, conversation, held, dir, parent);
    }
  }

  /** Forward from the genesis lies everything the peer holds. */
  lemma {:induction false} ReachesAll(
      peer: Peer, conversation: MessageId, held: Directory, dir: Directory, id: MessageId)
    requires Honest(peer, conversation, held) && NothingAhead(peer, conversation, dir)
    requires conversation in dir && id in held
    ensures id in dir
    decreases Depth(id)
  {
    if id != conversation {
      var parent := held[id].core.parents[0];
      assert parent in held[id].core.parents && parent in held;
      ParentIsShallower(held[id].core, parent);
      ReachesAll(peer, conversation, held, dir, parent);
      assert ChildrenStored(peer, conversation, dir, parent) && id in peer.successors(parent);
    }
  }

  ghost predicate Holds(files: Files, id: MessageId, e: MessageEnvelope) {
    id in Stored(files) && Stored(files)[id] == e
  }

  /** What a state directory makes its owner answer, to a caller it serves. */
  ghost predicate Serves(peer: Peer, conversations: map<MessageId, Files>) {
    && (forall id | peer.get(id).Some? ::
          exists c :: c in conversations && Holds(conversations[c], id, peer.get(id).value))
    && (forall id, c | c in conversations && id in Stored(conversations[c]) :: peer.get(id).Some?)
    && forall id, child :: child in peer.successors(id) <==>
         exists c :: c in conversations && child in SuccessorsIn(conversations[c], id)
  }

  lemma FiledUsable(conversation: MessageId, dir: Directory, id: MessageId)
    requires Filed(conversation, dir)
    ensures id in dir && Envelopes.Verify(dir[id]) == None ==> Usable(dir[id], id, conversation)
  {
  }

  /** A stored message names the conversation it is filed under, and whatever has its id has its core. */
  lemma BelongsHere(conversations: map<MessageId, Files>, c: MessageId, id: MessageId)
    requires AllFiled(conversations) && c in conversations && id in Stored(conversations[c])
    ensures Stored(conversations[c])[id].Id() == id && ConversationFor(Stored(conversations[c])[id]) == c
  {
    assert Filed(c, Stored(conversations[c]));
  }

  /** Any device that stores a whole conversation of signed messages is such a peer. */
  lemma ServingIsHonest(peer: Peer, conversations: map<MessageId, Files>, conversation: MessageId)
    requires AllFiled(conversations) && Serves(peer, conversations) && conversation in conversations
    requires var held := Stored(conversations[conversation]);
             && (forall id | id in held :: Envelopes.Verify(held[id]) == None)
             && ParentClosed(held) && OneRoot(conversation, held)
    ensures Honest(peer, conversation, Stored(conversations[conversation]))
  {
    var held := Stored(conversations[conversation]);
    assert Filed(conversation, held);
    hide AllFiled, Stored, Filed, ParentClosed, OneRoot;
    forall id
      ensures Answer(peer, id, conversation) == if id in held then Some(held[id]) else None
    {
      FiledUsable(conversation, held, id);
      if peer.get(id).Some? {
        var c :| c in conversations && Holds(conversations[c], id, peer.get(id).value);
        BelongsHere(conversations, c, id);
      }
    }
    forall id, child | child in held
      ensures child in peer.successors(id) <==> id in held[child].core.parents
    {
      if child in peer.successors(id) {
        var c :| c in conversations && child in SuccessorsIn(conversations[c], id);
        BelongsHere(conversations, c, child);
        BelongsHere(conversations, conversation, child);
      }
      assert id in held[child].core.parents ==> child in SuccessorsIn(conversations[conversation], id);
    }
  }

  /**
   * What one sync leaves, by what was stored before and what the peer holds: nothing if they
   * have nothing in common to start from, and otherwise everything, up to the budget.
   */
  ghost predicate Healed(before: Directory, held: Directory, after: Directory, budget: nat) {
    var wanting := held.Keys - before.Keys;
    if Touches(before, held) then
      && after.Keys <= before.Keys + held.Keys
      && |after| == |before| + (if |wanting| <= budget then |wanting| else budget)
      && (|wanting| <= budget ==> after == held + before)
    else
      after == before
  }

  /** What a pass promises: the ids new in `after` are usable answers, `fetched` in number, within the budget. */
  ghost predicate Passed(
      peer: Peer, conversation: MessageId, before: Directory, after: Directory, budget: nat, fetched: nat)
  {
    Grew(peer, conversation, before, after) && fetched == |after| - |before| && fetched <= budget
  }

  lemma GrewFiled(peer: Peer, conversation: MessageId, before: Directory, after: Directory)
    requires Grew(peer, conversation, before, after) && Filed(conversation, before)
    ensures Filed(conversation, after)
  {
    forall id | id in after && id !in before
      ensures after[id].Id() == id && ConversationFor(after[id]) == conversation
    {
      assert Answer(peer, id, conversation) == Some(after[id]);
    }
  }

  /** An id that was stored or named is so after more is stored. */
  lemma StillKnown(peer: Peer, conversation: MessageId, before: Directory, after: Directory, id: MessageId)
    requires Grew(peer, conversation, before, after) && (id in before || id in FileFrontier(before))
    ensures id in after || id in FileFrontier(after)
  {
    if id !in before {
      var child :| child in StoredCores(before) && id in StoredCores(before)[child].parents;
      assert child in StoredCores(after) && StoredCores(after)[child] == StoredCores(before)[child];
    }
  }

  /** Two passes with the budget to spare leave everything the peer holds, if it touches what was stored. */
  lemma TwoPassesReachAll(
      peer: Peer, conversation: MessageId, held: Directory, before: Directory, middle: Directory, after: Directory)
    requires Honest(peer, conversation, held) && Filed(conversation, before) && Touches(before, held)
    requires Grew(peer, conversation, before, middle) && NothingBehind(peer, conversation, middle)
    requires Grew(peer, conversation, middle, after) && NothingAhead(peer, conversation, after)
    ensures held.Keys <= after.Keys
  {
    hide FileFrontier, Answer, NothingAhead;
    var id :| id in held && (id in before || id in FileFrontier(before));
    GrewFiled(peer, conversation, before, middle);
    StillKnown(peer, conversation, before, middle, id);
    ReachesGenesis(peer, conversation, held, middle, id);
    forall x | x in held
      ensures x in after
    {
      ReachesAll(peer, conversation, held, after, x);
    }
  }

  /** Nothing in common, nothing to ask for. */
  lemma ApartIsStill(peer: Peer, conversation: MessageId, held: Directory, before: Directory)
    requires Honest(peer, conversation, held) && !Touches(before, held)
    ensures NothingBehind(peer, conversation, before) && NothingAhead(peer, conversation, before)
  {
    forall id, child | child in held && child in peer.successors(id)
      ensures id in held
    {
      assert id in held[child].core.parents;
    }
  }

  lemma Overlay(held: Directory, before: Directory, after: Directory)
    requires before.Keys <= after.Keys && held.Keys <= after.Keys
    requires forall id | id in after ::
               if id in before then after[id] == before[id] else id in held && after[id] == held[id]
    ensures after == held + before
  {
  }

  lemma CountBetween<T>(before: set<T>, after: set<T>, held: set<T>)
    requires before <= after <= before + held
    ensures |after| - |before| <= |held - before|
    ensures |after| - |before| == |held - before| <==> held <= after
  {
    var wanting, grown, rest := held - before, after - before, held - after;
    assert after == before + grown;
    assert wanting == grown + rest;
    assert rest == {} <==> held <= after;
  }

  /** What grew from an honest peer is counted by what was wanting. */
  lemma GrewFromHonest(
      peer: Peer, conversation: MessageId, held: Directory, before: Directory, after: Directory)
    requires Honest(peer, conversation, held) && Grew(peer, conversation, before, after)
    ensures var wanting := held.Keys - before.Keys;
            && after.Keys <= before.Keys + held.Keys
            && |after| - |before| <= |wanting|
            && (|after| - |before| == |wanting| ==> after == held + before)
            && (held.Keys <= after.Keys ==> |after| - |before| == |wanting|)
  {
    assert forall id | id in before :: id in after && after[id] == before[id];
    forall id | id in after && id !in before
      ensures id in held && after[id] == held[id]
    {
      assert Answer(peer, id, conversation) == Some(after[id]);
    }
    hide *;
    CountBetween(before.Keys, after.Keys, held.Keys);
    assert |after.Keys| == |after| && |before.Keys| == |before|;
    if held.Keys <= after.Keys {
      Overlay(held, before, after);
    }
  }

  lemma SyncHeals(
      peer: Peer, conversation: MessageId, held: Directory, before: Directory, middle: Directory, after: Directory,
      budget: nat, backward: nat, forward: nat)
    requires Honest(peer, conversation, held) && Filed(conversation, before)
    requires Passed(peer, conversation, before, middle, budget, backward)
    requires Passed(peer, conversation, middle, after, budget - backward, forward)
    requires backward < budget ==> NothingBehind(peer, conversation, middle)
    requires backward + forward < budget ==> NothingAhead(peer, conversation, after)
    requires NothingBehind(peer, conversation, before) ==> middle == before
    requires NothingAhead(peer, conversation, middle) ==> after == middle
    ensures Healed(before, held, after, budget)
  {
    GrewOn(peer, conversation, before, middle, after);
    GrewFromHonest(peer, conversation, held, before, after);
    if !Touches(before, held) {
      ApartIsStill(peer, conversation, held, before);
    } else if backward + forward < budget {
      TwoPassesReachAll(peer, conversation, held, before, middle, after);
    }
  }

  /** The most messages one sync takes. */
  const MaxSyncFetch: nat := 10_000

  lemma LocalIsFiled(state: ClientState, conversation: MessageId)
    requires state.Valid()
    ensures Filed(conversation, Local(state, conversation))
  {
  }

  lemma OthersAlike(before: map<MessageId, Files>, after: map<MessageId, Files>, conversation: MessageId)
    requires after - {conversation} == before - {conversation}
    ensures forall c | c != conversation :: (c in after <==> c in before) && (c in after ==> after[c] == before[c])
  {
    forall c | c != conversation
      ensures (c in after <==> c in before) && (c in after ==> after[c] == before[c])
    {
      assert c in after <==> c in after - {conversation};
      assert c in before <==> c in before - {conversation};
      if c in after {
        assert after[c] == (after - {conversation})[c] && before[c] == (before - {conversation})[c];
      }
    }
  }

  /** One sync: both passes draw on a single budget. */
  method Backfill(state: ClientState, peer: Peer, conversation: MessageId, now: nat) returns (fetched: nat)
    requires state.Valid()
    modifies state
    ensures state.Valid()
    ensures Others(state, conversation) == old(Others(state, conversation))
    ensures forall c | c != conversation ::
              && (c in state.conversations <==> c in old(state.conversations))
              && (c in state.conversations ==> state.conversations[c] == old(state.conversations)[c])
    ensures Grew(peer, conversation, old(Local(state, conversation)), Local(state, conversation))
    ensures forall id | id in Local(state, conversation) && id !in old(Local(state, conversation)) ::
              var core, sig := Local(state, conversation)[id].core, Local(state, conversation)[id].sig;
              && core.Id() == id
              && (core.conversation == Some(conversation) || (core.conversation == None && id == conversation))
              && core.sender.PublicOf? && sig == SignatureBy(core.sender.device, id)
    ensures fetched == |Local(state, conversation)| - |old(Local(state, conversation))| && fetched <= 10_000
    ensures forall held | Honest(peer, conversation, held) ::
              Healed(old(Local(state, conversation)), held, Local(state, conversation), MaxSyncFetch)
  {
    ghost var before := Local(state, conversation);
    ghost var was := state.conversations;
    LocalIsFiled(state, conversation);
    var backward := FillBackward(state, peer, conversation, MaxSyncFetch, now);
    ghost var middle := Local(state, conversation);
    var forward := FillForward(state, peer, conversation, MaxSyncFetch - backward, now);
    ghost var after := Local(state, conversation);
    GrewOn(peer, conversation, before, middle, after);
    GrewIsGenuine(peer, conversation, before, after);
    OthersAlike(was, state.conversations, conversation);
    forall held | Honest(peer, conversation, held)
      ensures Healed(before, held, after, MaxSyncFetch)
    {
      SyncHeals(peer, conversation, held, before, middle, after, MaxSyncFetch, backward, forward);
    }
    return backward + forward;
  }
}
