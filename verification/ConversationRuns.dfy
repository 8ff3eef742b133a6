/** What whole sequences of inserts and sends do to a conversation's DAG. */
module ConversationRuns {
  import opened Basics
  import opened Messages
  import opened DagGraph
  import opened DagOrder
  import opened ConversationDags

  function AcceptedIds(conversation: MessageId, cores: set<MessageCore>): set<MessageId> {
    set core | core in cores && Accepted(conversation, core) :: core.Id()
  }

  /** After any sequence of inserts the store holds what it held, plus every acceptable core offered. */
  lemma {:induction false} AbsorbAllHolds(conversation: MessageId, m: Held, cores: seq<MessageCore>)
    requires HoldsConversation(conversation, m)
    ensures HoldsConversation(conversation, AbsorbAll(conversation, m, cores))
    ensures AbsorbAll(conversation, m, cores).Keys == m.Keys + AcceptedIds(conversation, ToSet(cores))
    decreases |cores|
  {
    if cores != [] {
      var core, rest := cores[0], cores[1..];
      var m1 := Absorb(conversation, m, core);
      AbsorbHolds(conversation, m, core);
      AbsorbAllHolds(conversation, m1, rest);
      assert forall c :: c in cores <==> c == core || c in rest;
      assert m1.Keys == m.Keys + AcceptedIds(conversation, {core});
      assert AcceptedIds(conversation, ToSet(cores)) ==
             AcceptedIds(conversation, {core}) + AcceptedIds(conversation, ToSet(rest));
    }
  }

  /**
   * Arrival order and repetition are irrelevant: two sequences offering the same cores
   * leave the same messages, and so the same children, heads and missing frontier.
   */
  lemma ArrivalOrderIrrelevant(conversation: MessageId, m: Held, xs: seq<MessageCore>, ys: seq<MessageCore>)
    requires HoldsConversation(conversation, m)
    requires ToSet(xs) == ToSet(ys)
    ensures AbsorbAll(conversation, m, xs) == AbsorbAll(conversation, m, ys)
  {
    AbsorbAllHolds(conversation, m, xs);
    AbsorbAllHolds(conversation, m, ys);
    SameKeySameCore(AbsorbAll(conversation, m, xs), AbsorbAll(conversation, m, ys));
  }

  /** What a client drafts from its view: parents are the heads, `logical` is the next one. */
  ghost predicate DraftedFrom(conversation: MessageId, m: Held, core: MessageCore) {
    && core.conversation == Some(conversation)
    && ToSet(core.parents) == HeadsOf(m)
    && core.logical == NextLogicalOf(m)
  }

  lemma {:induction false} ListOf(ids: set<MessageId>) returns (list: seq<MessageId>)
    ensures ToSet(list) == ids
    decreases |ids|
  {
    list := [];
    if ids != {} {
      var id :| id in ids;
      var rest := ListOf(ids - {id});
      list := rest + [id];
      ToSetAppend(rest, id);
    }
  }

  /** Whatever a client wants to say, its view lets it draft it. */
  lemma DraftExists(conversation: MessageId, m: Held, wish: MessageCore) returns (core: MessageCore)
    ensures DraftedFrom(conversation, m, core)
    ensures core == wish.(conversation := Some(conversation), parents := core.parents, logical := NextLogicalOf(m))
  {
    var parents := ListOf(HeadsOf(m));
    core := wish.(conversation := Some(conversation), parents := parents, logical := NextLogicalOf(m));
  }

  /** A message drafted on the heads is news: nothing held is it, or names it as a parent. */
  lemma DraftIsNew(m: Held, core: MessageCore)
    requires WellKeyed(m) && ToSet(core.parents) == HeadsOf(m)
    ensures core.Id() !in m
    ensures core.Id() !in Referenced(m)
  {
    forall id | id in m
      ensures Depth(id) < Depth(core.Id())
    {
      var head := HeadsCover(m, id);
      if head != id {
        ReachesDescends(m, id, head);
      }
      assert head in ToSet(core.parents);
      ParentIsShallower(core, head);
    }
    forall child, parent | child in m && parent in m[child].parents
      ensures Depth(parent) < Depth(core.Id())
    {
      ParentIsShallower(m[child], parent);
    }
  }

  lemma DraftIsAccepted(conversation: MessageId, m: Held, core: MessageCore)
    requires HoldsConversation(conversation, m) && DraftedFrom(conversation, m, core)
    ensures Accepted(conversation, core)
    ensures core.Id() !in m && core.Id() !in Referenced(m) && core.Id() !in core.parents
    ensures Absorb(conversation, m, core) == m[core.Id() := core]
    ensures HoldsConversation(conversation, m[core.Id() := core])
  {
    DraftIsNew(m, core);
    HeadsNonEmpty(m);
    NotOwnParent(core);
    assert core.parents != [];
    AbsorbHolds(conversation, m, core);
  }

  lemma SentRises(m: Held, core: MessageCore, gap: nat)
    requires Rises(m, gap) && gap <= 1
    requires core.Id() !in m && core.Id() !in Referenced(m) && core.Id() !in core.parents
    requires forall id | id in m :: m[id].logical < core.logical
    ensures Rises(m[core.Id() := core], gap)
  {
    var m' := m[core.Id() := core];
    ReferencedMeaning(m);
    forall child, parent | Edge(m', child, parent) && parent in m'
      ensures m'[parent].logical + gap <= m'[child].logical
    {
      assert child != core.Id() ==> Edge(m, child, parent);
    }
  }

  lemma SentIsOnlyHead(m: Held, core: MessageCore)
    requires ToSet(core.parents) == HeadsOf(m)
    requires core.Id() !in m && core.Id() !in Referenced(m)
    ensures HeadsOf(m[core.Id() := core]) == {core.Id()}
    ensures MissingOf(m[core.Id() := core]) == MissingOf(m)
  {
    InsertMeaning(m, core);
    ReferencedMeaning(m);
    assert ChildrenOf(m, core.Id()) == {} by {
      assert forall c :: c in ChildrenOf(m, core.Id()) ==> Edge(m, c, core.Id());
    }
  }

  lemma ReachesGrows(m: Held, larger: Held, ancestor: MessageId, descendant: MessageId)
    requires forall id | id in m :: id in larger && larger[id] == m[id]
    requires Reaches(m, ancestor, descendant)
    ensures Reaches(larger, ancestor, descendant)
  {
    var path :| PathBetween(m, path, ancestor, descendant);
    forall i | 0 <= i < |path| - 1
      ensures Edge(larger, path[i], path[i + 1])
    {
      assert Edge(m, path[i], path[i + 1]);
    }
    assert PathBetween(larger, path, ancestor, descendant);
  }

  lemma SentReaches(m: Held, core: MessageCore, id: MessageId)
    requires WellKeyed(m) && ToSet(core.parents) == HeadsOf(m) && id in m && core.Id() !in m
    ensures Reaches(m[core.Id() := core], id, core.Id())
  {
    var m' := m[core.Id() := core];
    var head := HeadsCover(m, id);
    assert head in ToSet(core.parents) && Edge(m', core.Id(), head);
    EdgeReaches(m', head, core.Id());
    if head != id {
      ReachesGrows(m, m', id, head);
      ReachesTransitive(m', id, head, core.Id());
    }
  }

  /**
   * A message drafted from a view is accepted and new. It becomes the only head, adds no
   * gap, and lies causally above everything that was held; and sending it keeps the
   * Lamport discipline, strict or not.
   */
  lemma SendingKeepsDiscipline(conversation: MessageId, m: Held, core: MessageCore)
    requires HoldsConversation(conversation, m) && DraftedFrom(conversation, m, core)
    ensures Accepted(conversation, core) && core.Id() !in m
    ensures var m' := Absorb(conversation, m, core);
            && m' == m[core.Id() := core]
            && HoldsConversation(conversation, m')
            && HeadsOf(m') == {core.Id()}
            && MissingOf(m') == MissingOf(m)
            && (forall id | id in m :: Reaches(m', id, core.Id()))
            && (NeverLower(m) ==> NeverLower(m') && forall id | id in m :: m[id].logical < core.logical)
            && (Disciplined(m) ==> Disciplined(m'))
  {
    DraftIsAccepted(conversation, m, core);
    SentIsOnlyHead(m, core);
    forall id | id in m
      ensures Reaches(m[core.Id() := core], id, core.Id())
    {
      SentReaches(m, core, id);
    }
    if NeverLower(m) {
      NextLogicalExceedsAll(m);
      SentRises(m, core, 0);
      if Disciplined(m) {
        SentRises(m, core, 1);
      }
    }
    hide Reaches, HeadsOf, MissingOf, NeverLower, Disciplined, HoldsConversation, Absorb, Accepted, Referenced;
  }

  // ---- When the heads are enough ------------------------------------------------

  /** A store that holds some of the conversation's messages, the genesis among them. */
  ghost predicate ViewOf(conversation: MessageId, view: Held, m: Held) {
    && HoldsConversation(conversation, view)
    && forall id | id in view :: id in m && view[id] == m[id]
  }

  /** A message numbered below its parent misleads the store that holds just the two. */
  lemma LoweredView(conversation: MessageId, m: Held, child: MessageId, parent: MessageId) returns (view: Held)
    requires HoldsConversation(conversation, m)
    requires Edge(m, child, parent) && parent in m && m[parent].logical > m[child].logical
    ensures ViewOf(conversation, view, m) && !NextExceedsAll(view)
  {
    view := map id | id in {conversation, child, parent} :: m[id];
    ParentIsShallower(m[child], parent);
    assert Edge(view, child, parent) && child in ChildrenOf(view, parent);
    assert HeadsOf(view) <= {conversation, child};
    assert forall id | id in HeadsOf(view) :: view[id].logical <= m[child].logical;
    HeadsNonEmpty(view);
    assert NextLogicalOf(view) <= view[parent].logical;
  }

  /**
   * Looking only at heads is sound for a conversation exactly when no message in it is
   * numbered below its parent: then the next number exceeds everything held in every
   * store that holds part of the conversation, and otherwise some store misnumbers.
   */
  lemma HeadsSufficeIff(conversation: MessageId, m: Held)
    requires HoldsConversation(conversation, m)
    ensures NeverLower(m) <==> forall view: Held | ViewOf(conversation, view, m) :: NextExceedsAll(view)
  {
    if NeverLower(m) {
      forall view: Held | ViewOf(conversation, view, m)
        ensures NextExceedsAll(view)
      {
        assert forall child, parent | Edge(view, child, parent) :: Edge(m, child, parent);
        NextLogicalExceedsAll(view);
      }
    } else {
      var child, parent :| Edge(m, child, parent) && parent in m && m[parent].logical > m[child].logical;
      var view := LoweredView(conversation, m, child, parent);
    }
  }

  // ---- When marks mean concurrency ----------------------------------------------

  /** A message ordered before its parent makes the view of just the two mark that parent, its own ancestor. */
  lemma OutOfOrderView(conversation: MessageId, m: Held, digest: Digest, child: MessageId, parent: MessageId)
      returns (view: Held, order: seq<MessageId>)
    requires HoldsConversation(conversation, m)
    requires Edge(m, child, parent) && parent in m && Before(m, digest, child, parent)
    ensures ViewOf(conversation, view, m) && IsLinear(view, digest, view.Keys, order)
    ensures !AncestorsFirst(view, order) && !MarksConcurrency(view, order)
  {
    view := map id | id in {conversation, child, parent} :: m[id];
    order := [conversation, child, parent];
    assert m[conversation].parents == [] && m[conversation].logical == 0;
    assert child != conversation && parent != conversation;
    ParentIsShallower(m[child], parent);
    assert ToSet(order) == view.Keys;
    assert Edge(view, child, parent);
    EdgeReaches(view, parent, child);
    if Reaches(view, child, parent) {
      ReachesDescends(view, child, parent);
    }
    CrossedContains(view, order, 1);
    assert Reaches(view, order[2], order[1]);
  }

  /**
   * The marks mean concurrency exactly when every edge of the conversation is in order:
   * then in every store that holds part of it each message is marked exactly when it is
   * incomparable with its predecessor, and otherwise some store marks an ancestor.
   */
  lemma MarksMeanConcurrencyIff(conversation: MessageId, m: Held, digest: Digest)
    requires HoldsConversation(conversation, m) && DistinctOn(digest, m.Keys)
    ensures EdgesInOrder(m, digest) <==>
              forall view: Held, order: seq<MessageId> |
                ViewOf(conversation, view, m) && IsLinear(view, digest, view.Keys, order) ::
                MarksConcurrency(view, order)
  {
    if EdgesInOrder(m, digest) {
      forall view: Held, order: seq<MessageId> |
        ViewOf(conversation, view, m) && IsLinear(view, digest, view.Keys, order)
        ensures MarksConcurrency(view, order)
      {
        assert forall child, parent | Edge(view, child, parent) :: Edge(m, child, parent);
        assert EdgesInOrder(view, digest);
        CrossedMarksConcurrency(view, digest, order);
      }
    } else {
      var child, parent :| Edge(m, child, parent) && parent in m && !Before(m, digest, parent, child);
      ParentIsShallower(m[child], parent);
      var view, order := OutOfOrderView(conversation, m, digest, child, parent);
    }
  }

  // ---- Conversations that inserting accepts ------------------------------------

  /** Some device can have signed every message. */
  ghost predicate Authentic(m: Held) {
    forall id | id in m :: m[id].sender.PublicOf?
  }

  /** A genesis, a reply far ahead, and an answer to it numbered below it: accepted, every one. */
  lemma LoweredConversation() returns (conversation: MessageId, m: Held, low: MessageId, high: MessageId)
    ensures HoldsConversation(conversation, m) && Authentic(m)
    ensures Edge(m, low, high) && high in m && m[low].logical < m[high].logical
  {
    var sender := DeviceKey(0).Public();
    var blank := TooShort([]);
    var genesis := MessageCore(1, None, [], [sender], sender, 0, 0, 0, blank, ForeignCommitment(0), []);
    var reply := genesis.(conversation := Some(genesis.Id()), parents := [genesis.Id()], seqNo := 1, logical := 9);
    var answer := reply.(parents := [reply.Id()], seqNo := 2, logical := 1);
    m := map[genesis.Id() := genesis, reply.Id() := reply, answer.Id() := answer];
    conversation, low, high := genesis.Id(), answer.Id(), reply.Id();
  }

  /** Inserting does not keep numbers from falling: here is a store whose next number is too low. */
  lemma UndisciplinedViewMisnumbers() returns (conversation: MessageId, view: Held)
    ensures HoldsConversation(conversation, view) && Authentic(view) && !NextExceedsAll(view)
  {
    var c, m, low, high := LoweredConversation();
    conversation := c;
    view := LoweredView(c, m, low, high);
  }

  /** And one that marks a message as crossed in flight with a message it is an ancestor of. */
  lemma UndisciplinedViewMarksAncestor(digest: Digest)
      returns (conversation: MessageId, view: Held, order: seq<MessageId>)
    ensures HoldsConversation(conversation, view) && Authentic(view)
    ensures IsLinear(view, digest, view.Keys, order) && !MarksConcurrency(view, order)
  {
    var c, m, low, high := LoweredConversation();
    conversation := c;
    view, order := OutOfOrderView(c, m, digest, low, high);
  }
}
