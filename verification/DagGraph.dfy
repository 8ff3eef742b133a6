/**
 * What a set of held messages means as a graph, independently of how a store keeps
 * it: parent edges, causal paths, children, heads and the missing frontier.
 */
module DagGraph {
  import opened Basics
  import opened Messages

  type Held = map<MessageId, MessageCore>

  /** Messages are filed under their own content address. */
  ghost predicate WellKeyed(m: Held) {
    forall id | id in m :: id == m[id].Id()
  }

  ghost predicate Edge(m: Held, child: MessageId, parent: MessageId) {
    child in m && parent in m[child].parents
  }

  function ChildrenOf(m: Held, parent: MessageId): set<MessageId> {
    set id | id in m && parent in m[id].parents
  }

  /** Every id some held message names as a parent. */
  function Referenced(m: Held): set<MessageId> {
    set id, parent | id in m && parent in m[id].parents :: parent
  }

  function ChildIndex(m: Held): map<MessageId, set<MessageId>> {
    map parent | parent in Referenced(m) :: ChildrenOf(m, parent)
  }

  function HeadsOf(m: Held): set<MessageId> {
    set id | id in m && ChildrenOf(m, id) == {}
  }

  function MissingOf(m: Held): set<MessageId> {
    Referenced(m) - m.Keys
  }

  lemma ReferencedMeaning(m: Held)
    ensures forall id :: id in Referenced(m) <==> exists child :: Edge(m, child, id)
  {
    forall id | id in Referenced(m)
      ensures exists child :: Edge(m, child, id)
    {
      var child :| child in m && id in m[child].parents;
      assert Edge(m, child, id);
    }
  }

  lemma EdgeReferences(m: Held, child: MessageId, parent: MessageId)
    requires Edge(m, child, parent)
    ensures parent in Referenced(m)
  {
  }

  // ---- Causal paths -------------------------------------------------------------

  /** A non-empty chain of parent edges, newest message first; every message but the last is held. */
  ghost predicate Path(m: Held, path: seq<MessageId>) {
    && |path| >= 2
    && forall i :: 0 <= i < |path| - 1 ==> Edge(m, path[i], path[i + 1])
  }

  ghost predicate PathBetween(m: Held, path: seq<MessageId>, ancestor: MessageId, descendant: MessageId) {
    Path(m, path) && path[0] == descendant && path[|path| - 1] == ancestor
  }

  ghost predicate Reaches(m: Held, ancestor: MessageId, descendant: MessageId) {
    exists path :: PathBetween(m, path, ancestor, descendant)
  }

  lemma EdgeReaches(m: Held, ancestor: MessageId, descendant: MessageId)
    requires Edge(m, descendant, ancestor)
    ensures Reaches(m, ancestor, descendant)
  {
    assert PathBetween(m, [descendant, ancestor], ancestor, descendant);
  }

  lemma ReachesTransitive(m: Held, oldest: MessageId, middle: MessageId, newest: MessageId)
    requires Reaches(m, oldest, middle) && Reaches(m, middle, newest)
    ensures Reaches(m, oldest, newest)
  {
    var p :| PathBetween(m, p, middle, newest);
    var q :| PathBetween(m, q, oldest, middle);
    var path := p[..|p| - 1] + q;
    forall i | 0 <= i < |path| - 1
      ensures Edge(m, path[i], path[i + 1])
    {
      if i < |p| - 1 {
        assert Edge(m, p[i], p[i + 1]);
      } else {
        var j := i - (|p| - 1);
        assert Edge(m, q[j], q[j + 1]);
      }
    }
    assert PathBetween(m, path, oldest, newest);
  }

  /** The first edge of a path: either it already ends at the ancestor, or the rest is a path. */
  lemma ReachesUnfold(m: Held, ancestor: MessageId, descendant: MessageId) returns (parent: MessageId)
    requires Reaches(m, ancestor, descendant)
    ensures Edge(m, descendant, parent)
    ensures parent == ancestor || Reaches(m, ancestor, parent)
  {
    var p :| PathBetween(m, p, ancestor, descendant);
    parent := p[1];
    assert Edge(m, p[0], p[1]);
    if |p| > 2 {
      forall i | 0 <= i < |p[1..]| - 1
        ensures Edge(m, p[1..][i], p[1..][i + 1])
      {
        assert Edge(m, p[i + 1], p[i + 2]);
      }
      assert PathBetween(m, p[1..], ancestor, parent);
    }
  }

  lemma ParentIsShallower(core: MessageCore, parent: MessageId)
    requires parent in core.parents
    ensures Depth(parent) < Depth(core.Id())
  {
  }

  lemma {:induction false} ReachesDescends(m: Held, ancestor: MessageId, descendant: MessageId)
    requires WellKeyed(m) && Reaches(m, ancestor, descendant)
    ensures Depth(ancestor) < Depth(descendant)
    decreases Depth(descendant)
  {
    var parent := ReachesUnfold(m, ancestor, descendant);
    ParentIsShallower(m[descendant], parent);
    if parent != ancestor {
      ReachesDescends(m, ancestor, parent);
    }
  }

  /** No message is its own ancestor: a cycle would need a hash preimage. */
  lemma ReachesIrreflexive(m: Held, id: MessageId)
    requires WellKeyed(m)
    ensures !Reaches(m, id, id)
  {
    if Reaches(m, id, id) {
      ReachesDescends(m, id, id);
    }
  }

  /** A set closed under parents that never names `ancestor` cannot reach it. */
  lemma {:induction false} ClosedSetCannotReach(
      m: Held, closed: set<MessageId>, ancestor: MessageId, descendant: MessageId)
    requires WellKeyed(m)
    requires forall id, parent | id in closed && Edge(m, id, parent) :: parent in closed && parent != ancestor
    requires descendant in closed
    ensures !Reaches(m, ancestor, descendant)
    decreases Depth(descendant)
  {
    if Reaches(m, ancestor, descendant) {
      var parent := ReachesUnfold(m, ancestor, descendant);
      ParentIsShallower(m[descendant], parent);
      ClosedSetCannotReach(m, closed, ancestor, parent);
    }
  }

  // ---- Heads cover the graph ----------------------------------------------------

  lemma {:induction false} DepthBound(ids: set<MessageId>) returns (bound: nat)
    ensures forall id | id in ids :: Depth(id) <= bound
    decreases |ids|
  {
    bound := 0;
    if ids != {} {
      var id :| id in ids;
      var rest := DepthBound(ids - {id});
      bound := Max(rest, Depth(id));
    }
  }

  lemma {:induction false} HeadAbove(m: Held, id: MessageId, bound: nat) returns (head: MessageId)
    requires WellKeyed(m) && id in m
    requires forall x | x in m :: Depth(x) <= bound
    ensures head in HeadsOf(m)
    ensures head == id || Reaches(m, id, head)
    decreases bound - Depth(id)
  {
    if ChildrenOf(m, id) == {} {
      head := id;
    } else {
      var child :| child in ChildrenOf(m, id);
      ParentIsShallower(m[child], id);
      EdgeReaches(m, id, child);
      head := HeadAbove(m, child, bound);
      if head != child {
        ReachesTransitive(m, id, child, head);
      }
    }
  }

  /** Every held message is a head or a causal ancestor of one. */
  lemma HeadsCover(m: Held, id: MessageId) returns (head: MessageId)
    requires WellKeyed(m) && id in m
    ensures head in HeadsOf(m)
    ensures head == id || Reaches(m, id, head)
  {
    var bound := DepthBound(m.Keys);
    head := HeadAbove(m, id, bound);
  }

  lemma HeadsNonEmpty(m: Held)
    requires WellKeyed(m) && m != map[]
    ensures HeadsOf(m) != {}
  {
    var id :| id in m;
    var _ := HeadsCover(m, id);
  }

  // ---- Lamport discipline -------------------------------------------------------

  /** Each held message is numbered at least `gap` above the parents held with it. */
  ghost predicate Rises(m: Held, gap: nat) {
    forall child, parent | Edge(m, child, parent) && parent in m ::
      m[parent].logical + gap <= m[child].logical
  }

  /** Each held message is numbered above the parents that are held with it. */
  ghost predicate Disciplined(m: Held) {
    Rises(m, 1)
  }

  /** No message is numbered below a parent held with it. */
  ghost predicate NeverLower(m: Held) {
    Rises(m, 0)
  }

  lemma {:induction false} ReachesRises(m: Held, gap: nat, ancestor: MessageId, descendant: MessageId)
    requires WellKeyed(m) && Rises(m, gap)
    requires ancestor in m && descendant in m && Reaches(m, ancestor, descendant)
    ensures m[ancestor].logical + gap <= m[descendant].logical
    decreases Depth(descendant)
  {
    var parent := ReachesUnfold(m, ancestor, descendant);
    ParentIsShallower(m[descendant], parent);
    if parent != ancestor {
      var _ := ReachesUnfold(m, ancestor, parent);
      ReachesRises(m, gap, ancestor, parent);
    }
  }

  /** The largest `logical` among some held messages, 0 when there are none. */
  ghost function MaxLogical(m: Held, ids: set<MessageId>): (n: nat)
    requires ids <= m.Keys
    ensures forall id | id in ids :: m[id].logical <= n
    ensures ids != {} ==> exists id :: id in ids && m[id].logical == n
  {
    if ids == {} then 0 else
      var id :| id in ids;
      var rest := MaxLogical(m, ids - {id});
      assert forall x | x in ids :: x == id || x in ids - {id};
      Max(m[id].logical, rest)
  }

  ghost function NextLogicalOf(m: Held): nat {
    1 + MaxLogical(m, HeadsOf(m))
  }

  ghost predicate NextExceedsAll(m: Held) {
    forall id | id in m :: m[id].logical < NextLogicalOf(m)
  }

  /** Looking at the heads alone gives what the whole graph gives: one above everything held. */
  lemma NextLogicalExceedsAll(m: Held)
    requires WellKeyed(m)
    ensures NeverLower(m) ==> NextLogicalOf(m) == 1 + MaxLogical(m, m.Keys)
    ensures NeverLower(m) ==> NextExceedsAll(m)
  {
    forall id | NeverLower(m) && id in m
      ensures m[id].logical < NextLogicalOf(m)
    {
      var head := HeadsCover(m, id);
      if head != id {
        ReachesRises(m, 0, id, head);
      }
    }
  }
}
