/**
 * The linear default view of a conversation: held messages sorted by `(logical, id)`.
 * Ids compare as the 32-byte digests they are; `digest` gives that number, and is
 * distinct on the ids being sorted.
 */
module DagOrder {
  import opened Basics
  import opened Messages
  import opened DagGraph

  type Digest = MessageId -> nat

  ghost predicate DistinctOn(digest: Digest, ids: set<MessageId>) {
    forall a, b | a in ids && b in ids && digest(a) == digest(b) :: a == b
  }

  predicate Before(m: Held, digest: Digest, a: MessageId, b: MessageId) {
    && a in m
    && b in m
    && (m[a].logical < m[b].logical || (m[a].logical == m[b].logical && digest(a) < digest(b)))
  }

  ghost predicate Sorted(m: Held, digest: Digest, order: seq<MessageId>) {
    forall i, j :: 0 <= i < j < |order| ==> Before(m, digest, order[i], order[j])
  }

  /** Some ids of `m`, each once, in the order of the linear view. */
  ghost predicate IsLinear(m: Held, digest: Digest, ids: set<MessageId>, order: seq<MessageId>) {
    ids <= m.Keys && ToSet(order) == ids && Sorted(m, digest, order)
  }

  lemma LinearTail(m: Held, digest: Digest, ids: set<MessageId>, s: seq<MessageId>)
    requires IsLinear(m, digest, ids, s) && s != []
    ensures IsLinear(m, digest, ids - {s[0]}, s[1..])
  {
    forall x
      ensures x in ToSet(s[1..]) <==> x in ids && x != s[0]
    {
      if x in s[1..] {
        var i :| 0 <= i < |s[1..]| && s[1..][i] == x;
        assert s[i + 1] == x && Before(m, digest, s[0], s[i + 1]);
      }
      if x in ids && x != s[0] {
        var i :| 0 <= i < |s| && s[i] == x;
        assert s[1..][i - 1] == x;
      }
    }
    forall i, j | 0 <= i < j < |s[1..]|
      ensures Before(m, digest, s[1..][i], s[1..][j])
    {
      assert Before(m, digest, s[i + 1], s[j + 1]);
    }
  }

  /** There is only one such order, so the linear view is a function of what is held. */
  lemma LinearIsUnique(m: Held, digest: Digest, ids: set<MessageId>, s: seq<MessageId>, t: seq<MessageId>)
    requires IsLinear(m, digest, ids, s) && IsLinear(m, digest, ids, t)
    ensures s == t
  {
    SortedIsUnique(s, t, (a, b) => Before(m, digest, a, b));
  }

  /** Sorting in one more id at the place the comparisons give. */
  lemma InsertIntoLinear(m: Held, digest: Digest, ids: set<MessageId>, order: seq<MessageId>, id: MessageId, at: nat)
    requires IsLinear(m, digest, ids, order) && id in m && id !in ids
    requires DistinctOn(digest, m.Keys)
    requires at <= |order|
    requires forall i | 0 <= i < at :: Before(m, digest, order[i], id)
    requires at < |order| ==> !Before(m, digest, order[at], id)
    ensures IsLinear(m, digest, ids + {id}, order[..at] + [id] + order[at..])
  {
    var r := order[..at] + [id] + order[at..];
    assert order == order[..at] + order[at..];
    assert forall x :: x in r <==> x in order || x == id;
    forall i | at <= i < |order|
      ensures Before(m, digest, id, order[i])
    {
      assert order[at] in ToSet(order);
      assert at < i ==> Before(m, digest, order[at], order[i]);
    }
    forall i, j | 0 <= i < j < |r|
      ensures Before(m, digest, r[i], r[j])
    {
      if i != at && j != at {
        var i', j' := if i < at then i else i - 1, if j < at then j else j - 1;
        assert Before(m, digest, order[i'], order[j']);
      }
    }
  }

  /** Position-preserving restriction of a sequence to a set. */
  function Restrict(order: seq<MessageId>, ids: set<MessageId>): (r: seq<MessageId>)
    ensures ToSet(r) == ToSet(order) * ids
  {
    if order == [] then [] else
      var rest := Restrict(order[1..], ids);
      assert forall x :: x in order <==> x == order[0] || x in order[1..];
      assert forall x :: x in [order[0]] + rest <==> x == order[0] || x in ToSet(rest);
      if order[0] in ids then [order[0]] + rest else rest
  }

  lemma {:induction false} RestrictIsLinear(
      m: Held, digest: Digest, all: set<MessageId>, order: seq<MessageId>, ids: set<MessageId>)
    requires IsLinear(m, digest, all, order)
    ensures IsLinear(m, digest, all * ids, Restrict(order, ids))
    decreases |order|
  {
    if order != [] {
      LinearTail(m, digest, all, order);
      RestrictIsLinear(m, digest, all - {order[0]}, order[1..], ids);
      var rest := Restrict(order[1..], ids);
      if order[0] in ids {
        var r := [order[0]] + rest;
        assert Restrict(order, ids) == r;
        forall i, j | 0 <= i < j < |r|
          ensures Before(m, digest, r[i], r[j])
        {
          assert r[j] == rest[j - 1] && rest[j - 1] in ToSet(order[1..]);
          var k :| 0 <= k < |order[1..]| && order[1..][k] == r[j];
          assert Before(m, digest, order[0], order[k + 1]);
          if i > 0 {
            assert Before(m, digest, rest[i - 1], rest[j - 1]);
          }
        }
      } else {
        assert Restrict(order, ids) == rest;
        assert all * ids == (all - {order[0]}) * ids;
      }
    }
  }

  /** An id determines its message, so what a view holds is settled by its ids. */
  lemma SameKeySameCore(a: Held, b: Held)
    requires WellKeyed(a) && WellKeyed(b)
    ensures forall id | id in a && id in b :: a[id] == b[id]
    ensures a.Keys == b.Keys ==> a == b
  {
    forall id | id in a && id in b
      ensures a[id] == b[id]
    {
      assert id == a[id].Id() && id == b[id].Id();
    }
  }

  /** Two devices list what both hold in the same order, whatever else each of them holds. */
  lemma PartialViewsAgree(a: Held, b: Held, digest: Digest, s: seq<MessageId>, t: seq<MessageId>)
    requires WellKeyed(a) && WellKeyed(b)
    requires IsLinear(a, digest, a.Keys, s) && IsLinear(b, digest, b.Keys, t)
    ensures Restrict(s, b.Keys) == Restrict(t, a.Keys)
  {
    var shared, r := a.Keys * b.Keys, Restrict(t, a.Keys);
    SameKeySameCore(a, b);
    RestrictIsLinear(a, digest, a.Keys, s, b.Keys);
    RestrictIsLinear(b, digest, b.Keys, t, a.Keys);
    assert b.Keys * a.Keys == shared;
    forall i, j | 0 <= i < j < |r|
      ensures Before(a, digest, r[i], r[j])
    {
      assert Before(b, digest, r[i], r[j]) && r[i] in ToSet(r) && r[j] in ToSet(r);
    }
    LinearIsUnique(a, digest, shared, Restrict(s, b.Keys), r);
  }

  // ---- Causality of the linear view ---------------------------------------------

  ghost predicate Comparable(m: Held, a: MessageId, b: MessageId) {
    a == b || Reaches(m, a, b) || Reaches(m, b, a)
  }

  ghost predicate CrossedAt(m: Held, order: seq<MessageId>, i: nat)
    requires i + 1 < |order|
  {
    !Reaches(m, order[i], order[i + 1])
  }

  /** Ids that do not causally follow the message listed just before them. */
  ghost function Crossed(m: Held, order: seq<MessageId>): set<MessageId> {
    set i | 0 <= i < |order| - 1 && CrossedAt(m, order, i) :: order[i + 1]
  }

  lemma CrossedContains(m: Held, order: seq<MessageId>, i: nat)
    requires i + 1 < |order|
    ensures CrossedAt(m, order, i) ==> order[i + 1] in Crossed(m, order)
  {
  }

  lemma CrossedExtend(m: Held, order: seq<MessageId>, i: nat)
    requires 1 <= i < |order|
    ensures Crossed(m, order[..i + 1]) ==
              Crossed(m, order[..i]) + (if Reaches(m, order[i - 1], order[i]) then {} else {order[i]})
  {
    var s, t := order[..i], order[..i + 1];
    assert forall k | 0 <= k < i - 1 :: CrossedAt(m, s, k) <==> CrossedAt(m, t, k);
    forall k | 0 <= k < i - 1 && CrossedAt(m, s, k)
      ensures s[k + 1] in Crossed(m, t)
    {
      CrossedContains(m, t, k);
      assert t[k + 1] == s[k + 1];
    }
    CrossedContains(m, t, i - 1);
  }

  /** Every message is ordered after the parents held with it. */
  ghost predicate EdgesInOrder(m: Held, digest: Digest) {
    forall child, parent | Edge(m, child, parent) && parent in m :: Before(m, digest, parent, child)
  }

  lemma DisciplinedInOrder(m: Held, digest: Digest)
    requires Disciplined(m)
    ensures EdgesInOrder(m, digest)
  {
  }

  lemma {:induction false} ReachesBefore(m: Held, digest: Digest, ancestor: MessageId, descendant: MessageId)
    requires WellKeyed(m) && EdgesInOrder(m, digest)
    requires ancestor in m && descendant in m && Reaches(m, ancestor, descendant)
    ensures Before(m, digest, ancestor, descendant)
    decreases Depth(descendant)
  {
    var parent := ReachesUnfold(m, ancestor, descendant);
    ParentIsShallower(m[descendant], parent);
    if parent != ancestor {
      var _ := ReachesUnfold(m, ancestor, parent);
      ReachesBefore(m, digest, ancestor, parent);
    }
  }

  ghost predicate AncestorsFirst(m: Held, order: seq<MessageId>) {
    forall i, j | 0 <= i < |order| && 0 <= j < |order| && Reaches(m, order[i], order[j]) :: i < j
  }

  /** The linear view lists every ancestor earlier exactly when each edge is in order. */
  lemma LinearExtensionIff(m: Held, digest: Digest, order: seq<MessageId>)
    requires WellKeyed(m) && IsLinear(m, digest, m.Keys, order)
    ensures EdgesInOrder(m, digest) <==> AncestorsFirst(m, order)
  {
    assert forall i | 0 <= i < |order| :: order[i] in ToSet(order);
    if EdgesInOrder(m, digest) {
      forall i, j | 0 <= i < |order| && 0 <= j < |order| && Reaches(m, order[i], order[j])
        ensures i < j
      {
        ReachesBefore(m, digest, order[i], order[j]);
      }
    }
    if AncestorsFirst(m, order) {
      forall child, parent | Edge(m, child, parent) && parent in m
        ensures Before(m, digest, parent, child)
      {
        assert parent in ToSet(order) && child in ToSet(order);
        var i :| 0 <= i < |order| && order[i] == parent;
        var j :| 0 <= j < |order| && order[j] == child;
        EdgeReaches(m, parent, child);
      }
    }
  }

  lemma LinearDistinct(m: Held, digest: Digest, ids: set<MessageId>, order: seq<MessageId>, i: nat, j: nat)
    requires IsLinear(m, digest, ids, order)
    requires i < |order| && j < |order| && order[i] == order[j]
    ensures i == j
  {
  }

  /** Each message is marked exactly when it is incomparable with the one listed before it. */
  ghost predicate MarksConcurrency(m: Held, order: seq<MessageId>) {
    forall i | 0 <= i < |order| - 1 :: order[i + 1] in Crossed(m, order) <==> !Comparable(m, order[i], order[i + 1])
  }

  /** With every edge in order, the crossed messages are exactly those incomparable with their predecessor. */
  lemma CrossedMarksConcurrency(m: Held, digest: Digest, order: seq<MessageId>)
    requires WellKeyed(m) && EdgesInOrder(m, digest) && IsLinear(m, digest, m.Keys, order)
    ensures MarksConcurrency(m, order)
  {
    LinearExtensionIff(m, digest, order);
    forall i | 0 <= i < |order| - 1
      ensures order[i + 1] in Crossed(m, order) <==> !Comparable(m, order[i], order[i + 1])
    {
      assert Before(m, digest, order[i], order[i + 1]);
      CrossedContains(m, order, i);
      if order[i + 1] in Crossed(m, order) {
        var k :| 0 <= k < |order| - 1 && CrossedAt(m, order, k) && order[k + 1] == order[i + 1];
        LinearDistinct(m, digest, m.Keys, order, k + 1, i + 1);
      }
    }
  }

  lemma {:induction false} UncrossedChain(m: Held, order: seq<MessageId>, i: nat, j: nat)
    requires Crossed(m, order) == {}
    requires i < j < |order|
    ensures Reaches(m, order[i], order[j])
    decreases j
  {
    CrossedContains(m, order, j - 1);
    if i < j - 1 {
      UncrossedChain(m, order, i, j - 1);
      ReachesTransitive(m, order[i], order[j - 1], order[j]);
    }
  }

  /** With every edge in order, nothing is marked iff the conversation is a single causal chain. */
  lemma CrossedEmptyIffChain(m: Held, digest: Digest, order: seq<MessageId>)
    requires WellKeyed(m) && EdgesInOrder(m, digest) && IsLinear(m, digest, m.Keys, order)
    ensures Crossed(m, order) == {} <==> forall a, b | a in m && b in m :: Comparable(m, a, b)
  {
    if Crossed(m, order) == {} {
      forall a, b | a in m && b in m
        ensures Comparable(m, a, b)
      {
        assert a in ToSet(order) && b in ToSet(order);
        var i :| 0 <= i < |order| && order[i] == a;
        var j :| 0 <= j < |order| && order[j] == b;
        if i < j {
          UncrossedChain(m, order, i, j);
        } else if j < i {
          UncrossedChain(m, order, j, i);
        }
      }
    }
    CrossedMarksConcurrency(m, digest, order);
    if forall a, b | a in m && b in m :: Comparable(m, a, b) {
      forall k | 0 <= k < |order| - 1
        ensures !CrossedAt(m, order, k)
      {
        assert order[k] in ToSet(order) && order[k + 1] in ToSet(order);
        CrossedContains(m, order, k);
      }
    }
  }

  // ---- The marks in plain terms -------------------------------------------------

  /** Of the messages that sort below `id` by `(logical, id)`, the largest. */
  ghost predicate JustBefore(m: Held, digest: Digest, p: MessageId, id: MessageId) {
    && p in m
    && id in m
    && (m[p].logical < m[id].logical || (m[p].logical == m[id].logical && digest(p) < digest(id)))
    && forall q | q in m && q != p ::
         || m[q].logical < m[p].logical
         || (m[q].logical == m[p].logical && digest(q) <= digest(p))
         || m[id].logical < m[q].logical
         || (m[id].logical == m[q].logical && digest(id) <= digest(q))
  }

  lemma PositionsAgree(m: Held, digest: Digest, order: seq<MessageId>, i: nat, j: nat)
    requires IsLinear(m, digest, m.Keys, order) && i < |order| && j < |order|
    ensures order[i] in m && order[j] in m
    ensures i < j <==> Before(m, digest, order[i], order[j])
  {
    assert order[i] in ToSet(order) && order[j] in ToSet(order);
    assert j < i ==> Before(m, digest, order[j], order[i]);
  }

  lemma PlaceOf(m: Held, digest: Digest, order: seq<MessageId>, id: MessageId) returns (i: nat)
    requires IsLinear(m, digest, m.Keys, order) && id in m
    ensures i < |order| && order[i] == id
  {
    assert id in ToSet(order);
    i :| 0 <= i < |order| && order[i] == id;
  }

  lemma NeighboursAreJustBefore(m: Held, digest: Digest, order: seq<MessageId>, i: nat)
    requires IsLinear(m, digest, m.Keys, order) && i + 1 < |order|
    ensures JustBefore(m, digest, order[i], order[i + 1])
  {
    PositionsAgree(m, digest, order, i, i + 1);
    forall q | q in m && q != order[i]
      ensures Before(m, digest, q, order[i]) || q == order[i + 1] || Before(m, digest, order[i + 1], q)
    {
      var k := PlaceOf(m, digest, order, q);
      PositionsAgree(m, digest, order, k, i);
      PositionsAgree(m, digest, order, i + 1, k);
    }
    hide IsLinear;
  }

  lemma JustBeforeIsNeighbour(m: Held, digest: Digest, order: seq<MessageId>, p: MessageId, id: MessageId)
      returns (i: nat)
    requires IsLinear(m, digest, m.Keys, order) && JustBefore(m, digest, p, id)
    ensures i + 1 < |order| && order[i] == p && order[i + 1] == id
  {
    i := PlaceOf(m, digest, order, p);
    var j := PlaceOf(m, digest, order, id);
    PositionsAgree(m, digest, order, i, j);
    PositionsAgree(m, digest, order, i, i + 1);
    PositionsAgree(m, digest, order, i + 1, j);
  }

  /**
   * A message is marked exactly when the one just before it by `(logical, id)` is no ancestor
   * of it; the first has none before it and is never marked.
   */
  lemma CrossedByPredecessor(m: Held, digest: Digest, order: seq<MessageId>, id: MessageId)
    requires IsLinear(m, digest, m.Keys, order)
    ensures id in Crossed(m, order) <==> exists p :: JustBefore(m, digest, p, id) && !Reaches(m, p, id)
  {
    hide IsLinear, JustBefore, Reaches;
    if id in Crossed(m, order) {
      var i :| 0 <= i < |order| - 1 && CrossedAt(m, order, i) && order[i + 1] == id;
      NeighboursAreJustBefore(m, digest, order, i);
    }
    if p :| JustBefore(m, digest, p, id) && !Reaches(m, p, id) {
      var i := JustBeforeIsNeighbour(m, digest, order, p, id);
      CrossedContains(m, order, i);
    }
  }

  /** Of two messages with one number, which crossed in flight, the one with the larger digest is marked. */
  lemma LargerDigestIsMarked(m: Held, digest: Digest, order: seq<MessageId>, a: MessageId, b: MessageId)
    requires WellKeyed(m) && Disciplined(m) && IsLinear(m, digest, m.Keys, order)
    requires a in m && b in m && m[a].logical == m[b].logical && digest(a) < digest(b)
    ensures b in Crossed(m, order) && !Comparable(m, a, b)
  {
    var i := PlaceOf(m, digest, order, a);
    var j := PlaceOf(m, digest, order, b);
    PositionsAgree(m, digest, order, i, j);
    PositionsAgree(m, digest, order, i, j - 1);
    PositionsAgree(m, digest, order, j - 1, j);
    hide IsLinear, Reaches, Disciplined, WellKeyed;
    forall x, y | x in m && y in m && m[x].logical == m[y].logical
      ensures !Reaches(m, x, y)
    {
      if Reaches(m, x, y) {
        ReachesRises(m, 1, x, y);
      }
    }
    CrossedContains(m, order, j - 1);
  }
}
