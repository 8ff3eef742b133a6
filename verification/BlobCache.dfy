/** The sweeper over a blob store's tags. */
module BlobCaches {
  import opened Basics
  import opened FileNames
  import opened BlobSweeps

  ghost predicate EntryOk(s: Sweep, tags: Tags, hash: Hash, entry: Held) {
    && entry.size == s.size(hash)
    && ToSet(entry.tags) == TagsOf(s, tags, hash)
    && IsNewest(TagsOf(s, tags, hash), entry.newestMs)
  }

  /** `held` records exactly the blobs kept alive by some tags: size, newest push and every tag. */
  ghost predicate Groups(s: Sweep, tags: Tags, held: map<Hash, Held>) {
    && held.Keys == HeldHashes(s, tags)
    && forall h | h in held :: EntryOk(s, tags, h, held[h])
  }

  ghost function Listed(tags: Tags, names: seq<string>): Tags {
    map t | t in names && t in tags :: tags[t]
  }

  /** The tags after judging some of them. */
  ghost function Without(tags: Tags, s: Sweep, names: seq<string>): Tags {
    map t | t in tags && (t in names ==> Keeps(s, t, tags[t])) :: tags[t]
  }

  lemma WithoutOneMore(tags: Tags, s: Sweep, names: seq<string>, name: string)
    requires name in tags
    ensures Listed(tags, names + [name]) == Listed(tags, names)[name := tags[name]]
    ensures Without(tags, s, names + [name]) ==
              if Keeps(s, name, tags[name]) then Without(tags, s, names) else Without(tags, s, names) - {name}
  {
  }

  lemma NothingJudged(s: Sweep, tags: Tags)
    ensures Listed(tags, []) == map[] && Without(tags, s, []) == tags
    ensures Groups(s, map[], map[])
  {
  }

  lemma NotYetJudged(s: Sweep, tags: Tags, names: seq<string>, name: string)
    requires name in tags && name !in names
    ensures name in Without(tags, s, names) && Without(tags, s, names)[name] == tags[name]
    ensures name !in Listed(tags, names)
  {
  }

  lemma AllJudged(s: Sweep, tags: Tags, names: seq<string>)
    requires forall t :: t in names <==> t in tags && IsPush(t)
    ensures Listed(tags, names) == map t | t in tags && IsPush(t) :: tags[t]
    ensures Without(tags, s, names) == Survivors(s, tags, {})
  {
  }

  lemma HeldHashesExtend(s: Sweep, tags: Tags, tag: string, hash: Hash)
    requires tag !in tags
    ensures HeldHashes(s, tags[tag := hash]) == HeldHashes(s, tags) + (if Keeps(s, tag, hash) then {hash} else {})
  {
    var more := tags[tag := hash];
    assert tag in more && more[tag] == hash;
    forall h | h in HeldHashes(s, tags)
      ensures h in HeldHashes(s, more)
    {
      var t :| t in tags && Keeps(s, t, tags[t]) && tags[t] == h;
      assert t in more && more[t] == h;
    }
  }

  lemma GroupsSkip(s: Sweep, tags: Tags, held: map<Hash, Held>, tag: string, hash: Hash)
    requires Groups(s, tags, held) && tag !in tags && !Keeps(s, tag, hash)
    ensures Groups(s, tags[tag := hash], held)
  {
    var more := tags[tag := hash];
    assert forall h :: TagsOf(s, more, h) == TagsOf(s, tags, h);
    HeldHashesExtend(s, tags, tag, hash);
  }

  lemma TagsOfExtend(s: Sweep, tags: Tags, tag: string, hash: Hash)
    requires tag !in tags && Keeps(s, tag, hash)
    ensures TagsOf(s, tags[tag := hash], hash) == TagsOf(s, tags, hash) + {tag}
    ensures forall h | h != hash :: TagsOf(s, tags[tag := hash], h) == TagsOf(s, tags, h)
    ensures hash !in HeldHashes(s, tags) ==> TagsOf(s, tags, hash) == {}
  {
    assert forall t | t in tags && Keeps(s, t, tags[t]) :: tags[t] in HeldHashes(s, tags);
  }

  lemma GroupsAdd(s: Sweep, tags: Tags, held: map<Hash, Held>, tag: string, hash: Hash)
    requires Groups(s, tags, held) && tag !in tags && Keeps(s, tag, hash)
    ensures var entry := if hash in held then held[hash] else Held(s.size(hash), 0, []);
            Groups(s, tags[tag := hash],
                   held[hash := Held(entry.size, Max(entry.newestMs, TimeOf(tag)), entry.tags + [tag])])
  {
    var more := tags[tag := hash];
    var entry := if hash in held then held[hash] else Held(s.size(hash), 0, []);
    HeldHashesExtend(s, tags, tag, hash);
    TagsOfExtend(s, tags, tag, hash);
    ToSetAppend(entry.tags, tag);
    NewestExtend(TagsOf(s, tags, hash), tag, entry.newestMs);
    hide TagsOf, HeldHashes, IsNewest;
    var next := held[hash := Held(entry.size, Max(entry.newestMs, TimeOf(tag)), entry.tags + [tag])];
    forall h | h in next
      ensures EntryOk(s, more, h, next[h])
    {
      if h != hash {
        assert EntryOk(s, tags, h, held[h]);
      }
    }
  }

  lemma GroupsOfPushes(s: Sweep, tags: Tags, pushes: Tags, held: map<Hash, Held>)
    requires Groups(s, pushes, held)
    requires pushes == map t | t in tags && IsPush(t) :: tags[t]
    ensures Groups(s, tags, held)
  {
    assert forall h :: TagsOf(s, tags, h) == TagsOf(s, pushes, h);
    forall h | h in HeldHashes(s, tags)
      ensures h in HeldHashes(s, pushes)
    {
      var t :| t in tags && Keeps(s, t, tags[t]) && tags[t] == h;
      assert t in pushes;
    }
    assert HeldHashes(s, pushes) <= HeldHashes(s, tags);
  }

  /** What the groups record, in plain terms: every tag of a blob that is in date, and the latest of their times. */
  lemma GroupsInDate(s: Sweep, tags: Tags, held: map<Hash, Held>)
    requires Groups(s, tags, held)
    ensures forall t :: t in Survivors(s, tags, {}) <==>
              && t in tags
              && (PushTagTimestamp(t).Some? ==>
                    && 0 < s.config.ttlMs && s.now < PushTagTimestamp(t).value + s.config.ttlMs
                    && s.size(tags[t]) <= s.config.maxBlobBytes)
    ensures forall h | h in held ::
              && held[h].size == s.size(h)
              && (forall t :: t in held[h].tags <==> t in tags && tags[t] == h && InDate(s, t, h))
              && (forall t | t in held[h].tags :: PushTagTimestamp(t).value <= held[h].newestMs)
              && exists t :: t in held[h].tags && PushTagTimestamp(t).value == held[h].newestMs
  {
    HeldIsInDate(s, tags);
    forall h | h in held
      ensures forall t :: t in held[h].tags <==> t in TagsOf(s, tags, h)
      ensures IsNewest(TagsOf(s, tags, h), held[h].newestMs)
    {
      assert EntryOk(s, tags, h, held[h]);
      assert forall t :: t in held[h].tags <==> t in ToSet(held[h].tags);
    }
  }

  function EntryTime(held: map<Hash, Held>, hash: Hash): nat {
    if hash in held then held[hash].newestMs else 0
  }

  predicate OlderEntry(held: map<Hash, Held>, a: Hash, b: Hash) {
    EntryTime(held, a) < EntryTime(held, b) || (EntryTime(held, a) == EntryTime(held, b) && a < b)
  }

  ghost predicate IsOldestFirst(held: map<Hash, Held>, hashes: set<Hash>, order: seq<Hash>) {
    && hashes <= held.Keys
    && ToSet(order) == hashes
    && forall i, j :: 0 <= i < j < |order| ==> OlderEntry(held, order[i], order[j])
  }

  lemma InsertOldest(held: map<Hash, Held>, hashes: set<Hash>, order: seq<Hash>, hash: Hash, at: nat)
    requires IsOldestFirst(held, hashes, order)
    requires hash in held && forall h | h in hashes :: h < hash
    requires at <= |order|
    requires forall k | 0 <= k < at :: EntryTime(held, order[k]) <= EntryTime(held, hash)
    requires at < |order| ==> EntryTime(held, hash) < EntryTime(held, order[at])
    ensures IsOldestFirst(held, hashes + {hash}, order[..at] + [hash] + order[at..])
  {
    var r := order[..at] + [hash] + order[at..];
    assert order == order[..at] + order[at..];
    assert forall x :: x in r <==> x in order || x == hash;
    assert forall k | 0 <= k < |order| :: order[k] in ToSet(order);
    forall i, j | 0 <= i < j < |r|
      ensures OlderEntry(held, r[i], r[j])
    {
      if i != at && j != at {
        var i', j' := if i < at then i else i - 1, if j < at then j else j - 1;
        assert OlderEntry(held, order[i'], order[j']);
      } else if i == at && at < j - 1 {
        assert OlderEntry(held, order[at], order[j - 1]);
      }
    }
  }

  /** All held hashes, each older than those after it. */
  ghost predicate EvictionOrder(s: Sweep, tags: Tags, order: seq<Hash>) {
    && ToSet(order) == HeldHashes(s, tags)
    && forall i, j :: 0 <= i < j < |order| ==> Older(s, tags, order[i], order[j])
  }

  lemma OrderAgrees(s: Sweep, tags: Tags, held: map<Hash, Held>, order: seq<Hash>)
    requires Groups(s, tags, held) && IsOldestFirst(held, held.Keys, order)
    ensures EvictionOrder(s, tags, order)
  {
    forall h | h in held
      ensures EntryTime(held, h) == Newest(s, tags, h)
    {
      assert IsNewest(TagsOf(s, tags, h), Newest(s, tags, h));
    }
    forall i, j | 0 <= i < j < |order|
      ensures Older(s, tags, order[i], order[j])
    {
      assert order[i] in ToSet(order) && order[j] in ToSet(order);
      assert OlderEntry(held, order[i], order[j]);
    }
  }

  /** Before its last eviction a prefix left too much. */
  ghost predicate OverBefore(s: Sweep, tags: Tags, order: seq<Hash>, n: nat)
    requires 0 < n <= |order|
  {
    BytesOf(s, HeldHashes(s, tags) - ToSet(order[..n - 1])) > s.config.maxTotalBytes
  }

  lemma EvictOne(s: Sweep, tags: Tags, order: seq<Hash>, i: nat)
    requires EvictionOrder(s, tags, order) && i < |order|
    ensures order[i] in HeldHashes(s, tags)
    ensures order[..i + 1] == order[..i] + [order[i]]
    ensures HeldHashes(s, tags) - ToSet(order[..i + 1]) + {order[i]} == HeldHashes(s, tags) - ToSet(order[..i])
    ensures BytesOf(s, HeldHashes(s, tags) - ToSet(order[..i])) ==
              s.size(order[i]) + BytesOf(s, HeldHashes(s, tags) - ToSet(order[..i + 1]))
  {
    var held := HeldHashes(s, tags);
    assert order[..i + 1] == order[..i] + [order[i]];
    ToSetAppend(order[..i], order[i]);
    assert order[i] in ToSet(order);
    assert forall k | 0 <= k < i :: Older(s, tags, order[k], order[i]);
    assert order[i] !in order[..i];
    var left := held - ToSet(order[..i]);
    SumOverRemove(left, s.size, order[i]);
    assert left - {order[i]} == held - ToSet(order[..i + 1]);
  }

  lemma PrefixHasLast(s: Sweep, tags: Tags, order: seq<Hash>, n: nat)
    requires EvictionOrder(s, tags, order) && 0 < n <= |order|
    requires OverBefore(s, tags, order, n)
    ensures ToSet(order[..n]) <= HeldHashes(s, tags)
    ensures LastEvicted(s, tags, ToSet(order[..n]), order[n - 1])
  {
    var evicted := ToSet(order[..n]);
    assert forall k | 0 <= k < |order| :: order[k] in ToSet(order);
    assert order[..n][n - 1] in evicted;
    EvictOne(s, tags, order, n - 1);
    forall e | e in evicted
      ensures e == order[n - 1] || Older(s, tags, e, order[n - 1])
    {
      var i :| 0 <= i < n && order[..n][i] == e;
      assert i < n - 1 ==> Older(s, tags, order[i], order[n - 1]);
    }
  }

  lemma EvictionOfPrefix(s: Sweep, tags: Tags, order: seq<Hash>, n: nat)
    requires EvictionOrder(s, tags, order) && n <= |order|
    requires n > 0 ==> OverBefore(s, tags, order, n)
    requires n == |order| || BytesOf(s, HeldHashes(s, tags) - ToSet(order[..n])) <= s.config.maxTotalBytes
    ensures IsEviction(s, tags, ToSet(order[..n]))
  {
    var held, evicted := HeldHashes(s, tags), ToSet(order[..n]);
    assert forall k | 0 <= k < |order| :: order[k] in ToSet(order);
    assert forall k | 0 <= k < n :: order[..n][k] in evicted;
    if n == |order| {
      assert order[..n] == order;
      assert held - evicted == {};
    }
    forall e, h | e in evicted && h in held - evicted
      ensures Older(s, tags, e, h)
    {
      var i :| 0 <= i < n && order[..n][i] == e;
      assert h in ToSet(order);
      var j :| 0 <= j < |order| && order[j] == h;
      assert Older(s, tags, order[i], order[j]);
    }
    if n > 0 {
      PrefixHasLast(s, tags, order, n);
    }
  }

  class BlobCache {
    var tags: map<string, Hash>

    constructor ()
      ensures tags == map[]
    {
      tags := map[];
    }

    /** Every push tag, in whatever order the store lists them. */
    method ListPushTags() returns (pushTags: seq<string>)
      ensures forall t :: t in pushTags <==> t in tags && IsPush(t)
      ensures forall i, j | 0 <= i < j < |pushTags| :: pushTags[i] != pushTags[j]
    {
      pushTags := [];
      var left := tags.Keys;
      while left != {}
        invariant left <= tags.Keys
        invariant forall t :: t in pushTags <==> t in tags && t !in left && IsPush(t)
        invariant forall i, j | 0 <= i < j < |pushTags| :: pushTags[i] != pushTags[j]
      {
        var tag :| tag in left;
        if PushTagTimestamp(tag).Some? {
          pushTags := pushTags + [tag];
        }
        left := left - {tag};
      }
    }

    /** Delete tags that are expired or on oversized blobs; group the others by blob. */
    method Judge(s: Sweep, pushTags: seq<string>) returns (held: map<Hash, Held>)
      requires forall t :: t in pushTags <==> t in tags && IsPush(t)
      requires forall i, j | 0 <= i < j < |pushTags| :: pushTags[i] != pushTags[j]
      modifies this
      ensures tags == Survivors(s, old(tags), {})
      ensures Groups(s, old(tags), held)
      ensures forall t :: t in tags <==>
                && t in old(tags)
                && (PushTagTimestamp(t).Some? ==>
                      && 0 < s.config.ttlMs && s.now < PushTagTimestamp(t).value + s.config.ttlMs
                      && s.size(old(tags)[t]) <= s.config.maxBlobBytes)
      ensures forall h | h in held ::
                && held[h].size == s.size(h)
                && (forall t :: t in held[h].tags <==> t in old(tags) && old(tags)[t] == h && InDate(s, t, h))
                && (forall t | t in held[h].tags :: PushTagTimestamp(t).value <= held[h].newestMs)
                && exists t :: t in held[h].tags && PushTagTimestamp(t).value == held[h].newestMs
    {
      held := map[];
      ghost var before := tags;
      ghost var seen: Tags := map[];
      NothingJudged(s, before);
      hide Groups, Without, Listed;
      for i := 0 to |pushTags|
        invariant seen == Listed(before, pushTags[..i])
        invariant tags == Without(before, s, pushTags[..i])
        invariant Groups(s, seen, held)
      {
        var tag := pushTags[i];
        assert tag in pushTags && tag !in pushTags[..i];
        assert pushTags[..i + 1] == pushTags[..i] + [tag];
        NotYetJudged(s, before, pushTags[..i], tag);
        var hash := tags[tag];
        var size := s.size(hash);
        var pushed := PushTagTimestamp(tag).value;
        var age := if pushed <= s.now then s.now - pushed else 0;
        WithoutOneMore(before, s, pushTags[..i], tag);
        if age >= s.config.ttlMs || size > s.config.maxBlobBytes {
          GroupsSkip(s, seen, held, tag, hash);
          tags := tags - {tag};
        } else {
          GroupsAdd(s, seen, held, tag, hash);
          var entry := if hash in held then held[hash] else Held(size, 0, []);
          held := held[hash := Held(entry.size, Max(entry.newestMs, pushed), entry.tags + [tag])];
        }
        seen := seen[tag := hash];
      }
      assert pushTags[..|pushTags|] == pushTags;
      AllJudged(s, before, pushTags);
      GroupsOfPushes(s, before, seen, held);
      GroupsInDate(s, before, held);
    }

    /** Delete every push tag of one blob. */
    method DropTags(s: Sweep, ghost before: Tags, ghost gone: seq<Hash>, hash: Hash, names: seq<string>)
      requires tags == Survivors(s, before, ToSet(gone))
      requires ToSet(names) == TagsOf(s, before, hash)
      modifies this
      ensures tags == Survivors(s, before, ToSet(gone + [hash]))
    {
      ghost var start := tags;
      for i := 0 to |names|
        invariant tags == start - ToSet(names[..i])
      {
        ToSetAppend(names[..i], names[i]);
        assert names[..i + 1] == names[..i] + [names[i]];
        tags := tags - {names[i]};
      }
      assert names[..|names|] == names;
      ToSetAppend(gone, hash);
      assert start - TagsOf(s, before, hash) == Survivors(s, before, ToSet(gone) + {hash});
    }

    /** Sum of sizes, each blob once. */
    method TotalSize(s: Sweep, held: map<Hash, Held>, ghost before: Tags) returns (total: nat)
      requires Groups(s, before, held)
      ensures total == BytesOf(s, held.Keys)
    {
      total := 0;
      var left := held.Keys;
      while left != {}
        invariant left <= held.Keys
        invariant total + BytesOf(s, left) == BytesOf(s, held.Keys)
      {
        var hash :| hash in left;
        SumOverRemove(left, s.size, hash);
        total := total + held[hash].size;
        left := left - {hash};
      }
    }

    method Least(hashes: set<Hash>) returns (least: Hash)
      requires hashes != {}
      ensures least in hashes && forall h | h in hashes :: least <= h
    {
      least :| least in hashes;
      var left := hashes - {least};
      while left != {}
        invariant left <= hashes
        invariant least in hashes
        invariant forall h | h in hashes :: h in left || least <= h
      {
        var h :| h in left;
        if h < least {
          least := h;
        }
        left := left - {h};
      }
    }

    method Ascending(hashes: set<Hash>) returns (sorted: seq<Hash>)
      ensures ToSet(sorted) == hashes
      ensures forall i, j | 0 <= i < j < |sorted| :: sorted[i] < sorted[j]
    {
      sorted := [];
      var left := hashes;
      while left != {}
        invariant left <= hashes
        invariant ToSet(sorted) == hashes - left
        invariant forall i, j | 0 <= i < j < |sorted| :: sorted[i] < sorted[j]
        invariant forall a, b | a in sorted && b in left :: a < b
      {
        var least := Least(left);
        ToSetAppend(sorted, least);
        assert hashes - left + {least} == hashes - (left - {least});
        assert forall i | 0 <= i < |sorted| :: sorted[i] in sorted;
        sorted := sorted + [least];
        left := left - {least};
      }
    }

    /**
     * Hashes in ascending order, then stably sorted by newest push: ties stay in hash order.
     */
    method OldestFirst(held: map<Hash, Held>) returns (order: seq<Hash>)
      ensures IsOldestFirst(held, held.Keys, order)
      ensures forall h :: h in order <==> h in held
      ensures forall i, j | 0 <= i < j < |order| ::
                || held[order[i]].newestMs < held[order[j]].newestMs
                || (held[order[i]].newestMs == held[order[j]].newestMs && order[i] < order[j])
    {
      var ascending := Ascending(held.Keys);
      order := [];
      for i := 0 to |ascending|
        invariant IsOldestFirst(held, ToSet(ascending[..i]), order)
      {
        var hash := ascending[i];
        assert hash in ToSet(ascending) && ToSet(ascending[..i]) <= ToSet(ascending);
        var at := 0;
        while at < |order| && EntryTime(held, order[at]) <= EntryTime(held, hash)
          invariant at <= |order|
          invariant forall k | 0 <= k < at :: EntryTime(held, order[k]) <= EntryTime(held, hash)
        {
          at := at + 1;
        }
        ToSetAppend(ascending[..i], hash);
        assert ascending[..i + 1] == ascending[..i] + [hash];
        assert forall h | h in ToSet(ascending[..i]) :: h < hash;
        InsertOldest(held, ToSet(ascending[..i]), order, hash, at);
        order := order[..at] + [hash] + order[at..];
      }
      assert ascending[..|ascending|] == ascending;
      assert forall h :: h in order <==> h in ToSet(order);
      assert forall i, j | 0 <= i < j < |order| :: OlderEntry(held, order[i], order[j]);
    }

    /** Give up whole blobs, those pushed longest ago first, until the rest fits. */
    method EvictToBudget(s: Sweep, held: map<Hash, Held>, ghost before: Tags)
      requires tags == Survivors(s, before, {}) && Groups(s, before, held)
      modifies this
      ensures Swept(s, before, tags)
    {
      var total := TotalSize(s, held, before);
      if total <= s.config.maxTotalBytes {
        NothingToEvict(s, before);
        return;
      }
      var order := OldestFirst(held);
      OrderAgrees(s, before, held, order);
      var i := 0;
      assert held.Keys - ToSet(order[..0]) == held.Keys;
      while i < |order| && total > s.config.maxTotalBytes
        invariant i <= |order|
        invariant tags == Survivors(s, before, ToSet(order[..i]))
        invariant total == BytesOf(s, HeldHashes(s, before) - ToSet(order[..i]))
        invariant i > 0 ==> OverBefore(s, before, order, i)
      {
        EvictOne(s, before, order, i);
        var entry := held[order[i]];
        DropTags(s, before, order[..i], order[i], entry.tags);
        total := if entry.size <= total then total - entry.size else 0;
        i := i + 1;
      }
      EvictionOfPrefix(s, before, order, i);
    }

    /** One sweep: the free deletions by age and size first, then the budget. */
    method SweepTags(s: Sweep)
      modifies this
      ensures Swept(s, old(tags), tags)
      ensures forall t | t in tags :: t in old(tags) && tags[t] == old(tags)[t]
      ensures forall t | t in old(tags) && PushTagTimestamp(t).None? :: t in tags
      ensures forall t | t in tags && PushTagTimestamp(t).Some? ::
                && 0 < s.config.ttlMs && s.now < PushTagTimestamp(t).value + s.config.ttlMs
                && s.size(tags[t]) <= s.config.maxBlobBytes
      ensures forall a, b |
                && a in old(tags) && a !in tags && InDate(s, a, old(tags)[a])
                && b in tags && PushTagTimestamp(b).Some? ::
                b in old(tags) && PushedLater(s, old(tags), old(tags)[b], old(tags)[a])
      ensures SumOver(InDateHashes(s, tags), s.size) <= s.config.maxTotalBytes
    {
      ghost var before := tags;
      var pushTags := ListPushTags();
      var held := Judge(s, pushTags);
      EvictToBudget(s, held, before);
      SweepGuarantees(s, before, tags);
      hide Swept, PushedLater, InDateHashes, InDate;
    }
  }
}
