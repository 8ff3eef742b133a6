/**
 * The blob-cache sweep: push tags that are expired or point at oversized blobs are
 * deleted, then whole blobs are evicted, oldest push first, until what is left fits the
 * byte budget. A blob is counted once however many tags it has.
 */
module BlobSweeps {
  import opened Basics
  import opened FileNames

  /** A blob's hash, read as the number that orders it. */
  type Hash = nat

  type Tags = map<string, Hash>

  datatype Config = Config(ttlMs: nat, maxBlobBytes: nat, maxTotalBytes: nat)

  /** What a sweep knows of a blob it may keep: its size, its latest push, the names of its tags. */
  datatype Held = Held(size: nat, newestMs: nat, tags: seq<string>)

  /** What a sweep judges by: its policy, the blob sizes it sees, and its clock. */
  datatype Sweep = Sweep(config: Config, size: Hash -> nat, now: nat)

  predicate IsPush(tag: string) {
    PushTagTimestamp(tag).Some?
  }

  /** A push tag that is neither expired nor on an oversized blob. */
  predicate Keeps(s: Sweep, tag: string, hash: Hash) {
    match PushTagTimestamp(tag)
    case None => false
    case Some(pushed) =>
      (if pushed <= s.now then s.now - pushed else 0) < s.config.ttlMs && s.size(hash) <= s.config.maxBlobBytes
  }

  function TagsOf(s: Sweep, tags: Tags, hash: Hash): set<string> {
    set tag | tag in tags && tags[tag] == hash && Keeps(s, tag, hash)
  }

  function HeldHashes(s: Sweep, tags: Tags): set<Hash> {
    set tag | tag in tags && Keeps(s, tag, tags[tag]) :: tags[tag]
  }

  function TimeOf(tag: string): nat {
    PushTagTimestamp(tag).GetOr(0)
  }

  /** The newest push among some tags. */
  ghost predicate IsNewest(tags: set<string>, newest: nat) {
    (forall t | t in tags :: TimeOf(t) <= newest) && exists t :: t in tags && TimeOf(t) == newest
  }

  lemma HeldHashHasTag(s: Sweep, tags: Tags, hash: Hash)
    requires hash in HeldHashes(s, tags)
    ensures TagsOf(s, tags, hash) != {}
  {
    var tag :| tag in tags && Keeps(s, tag, tags[tag]) && tags[tag] == hash;
    assert tag in TagsOf(s, tags, hash);
  }

  lemma NewestExtend(tags: set<string>, tag: string, newest: nat)
    requires if tags == {} then newest == 0 else IsNewest(tags, newest)
    ensures IsNewest(tags + {tag}, Max(newest, TimeOf(tag)))
  {
    if tags != {} {
      var t :| t in tags && TimeOf(t) == newest;
      assert t in tags + {tag};
    }
    assert tag in tags + {tag};
  }

  lemma {:induction false} NewestExists(tags: set<string>)
    requires tags != {}
    ensures exists n: nat :: IsNewest(tags, n)
    decreases |tags|
  {
    var t :| t in tags;
    var rest := tags - {t};
    assert rest + {t} == tags;
    if rest == {} {
      NewestExtend(rest, t, 0);
    } else {
      NewestExists(rest);
      var n: nat :| IsNewest(rest, n);
      NewestExtend(rest, t, n);
    }
  }

  ghost function Newest(s: Sweep, tags: Tags, hash: Hash): nat
    requires hash in HeldHashes(s, tags)
  {
    HeldHashHasTag(s, tags, hash);
    NewestExists(TagsOf(s, tags, hash));
    var n :| IsNewest(TagsOf(s, tags, hash), n);
    n
  }

  // ---- Which blobs go -----------------------------------------------------------

  /** Eviction order: by newest push, ties by hash. */
  ghost predicate Older(s: Sweep, tags: Tags, a: Hash, b: Hash) {
    && a in HeldHashes(s, tags)
    && b in HeldHashes(s, tags)
    && (Newest(s, tags, a) < Newest(s, tags, b) || (Newest(s, tags, a) == Newest(s, tags, b) && a < b))
  }

  ghost function BytesOf(s: Sweep, hashes: set<Hash>): nat {
    SumOver(hashes, s.size)
  }

  /** The last blob of an eviction: keeping it as well would have been over budget. */
  ghost predicate LastEvicted(s: Sweep, tags: Tags, evicted: set<Hash>, last: Hash)
    requires evicted <= HeldHashes(s, tags)
  {
    && last in evicted
    && (forall e | e in evicted :: e == last || Older(s, tags, e, last))
    && BytesOf(s, HeldHashes(s, tags) - evicted + {last}) > s.config.maxTotalBytes
  }

  /** A minimal oldest-first prefix whose removal brings the rest within the budget. */
  ghost predicate IsEviction(s: Sweep, tags: Tags, evicted: set<Hash>) {
    && evicted <= HeldHashes(s, tags)
    && (forall e, h | e in evicted && h in HeldHashes(s, tags) - evicted :: Older(s, tags, e, h))
    && BytesOf(s, HeldHashes(s, tags) - evicted) <= s.config.maxTotalBytes
    && (evicted == {} || exists last :: LastEvicted(s, tags, evicted, last))
  }

  /** The tags left when some blobs are evicted: foreign tags all stay. */
  function Survivors(s: Sweep, tags: Tags, evicted: set<Hash>): Tags {
    map tag | tag in tags && (IsPush(tag) ==> Keeps(s, tag, tags[tag]) && tags[tag] !in evicted) :: tags[tag]
  }

  ghost predicate Swept(s: Sweep, tags: Tags, swept: Tags) {
    exists evicted :: IsEviction(s, tags, evicted) && swept == Survivors(s, tags, evicted)
  }

  lemma SmallerEvictionIsAll(s: Sweep, tags: Tags, small: set<Hash>, large: set<Hash>)
    requires IsEviction(s, tags, small) && IsEviction(s, tags, large) && small <= large
    ensures small == large
  {
    if large != {} {
      var held := HeldHashes(s, tags);
      var last :| LastEvicted(s, tags, large, last);
      if last !in small {
        SumOverMonotone(held - large + {last}, held - small, s.size);
        assert false;
      }
      forall e | e in large
        ensures e in small
      {
        assert e != last ==> Older(s, tags, e, last);
        assert e !in small ==> Older(s, tags, last, e);
      }
    }
  }

  /** There is only one such prefix, so a sweep has one possible outcome. */
  lemma EvictionIsUnique(s: Sweep, tags: Tags, a: set<Hash>, b: set<Hash>)
    requires IsEviction(s, tags, a) && IsEviction(s, tags, b)
    ensures a == b
  {
    if a <= b {
      SmallerEvictionIsAll(s, tags, a, b);
    } else {
      var x :| x in a && x !in b;
      forall y | y in b
        ensures y in a
      {
        assert Older(s, tags, y, x);
        assert y !in a ==> Older(s, tags, x, y);
      }
      SmallerEvictionIsAll(s, tags, b, a);
    }
  }

  lemma SurvivingHashes(s: Sweep, tags: Tags, evicted: set<Hash>)
    requires evicted <= HeldHashes(s, tags)
    ensures HeldHashes(s, Survivors(s, tags, evicted)) == HeldHashes(s, tags) - evicted
  {
    var swept := Survivors(s, tags, evicted);
    forall h | h in HeldHashes(s, tags) - evicted
      ensures h in HeldHashes(s, swept)
    {
      var tag :| tag in tags && Keeps(s, tag, tags[tag]) && tags[tag] == h;
      assert tag in swept && swept[tag] == h;
    }
    forall h | h in HeldHashes(s, swept)
      ensures h in HeldHashes(s, tags) - evicted
    {
      var tag :| tag in swept && Keeps(s, tag, swept[tag]) && swept[tag] == h;
      assert tag in tags && IsPush(tag);
    }
  }

  lemma NothingToEvict(s: Sweep, tags: Tags)
    requires BytesOf(s, HeldHashes(s, tags)) <= s.config.maxTotalBytes
    ensures IsEviction(s, tags, {})
  {
    assert HeldHashes(s, tags) - {} == HeldHashes(s, tags);
  }

  lemma SweptKeeps(s: Sweep, tags: Tags, swept: Tags)
    requires Swept(s, tags, swept)
    ensures forall tag | tag in swept :: tag in tags && swept[tag] == tags[tag]
    ensures forall tag | tag in tags && !IsPush(tag) :: tag in swept
    ensures forall tag | tag in swept && IsPush(tag) :: Keeps(s, tag, swept[tag])
    ensures forall a, b |
              a in tags && b in tags && tags[a] == tags[b] && Keeps(s, a, tags[a]) && Keeps(s, b, tags[b]) ::
              a in swept <==> b in swept
    ensures BytesOf(s, HeldHashes(s, swept)) <= s.config.maxTotalBytes
    ensures BytesOf(s, HeldHashes(s, tags)) <= s.config.maxTotalBytes ==> HeldHashes(s, swept) == HeldHashes(s, tags)
  {
    var evicted :| IsEviction(s, tags, evicted) && swept == Survivors(s, tags, evicted);
    SurvivingHashes(s, tags, evicted);
    if BytesOf(s, HeldHashes(s, tags)) <= s.config.maxTotalBytes {
      NothingToEvict(s, tags);
      EvictionIsUnique(s, tags, evicted, {});
    }
  }

  // ---- A sweep in plain terms ---------------------------------------------------

  /** A push less than the time to live ago, of a blob that is not too large. */
  predicate InDate(s: Sweep, tag: string, hash: Hash) {
    && PushTagTimestamp(tag).Some?
    && 0 < s.config.ttlMs
    && s.now < PushTagTimestamp(tag).value + s.config.ttlMs
    && s.size(hash) <= s.config.maxBlobBytes
  }

  /** One blob was pushed again after any push of another, or in the same moment and is of larger hash. */
  ghost predicate PushedLater(s: Sweep, tags: Tags, later: Hash, earlier: Hash) {
    exists newest ::
      && newest in tags && tags[newest] == later && InDate(s, newest, later)
      && forall t | t in tags && tags[t] == earlier && InDate(s, t, earlier) ::
           || PushTagTimestamp(t).value < PushTagTimestamp(newest).value
           || (PushTagTimestamp(t).value == PushTagTimestamp(newest).value && earlier < later)
  }

  lemma OlderIsPushedLater(s: Sweep, tags: Tags, a: Hash, b: Hash)
    requires Older(s, tags, a, b)
    ensures PushedLater(s, tags, b, a)
  {
    HeldHashHasTag(s, tags, a);
    HeldHashHasTag(s, tags, b);
    NewestExists(TagsOf(s, tags, a));
    NewestExists(TagsOf(s, tags, b));
    assert IsNewest(TagsOf(s, tags, a), Newest(s, tags, a)) && IsNewest(TagsOf(s, tags, b), Newest(s, tags, b));
    var newest :| newest in TagsOf(s, tags, b) && TimeOf(newest) == Newest(s, tags, b);
    assert InDate(s, newest, b);
    forall t | t in tags && tags[t] == a && InDate(s, t, a)
      ensures TimeOf(t) <= Newest(s, tags, a)
    {
      assert t in TagsOf(s, tags, a);
    }
  }

  ghost function InDateHashes(s: Sweep, tags: Tags): set<Hash> {
    set t | t in tags && InDate(s, t, tags[t]) :: tags[t]
  }

  lemma HeldIsInDate(s: Sweep, tags: Tags)
    ensures HeldHashes(s, tags) == InDateHashes(s, tags)
    ensures forall t, h :: Keeps(s, t, h) <==> InDate(s, t, h)
  {
  }

  /** Evicted are the blobs that go although they have a tag in date: those that stay were pushed later. */
  lemma EvictsOldest(s: Sweep, tags: Tags, swept: Tags, a: string, b: string)
    requires Swept(s, tags, swept)
    requires a in tags && a !in swept && InDate(s, a, tags[a])
    requires b in swept && PushTagTimestamp(b).Some?
    ensures b in tags && PushedLater(s, tags, tags[b], tags[a])
  {
    var evicted :| IsEviction(s, tags, evicted) && swept == Survivors(s, tags, evicted);
    HeldIsInDate(s, tags);
    hide PushedLater, Older, InDate;
    assert tags[a] in evicted && tags[b] in HeldHashes(s, tags) - evicted;
    OlderIsPushedLater(s, tags, tags[a], tags[b]);
  }

  /**
   * What an operator is promised of every sweep: tags that are no pushes stay; a push stays
   * only in date; the tags of a blob that are in date go together, and only while every blob
   * that stays was pushed later; what stays fits the budget, and nothing in date goes if it
   * all did before.
   */
  lemma SweepGuarantees(s: Sweep, tags: Tags, swept: Tags)
    requires Swept(s, tags, swept)
    ensures forall tag | tag in swept :: tag in tags && swept[tag] == tags[tag]
    ensures forall tag | tag in tags && PushTagTimestamp(tag).None? :: tag in swept
    ensures forall tag | tag in swept && PushTagTimestamp(tag).Some? ::
              && 0 < s.config.ttlMs && s.now < PushTagTimestamp(tag).value + s.config.ttlMs
              && s.size(swept[tag]) <= s.config.maxBlobBytes
    ensures forall a, b |
              a in tags && b in tags && tags[a] == tags[b] && InDate(s, a, tags[a]) && InDate(s, b, tags[b]) ::
              a in swept <==> b in swept
    ensures forall a, b |
              && a in tags && a !in swept && InDate(s, a, tags[a])
              && b in swept && PushTagTimestamp(b).Some? ::
              PushedLater(s, tags, tags[b], tags[a])
    ensures SumOver(InDateHashes(s, swept), s.size) <= s.config.maxTotalBytes
    ensures SumOver(InDateHashes(s, tags), s.size) <= s.config.maxTotalBytes ==>
              InDateHashes(s, swept) == InDateHashes(s, tags)
  {
    SweptKeeps(s, tags, swept);
    HeldIsInDate(s, swept);
    HeldIsInDate(s, tags);
    assert forall tag | tag in swept && PushTagTimestamp(tag).Some? :: InDate(s, tag, swept[tag]);
    hide Swept, HeldHashes, InDateHashes, PushedLater;
    forall a, b |
      && a in tags && a !in swept && InDate(s, a, tags[a])
      && b in swept && PushTagTimestamp(b).Some?
      ensures PushedLater(s, tags, tags[b], tags[a])
    {
      EvictsOldest(s, tags, swept, a, b);
    }
  }

  /** A second sweep at the same moment changes nothing. */
  lemma SweepIsIdempotent(s: Sweep, tags: Tags, once: Tags, twice: Tags)
    requires Swept(s, tags, once) && Swept(s, once, twice)
    ensures twice == once
  {
    SweptKeeps(s, tags, once);
    NothingToEvict(s, once);
    var evicted :| IsEviction(s, once, evicted) && twice == Survivors(s, once, evicted);
    EvictionIsUnique(s, once, evicted, {});
    assert Survivors(s, once, {}) == once;
  }
}
