/**
 * Sealing a draft, and what any chain of rewraps on top of it can read.
 */
module Sealing {
  import opened Basics
  import opened Messages
  import opened Envelopes

  datatype BlobDraft = BlobDraft(kind: BlobKind, plaintext: Bytes)

  datatype MessageDraft = MessageDraft(
    conversation: Option<MessageId>,
    parents: seq<MessageId>,
    recipients: seq<PublicKey>,
    seqNo: nat,
    logical: nat,
    timestampMs: nat,
    plaintext: Bytes,
    blobs: seq<BlobDraft>)

  datatype EncryptedBlob = EncryptedBlob(hash: BlobHash, bytes: Ciphertext)

  datatype SealedMessage = SealedMessage(envelope: MessageEnvelope, blobs: seq<EncryptedBlob>)

  /** Who gets a wrap: every recipient in order, then the sender unless already listed. */
  function WrapKeys(draft: MessageDraft, sender: DeviceKey): seq<PublicKey> {
    if sender.Public() in draft.recipients then draft.recipients else draft.recipients + [sender.Public()]
  }

  // ---- What sealing a draft means -----------------------------------------------

  /** Blob `i` of a message: encrypted under its own key, addressed by its hash, committed in the core. */
  ghost predicate BlobSealed(draft: BlobDraft, blob: EncryptedBlob, ref: BlobRef, key: ContentKey) {
    && blob.bytes.Sealed? && blob.bytes.key == key && blob.bytes.plaintext == draft.plaintext
    && blob.hash == HashOf(blob.bytes)
    && ref == BlobRef(blob.hash, draft.kind, Commitment(key))
  }

  ghost predicate BlobsSealed(
      drafts: seq<BlobDraft>, blobs: seq<EncryptedBlob>, refs: seq<BlobRef>, keys: seq<ContentKey>)
  {
    && |drafts| == |blobs| == |refs| == |keys|
    && forall i | 0 <= i < |drafts| :: BlobSealed(drafts[i], blobs[i], refs[i], keys[i])
  }

  /** The entry at a position of a wrap: the body key first, then the blob keys in order. */
  ghost predicate EntryHolds(entry: SealedKey, ref: SealedRef, recipient: PublicKey, key: ContentKey) {
    && entry.ref == ref
    && recipient.PublicOf?
    && entry.box.BoxFor? && entry.box.device == recipient.device && entry.box.payload == KeyBytes(key)
  }

  ghost predicate WrapHoldsAll(wrap: KeyWrap, bodyKey: ContentKey, refs: seq<BlobRef>, keys: seq<ContentKey>) {
    && |wrap.entries| == 1 + |keys| && |refs| == |keys|
    && EntryHolds(wrap.entries[0], BodyRef, wrap.recipient, bodyKey)
    && forall i | 0 <= i < |keys| ::
         EntryHolds(wrap.entries[i + 1], BlobKeyRef(refs[i].hash), wrap.recipient, keys[i])
  }

  /** The secrets of one sealing: the body key and one key per blob. */
  datatype Secrets = Secrets(bodyKey: ContentKey, blobKeys: seq<ContentKey>)

  /** The signed core says what the draft says, with everything readable only through the secrets. */
  ghost predicate CoreSeals(draft: MessageDraft, sender: DeviceKey, m: SealedMessage, k: Secrets) {
    var core := m.envelope.core;
    && core.conversation == draft.conversation && core.parents == draft.parents
    && core.recipients == draft.recipients && core.sender == sender.Public()
    && core.seqNo == draft.seqNo && core.logical == draft.logical && core.timestampMs == draft.timestampMs
    && core.body.Sealed? && core.body.key == k.bodyKey && core.body.plaintext == draft.plaintext
    && core.keyCommit == Commitment(k.bodyKey)
    && BlobsSealed(draft.blobs, m.blobs, core.blobRefs, k.blobKeys)
    && m.envelope.sig == SignatureBy(sender, core.Id())
  }

  /** Every wrap holds every key, for its own recipient. */
  ghost predicate WrapsComplete(e: MessageEnvelope, k: Secrets) {
    forall w | w in e.keyWraps :: WrapHoldsAll(w, k.bodyKey, e.core.blobRefs, k.blobKeys)
  }

  function Recipients(wraps: seq<KeyWrap>): seq<PublicKey> {
    if wraps == [] then [] else [wraps[0].recipient] + Recipients(wraps[1..])
  }

  /** Each object is encrypted with a key of its own. */
  ghost predicate KeysDistinct(k: Secrets) {
    && k.bodyKey !in k.blobKeys
    && forall i, j | 0 <= i < j < |k.blobKeys| :: k.blobKeys[i] != k.blobKeys[j]
  }

  ghost predicate IsSealing(draft: MessageDraft, sender: DeviceKey, m: SealedMessage, k: Secrets) {
    && CoreSeals(draft, sender, m, k)
    && KeysDistinct(k)
    && WrapsComplete(m.envelope, k)
    && Recipients(m.envelope.keyWraps) == WrapKeys(draft, sender)
  }

  /** Encrypt each blob once, with its own fresh key. */
  method SealBlobs(drafts: seq<BlobDraft>, rng: Rng)
      returns (refs: seq<BlobRef>, blobs: seq<EncryptedBlob>, keys: seq<ContentKey>)
    modifies rng
    ensures rng.next >= old(rng.next)
    ensures BlobsSealed(drafts, blobs, refs, keys)
    ensures forall key | key in keys :: key.secret >= old(rng.next)
    ensures forall i, j | 0 <= i < j < |keys| :: keys[i] != keys[j]
  {
    refs, blobs, keys := [], [], [];
    for i := 0 to |drafts|
      invariant rng.next >= old(rng.next)
      invariant BlobsSealed(drafts[..i], blobs, refs, keys)
      invariant forall key | key in keys :: old(rng.next) <= key.secret < rng.next
      invariant forall a, b | 0 <= a < b < |keys| :: keys[a] != keys[b]
    {
      var secret := rng.Draw();
      var key := ContentKey(secret);
      assert key !in keys;
      var nonce := rng.Draw();
      var bytes := Encrypt(key, drafts[i].plaintext, nonce);
      refs := refs + [BlobRef(HashOf(bytes), drafts[i].kind, Commitment(key))];
      blobs := blobs + [EncryptedBlob(HashOf(bytes), bytes)];
      keys := keys + [key];
    }
    assert drafts[..|drafts|] == drafts;
  }

  /** All content-keys sealed to one recipient. */
  method WrapFor(recipient: PublicKey, bodyKey: ContentKey, refs: seq<BlobRef>, keys: seq<ContentKey>, rng: Rng)
      returns (r: Result<KeyWrap, CryptoError>)
    requires |refs| == |keys|
    modifies rng
    ensures r.Ok? <==> recipient.PublicOf?
    ensures r.Err? ==> r.error == InvalidRecipientKey
    ensures r.Ok? ==> r.value.recipient == recipient && WrapHoldsAll(r.value, bodyKey, refs, keys)
  {
    var ephemeral := rng.Draw();
    var box := SealFor(bodyKey, recipient, ephemeral);
    if box.Err? {
      return Err(box.error);
    }
    var entries := [SealedKey(BodyRef, box.value)];
    for i := 0 to |keys|
      invariant |entries| == 1 + i
      invariant EntryHolds(entries[0], BodyRef, recipient, bodyKey)
      invariant forall j | 0 <= j < i :: EntryHolds(entries[j + 1], BlobKeyRef(refs[j].hash), recipient, keys[j])
    {
      ephemeral := rng.Draw();
      box := SealFor(keys[i], recipient, ephemeral);
      entries := entries + [SealedKey(BlobKeyRef(refs[i].hash), box.value)];
    }
    return Ok(KeyWrap(recipient, entries));
  }

  lemma {:induction false} RecipientsAppend(wraps: seq<KeyWrap>, wrap: KeyWrap)
    ensures Recipients(wraps + [wrap]) == Recipients(wraps) + [wrap.recipient]
    decreases |wraps|
  {
    if wraps == [] {
      assert wraps + [wrap] == [wrap];
    } else {
      assert (wraps + [wrap])[1..] == wraps[1..] + [wrap];
      RecipientsAppend(wraps[1..], wrap);
    }
  }

  method Seal(draft: MessageDraft, sender: DeviceKey, rng: Rng)
      returns (r: Result<SealedMessage, CryptoError>, ghost k: Secrets)
    modifies rng
    ensures r.Err? <==> exists key :: key in draft.recipients && key.NotAPoint?
    ensures r.Err? ==> r.error == InvalidRecipientKey
    ensures r.Ok? ==> IsSealing(draft, sender, r.value, k)
    ensures r.Ok? ==>
              var core := r.value.envelope.core;
              && core.conversation == draft.conversation && core.parents == draft.parents
              && core.recipients == draft.recipients && core.sender == PublicOf(sender)
              && core.seqNo == draft.seqNo && core.logical == draft.logical && core.timestampMs == draft.timestampMs
              && r.value.envelope.sig == SignatureBy(sender, CoreHash(core))
  {
    var seed := rng.Draw();
    var bodyKey := ContentKey(seed);
    var refs, blobs, keys := SealBlobs(draft.blobs, rng);
    k := Secrets(bodyKey, keys);
    var wraps: seq<KeyWrap> := [];
    var wrapKeys := WrapKeys(draft, sender);
    for i := 0 to |wrapKeys|
      invariant forall w | w in wraps :: WrapHoldsAll(w, bodyKey, refs, keys)
      invariant Recipients(wraps) == wrapKeys[..i]
      invariant forall j | 0 <= j < i :: wrapKeys[j].PublicOf?
    {
      var wrap := WrapFor(wrapKeys[i], bodyKey, refs, keys, rng);
      if wrap.Err? {
        assert wrapKeys[i] in draft.recipients;
        return Err(wrap.error), k;
      }
      RecipientsAppend(wraps, wrap.value);
      assert wrapKeys[..i + 1] == wrapKeys[..i] + [wrapKeys[i]];
      wraps := wraps + [wrap.value];
    }
    assert wrapKeys[..|wrapKeys|] == wrapKeys;
    forall key | key in draft.recipients
      ensures key.PublicOf?
    {
      assert key in wrapKeys;
    }
    var nonce := rng.Draw();
    var core := MessageCore(
      1, draft.conversation, draft.parents, draft.recipients, sender.Public(), draft.seqNo, draft.logical,
      draft.timestampMs, Encrypt(bodyKey, draft.plaintext, nonce), Commitment(bodyKey), refs);
    var envelope := MessageEnvelope(1, core, SignatureBy(sender, core.Id()), wraps);
    r := Ok(SealedMessage(envelope, blobs));
  }

  // ---- A complete wrap opens everything -----------------------------------------

  /** Everything in the message, read back exactly. */
  ghost predicate ReadsAll(draft: MessageDraft, e: MessageEnvelope, blobs: seq<EncryptedBlob>, device: DeviceKey) {
    && Open(e, device) == Ok(draft.plaintext)
    && |blobs| == |draft.blobs|
    && forall i | 0 <= i < |blobs| ::
         OpenBlob(e, device, blobs[i].hash, blobs[i].bytes) == Ok(draft.blobs[i].plaintext)
  }

  lemma {:induction false} FirstRefWithHash(
      drafts: seq<BlobDraft>, blobs: seq<EncryptedBlob>, refs: seq<BlobRef>, keys: seq<ContentKey>, i: nat)
    requires BlobsSealed(drafts, blobs, refs, keys) && i < |refs|
    ensures FindRef(refs, refs[i].hash).Some?
    ensures FindRef(refs, refs[i].hash).value.keyCommit == Commitment(keys[i])
  {
    assert refs[i] in refs;
    var found := FindRef(refs, refs[i].hash).value;
    var j :| 0 <= j < |refs| && refs[j] == found;
    assert BlobSealed(drafts[i], blobs[i], refs[i], keys[i]) && BlobSealed(drafts[j], blobs[j], refs[j], keys[j]);
  }

  lemma FirstEntryFor(
      wrap: KeyWrap, bodyKey: ContentKey,
      drafts: seq<BlobDraft>, blobs: seq<EncryptedBlob>, refs: seq<BlobRef>, keys: seq<ContentKey>, i: nat)
    requires WrapHoldsAll(wrap, bodyKey, refs, keys) && BlobsSealed(drafts, blobs, refs, keys) && i < |refs|
    ensures var found := FindEntry(wrap.entries, BlobKeyRef(refs[i].hash));
            found.Some? && EntryHolds(found.value, BlobKeyRef(refs[i].hash), wrap.recipient, keys[i])
  {
    assert EntryHolds(wrap.entries[i + 1], BlobKeyRef(refs[i].hash), wrap.recipient, keys[i]);
    assert wrap.entries[i + 1] in wrap.entries;
    var found := FindEntry(wrap.entries, BlobKeyRef(refs[i].hash)).value;
    var j :| 0 <= j < |wrap.entries| && wrap.entries[j] == found;
    assert j > 0;
    assert EntryHolds(wrap.entries[(j - 1) + 1], BlobKeyRef(refs[j - 1].hash), wrap.recipient, keys[j - 1]);
    assert BlobSealed(drafts[i], blobs[i], refs[i], keys[i]);
    assert BlobSealed(drafts[j - 1], blobs[j - 1], refs[j - 1], keys[j - 1]);
  }

  /** Any device with a wrap reads the body and every blob as drafted. */
  lemma CompleteWrapReadsAll(
      draft: MessageDraft, sender: DeviceKey, m: SealedMessage, k: Secrets, e: MessageEnvelope, device: DeviceKey)
    requires CoreSeals(draft, sender, m, k)
    requires e.core == m.envelope.core && e.sig == m.envelope.sig && WrapsComplete(e, k)
    requires FindWrap(e.keyWraps, device.Public()).Some?
    ensures ReadsAll(draft, e, m.blobs, device)
  {
    var wrap := FindWrap(e.keyWraps, device.Public()).value;
    assert WrapHoldsAll(wrap, k.bodyKey, e.core.blobRefs, k.blobKeys);
    assert FindEntry(wrap.entries, BodyRef) == Some(wrap.entries[0]);
    forall i | 0 <= i < |m.blobs|
      ensures OpenBlob(e, device, m.blobs[i].hash, m.blobs[i].bytes) == Ok(draft.blobs[i].plaintext)
    {
      FirstRefWithHash(draft.blobs, m.blobs, e.core.blobRefs, k.blobKeys, i);
      FirstEntryFor(wrap, k.bodyKey, draft.blobs, m.blobs, e.core.blobRefs, k.blobKeys, i);
      assert BlobSealed(draft.blobs[i], m.blobs[i], e.core.blobRefs[i], k.blobKeys[i]);
    }
  }

  lemma {:induction false} WrapForRecipient(wraps: seq<KeyWrap>, key: PublicKey)
    ensures FindWrap(wraps, key).Some? <==> key in Recipients(wraps)
    decreases |wraps|
  {
    if wraps != [] {
      WrapForRecipient(wraps[1..], key);
      assert forall x :: x in Recipients(wraps) <==> x == wraps[0].recipient || x in Recipients(wraps[1..]);
    }
  }

  /** Right after sealing, a device can read the message iff it is a recipient or the sender. */
  lemma SealedForRecipientsAndSender(
      draft: MessageDraft, sender: DeviceKey, m: SealedMessage, k: Secrets, device: DeviceKey)
    requires IsSealing(draft, sender, m, k)
    ensures var invited := device.Public() in draft.recipients || device == sender;
            && (invited ==> ReadsAll(draft, m.envelope, m.blobs, device))
            && (!invited ==> Open(m.envelope, device) == Err(NotARecipient))
  {
    WrapForRecipient(m.envelope.keyWraps, device.Public());
    if FindWrap(m.envelope.keyWraps, device.Public()).Some? {
      CompleteWrapReadsAll(draft, sender, m, k, m.envelope, device);
    }
  }

  // ---- Chains of rewraps --------------------------------------------------------

  /** One rewrap: who opens, for whom, and the randomness used. */
  datatype Link = Link(opener: DeviceKey, recipient: PublicKey, ephemeral: nat)

  /** A link works when the rewrap succeeds; its recipient may have a wrap already. */
  predicate LinkWorks(e: MessageEnvelope, link: Link) {
    Rewrapped(e, link.opener, link.recipient, link.ephemeral).Ok?
  }

  function Linked(e: MessageEnvelope, link: Link): MessageEnvelope
    requires LinkWorks(e, link)
  {
    WithWrap(e, Rewrapped(e, link.opener, link.recipient, link.ephemeral).value)
  }

  predicate ChainWorks(e: MessageEnvelope, chain: seq<Link>)
    decreases |chain|
  {
    chain == [] || (LinkWorks(e, chain[0]) && ChainWorks(Linked(e, chain[0]), chain[1..]))
  }

  function Chained(e: MessageEnvelope, chain: seq<Link>): MessageEnvelope
    requires ChainWorks(e, chain)
    decreases |chain|
  {
    if chain == [] then e else Chained(Linked(e, chain[0]), chain[1..])
  }

  /** A rewrap of a complete wrap is complete for its new recipient. */
  lemma LinkKeepsComplete(e: MessageEnvelope, k: Secrets, link: Link)
    requires WrapsComplete(e, k) && LinkWorks(e, link)
    ensures WrapsComplete(Linked(e, link), k)
    ensures FindWrap(Linked(e, link).keyWraps, link.recipient).Some?
  {
    var from := FindWrap(e.keyWraps, link.opener.Public()).value;
    var wrap := Rewrapped(e, link.opener, link.recipient, link.ephemeral).value;
    ResealedIsCommitted(e.core, from.entries, link.opener, link.recipient, link.ephemeral);
    assert WrapHoldsAll(from, k.bodyKey, e.core.blobRefs, k.blobKeys);
    assert forall i | 0 <= i < |wrap.entries| :: IsCommitted(e.core, wrap.entries[i], link.recipient);
    assert EntryHolds(wrap.entries[0], BodyRef, link.recipient, k.bodyKey);
    forall i | 0 <= i < |k.blobKeys|
      ensures EntryHolds(wrap.entries[i + 1], BlobKeyRef(e.core.blobRefs[i].hash), link.recipient, k.blobKeys[i])
    {
      assert EntryHolds(from.entries[i + 1], BlobKeyRef(e.core.blobRefs[i].hash), from.recipient, k.blobKeys[i]);
      assert IsCommitted(e.core, wrap.entries[i + 1], link.recipient);
    }
    assert WrapHoldsAll(wrap, k.bodyKey, e.core.blobRefs, k.blobKeys);
    FindWrapAppend(e.keyWraps, wrap, link.recipient);
  }

  lemma {:induction false} ChainKeepsComplete(e: MessageEnvelope, k: Secrets, chain: seq<Link>)
    requires WrapsComplete(e, k) && ChainWorks(e, chain)
    ensures var end := Chained(e, chain);
            && WrapsComplete(end, k)
            && end.core == e.core && end.sig == e.sig
            && (forall key | FindWrap(e.keyWraps, key).Some? :: FindWrap(end.keyWraps, key).Some?)
            && (forall link | link in chain :: FindWrap(end.keyWraps, link.recipient).Some?)
    decreases |chain|
  {
    if chain != [] {
      var next := Linked(e, chain[0]);
      LinkKeepsComplete(e, k, chain[0]);
      ChainKeepsComplete(next, k, chain[1..]);
      forall key | FindWrap(e.keyWraps, key).Some?
        ensures FindWrap(next.keyWraps, key).Some?
      {
        FindWrapAppend(e.keyWraps, next.keyWraps[|e.keyWraps|], key);
      }
      assert forall link | link in chain :: link == chain[0] || link in chain[1..];
    }
  }

  /** A chain hands wraps to its own recipients and to nobody else. */
  lemma {:induction false} ChainWraps(e: MessageEnvelope, chain: seq<Link>, key: PublicKey)
    requires ChainWorks(e, chain)
    ensures FindWrap(Chained(e, chain).keyWraps, key).Some? <==>
              FindWrap(e.keyWraps, key).Some? || exists link :: link in chain && link.recipient == key
    decreases |chain|
  {
    if chain != [] {
      var link := chain[0];
      var wrap := Rewrapped(e, link.opener, link.recipient, link.ephemeral).value;
      FindWrapAppend(e.keyWraps, wrap, key);
      ChainWraps(Linked(e, link), chain[1..], key);
      hide FindWrap, Rewrapped;
      assert forall x :: x in chain <==> x == link || x in chain[1..];
    }
  }

  /**
   * After any chain of successful rewraps, the recipients, the sender and the keys of the
   * chain still read the body and every blob as drafted, any other device still reads
   * nothing, and the id has not moved.
   */
  lemma ChainReadsAll(
      draft: MessageDraft, sender: DeviceKey, m: SealedMessage, k: Secrets, chain: seq<Link>, device: DeviceKey)
    requires IsSealing(draft, sender, m, k) && ChainWorks(m.envelope, chain)
    ensures Chained(m.envelope, chain).Id() == m.envelope.Id()
    ensures var end := Chained(m.envelope, chain);
            var invited := device.Public() in draft.recipients || device == sender ||
                           exists link :: link in chain && link.recipient == device.Public();
            && (invited ==> ReadsAll(draft, end, m.blobs, device))
            && (!invited ==> Open(end, device) == Err(NotARecipient))
            && (!invited ==> forall blob | blob in m.blobs ::
                  OpenBlob(end, device, blob.hash, blob.bytes) == Err(NotARecipient))
  {
    var end := Chained(m.envelope, chain);
    ChainKeepsComplete(m.envelope, k, chain);
    ChainWraps(m.envelope, chain, device.Public());
    WrapForRecipient(m.envelope.keyWraps, device.Public());
    if FindWrap(end.keyWraps, device.Public()).Some? {
      CompleteWrapReadsAll(draft, sender, m, k, end, device);
    } else {
      forall blob | blob in m.blobs
        ensures OpenBlob(end, device, blob.hash, blob.bytes) == Err(NotARecipient)
      {
        var i :| 0 <= i < |m.blobs| && m.blobs[i] == blob;
        FirstRefWithHash(draft.blobs, m.blobs, end.core.blobRefs, k.blobKeys, i);
        assert BlobSealed(draft.blobs[i], m.blobs[i], end.core.blobRefs[i], k.blobKeys[i]);
      }
    }
  }

  lemma {:induction false} ReadableCanBeResealed(
      core: MessageCore, entries: seq<SealedKey>, opener: DeviceKey, recipient: PublicKey, ephemeral: nat)
    requires recipient.PublicOf?
    requires forall i | 0 <= i < |entries| ::
               && CommitmentFor(core, entries[i].ref).Some?
               && OpenKey(entries[i].box, opener, CommitmentFor(core, entries[i].ref).value).Ok?
    ensures Resealed(core, entries, opener, recipient, ephemeral).Ok?
    decreases |entries|
  {
    if entries != [] {
      assert forall i | 0 <= i < |entries[1..]| :: entries[1..][i] == entries[i + 1];
      ReadableCanBeResealed(core, entries[1..], opener, recipient, ephemeral + 1);
    }
  }

  /** A chain that works is one working link after another. */
  lemma {:induction false} ChainExtends(e: MessageEnvelope, chain: seq<Link>, link: Link)
    requires ChainWorks(e, chain)
    ensures ChainWorks(e, chain + [link]) <==> LinkWorks(Chained(e, chain), link)
    ensures LinkWorks(Chained(e, chain), link) ==> Chained(e, chain + [link]) == Linked(Chained(e, chain), link)
    decreases |chain|
  {
    hide LinkWorks, Linked;
    if chain == [] {
      assert chain + [link] == [link] && [link][1..] == [];
    } else {
      assert (chain + [link])[1..] == chain[1..] + [link];
      ChainExtends(Linked(e, chain[0]), chain[1..], link);
    }
  }

  /** Any holder of a wrap can extend the chain to any valid key. */
  lemma HolderCanRewrap(
      draft: MessageDraft, sender: DeviceKey, m: SealedMessage, k: Secrets, e: MessageEnvelope, link: Link)
    requires CoreSeals(draft, sender, m, k)
    requires e.core == m.envelope.core && e.sig == m.envelope.sig && WrapsComplete(e, k)
    requires FindWrap(e.keyWraps, link.opener.Public()).Some? && link.recipient.PublicOf?
    ensures Rewrapped(e, link.opener, link.recipient, link.ephemeral).Ok?
    ensures ChainWorks(e, [link])
  {
    var wrap := FindWrap(e.keyWraps, link.opener.Public()).value;
    assert WrapHoldsAll(wrap, k.bodyKey, e.core.blobRefs, k.blobKeys);
    forall i | 0 <= i < |wrap.entries|
      ensures CommitmentFor(e.core, wrap.entries[i].ref).Some?
      ensures OpenKey(wrap.entries[i].box, link.opener, CommitmentFor(e.core, wrap.entries[i].ref).value).Ok?
    {
      if i > 0 {
        FirstRefWithHash(draft.blobs, m.blobs, e.core.blobRefs, k.blobKeys, i - 1);
        var ref := BlobKeyRef(e.core.blobRefs[i - 1].hash);
        assert EntryHolds(wrap.entries[(i - 1) + 1], ref, wrap.recipient, k.blobKeys[i - 1]);
      }
    }
    ReadableCanBeResealed(e.core, wrap.entries, link.opener, link.recipient, link.ephemeral);
  }
}
