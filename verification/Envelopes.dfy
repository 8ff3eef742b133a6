/**
 * Envelope encryption over symbolic cryptography: encrypt each object
 * once, commit to its key in the signed core, seal the keys per recipient outside it.
 */
module Envelopes {
  import opened Basics
  import opened Messages

  // ---- Primitives ---------------------------------------------------------------

  datatype CryptoError = InvalidRecipientKey | OpenFailed | CommitmentMismatch | DecryptFailed | Malformed

  datatype VerifyError = InvalidKey | BadSignature

  datatype OpenError =
    | SignatureError(verify: VerifyError)
    | NotARecipient
    | MissingBodyKey
    | UnknownBlob
    | WrongBlobHash
    | MissingBlobKey
    | Crypto(error: CryptoError)

  function Commitment(key: ContentKey): KeyCommitment {
    Commits(key)
  }

  function Encrypt(key: ContentKey, plaintext: Bytes, nonce: nat): Ciphertext {
    Sealed(key, nonce, plaintext)
  }

  function Decrypt(key: ContentKey, data: Ciphertext): Result<Bytes, CryptoError> {
    match data
    case Sealed(k, _, plaintext) => if k == key then Ok(plaintext) else Err(DecryptFailed)
    case Crafted(opensAs, _) => if key in opensAs then Ok(opensAs[key]) else Err(DecryptFailed)
    case TooShort(_) => Err(Malformed)
  }

  function SealFor(key: ContentKey, recipient: PublicKey, ephemeral: nat): Result<SealedBox, CryptoError> {
    match recipient
    case NotAPoint(_) => Err(InvalidRecipientKey)
    case PublicOf(device) => Ok(BoxFor(device, KeyBytes(key), ephemeral))
  }

  /** Opening a box yields a key only if it is the one that was committed to. */
  function OpenKey(box: SealedBox, device: DeviceKey, expected: KeyCommitment): Result<ContentKey, CryptoError> {
    match box
    case ForeignBox(_) => Err(OpenFailed)
    case BoxFor(to, payload, _) =>
      if to != device then Err(OpenFailed) else
        match payload
        case WrongLength(_) => Err(Malformed)
        case KeyBytes(key) => if Commitment(key) != expected then Err(CommitmentMismatch) else Ok(key)
  }

  function Verify(e: MessageEnvelope): Option<VerifyError> {
    match e.core.sender
    case NotAPoint(_) => Some(InvalidKey)
    case PublicOf(device) => if e.sig == SignatureBy(device, e.core.Id()) then None else Some(BadSignature)
  }

  /** A source of numbers never drawn before. */
  class Rng {
    var next: nat

    constructor (seed: nat)
      ensures next == seed
    {
      next := seed;
    }

    method Draw() returns (n: nat)
      modifies this
      ensures n == old(next) && next == n + 1
    {
      n := next;
      next := next + 1;
    }
  }

  // ---- First-match lookups ------------------------------------------------------

  function FindWrap(wraps: seq<KeyWrap>, key: PublicKey): (r: Option<KeyWrap>)
    ensures r.None? <==> forall w | w in wraps :: w.recipient != key
    ensures r.Some? ==> r.value in wraps && r.value.recipient == key
  {
    if wraps == [] then None else if wraps[0].recipient == key then Some(wraps[0]) else FindWrap(wraps[1..], key)
  }

  function FindEntry(entries: seq<SealedKey>, ref: SealedRef): (r: Option<SealedKey>)
    ensures r.None? <==> forall s | s in entries :: s.ref != ref
    ensures r.Some? ==> r.value in entries && r.value.ref == ref
  {
    if entries == [] then None else if entries[0].ref == ref then Some(entries[0]) else FindEntry(entries[1..], ref)
  }

  function FindRef(refs: seq<BlobRef>, hash: BlobHash): (r: Option<BlobRef>)
    ensures r.None? <==> forall b | b in refs :: b.hash != hash
    ensures r.Some? ==> r.value in refs && r.value.hash == hash
  {
    if refs == [] then None else if refs[0].hash == hash then Some(refs[0]) else FindRef(refs[1..], hash)
  }

  function CommitmentFor(core: MessageCore, ref: SealedRef): Option<KeyCommitment> {
    match ref
    case BodyRef => Some(core.keyCommit)
    case BlobKeyRef(hash) =>
      match FindRef(core.blobRefs, hash)
      case None => None
      case Some(blob) => Some(blob.keyCommit)
  }

  // ---- Opening ------------------------------------------------------------------

  function UnsealAndDecrypt(box: SealedBox, device: DeviceKey, expected: KeyCommitment, data: Ciphertext)
    : Result<Bytes, OpenError>
  {
    match OpenKey(box, device, expected)
    case Err(error) => Err(Crypto(error))
    case Ok(key) =>
      match Decrypt(key, data)
      case Err(error) => Err(Crypto(error))
      case Ok(plaintext) => Ok(plaintext)
  }

  function Open(e: MessageEnvelope, device: DeviceKey): Result<Bytes, OpenError> {
    match Verify(e)
    case Some(error) => Err(SignatureError(error))
    case None =>
      match FindWrap(e.keyWraps, device.Public())
      case None => Err(NotARecipient)
      case Some(wrap) =>
        match FindEntry(wrap.entries, BodyRef)
        case None => Err(MissingBodyKey)
        case Some(entry) => UnsealAndDecrypt(entry.box, device, e.core.keyCommit, e.core.body)
  }

  function OpenBlob(e: MessageEnvelope, device: DeviceKey, hash: BlobHash, encrypted: Ciphertext)
    : Result<Bytes, OpenError>
  {
    match Verify(e)
    case Some(error) => Err(SignatureError(error))
    case None =>
      match FindRef(e.core.blobRefs, hash)
      case None => Err(UnknownBlob)
      case Some(blob) =>
        if HashOf(encrypted) != hash then Err(WrongBlobHash) else
          match FindWrap(e.keyWraps, device.Public())
          case None => Err(NotARecipient)
          case Some(wrap) =>
            match FindEntry(wrap.entries, BlobKeyRef(hash))
            case None => Err(MissingBlobKey)
            case Some(entry) => UnsealAndDecrypt(entry.box, device, blob.keyCommit, encrypted)
  }

  /** The sender named in the core has signed this very id. */
  ghost predicate SignedBySender(e: MessageEnvelope) {
    e.core.sender.PublicOf? && e.sig == SignatureBy(e.core.sender.device, e.Id())
  }

  /** The first body entry of the device's first wrap holds this key, sealed to the device. */
  ghost predicate WrapYields(e: MessageEnvelope, device: DeviceKey, ref: SealedRef, key: ContentKey) {
    var wrap := FindWrap(e.keyWraps, device.Public());
    && wrap.Some?
    && var entry := FindEntry(wrap.value.entries, ref);
       entry.Some? && entry.value.box.BoxFor? && entry.value.box.device == device
       && entry.value.box.payload == KeyBytes(key)
  }

  /** Exactly when a body opens, and to what. */
  lemma OpensIff(e: MessageEnvelope, device: DeviceKey, plaintext: Bytes)
    ensures Open(e, device) == Ok(plaintext) <==>
              && SignedBySender(e)
              && exists key :: WrapYields(e, device, BodyRef, key) && Commitment(key) == e.core.keyCommit
                               && Decrypt(key, e.core.body) == Ok(plaintext)
  {
    if Open(e, device) == Ok(plaintext) {
      var wrap := FindWrap(e.keyWraps, device.Public()).value;
      var key := FindEntry(wrap.entries, BodyRef).value.box.payload.key;
      assert WrapYields(e, device, BodyRef, key);
    }
  }

  /** Exactly when a blob opens: the bytes must also be the ones the signed core references. */
  lemma BlobOpensIff(e: MessageEnvelope, device: DeviceKey, hash: BlobHash, encrypted: Ciphertext, plaintext: Bytes)
    ensures OpenBlob(e, device, hash, encrypted) == Ok(plaintext) <==>
              && SignedBySender(e)
              && FindRef(e.core.blobRefs, hash).Some?
              && hash == HashOf(encrypted)
              && exists key :: WrapYields(e, device, BlobKeyRef(hash), key)
                               && Commitment(key) == FindRef(e.core.blobRefs, hash).value.keyCommit
                               && Decrypt(key, encrypted) == Ok(plaintext)
  {
    if OpenBlob(e, device, hash, encrypted) == Ok(plaintext) {
      var wrap := FindWrap(e.keyWraps, device.Public()).value;
      var key := FindEntry(wrap.entries, BlobKeyRef(hash)).value.box.payload.key;
      assert WrapYields(e, device, BlobKeyRef(hash), key);
    }
  }

  // ---- Same id, same content ----------------------------------------------------

  /**
   * The id pins the body: two envelopes with one id, whatever their key-wraps say, never
   * open to different plaintexts.
   */
  lemma SameIdSameBody(a: MessageEnvelope, b: MessageEnvelope, d: DeviceKey, f: DeviceKey)
    requires a.Id() == b.Id()
    requires Open(a, d).Ok? && Open(b, f).Ok?
    ensures Open(a, d).value == Open(b, f).value
  {
  }

  /** And it pins each blob, whoever serves the ciphertext. */
  lemma SameIdSameBlob(
      a: MessageEnvelope, b: MessageEnvelope, d: DeviceKey, f: DeviceKey, hash: BlobHash, x: Ciphertext, y: Ciphertext)
    requires a.Id() == b.Id()
    requires OpenBlob(a, d, hash, x).Ok? && OpenBlob(b, f, hash, y).Ok?
    ensures OpenBlob(a, d, hash, x).value == OpenBlob(b, f, hash, y).value
  {
  }

  /**
   * The commitment is what does it: of any two devices whose wraps hold different keys for
   * one body, one at least is refused, and told so.
   */
  lemma CommitmentStopsTwoReadings(
      e: MessageEnvelope, d1: DeviceKey, d2: DeviceKey, k1: ContentKey, k2: ContentKey)
    requires WrapYields(e, d1, BodyRef, k1) && WrapYields(e, d2, BodyRef, k2) && k1 != k2
    ensures Open(e, d1).Err? || Open(e, d2).Err?
    ensures SignedBySender(e) ==>
              Open(e, d1) == Err(Crypto(CommitmentMismatch)) || Open(e, d2) == Err(Crypto(CommitmentMismatch))
  {
  }

  /**
   * The cipher alone would not: any sender can make a signed message whose one body decrypts
   * to a text of its choice for each of two devices. Only the one it committed to reads it.
   */
  lemma CipherAllowsTwoReadings(sender: DeviceKey, d1: DeviceKey, d2: DeviceKey, x: Bytes, y: Bytes)
      returns (e: MessageEnvelope, k1: ContentKey, k2: ContentKey)
    requires d1 != d2
    ensures SignedBySender(e) && e.core.sender == sender.Public()
    ensures WrapYields(e, d1, BodyRef, k1) && Decrypt(k1, e.core.body) == Ok(x)
    ensures WrapYields(e, d2, BodyRef, k2) && Decrypt(k2, e.core.body) == Ok(y)
    ensures Open(e, d1) == Ok(x) && Open(e, d2) == Err(Crypto(CommitmentMismatch))
  {
    k1, k2 := ContentKey(1), ContentKey(2);
    var core := MessageCore(
      1, None, [], [], sender.Public(), 0, 0, 0, Crafted(map[k1 := x, k2 := y], 0), Commitment(k1), []);
    var first := KeyWrap(d1.Public(), [SealedKey(BodyRef, BoxFor(d1, KeyBytes(k1), 0))]);
    var second := KeyWrap(d2.Public(), [SealedKey(BodyRef, BoxFor(d2, KeyBytes(k2), 0))]);
    e := MessageEnvelope(1, core, SignatureBy(sender, core.Id()), [first, second]);
    assert e.keyWraps[1..] == [second];
    assert FindWrap(e.keyWraps, d1.Public()) == Some(first);
    assert FindWrap(e.keyWraps, d2.Public()) == Some(second);
  }

  // ---- Rewrapping ---------------------------------------------------------------

  function ResealedOne(core: MessageCore, entry: SealedKey, opener: DeviceKey, recipient: PublicKey, ephemeral: nat)
    : Result<SealedKey, OpenError>
  {
    match CommitmentFor(core, entry.ref)
    case None => Err(UnknownBlob)
    case Some(commitment) =>
      match OpenKey(entry.box, opener, commitment)
      case Err(error) => Err(Crypto(error))
      case Ok(key) =>
        match SealFor(key, recipient, ephemeral)
        case Err(error) => Err(Crypto(error))
        case Ok(box) => Ok(SealedKey(entry.ref, box))
  }

  /** The entries of a wrap opened and checked one by one, and sealed to someone else. */
  function Resealed(core: MessageCore, entries: seq<SealedKey>, opener: DeviceKey, recipient: PublicKey, ephemeral: nat)
    : Result<seq<SealedKey>, OpenError>
    decreases |entries|
  {
    if entries == [] then Ok([]) else
      match ResealedOne(core, entries[0], opener, recipient, ephemeral)
      case Err(error) => Err(error)
      case Ok(first) =>
        match Resealed(core, entries[1..], opener, recipient, ephemeral + 1)
        case Err(error) => Err(error)
        case Ok(rest) => Ok([first] + rest)
  }

  function Rewrapped(e: MessageEnvelope, opener: DeviceKey, recipient: PublicKey, ephemeral: nat)
    : Result<KeyWrap, OpenError>
  {
    match Verify(e)
    case Some(error) => Err(SignatureError(error))
    case None =>
      match FindWrap(e.keyWraps, opener.Public())
      case None => Err(NotARecipient)
      case Some(wrap) =>
        match Resealed(e.core, wrap.entries, opener, recipient, ephemeral)
        case Err(error) => Err(error)
        case Ok(entries) => Ok(KeyWrap(recipient, entries))
  }

  function Prepend(done: seq<SealedKey>, rest: Result<seq<SealedKey>, OpenError>): Result<seq<SealedKey>, OpenError> {
    match rest
    case Err(error) => Err(error)
    case Ok(entries) => Ok(done + entries)
  }

  lemma PrependEnds(done: seq<SealedKey>, rest: Result<seq<SealedKey>, OpenError>)
    ensures Prepend([], rest) == rest
    ensures Prepend(done, Ok([])) == Ok(done)
  {
    if rest.Ok? {
      assert [] + rest.value == rest.value;
    }
    assert done + [] == done;
  }

  lemma PrependMore(done: seq<SealedKey>, next: SealedKey, rest: Result<seq<SealedKey>, OpenError>)
    ensures Prepend(done, Prepend([next], rest)) == Prepend(done + [next], rest)
  {
    if rest.Ok? {
      assert done + ([next] + rest.value) == done + [next] + rest.value;
    }
  }

  method Rewrap(e: MessageEnvelope, opener: DeviceKey, recipient: PublicKey, rng: Rng)
      returns (r: Result<KeyWrap, OpenError>)
    modifies rng
    ensures r == Rewrapped(e, opener, recipient, old(rng.next))
  {
    if Verify(e).Some? {
      return Err(SignatureError(Verify(e).value));
    }
    var found := FindWrap(e.keyWraps, opener.Public());
    if found.None? {
      return Err(NotARecipient);
    }
    var entries := found.value.entries;
    var resealed := [];
    ghost var seed := rng.next;
    PrependEnds(resealed, Resealed(e.core, entries, opener, recipient, seed));
    assert entries[0..] == entries;
    for i := 0 to |entries|
      invariant rng.next == seed + i
      invariant Resealed(e.core, entries, opener, recipient, seed) ==
                Prepend(resealed, Resealed(e.core, entries[i..], opener, recipient, seed + i))
    {
      assert entries[i..][0] == entries[i] && entries[i..][1..] == entries[i + 1..];
      var commitment := CommitmentFor(e.core, entries[i].ref);
      if commitment.None? {
        return Err(UnknownBlob);
      }
      var key := OpenKey(entries[i].box, opener, commitment.value);
      if key.Err? {
        return Err(Crypto(key.error));
      }
      var ephemeral := rng.Draw();
      var box := SealFor(key.value, recipient, ephemeral);
      if box.Err? {
        return Err(Crypto(box.error));
      }
      PrependMore(resealed, SealedKey(entries[i].ref, box.value),
                  Resealed(e.core, entries[i + 1..], opener, recipient, seed + i + 1));
      resealed := resealed + [SealedKey(entries[i].ref, box.value)];
    }
    PrependEnds(resealed, Ok([]));
    return Ok(KeyWrap(recipient, resealed));
  }

  /** An entry sealed to a device, holding the key the core commits to for its object. */
  ghost predicate IsCommitted(core: MessageCore, entry: SealedKey, recipient: PublicKey) {
    && recipient.PublicOf?
    && entry.box.BoxFor? && entry.box.device == recipient.device
    && entry.box.payload.KeyBytes?
    && CommitmentFor(core, entry.ref) == Some(Commitment(entry.box.payload.key))
  }

  /**
   * A wrap the rewrap produces holds, for the new device, exactly the objects the opener's
   * wrap named, each under a key the signed core commits to: no wrap can pass on a key that the
   * sender did not commit to.
   */
  lemma {:induction false} ResealedIsCommitted(
      core: MessageCore, entries: seq<SealedKey>, opener: DeviceKey, recipient: PublicKey, ephemeral: nat)
    requires Resealed(core, entries, opener, recipient, ephemeral).Ok?
    ensures var out := Resealed(core, entries, opener, recipient, ephemeral).value;
            && |out| == |entries|
            && forall i :: 0 <= i < |out| ==>
                 && out[i].ref == entries[i].ref
                 && IsCommitted(core, out[i], recipient)
                 && entries[i].box.BoxFor? && out[i].box.payload == entries[i].box.payload
    decreases |entries|
  {
    if entries != [] {
      ResealedIsCommitted(core, entries[1..], opener, recipient, ephemeral + 1);
      var rest := Resealed(core, entries[1..], opener, recipient, ephemeral + 1).value;
      var out := Resealed(core, entries, opener, recipient, ephemeral).value;
      assert out[1..] == rest;
      forall i | 0 <= i < |out|
        ensures out[i].ref == entries[i].ref && IsCommitted(core, out[i], recipient)
        ensures entries[i].box.BoxFor? && out[i].box.payload == entries[i].box.payload
      {
        if i > 0 {
          assert out[i] == rest[i - 1] && entries[i] == entries[1..][i - 1];
        }
      }
    }
  }

  /** The whole wrap: only a signed envelope can be rewrapped, and only by a device with a wrap in it. */
  lemma RewrapIsCommitted(e: MessageEnvelope, opener: DeviceKey, recipient: PublicKey, ephemeral: nat)
    requires Rewrapped(e, opener, recipient, ephemeral).Ok?
    ensures SignedBySender(e) && FindWrap(e.keyWraps, opener.Public()).Some?
    ensures var from := FindWrap(e.keyWraps, opener.Public()).value;
            var out := Rewrapped(e, opener, recipient, ephemeral).value;
            && out.recipient == recipient
            && |out.entries| == |from.entries|
            && forall i :: 0 <= i < |out.entries| ==>
                 out.entries[i].ref == from.entries[i].ref && IsCommitted(e.core, out.entries[i], recipient)
  {
    var from := FindWrap(e.keyWraps, opener.Public()).value;
    ResealedIsCommitted(e.core, from.entries, opener, recipient, ephemeral);
  }

  // ---- Appended wraps -----------------------------------------------------------

  function WithWrap(e: MessageEnvelope, wrap: KeyWrap): MessageEnvelope {
    e.(keyWraps := e.keyWraps + [wrap])
  }

  lemma {:induction false} FindWrapAppend(wraps: seq<KeyWrap>, wrap: KeyWrap, key: PublicKey)
    ensures FindWrap(wraps + [wrap], key) ==
              if FindWrap(wraps, key).Some? then FindWrap(wraps, key)
              else if wrap.recipient == key then Some(wrap) else None
    decreases |wraps|
  {
    if wraps == [] {
      assert wraps + [wrap] == [wrap];
      assert [wrap][1..] == [];
    } else {
      assert (wraps + [wrap])[1..] == wraps[1..] + [wrap];
      FindWrapAppend(wraps[1..], wrap, key);
    }
  }

  /** Lookups take the first match, so an appended wrap changes nothing for a device that has one. */
  lemma EarlierWrapWins(
      e: MessageEnvelope, wrap: KeyWrap, device: DeviceKey, hash: BlobHash, encrypted: Ciphertext)
    requires wrap.recipient != device.Public() || FindWrap(e.keyWraps, device.Public()).Some?
    ensures Open(WithWrap(e, wrap), device) == Open(e, device)
    ensures OpenBlob(WithWrap(e, wrap), device, hash, encrypted) == OpenBlob(e, device, hash, encrypted)
    ensures WithWrap(e, wrap).Id() == e.Id()
  {
    FindWrapAppend(e.keyWraps, wrap, device.Public());
  }
}
