/**
 * Messages, ids and keys. Primitive cryptography is symbolic: a
 * hash, a commitment and a signature are free constructors, so they are injective
 * and a message id is well-founded over the ids it names as parents. Strings of
 * bytes that no honest party produced have constructors of their own.
 */
module Messages {
  import opened Basics

  /** A device's signing key. */
  datatype DeviceKey = DeviceKey(seed: nat) {
    function Public(): PublicKey {
      PublicOf(this)
    }
  }

  /** 32 bytes naming a device; some byte strings are not valid curve points. */
  datatype PublicKey = PublicOf(device: DeviceKey) | NotAPoint(bytes: nat)

  datatype Signature = SignatureBy(device: DeviceKey, id: MessageId) | ForeignSignature(bytes: nat)

  /** A symmetric key that encrypts one object. */
  datatype ContentKey = ContentKey(secret: nat)

  /** `Commits(key)` is the derived hash of a key; other bytes commit to nothing known. */
  datatype KeyCommitment = Commits(key: ContentKey) | ForeignCommitment(bytes: nat)

  /**
   * Encrypted bytes. `Sealed` is what honest encryption yields. An AEAD is not
   * key-committing, so an attacker may build bytes that open under several keys, to
   * a plaintext of its choice for each: `Crafted`. `TooShort` has no room for a nonce.
   */
  datatype Ciphertext =
    | Sealed(key: ContentKey, nonce: nat, plaintext: Bytes)
    | Crafted(opensAs: map<ContentKey, Bytes>, salt: nat)
    | TooShort(bytes: Bytes)

  datatype BlobHash = HashOf(bytes: Ciphertext) | ForeignHash(raw: nat)

  datatype BlobKind = Thumbnail | Full

  datatype BlobRef = BlobRef(hash: BlobHash, kind: BlobKind, keyCommit: KeyCommitment)

  /** The signed, hashed core. */
  datatype MessageCore = MessageCore(
    version: nat,
    conversation: Option<MessageId>,
    parents: seq<MessageId>,
    recipients: seq<PublicKey>,
    sender: PublicKey,
    seqNo: nat,
    logical: nat,
    timestampMs: nat,
    body: Ciphertext,
    keyCommit: KeyCommitment,
    blobRefs: seq<BlobRef>)
  {
    function Id(): MessageId {
      CoreHash(this)
    }
  }

  /** The content address of a core; `RawId` is an id whose preimage nobody knows. */
  datatype MessageId = CoreHash(core: MessageCore) | RawId(bytes: nat)

  // ---- The envelope around a core -----------------------------------------------

  /** What a sealed box may hold once opened. */
  datatype BoxPayload = KeyBytes(key: ContentKey) | WrongLength(bytes: Bytes)

  /** Bytes only one device can open; `ForeignBox` opens for nobody. */
  datatype SealedBox = BoxFor(device: DeviceKey, payload: BoxPayload, ephemeral: nat) | ForeignBox(bytes: nat)

  datatype SealedRef = BodyRef | BlobKeyRef(hash: BlobHash)

  datatype SealedKey = SealedKey(ref: SealedRef, box: SealedBox)

  /** What one device needs to read a message: the key of each object, sealed to it. */
  datatype KeyWrap = KeyWrap(recipient: PublicKey, entries: seq<SealedKey>)

  /** The unit of delivery: the key-wraps travel outside the hashed core. */
  datatype MessageEnvelope = MessageEnvelope(
    version: nat,
    core: MessageCore,
    sig: Signature,
    keyWraps: seq<KeyWrap>)
  {
    function Id(): MessageId {
      core.Id()
    }
  }

  // ---- Well-foundedness ---------------------------------------------------------

  /** Length of the longest chain of parents below an id: a parent is strictly shallower. */
  function Depth(id: MessageId): nat
    decreases id, 1
  {
    match id
    case RawId(_) => 0
    case CoreHash(core) => 1 + MaxDepth(core.parents)
  }

  function MaxDepth(ids: seq<MessageId>): (d: nat)
    ensures forall id | id in ids :: Depth(id) <= d
    decreases ids, 0
  {
    if ids == [] then 0 else
      assert forall id | id in ids :: id == ids[0] || id in ids[1..];
      Max(Depth(ids[0]), MaxDepth(ids[1..]))
  }
}
