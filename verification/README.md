# Zink: a verified model

Zink is a messenger without accounts. Messages form one DAG per conversation, relays
hold sealed envelopes until a device fetches them, and trust between keys is computed
from signed statements. This project models the parts of it that carry state or decide
something, in Dafny, and proves what they promise.

* **The conversation DAG.** A store that keeps children, heads and the missing frontier up
  to date while messages arrive in any order, against their meaning as a graph
  (`DagGraph`, `ConversationDag`, `DagOrder`, `DagSeqs`, `ConversationRuns`). The client
  rebuilds it from a directory of files and computes the frontier a second way
  (`ClientState`), heals it from a peer (`Backfill`), and keeps attestations in a framed
  file (`AttestationFile`).
* **The relay mailbox.** What the operations mean (`Mailboxes`), the in-memory store, the
  on-disk store and its file names (`InMemoryStore`, `FsMailboxes`, `FsMailboxStore`,
  `FileNames`), the refinement between them (`StoreRefinement`, `DiskRelay`), crashes in
  the middle of an append (`CrashSafety`), the request handler and its paging
  (`MailboxService`, and over the disk store `DiskMailboxService`), whole runs
  (`RelayRuns`), the bound on the data directory (`DiskCeiling`), registration with
  interleaving handlers (`Admission`) and everything else in between
  (`ConcurrentRelay`), a device draining its mailbox alone (`Drain`) and while everyone
  else keeps writing (`DrainRuns`), the sender's retry loop (`DepositRetry`) and when it
  makes a second copy (`SecondCopy`), and both over the disk store (`DiskDelivery`).
* **The blob-cache sweep.** Which tags a sweep must leave (`BlobSweep`) and the sweeper
  that computes it (`BlobCache`).
* **Envelope encryption.** Seal, open and rewrap over symbolic cryptography (`Envelopes`,
  `Sealing`), with ids, keys and ciphertexts in `Messages`.
* **Link evidence.** The tier of a candidate key, over an unordered pile of attestations
  (`LinkEvidence`).

State the program updates in place is a class here: the DAG store, the client's
directories, both mailbox stores, the blob cache. Each method is proved against a function
of the old state, and the results about whole runs are proved about those functions.

Ids are symbolic hashes of the cores they name, so they are injective and a message is
strictly deeper than its parents; that is what makes the graph acyclic. Keys, commitments,
signatures and sealed boxes are free constructors. Besides honest ciphertexts there are
crafted ones that open under several keys to different texts, because the cipher used is
not key-committing. Clocks, randomness, the outcome of each network attempt and the size
of each blob are parameters. Counters, cursors, sizes and times are unbounded natural
numbers; the 64-bit and 32-bit limits appear where numbers are printed or framed.

Four promises hold only under a condition, and the condition is part of the result.

* `next_logical` looks only at heads. `ConversationRuns.HeadsSufficeIff`: it exceeds every
  held number, in every store that holds part of the conversation, exactly when no message
  is numbered below its parent. Inserting does not check that, and
  `ConversationRuns.UndisciplinedViewMisnumbers` is an accepted conversation where it
  fails; sending keeps it.
* `crossed_in_flight` marks whatever does not follow its predecessor in the linear view.
  `ConversationRuns.MarksMeanConcurrencyIff`: that means being causally incomparable, in
  every store that holds part of the conversation, exactly when every parent comes before
  its child by `(logical, id)`. Inserting does not check that either, and
  `ConversationRuns.UndisciplinedViewMarksAncestor` is the same conversation failing it.
* The frontier read from the files and the one of the rebuilt DAG agree when every stored
  message is acceptable. `ClientStates.FrontiersAgreeIff`: with files the rebuild skips,
  they agree throughout exactly when those files hang off the genesis alone and nothing
  hangs off them. `ClientStates.RefusedFileSplitsFrontiers` is a directory where they
  differ.
* The ceiling on mailboxes is checked in separate visits to the store.
  `Admission.CeilingHoldsIff`: it holds for every interleaving exactly when requests are
  handled one at a time or the ceiling is 0, which admits nobody. With N handlers at most
  N - 1 more are hosted, that many can be, and the bound on bytes held grows with them.

`dafny verify dfyconfig.toml` checks everything.

## Model

| member | source | states |
|---|---|---|
| `ConversationDags.ConversationDag.Rooted` | `crates/zink-protocol/src/dag.rs:37-45` | the shape a store starts in: only the genesis, which is the one head, nothing missing; the store invariant holds |
| `ConversationDags.ConversationDag.New` | `crates/zink-protocol/src/dag.rs:28-46` | a store is made exactly from a genesis-shaped core (no conversation, no parents, both numbers 0); anything else is `InvalidGenesis` |
| `ConversationDags.ConversationDag.Insert` | `crates/zink-protocol/src/dag.rs:50-88` | for any core: the held messages become what they were plus the core if it is acceptable and new; children, heads and missing frontier again equal their graph definitions; each refusal is the one that core and this conversation determine; inserting again is `AlreadyKnown` |
| `ConversationDags.ConversationDag.LinkToParents` | `crates/zink-protocol/src/dag.rs:74-80` | the per-parent loop, duplicates included: the child edge is filed under every parent, parents stop being heads, parents not held join the missing frontier |
| `ConversationDags.InsertMeaning` | `crates/zink-protocol/src/dag.rs:74-86` | what one more message does to the declarative graph: the new children index, the new missing frontier, and the heads, where the message becomes one iff nothing held names it |
| `ConversationDags.ConversationDag.Heads` | `crates/zink-protocol/src/dag.rs:107-111` | the stored head set is exactly the held messages no held message names as parent |
| `ConversationDags.ConversationDag.MissingParents` | `crates/zink-protocol/src/dag.rs:113-116` | the stored missing set is exactly the ids named as parent by a held message and not held |
| `ConversationDags.ConversationDag.NextLogical` | `crates/zink-protocol/src/dag.rs:167-175` | one above the largest number among the heads, of which there is always one; on a view where no message is numbered below its parent it is one above the largest number anywhere |
| `ConversationDags.ConversationDag.IsAncestor` | `crates/zink-protocol/src/dag.rs:147-163` | the worklist search stops on every store and answers true exactly when a non-empty chain of parent edges leads from the descendant through held messages to the ancestor |
| `ConversationDags.ConversationDag.Linearize` | `crates/zink-protocol/src/dag.rs:121-129` | lists every held message once; of any two the earlier has the smaller number, or the same number and the smaller digest |
| `ConversationDags.ConversationDag.CrossedInFlight` | `crates/zink-protocol/src/dag.rs:136-143` | the ids that do not causally follow the message before them in the linear view: a message is marked exactly when the largest that sorts below it by number and digest is no ancestor of it |
| `ConversationDags.ConversationDag.SeqGaps` | `crates/zink-protocol/src/dag.rs:190-202` | reports exactly the senders with holes, each with all its holes, ascending: a hole is a number none of the sender's held messages carries although one carries a larger number |
| `ConversationDags.ConversationDag.GapsBelow` | `crates/zink-protocol/src/dag.rs:197-198` | the numbers below the largest seen one that were not seen, ascending |
| `ConversationRuns.AbsorbAllHolds` | `crates/zink-protocol/src/dag.rs:50-88` | after any sequence of inserts a store holds what it held plus every acceptable core offered, whatever the order, and stays a well-formed conversation |
| `ConversationDags.HeldBelongs` | `crates/zink-protocol/src/dag.rs:28-46` | every held message but the genesis names this conversation, some parent and a number above 0; the genesis names none and carries the numbers 0 |
| `ConversationDags.RefusedExactly` | `crates/zink-protocol/src/dag.rs:50-69` | which core is refused and for what: another conversation, no parents, or the number 0, in that order |
| `ConversationRuns.ArrivalOrderIrrelevant` | `crates/zink-protocol/src/dag.rs:48-50` | two arrival sequences offering the same cores, in any order and with any repetition, leave the same messages and so the same children, heads and frontier |
| `ConversationRuns.SendingKeepsDiscipline` | `crates/zink-protocol/src/dag.rs:107-108` | a message drafted on the heads with the next number is accepted and new; afterwards it is the one head, no gap has changed, everything held lies causally below it, and children are still numbered above (or not below) their held parents |
| `ConversationRuns.DraftExists` | `crates/zink-protocol/src/dag.rs:107-108` | every view allows a draft on its heads with its next number, whatever else the message says |
| `ConversationRuns.DraftIsNew` | `crates/zink-protocol/src/dag.rs:107-111` | a message drafted on the heads is never one already held nor one already named as a parent |
| `ConversationRuns.HeadsSufficeIff` | `crates/zink-protocol/src/dag.rs:167-175` | looking only at heads is sound for a conversation exactly when no message in it is numbered below its parent: then, and only then, does every store holding part of it with the genesis number its next message above everything it holds |
| `ConversationRuns.UndisciplinedViewMisnumbers` | `crates/zink-protocol/src/dag.rs:65-68` | inserting checks only for the number 0, so there is an accepted conversation, its senders able to sign, whose next number falls below a held message |
| `ConversationRuns.MarksMeanConcurrencyIff` | `crates/zink-protocol/src/dag.rs:131-143` | the marks mean concurrency exactly for conversations where every held parent comes before its child by `(logical, id)`: then, and only then, does every store holding part of it mark a message exactly when it is incomparable with its predecessor |
| `ConversationRuns.UndisciplinedViewMarksAncestor` | `crates/zink-protocol/src/dag.rs:131-143` | the same conversation, accepted by `insert`, marks a message that is causally related to its predecessor |
| `DagGraph.HeadsCover` | `crates/zink-protocol/src/dag.rs:107-111` | every held message is a head or a causal ancestor of one |
| `DagGraph.HeadsNonEmpty` | `crates/zink-protocol/src/dag.rs:167-175` | a non-empty store has a head, so the fallback of the maximum is never taken |
| `DagGraph.NextLogicalExceedsAll` | `crates/zink-protocol/src/dag.rs:167-175` | where no message is numbered below a parent held with it, looking at heads alone equals looking at everything and exceeds every held number |
| `DagGraph.ReachesRises` | `crates/zink-protocol/src/dag.rs:118-121` | where every edge raises the number by at least some gap, so does every causal path: never lower with gap 0, which is why the heads carry the maximum, and strictly higher with gap 1 |
| `DagGraph.ReachesTransitive` | `crates/zink-protocol/src/dag.rs:145-147` | causal ancestry composes |
| `DagGraph.ReachesIrreflexive` | `crates/zink-protocol/src/dag.rs:145-147` | no message is its own ancestor, because ids are hashes of what they name |
| `DagGraph.ClosedSetCannotReach` | `crates/zink-protocol/src/dag.rs:148-163` | why an exhausted worklist may answer no: a set closed under parents that never names the ancestor cannot reach it |
| `DagOrder.LinearIsUnique` | `crates/zink-protocol/src/dag.rs:118-121` | there is only one order sorted by `(logical, id)` |
| `DagOrder.PartialViewsAgree` | `crates/zink-protocol/src/dag.rs:118-120` | any two partial views agree, each free to hold what the other lacks: restricted to what both hold, their linear views are one sequence |
| `DagOrder.LinearExtensionIff` | `crates/zink-protocol/src/dag.rs:118-121` | every ancestor is listed earlier exactly when every held parent comes before its child by `(logical, id)` |
| `DagOrder.DisciplinedInOrder` | `crates/zink-protocol/src/dag.rs:118-121` | which holds wherever children are numbered above their parents, as sending numbers them |
| `DagOrder.CrossedMarksConcurrency` | `crates/zink-protocol/src/dag.rs:131-143` | on a view where every held parent comes before its child by `(logical, id)`: a message is marked exactly when it and its predecessor are causally incomparable |
| `DagOrder.CrossedEmptyIffChain` | `crates/zink-protocol/src/dag.rs:136-143` | on such a view nothing is marked iff all held messages are pairwise comparable |
| `DagOrder.LargerDigestIsMarked` | `crates/zink-protocol/src/dag.rs:131-143` | of two messages of one number, which crossed in flight, the one with the larger digest is marked |
| `DagSeqs.SeqsAndGapsPartition` | `crates/zink-protocol/src/dag.rs:177-202` | for each sender, held numbers and reported gaps together count up to the next number |
| `DagSeqs.GapsAreHoles` | `crates/zink-protocol/src/dag.rs:187-202` | a gap is a number no held message of the sender carries although one carries a larger number |
| `DagSeqs.SendingOpensNoGap` | `crates/zink-protocol/src/dag.rs:177-185` | a message carrying the next number changes no gap of any sender and raises only its own sender's next number |
| `ClientStates.ClientState.Remember` | `crates/zink-client/src/client.rs:351-362` | an envelope is filed under its conversation, or under its own id for a genesis, and the people it is between are threaded to that conversation; nothing else changes |
| `ClientStates.SamePeopleIff` | `crates/zink-client/src/client.rs:351-362` | two messages are threaded together exactly when they are between the same people |
| `ClientStates.ReplyIsThreaded` | `crates/zink-client/src/state.rs:13-16` | a reply by a recipient to everyone else lands in the thread of the message it answers |
| `ClientStates.ClientState.StoreEnvelope` | `crates/zink-client/src/state.rs:75-88` | the directory gains the envelope under its id and, only if it had none, a first-seen marker with the time; every other file stays |
| `ClientStates.ClientState.LoadEnvelopes` | `crates/zink-client/src/state.rs:189-209` | every stored envelope that decodes is returned and nothing else, in an unspecified order, damaged files and sidecars skipped; a missing directory is the only error |
| `ClientStates.BuildDag` | `crates/zink-client/src/state.rs:1425-1446` | the first core without a conversation decides: none is one error, a misshapen one the other, and otherwise it is the root and the store holds exactly the acceptable cores given, in whatever order |
| `ClientStates.SwapRemoveKeepsRest` | `crates/zink-client/src/state.rs:1438-1440` | taking the genesis out by moving the last core into its place loses none of the others |
| `ClientStates.ClientState.LoadDag` | `crates/zink-client/src/state.rs:248-255` | the rebuilt store is a function of the directory contents, not of the read order; its conversation is the directory id; each failure happens exactly when stated |
| `ClientStates.ClientState.MissingAncestors` | `crates/zink-client/src/state.rs:304-316` | the frontier computed from the files is the set of named parents not stored |
| `ClientStates.ClientState.Successors` | `crates/zink-client/src/state.rs:288-299` | exactly the stored messages, over all conversations, that name the parent |
| `ClientStates.FrontiersAgree` | `crates/zink-client/src/state.rs:301-316` | when every stored message is acceptable the two frontiers are equal, and empty iff the stored set is parent-closed |
| `ClientStates.FrontiersAgreeIff` | `crates/zink-client/src/state.rs:1440-1444` | for any directory with a sound genesis: the frontiers agree on every part of it that holds the genesis exactly when each file the rebuild would skip (no parents, or numbered 0) names no parent but the genesis and no other message names it |
| `ClientStates.RefusedFileSplitsFrontiers` | `crates/zink-client/src/state.rs:1440-1444` | in a directory of messages that all verify, a file the rebuild skips does make the two frontiers differ |
| `AttestationFiles.Encode` | `crates/zink-client/src/state.rs:1394-1402` | the loop writes one length-prefixed frame per entry, in order |
| `AttestationFiles.Decode` | `crates/zink-client/src/state.rs:1404-1420` | the loop reads frame after frame, skipping payloads that do not decode and stopping at a torn frame |
| `AttestationFiles.LengthRoundTrip` | `crates/zink-client/src/state.rs:1398-1408` | a length below 2^32 survives the four bytes, which are its digits to base 256 from the least significant on |
| `AttestationFiles.TruncationKeepsWholeFrames` | `crates/zink-client/src/state.rs:1391-1420` | any truncation decodes to exactly the entries whose frames fit whole |
| `AttestationFiles.WholeFramesIsLargest` | `crates/zink-client/src/state.rs:1407-1412` | and those are the largest number of entries whose encoding fits in the cut |
| `AttestationFiles.FileRoundTrip` | `crates/zink-client/src/state.rs:1394-1420` | the whole file reads back as written |
| `AttestationFiles.CorruptionDropsOneEntry` | `crates/zink-client/src/state.rs:1413-1417` | a payload damaged in place costs only its own entry |
| `LinkEvidence.TierIsMaxRevision` | `crates/zink-protocol/src/attestation.rs:131-163` | the tier over an unordered pile equals one read off highest revisions: a direction is live iff the highest revision at which the key signed a link to the other is at least the highest at which it signed a disavowal of it |
| `LinkEvidence.SomeStandsIffLive` | `crates/zink-protocol/src/attestation.rs:140-151` | some self-link of a direction escapes the voiding rule iff that direction is live by highest revisions |
| `LinkEvidence.StandsIffAboveNegatives` | `crates/zink-protocol/src/attestation.rs:144-148` | a link is void exactly when its attester disavowed the key at a strictly higher revision |
| `LinkEvidence.TierIgnoresOrder` | `crates/zink-protocol/src/attestation.rs:124-131` | order and repetition of evidence and of trusted keys do not matter |
| `LinkEvidence.TierFromSignedLinks` | `crates/zink-protocol/src/attestation.rs:131-163` | the tier in plain terms: some trusted key vouches for the candidate, and for the top tier the candidate for some trusted key; to vouch takes a link about oneself under one's own signature, of a revision no disavowal of that key under the same signature exceeds |
| `LinkEvidence.TierNeedsSignatures` | `crates/zink-protocol/src/attestation.rs:113-121` | no tier without a trusted key's signed link about itself, and not the top one without the candidate's |
| `LinkEvidence.InertEvidence` | `crates/zink-protocol/src/attestation.rs:122-130` | what its attester did not sign, a link about a third party, and any other claim leave the tier as it was |
| `LinkEvidence.DisavowalVoids` | `crates/zink-protocol/src/attestation.rs:140-148` | a signed disavowal above every link its attester signed for that key undoes them all |
| `LinkEvidence.LinksNeverLower` | `crates/zink-protocol/src/attestation.rs:127-130` | adding anything but a disavowal signed by its attester never lowers the tier |
| `LinkEvidence.NegativesNeverRaise` | `crates/zink-protocol/src/attestation.rs:140-148` | adding anything but a link signed by its attester about itself never raises the tier |
| `Envelopes.SameIdSameBody` | `crates/zink-protocol/src/message.rs:89-98` | two envelopes with one id, with arbitrary wraps, never open to different bodies for any two devices |
| `Envelopes.SameIdSameBlob` | `crates/zink-protocol/src/message.rs:198-230` | nor to different blobs, whoever serves the ciphertext |
| `Envelopes.CommitmentStopsTwoReadings` | `crates/zink-protocol/src/crypto.rs:44-50` | for any envelope and any two devices whose wraps hold different keys for the body, one at least is refused with a commitment mismatch |
| `Envelopes.CipherAllowsTwoReadings` | `crates/zink-protocol/src/crypto.rs:44-47` | without the commitment nothing would: any sender can sign a body that decrypts to a text of its choice for each of any two devices |
| `Envelopes.Rewrap` | `crates/zink-protocol/src/message.rs:240-274` | the loop reseals every entry of the opener's wrap in order, or fails with the first error met |
| `Envelopes.ResealedIsCommitted` | `crates/zink-protocol/src/message.rs:232-239` | entries produced name the same objects, hold the same keys, and each key is one the signed core commits to |
| `Envelopes.RewrapIsCommitted` | `crates/zink-protocol/src/message.rs:235-239` | a tampered wrap cannot be laundered: only a signed envelope rewraps, only by a holder of a wrap, only to committed keys |
| `Envelopes.EarlierWrapWins` | `crates/zink-protocol/src/message.rs:181-185` | an appended wrap changes nothing for a device that already has one, and never the id |
| `Envelopes.FindWrap` | `crates/zink-protocol/src/message.rs:181-185` | the first wrap for a key, if any |
| `Sealing.Seal` | `crates/zink-protocol/src/message.rs:111-175` | sealing fails only for a recipient key that is no curve point; otherwise core, commitments, blobs and wraps are exactly those of the draft, one complete wrap per recipient and for the sender, every object under a key of its own |
| `Sealing.SealBlobs` | `crates/zink-protocol/src/message.rs:117-131` | each blob is encrypted once under a fresh key, addressed by its hash and committed to |
| `Sealing.WrapFor` | `crates/zink-protocol/src/message.rs:142-157` | a wrap holds the body key and every blob key, sealed to its recipient |
| `Sealing.SealedForRecipientsAndSender` | `crates/zink-protocol/src/message.rs:132-137` | after sealing, a recipient or the sender reads body and blobs as drafted, and any other device is told it is not a recipient |
| `Sealing.ChainReadsAll` | `crates/zink-protocol/src/message.rs:232-274` | after any chain of successful rewraps, to keys with a wrap already or without, exactly the recipients, the sender and the keys of the chain read body and blobs as drafted, every other device is told it is no recipient, and the id has not moved |
| `Sealing.ChainWraps` | `crates/zink-protocol/src/message.rs:232-239` | a chain hands wraps to its own recipients and to nobody else |
| `Sealing.ChainKeepsComplete` | `crates/zink-protocol/src/message.rs:232-274` | along such a chain every wrap stays complete, nobody loses one, and core and signature stay |
| `Sealing.ChainExtends` | `crates/zink-protocol/src/message.rs:232-274` | a longer chain works exactly when its last link works on what the shorter one leaves |
| `Sealing.HolderCanRewrap` | `crates/zink-protocol/src/message.rs:240-274` | any holder of a wrap can extend the chain to any valid key |
| `Mailboxes.DepositedOk` | `crates/zink-relay/src/store.rs:45-48` | a deposit keeps cursors increasing up to the high-water mark, ids distinct, and both caps |
| `Mailboxes.FetchedIsInDate` | `crates/zink-relay/src/store.rs:124-130` | retention as arithmetic: what is fetched at a moment are exactly the items held above the cursor that were deposited less than the retention before, by cursor |
| `Mailboxes.DepositedInDate` | `crates/zink-relay/src/store.rs:158-186` | a deposit is judged against exactly the items not past their retention, which stay; it is stored last, under the next cursor, with the clock reading of the deposit, iff none of them has its id and both caps allow it |
| `Mailboxes.PurgeTwice` | `crates/zink-relay/src/store.rs:122-130` | expiry composes: purging later leaves what purging twice leaves |
| `Mailboxes.PurgeAbove` | `crates/zink-relay/src/store.rs:206-211` | dropping acknowledged and dropping expired items commute |
| `InMemoryStores.InMemoryStore.PurgeExpired` | `crates/zink-relay/src/store.rs:124-130` | exactly the items with the clock before deposit time plus retention stay, in order |
| `InMemoryStores.InMemoryStore.Register` | `crates/zink-relay/src/store.rs:153-156` | a new key gets an empty mailbox; a known key keeps its own |
| `InMemoryStores.InMemoryStore.Append` | `crates/zink-relay/src/store.rs:158-186` | the whole new map: nothing for an unknown key; otherwise what was deposited a retention ago or longer goes by the first clock reading, and the deposit is stored under the next cursor with the second, unless a remaining item has the id or a cap would be passed |
| `InMemoryStores.InMemoryStore.HasRoomFor` | `crates/zink-relay/src/store.rs:165-178` | the three skips: a held id, the item cap, the byte cap |
| `InMemoryStores.InMemoryStore.Fetch` | `crates/zink-relay/src/store.rs:188-204` | exactly the items above the cursor deposited less than the retention ago, oldest first, and the mailbox purged |
| `InMemoryStores.InMemoryStore.Ack` | `crates/zink-relay/src/store.rs:206-211` | only items at or below the cursor go; the mark stays |
| `FileNames.PaddedRoundTrip` | `crates/zink-relay/src/fs.rs:250-262` | what is printed in twenty digits parses back exactly if it fits 64 bits |
| `FileNames.PaddedDigits` | `crates/zink-relay/src/fs.rs:250-255` | each printed character is the decimal digit of its place, most significant first |
| `FileNames.NameRoundTrip` | `crates/zink-relay/src/fs.rs:249-267` | an item file name parses back to the cursor, time and id printed, which stand in it in this order |
| `FileNames.PrintNameInjective` | `crates/zink-relay/src/fs.rs:250-255` | two items never share a file |
| `FileNames.OnlyItemsParse` | `crates/zink-relay/src/fs.rs:88-91` | neither the cursor file nor a temp file is ever taken for an item |
| `FileNames.PushTagRoundTrip` | `crates/zink-relay/src/blobs.rs:59-71` | a push tag parses back to its push time |
| `FileNames.PushTagOf` | `crates/zink-relay/src/blobs.rs:65-71` | whatever starts with the prefix and twenty printed digits is a push tag of that time; nothing shorter is one |
| `FsMailboxes.ListingIsUnique` | `crates/zink-relay/src/fs.rs:121-122` | sorting by cursor has one outcome, whatever order the directory was read in |
| `FsMailboxes.AppendedInDate` | `crates/zink-relay/src/fs.rs:103-176` | on disk as well a deposit is judged by exactly the files deposited less than the retention ago, and of the item files exactly those stay |
| `FsMailboxStores.FsMailboxStore.NextCursor` | `crates/zink-relay/src/fs.rs:92-101` | the counter file goes up by one and the new value is returned; an absent or unreadable counter reads 0 |
| `FsMailboxStores.FsMailboxStore.WriteAtomically` | `crates/zink-relay/src/fs.rs:225-239` | afterwards the target holds exactly the content, the temp file is gone, and every other file of the mailbox and every other mailbox is as before |
| `FsMailboxStores.FsMailboxStore.LiveItems` | `crates/zink-relay/src/fs.rs:103-123` | for any directory: exactly the item files deposited less than the retention ago are left and their names come back by cursor; where the store alone has written, the order is independent of the read order |
| `FsMailboxStores.FsMailboxStore.Register` | `crates/zink-relay/src/fs.rs:136-139` | creates an empty directory, or leaves an existing one alone |
| `FsMailboxStores.FsMailboxStore.Append` | `crates/zink-relay/src/fs.rs:141-176` | for any directory, the whole new tree: nothing for an unknown key; otherwise the item files past their retention by the first clock reading go, and the deposit gets the next number and a file named with the second, unless a remaining name has the id or a cap would be passed, damaged and foreign item files counting as the listing counts them; directories only the store has written stay intact |
| `FsMailboxStores.FsMailboxStore.Fetch` | `crates/zink-relay/src/fs.rs:178-196` | for any directory: exactly the files above the cursor that decode and were deposited less than the retention ago, by cursor; where the store alone has written, oldest first and independent of the read order |
| `FsMailboxStores.FsMailboxStore.Ack` | `crates/zink-relay/src/fs.rs:198-207` | for any directory: of the item files those above the cursor and deposited less than the retention ago stay, and all other files |
| `StoreRefinement.DiskRefinesMemory` | `crates/zink-relay/src/fs.rs:135-223` | from empty stores, every run of store calls on a non-decreasing clock gets the same answers from disk as from memory |
| `StoreRefinement.StepRefines` | `crates/zink-relay/src/fs.rs:135-223` | one call keeps the two stores related through what is still live, and answers alike |
| `StoreRefinement.ListingIsPurge` | `crates/zink-relay/src/fs.rs:103-123` | listing the live files in cursor order gives the purged mailbox item for item |
| `StoreRefinement.DepositRepresents` | `crates/zink-relay/src/fs.rs:141-176` | an append on disk does to the directory what the deposit does to the mailbox it stands for |
| `StoreRefinement.AckRepresents` | `crates/zink-relay/src/fs.rs:198-207` | an acknowledgement that also purges still stands for one that does not |
| `CrashSafety.EveryRunIsSafe` | `crates/zink-relay/src/fs.rs:225-239` | over any run of append steps, crashes (temp files half-written too), restarts and deletions from an empty directory: no cursor is issued or shown twice, both only grow, and every visible item is, whole, the deposit of some append in the run |
| `CrashSafety.StepSafe` | `crates/zink-relay/src/fs.rs:92-176` | each single step or crash keeps that invariant |
| `CrashSafety.CrashTearsTempFile` | `crates/zink-relay/src/fs.rs:225-239` | a crash ends the append and changes one file at most: the temp file being written may be there in part |
| `CrashSafety.LaterItemsLieAbove` | `crates/zink-relay/src/fs.rs:165-169` | whatever becomes visible later lies above every cursor visible now, even after a full drain |
| `CrashSafety.AttemptIsAppend` | `crates/zink-relay/src/fs.rs:141-176` | the four steps uninterrupted are exactly the specified append |
| `CrashSafety.RetryLeavesOneCopy` | `crates/zink-relay/src/fs.rs:149-151` | whatever cut earlier attempts short, an attempt that completes leaves exactly one copy of the deposit |
| `CrashSafety.CopySurvives` | `crates/zink-relay/src/fs.rs:225-239` | until acknowledged or expired the item stays, as the only copy, through any further crashes |
| `MailboxServices.PageIsMaximalPrefix` | `crates/zink-protocol/src/mailbox.rs:19-26` | a page is a prefix of what is due, non-empty when anything is due, within the budget unless a single envelope, and one more would not have fitted |
| `MailboxServices.MailboxService.Admission` | `crates/zink-relay/src/mailbox.rs:114-122` | the policy first; then a hosted key always passes, a new one only below the ceiling |
| `MailboxServices.MailboxService.Handle` | `crates/zink-relay/src/mailbox.rs:59-107` | state and response are those of the request, for every operation; a welcome means permitted and hosted, a refusal changes nothing and a permitted key meets it only at the ceiling; a fetch answers only items held above the cursor and deposited less than the retention ago, and any such item it leaves out lies above the page |
| `MailboxServices.MailboxService.FanOut` | `crates/zink-relay/src/mailbox.rs:75-83` | every listed recipient in order, duplicates included, is offered the envelope |
| `MailboxServices.MailboxService.FillPage` | `crates/zink-relay/src/mailbox.rs:84-101` | the loop stops before the budget is passed but never at an empty page |
| `RelayRuns.RunsStayOk` | `crates/zink-relay/src/mailbox.rs:45-107` | over all runs every mailbox keeps increasing cursors up to its mark, distinct ids and both caps, and the ceiling on mailboxes holds |
| `DiskCeilings.DiskCeiling` | `crates/zink-relay/src/main.rs:162-166` | on disk, after any run of requests on an advancing clock, every directory is within both caps and all item files together, expired ones included, within mailboxes times bytes, as the operator is told |
| `DiskCeilings.RequestKeepsBacked` | `crates/zink-relay/src/fs.rs:135-223` | one request keeps every item file, expired or not, an item its mailbox in memory still holds |
| `RelayRuns.ByteCeiling` | `crates/zink-relay/src/store.rs:27-33` | the same bound for the mailboxes in memory, live or not yet purged |
| `RelayRuns.RunsSucceed` | `crates/zink-relay/src/fs.rs:165-169` | over any run high-water marks only grow and everything new lies above the old mark |
| `RelayRuns.CursorNeverReissued` | `crates/zink-relay/src/fs.rs:165-169` | a cursor seen again after any run names the same item |
| `RelayRuns.HostedKeysStayWelcome` | `crates/zink-relay/src/mailbox.rs:109-113` | once hosted, a permitted key is welcome after any run, however full the relay has become |
| `RelayRuns.HostedHaveAsked` | `crates/zink-relay/src/mailbox.rs:61-73` | after any run, whatever key is newly hosted is one the policy permits and has asked |
| `Admission.CeilingWithInterleaving` | `crates/zink-relay/src/mailbox.rs:109-122` | with N handlers interleaving between the checks and the registration there are never more than the ceiling plus N minus 1 mailboxes |
| `Admission.CeilingIsReached` | `crates/zink-relay/src/mailbox.rs:114-122` | for every ceiling above 0 and every number of handlers some interleaving of callers with real keys hosts exactly the ceiling plus N minus 1 |
| `Admission.CeilingHoldsIff` | `crates/zink-relay/src/mailbox.rs:114-122` | so the ceiling itself holds for all interleavings exactly with a single handler, or a ceiling of 0 |
| `ConcurrentRelays.CeilingsWithInterleaving` | `crates/zink-relay/src/store.rs:27-33` | the byte arithmetic whatever interleaves: with N handlers the bytes held stay within the ceiling plus N minus 1, times the bytes of one mailbox |
| `ConcurrentRelays.UninterruptedIsServed` | `crates/zink-relay/src/mailbox.rs:61-73` | a registration nothing comes between is the one a whole request performs, and leaves its handler free |
| `DiskMailboxServices.DiskMailboxService.Handle` | `crates/zink-relay/src/mailbox.rs:59-107` | over the disk store too, for every operation, with the same meaning of welcome and refusal; a fetch answers only files above the cursor deposited less than the retention ago, and any such file it leaves out lies above the page |
| `DiskMailboxServices.DiskMailboxService.FanOut` | `crates/zink-relay/src/mailbox.rs:75-83` | every listed recipient in order is offered the envelope, on disk |
| `DiskRelays.DiskRelayAnswersAlike` | `crates/zink-relay/src/mailbox.rs:49-107` | a fresh relay over the disk store answers every run of requests as one over the memory store |
| `DiskRelays.RequestRefines` | `crates/zink-relay/src/mailbox.rs:59-107` | one whole request keeps the two relays related and gets one response |
| `Drains.PagesConcatenate` | `crates/zink-protocol/src/mailbox.rs:19-26` | asking again from each page's last cursor yields pages that concatenate to exactly what was due, ascending and once each |
| `Drains.DrainConnection` | `crates/zink-client/src/client/recv.rs:281-351` | with nobody else writing and the clock running on, the loop ends; what it received are items held and live at the start, once each and oldest first, and it misses only what expired meanwhile; the mailbox is left empty and every other one alone |
| `Drains.DrainIsOneFetch` | `crates/zink-client/src/client/recv.rs:278-280` | if nothing expires meanwhile that is exactly what one unpaged fetch would return |
| `Drains.DrainUntrusted` | `crates/zink-client/src/client/recv.rs:306-316` | against any relay at all: acknowledged cursors strictly rise, each is the largest of a page received, exactly the pages acknowledged are kept, and the first empty or non-advancing page ends the drain |
| `Drains.DrainRound` | `crates/zink-client/src/client/recv.rs:289-349` | one round fetches a page and acknowledges its largest cursor; it goes on exactly when the page holds anything, so against an honest relay the abandon branch never ends a drain early |
| `Drains.RoundKeepsDraining` | `crates/zink-client/src/client/recv.rs:289-349` | a round at any later time moves a page from what is held to what was received, in order, and loses only what has expired |
| `DrainRuns.NothingIsLost` | `crates/zink-client/src/client/recv.rs:281-351` | whatever requests of others and restarts interleave, every item ever held for the device is still held, was received, or outlived the retention |
| `DrainRuns.QuietRound` | `crates/zink-client/src/client/recv.rs:289-349` | a round nothing comes between: the page served is received, and its last cursor acknowledged if it has one |
| `DrainRuns.AckRemovesOnlyReceived` | `crates/zink-client/src/client/recv.rs:301-349` | at any point of any such run the next acknowledgement removes only items the device received |
| `DrainRuns.DepositsLieAbovePage` | `crates/zink-relay/src/mailbox.rs:84-105` | at any point of any such run, while a page is unacknowledged, whatever arrives lies above its cursor |
| `DrainRuns.RunKeeps` | `crates/zink-client/src/client/recv.rs:281-351` | the invariant behind these over every interleaving: up to the fetch position and up to the pending page cursor everything held was received |
| `DiskDeliveries.NothingIsLostOnDisk` | `crates/zink-client/src/client/recv.rs:281-351` | the same of a relay over the disk store, which is the one deployed: every item ever on file for the device is still on file, was received, or outlived the retention |
| `DepositRetries.DepositWithRetry` | `crates/zink-client/src/net.rs:117-149` | three attempts; only a transport error leads to the next, and the result is that of the first attempt that was answered; each may have served any number of recipients |
| `DepositRetries.FirstAnswerCounts` | `crates/zink-client/src/net.rs:117-149` | for every plan of attempts: the first one not lost decides, a served one as delivered, and the sender gives up exactly when all were lost |
| `DepositRetries.RetryIsOneDeposit` | `crates/zink-client/src/net.rs:112-116` | with nothing expiring in between, a retry that succeeds makes of each recipient's mailbox exactly what one deposit at one moment would and leaves every other alone, whatever was lost or cut short and however often a recipient is listed |
| `DepositRetries.RetryOffers` | `crates/zink-client/src/net.rs:112-149` | for every outcome: no mailbox takes the deposit twice, mailboxes of others are untouched, and success means every registered recipient was offered it |
| `DiskDeliveries.RetryIsOneDepositOnDisk` | `crates/zink-client/src/net.rs:112-149` | over the disk store: a retry that succeeds leaves each directory with the counter and the live items of one deposit, and whatever the outcome no counter moves by more than one |
| `SecondCopies.SecondCopyIff` | `crates/zink-client/src/net.rs:112-116` | with any requests in between, acknowledgements too: where there is room, a retry makes a second copy exactly when the first was acknowledged or has expired |
| `DepositRetries.SecondOfferIgnored` | `crates/zink-relay/src/store.rs:164-167` | offering a deposit again while nothing expires changes nothing, even when it had been skipped |
| `Backfills.FetchOne` | `crates/zink-client/src/client/backfill.rs:172-208` | an answer is stored exactly when its id is the one asked for, the sender it names signed that id, and it belongs to the conversation being synced |
| `Backfills.FillBackward` | `crates/zink-client/src/client/backfill.rs:93-121` | against any peer: what was stored stays, everything new is signed by the sender it names and belongs here, the count returned is the growth and within budget; with budget to spare the peer has no such message left for any parent missing, and where it had none to begin with nothing changes |
| `Backfills.FillForward` | `crates/zink-client/src/client/backfill.rs:131-170` | likewise, and with budget to spare every such message the peer claims as a child of any stored one is stored |
| `Backfills.Backfill` | `crates/zink-client/src/client/backfill.rs:64-88` | both passes on one budget: against any peer other conversations stay, and this one grows, within the budget, by messages of this conversation signed by the sender they name; against an honest one holding a whole conversation the outcome is exact, whatever was stored before |
| `Backfills.SyncHeals` | `crates/zink-client/src/client/backfill.rs:76-87` | for every budget: if the two sides share a message or one misses a parent the other holds, the sync ends with everything the peer holds, or with as many new messages as the budget allows when that is less; otherwise nothing changes |
| `Backfills.ServingIsHonest` | `crates/zink-client/src/sync.rs:231-247` | a device that serves from its own directories, and stores a whole conversation of verifying messages with one root, is such an honest peer |
| `BlobCaches.BlobCache.SweepTags` | `crates/zink-relay/src/blobs.rs:126-159` | the tags left are those of the one eviction the policy determines: foreign tags, and pushes in date of blobs not too large; a blob in date that goes was last pushed before every blob that stays, or in the same moment with the smaller hash; what stays fits |
| `BlobCaches.BlobCache.Judge` | `crates/zink-relay/src/blobs.rs:140-157` | push tags a time to live old or on oversized blobs go; the others are grouped by blob with its size, the latest of their push times and every tag |
| `BlobCaches.BlobCache.EvictToBudget` | `crates/zink-relay/src/blobs.rs:179-206` | whole blobs are dropped until the distinct bytes fit, and no further; every blob that stays was pushed after those that go, ties by hash |
| `BlobCaches.BlobCache.OldestFirst` | `crates/zink-relay/src/blobs.rs:184-186` | every blob once, ascending by recorded push time, ties in hash order |
| `BlobCaches.BlobCache.TotalSize` | `crates/zink-relay/src/blobs.rs:170-180` | each blob counts once however many tags it has |
| `BlobCaches.BlobCache.DropTags` | `crates/zink-relay/src/blobs.rs:193-195` | all tags of a blob go together and no other |
| `BlobSweeps.EvictionIsUnique` | `crates/zink-relay/src/blobs.rs:179-198` | there is only one minimal oldest-first set to evict, so a sweep has one outcome |
| `BlobSweeps.SweepGuarantees` | `crates/zink-relay/src/blobs.rs:126-206` | foreign tags stay; a push that stays is less than the time to live old and its blob not too large; in-date tags of one blob stay or go together; a blob in date goes only if every blob that stays was pushed later, ties by hash; distinct bytes fit the budget; nothing in date is evicted when they already did |
| `BlobSweeps.SweepIsIdempotent` | `crates/zink-relay/src/blobs.rs:126-159` | a second sweep at the same moment changes nothing |

## Left out

- Primitive cryptography: Ed25519, X25519 sealed boxes, XChaCha20-Poly1305 and BLAKE3 are symbolic. A sealed box is addressed to the device key, not to its Montgomery form, and sealing to a valid key does not fail.
- BORSH and base32: the wire codec is a parameter that decodes what it encodes, and the ids' hex form is taken to be injective. Protocol versions and their checks are not modelled.
- Envelopes at a relay are an id, a list of recipients and wire bytes, which is all a relay looks at.
- Sealing.Seal: every draw from the random source is taken to be fresh, so keys, nonces and sealed boxes never collide.
- 64-bit overflow of `1 + max`, of cursors and of byte sums: such counts are unreachable in practice, and the model's are unbounded.
- Sorted listings of ids (heads, missing parents, successors, conversations) are sets, the per-sender gaps are a map, and library sorts are written as insertion into a sorted list; the linear view, the item listing and the eviction order are sequences and proved unique.
- MailboxServices.MailboxService.Handle: a whole request is served at one reading of the clock, and a store that fails, which the program answers with an internal error, is not modelled. Responses carry the deposit time of an item beside its cursor and envelope; the time is not on the wire.
- MailboxServices.MailboxService.FanOut: every recipient is served at the clock reading of the request, where the program reads it for each append; the two readings of a single append are kept apart in both stores and in their refinement.
- DiskMailboxServices.DiskMailboxService.Handle: one reading of the clock for the request and no storage failure, as for the memory store.
- DiskMailboxServices.DiskMailboxService.FanOut: one reading of the clock for all recipients, as for the memory store.
- The clock is one non-decreasing count of milliseconds for both stores. A wall clock set back, and retention below a millisecond, are not modelled.
- FsMailboxStores.FsMailboxStore: a directory is a map from what its file names say to contents; that printing and parsing names agree is proved separately in `FileNames`, for ASCII names. Every call is specified for any directory; that the disk store does what the memory store does is proved for those only the store has written.
- I/O errors, apart from crashes and from requests that fail after serving some recipients. A crash loses no completed rename.
- CrashSafety.EveryRunIsSafe: the purge at the start of an append is one step; a purge that stops half-way is a run of single deletions.
- DiskCeilings.DiskCeiling: counts item files; the counter file and a temp file left by a crash lie beside them.
- Drains.DrainConnection: collects items; version checks, deduplication across relays, and opening and remembering each envelope are not part of this model. `DrainRuns` takes the requests as atomic events.
- DepositRetries.RetryIsOneDeposit: the time recorded in a recipient's mailbox is the moment some attempt reached it, not that of the last one; mailboxes agree exactly when the clock stands still.
- Backfills.Backfill: what the peer answers is fixed during one sync. Version checks and requests that fail are not modelled, nor the choice of a peer to sync from (`auto_sync`), the rewrap requests that make synced history readable, and the gate that serves contacts only.
- The participants fingerprint is the set of people itself, and a marker or mapping that cannot be written is not modelled.
- Blob sizes are a fixed function of the hash during one sweep, listing and deleting tags succeed, and garbage collection itself is not modelled.
- The live-connection map of the relay, transport, dialing, admission lists, reach budgets, profiles, lenses and user interfaces.
