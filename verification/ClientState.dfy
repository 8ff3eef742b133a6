/**
 * The client's message directories: one per conversation, one file per message id. The
 * DAG is rebuilt from a directory read in any order, and the missing frontier is also
 * computed straight from the files.
 */
module ClientStates {
  import opened Basics
  import opened Messages
  import opened DagGraph
  import opened DagOrder
  import opened ConversationDags
  import opened ConversationRuns
  import Envelopes

  /** What a conversation's directory holds: envelope files named by id, the first-seen marker, sidecars. */
  datatype FileName = EnvelopeFile(id: MessageId) | FirstSeen | Sidecar(name: string)

  datatype Content = Whole(envelope: MessageEnvelope) | Number(n: nat) | Damaged

  type Files = map<FileName, Content>

  type Directory = map<MessageId, MessageEnvelope>

  /** The envelopes of a directory that still decode; all else there is skipped. */
  function Stored(files: Files): Directory {
    map f | f in files && f.EnvelopeFile? && files[f].Whole? :: f.id := files[f].envelope
  }

  function FilesOf(conversations: map<MessageId, Files>, conversation: MessageId): Files {
    if conversation in conversations then conversations[conversation] else map[]
  }

  datatype LoadError = NoDirectory | NoGenesis | InvalidStoredGenesis

  /** One more envelope on file, a first-seen marker if there was none, and nothing else changed. */
  ghost predicate Filing(files: Files, files': Files, envelope: MessageEnvelope, now: nat) {
    && Stored(files') == Stored(files)[envelope.Id() := envelope]
    && files'.Keys == files.Keys + {EnvelopeFile(envelope.Id()), FirstSeen}
    && (forall f | f in files && f != EnvelopeFile(envelope.Id()) :: files'[f] == files[f])
    && (FirstSeen !in files ==> files'[FirstSeen] == Number(now))
  }

  /** The directory `remember` files an envelope under. */
  function ConversationFor(envelope: MessageEnvelope): MessageId {
    if envelope.core.conversation.Some? then envelope.core.conversation.value else envelope.Id()
  }

  /** Everyone a message is between, however often it lists them. */
  function PeopleOf(envelope: MessageEnvelope): set<PublicKey> {
    ToSet(envelope.core.recipients) + {envelope.core.sender}
  }

  /** Two messages are threaded together exactly when they are between the same people. */
  lemma SamePeopleIff(a: MessageEnvelope, b: MessageEnvelope)
    ensures PeopleOf(a) == PeopleOf(b) <==>
              forall key :: key in a.core.recipients || key == a.core.sender <==>
                            key in b.core.recipients || key == b.core.sender
  {
    forall key
      ensures key in PeopleOf(a) <==> key in a.core.recipients || key == a.core.sender
      ensures key in PeopleOf(b) <==> key in b.core.recipients || key == b.core.sender
    {
    }
    hide PeopleOf;
  }

  /** So a reply by one of the recipients to everyone else lands in the thread of what it answers. */
  lemma ReplyIsThreaded(message: MessageEnvelope, reply: MessageEnvelope)
    requires reply.core.sender in message.core.recipients
    requires forall key :: key in reply.core.recipients <==>
               key != reply.core.sender && (key in message.core.recipients || key == message.core.sender)
    ensures PeopleOf(reply) == PeopleOf(message)
  {
    SamePeopleIff(reply, message);
  }

  /** A directory filled only through `remember`. */
  ghost predicate Filed(conversation: MessageId, dir: Directory) {
    forall id | id in dir :: dir[id].Id() == id && ConversationFor(dir[id]) == conversation
  }

  function StoredCores(dir: Directory): Held {
    map id | id in dir :: dir[id].core
  }

  /** The stored messages the DAG store would accept. */
  function AcceptableCores(conversation: MessageId, dir: Directory): Held {
    map id | id in dir && Accepted(conversation, dir[id].core) :: dir[id].core
  }

  ghost predicate AllFiled(conversations: map<MessageId, Files>) {
    forall c | c in conversations :: Filed(c, Stored(conversations[c]))
  }

  lemma FilingKeepsFiled(conversations: map<MessageId, Files>, files: Files, envelope: MessageEnvelope, now: nat)
    requires AllFiled(conversations)
    requires Filing(FilesOf(conversations, ConversationFor(envelope)), files, envelope, now)
    ensures AllFiled(conversations[ConversationFor(envelope) := files])
  {
  }

  ghost predicate HasGenesis(conversation: MessageId, dir: Directory) {
    conversation in dir && dir[conversation].core.conversation == None
  }

  ghost predicate Listing(dir: Directory, envelopes: seq<MessageEnvelope>) {
    forall e :: e in envelopes <==> exists id :: id in dir && dir[id] == e
  }

  function CoresOf(envelopes: seq<MessageEnvelope>): (cores: seq<MessageCore>)
    ensures |cores| == |envelopes|
    ensures forall i | 0 <= i < |cores| :: cores[i] == envelopes[i].core
  {
    seq(|envelopes|, i requires 0 <= i < |envelopes| => envelopes[i].core)
  }

  lemma SwapRemoveKeepsRest(cores: seq<MessageCore>, at: nat)
    requires at < |cores|
    ensures var last := |cores| - 1;
            ToSet(cores) == ToSet(cores[at := cores[last]][..last]) + {cores[at]}
  {
    var last := |cores| - 1;
    var rest := cores[at := cores[last]][..last];
    forall c | c in cores
      ensures c in rest || c == cores[at]
    {
      var i :| 0 <= i < |cores| && cores[i] == c;
      if i == last {
        assert at < last ==> rest[at] == c;
      } else {
        assert i != at ==> rest[i] == c;
      }
    }
  }

  /** The acceptable ids among all cores are those among the rest, and the root. */
  lemma RebuiltIds(conversation: MessageId, cores: seq<MessageCore>, at: nat)
    requires at < |cores| && Accepted(conversation, cores[at])
    ensures var rest := cores[at := cores[|cores| - 1]][..|cores| - 1];
            AcceptedIds(conversation, ToSet(cores)) == {cores[at].Id()} + AcceptedIds(conversation, ToSet(rest))
  {
    SwapRemoveKeepsRest(cores, at);
  }

  lemma {:induction false} AbsorbAllAppend(conversation: MessageId, m: Held, cores: seq<MessageCore>, core: MessageCore)
    ensures AbsorbAll(conversation, m, cores + [core]) ==
              Absorb(conversation, AbsorbAll(conversation, m, cores), core)
    decreases |cores|
  {
    if cores == [] {
      assert [core][1..] == [];
    } else {
      assert (cores + [core])[1..] == cores[1..] + [core];
      AbsorbAllAppend(conversation, Absorb(conversation, m, cores[0]), cores[1..], core);
    }
  }

  /** Offer every core to a store; refusals change nothing. */
  method InsertAll(dag: ConversationDag, cores: seq<MessageCore>)
    requires dag.Valid()
    modifies dag
    ensures dag.Valid() && dag.conversation == old(dag.conversation)
    ensures dag.messages == AbsorbAll(dag.conversation, old(dag.messages), cores)
  {
    ghost var conversation, root := dag.conversation, dag.messages;
    hide Absorb;
    for i := 0 to |cores|
      invariant dag.Valid() && dag.conversation == conversation
      invariant dag.messages == AbsorbAll(conversation, root, cores[..i])
    {
      AbsorbAllAppend(conversation, root, cores[..i], cores[i]);
      assert cores[..i + 1] == cores[..i] + [cores[i]];
      var _ := dag.Insert(cores[i]);
    }
    assert cores[..|cores|] == cores;
  }

  /** The core a rebuild takes for the root: the first that names no conversation. */
  function FirstGenesis(cores: seq<MessageCore>): (genesis: Option<MessageCore>)
    ensures genesis.None? <==> forall core | core in cores :: core.conversation.Some?
    ensures genesis.Some? ==> genesis.value in cores && genesis.value.conversation == None
  {
    if cores == [] then None else if cores[0].conversation == None then Some(cores[0]) else FirstGenesis(cores[1..])
  }

  /** The rebuild once the root is found: the last core takes its place, and the others are offered. */
  method RebuildFrom(cores: seq<MessageCore>, at: nat) returns (r: Result<ConversationDag, LoadError>)
    requires at < |cores| && cores[at].conversation == None
    ensures r == Err(InvalidStoredGenesis) <==> !GenesisShaped(cores[at])
    ensures r.Ok? <==> GenesisShaped(cores[at])
    ensures r.Ok? ==> fresh(r.value) && r.value.Valid() && r.value.conversation == cores[at].Id()
    ensures r.Ok? ==> r.value.messages.Keys == AcceptedIds(r.value.conversation, ToSet(cores))
  {
    hide AcceptedIds, Absorb, AbsorbAll;
    var last := |cores| - 1;
    var rest := cores[at := cores[last]][..last];
    var rooted := ConversationDag.New(cores[at]);
    if rooted.Err? {
      return Err(InvalidStoredGenesis);
    }
    var dag := rooted.value;
    AbsorbAllHolds(dag.conversation, dag.messages, rest);
    RebuiltIds(dag.conversation, cores, at);
    InsertAll(dag, rest);
    return Ok(dag);
  }

  /**
   * The shared rebuild: the first core without a conversation becomes the root, the last
   * core takes its place, and everything else is inserted, refusals skipped.
   */
  method BuildDag(cores: seq<MessageCore>) returns (r: Result<ConversationDag, LoadError>)
    ensures r == Err(NoGenesis) <==> FirstGenesis(cores).None?
    ensures FirstGenesis(cores).Some? ==> var genesis := FirstGenesis(cores).value;
              && (r == Err(InvalidStoredGenesis) <==> !GenesisShaped(genesis))
              && (r.Ok? <==> GenesisShaped(genesis))
              && (r.Ok? ==> r.value.conversation == genesis.Id())
    ensures r.Ok? ==> fresh(r.value) && r.value.Valid()
    ensures r.Ok? ==> r.value.messages.Keys == AcceptedIds(r.value.conversation, ToSet(cores))
  {
    var at := 0;
    while at < |cores| && cores[at].conversation.Some?
      invariant at <= |cores|
      invariant FirstGenesis(cores) == FirstGenesis(cores[at..])
    {
      at := at + 1;
    }
    if at == |cores| {
      return Err(NoGenesis);
    }
    assert FirstGenesis(cores) == Some(cores[at]);
    r := RebuildFrom(cores, at);
  }

  /** What is stored under an id is what its file holds, if that decodes. */
  ghost predicate StoredAgrees(files: Files, id: MessageId) {
    && (id in Stored(files) <==> EnvelopeFile(id) in files && files[EnvelopeFile(id)].Whole?)
    && (id in Stored(files) ==> Stored(files)[id] == files[EnvelopeFile(id)].envelope)
  }

  lemma StoredMember(files: Files, id: MessageId)
    ensures StoredAgrees(files, id)
  {
  }

  lemma StoredWrite(files: Files, id: MessageId, envelope: MessageEnvelope)
    ensures Stored(files[EnvelopeFile(id) := Whole(envelope)]) == Stored(files)[id := envelope]
  {
    var written := files[EnvelopeFile(id) := Whole(envelope)];
    forall x
      ensures StoredAgrees(written, x) && StoredAgrees(files, x)
    {
      StoredMember(written, x);
      StoredMember(files, x);
    }
    hide Stored;
  }

  lemma StoredMark(files: Files, now: nat)
    ensures Stored(files[FirstSeen := Number(now)]) == Stored(files)
  {
    var written := files[FirstSeen := Number(now)];
    forall x
      ensures StoredAgrees(written, x) && StoredAgrees(files, x)
    {
      StoredMember(written, x);
      StoredMember(files, x);
    }
    hide Stored;
  }

  function FileFrontier(dir: Directory): set<MessageId> {
    MissingOf(StoredCores(dir))
  }

  function ParentsIn(envelopes: seq<MessageEnvelope>): set<MessageId> {
    set e, p | e in envelopes && p in e.core.parents :: p
  }

  lemma ParentsInAppend(envelopes: seq<MessageEnvelope>, e: MessageEnvelope)
    ensures ParentsIn(envelopes + [e]) == ParentsIn(envelopes) + ToSet(e.core.parents)
  {
    var all := envelopes + [e];
    assert all[|envelopes|] == e;
    assert forall x :: x in all <==> x in envelopes || x == e;
  }

  lemma FrontierFromListing(dir: Directory, envelopes: seq<MessageEnvelope>)
    requires Listing(dir, envelopes)
    ensures ParentsIn(envelopes) - dir.Keys == FileFrontier(dir)
  {
    var m := StoredCores(dir);
    forall p | p in FileFrontier(dir)
      ensures exists e :: e in envelopes && p in e.core.parents
    {
      var id :| id in m && p in m[id].parents;
      assert dir[id] in envelopes;
    }
    forall e, p | e in envelopes && p in e.core.parents && p !in dir.Keys
      ensures p in FileFrontier(dir)
    {
      var id :| id in dir && dir[id] == e;
      assert id in m && p in m[id].parents;
    }
  }

  lemma ListedCores(conversation: MessageId, dir: Directory, envelopes: seq<MessageEnvelope>)
    requires Filed(conversation, dir) && Listing(dir, envelopes)
    ensures var cores := CoresOf(envelopes);
            && (forall core | core in cores && core.conversation == None ::
                  conversation in dir && dir[conversation].core == core && core.Id() == conversation)
            && (HasGenesis(conversation, dir) ==> dir[conversation].core in cores)
            && AcceptedIds(conversation, ToSet(cores)) == AcceptableCores(conversation, dir).Keys
  {
    var cores := CoresOf(envelopes);
    forall id | id in dir
      ensures dir[id].core in cores
    {
      assert dir[id] in envelopes;
      var i :| 0 <= i < |envelopes| && envelopes[i] == dir[id];
      assert cores[i] == dir[id].core;
    }
    forall core | core in cores
      ensures core.Id() in dir && dir[core.Id()].core == core
    {
      var i :| 0 <= i < |cores| && cores[i] == core;
      assert envelopes[i] in envelopes;
      var id :| id in dir && dir[id] == envelopes[i];
      assert dir[id].Id() == id;
    }
  }

  /** The stored messages of one directory that name a parent. */
  function SuccessorsIn(files: Files, parent: MessageId): set<MessageId> {
    ChildrenOf(StoredCores(Stored(files)), parent)
  }

  lemma ListedSuccessors(
      conversations: map<MessageId, Files>, conversation: MessageId, envelopes: seq<MessageEnvelope>, parent: MessageId)
    requires AllFiled(conversations) && conversation in conversations
    requires Listing(Stored(conversations[conversation]), envelopes)
    ensures (set e | e in envelopes && parent in e.core.parents :: e.Id()) ==
              SuccessorsIn(conversations[conversation], parent)
  {
    var dir := Stored(conversations[conversation]);
    forall id | id in dir && parent in dir[id].core.parents
      ensures exists e :: e in envelopes && parent in e.core.parents && e.Id() == id
    {
      assert dir[id] in envelopes && dir[id].Id() == id;
    }
  }

  class ClientState {
    var conversations: map<MessageId, Files>
    var participants: map<set<PublicKey>, MessageId>

    ghost predicate Valid()
      reads this
    {
      AllFiled(conversations)
    }

    constructor ()
      ensures Valid() && conversations == map[] && participants == map[]
    {
      conversations := map[];
      participants := map[];
    }

    /** Write the envelope's file, then the first-seen marker unless there is one. */
    method StoreEnvelope(before: Files, envelope: MessageEnvelope, now: nat) returns (files: Files)
      ensures Filing(before, files, envelope, now)
    {
      StoredWrite(before, envelope.Id(), envelope);
      files := before[EnvelopeFile(envelope.Id()) := Whole(envelope)];
      if FirstSeen !in files {
        StoredMark(files, now);
        files := files[FirstSeen := Number(now)];
      }
    }

    /**
     * File an envelope with its conversation, under its id, and thread the people it is
     * between into that conversation.
     */
    method Remember(envelope: MessageEnvelope, now: nat)
      requires Valid()
      modifies this
      ensures Valid()
      ensures var c := ConversationFor(envelope);
              && conversations == old(conversations)[c := FilesOf(conversations, c)]
              && Filing(FilesOf(old(conversations), c), FilesOf(conversations, c), envelope, now)
      ensures participants == old(participants)[PeopleOf(envelope) := ConversationFor(envelope)]
    {
      var c := ConversationFor(envelope);
      var files := StoreEnvelope(FilesOf(conversations, c), envelope, now);
      FilingKeepsFiled(conversations, files, envelope, now);
      hide Filing, AllFiled, PeopleOf;
      conversations := conversations[c := files];
      participants := participants[PeopleOf(envelope) := c];
    }

    /** All envelopes of a conversation that decode, in whatever order the directory yields. */
    method LoadEnvelopes(conversation: MessageId) returns (r: Result<seq<MessageEnvelope>, LoadError>)
      ensures r.Ok? <==> conversation in conversations
      ensures r.Ok? ==> Listing(Stored(conversations[conversation]), r.value)
      ensures r.Err? ==> r.error == NoDirectory
    {
      if conversation !in conversations {
        return Err(NoDirectory);
      }
      var files := conversations[conversation];
      ghost var dir := Stored(files);
      var envelopes := [];
      var left := files.Keys;
      while left != {}
        invariant left <= files.Keys
        invariant forall e | e in envelopes :: exists id :: id in dir && dir[id] == e
        invariant forall id | id in dir && EnvelopeFile(id) !in left :: dir[id] in envelopes
      {
        var f :| f in left;
        if f.EnvelopeFile? && files[f].Whole? {
          assert f.id in dir && dir[f.id] == files[f].envelope;
          envelopes := envelopes + [files[f].envelope];
        }
        left := left - {f};
      }
      return Ok(envelopes);
    }

    /**
     * Rebuild the DAG from disk. The answer is a function of the directory's contents, so
     * the order files are read in does not matter; a genesis can only be the file named
     * after the conversation.
     */
    method LoadDag(conversation: MessageId) returns (r: Result<ConversationDag, LoadError>)
      requires Valid()
      ensures r == Err(NoDirectory) <==> conversation !in conversations
      ensures conversation in conversations ==> var dir := Stored(conversations[conversation]);
                && (r == Err(NoGenesis) <==> !HasGenesis(conversation, dir))
                && (r.Ok? <==> HasGenesis(conversation, dir) && GenesisShaped(dir[conversation].core))
                && (r.Ok? ==> r.value.Valid() && r.value.conversation == conversation)
                && (r.Ok? ==> r.value.messages == AcceptableCores(conversation, dir))
    {
      var loaded := LoadEnvelopes(conversation);
      if loaded.Err? {
        return Err(loaded.error);
      }
      ghost var dir := Stored(conversations[conversation]);
      var cores := CoresOf(loaded.value);
      ListedCores(conversation, dir, loaded.value);
      r := BuildDag(cores);
      if r.Ok? {
        SameKeySameCore(r.value.messages, AcceptableCores(conversation, dir));
      }
    }

    /** Referenced parents not on disk, computed from the files without a DAG. */
    method MissingAncestors(conversation: MessageId) returns (missing: set<MessageId>)
      requires Valid()
      ensures missing == FileFrontier(Stored(FilesOf(conversations, conversation)))
    {
      var loaded := LoadEnvelopes(conversation);
      var envelopes := if loaded.Ok? then loaded.value else [];
      var present := set e | e in envelopes :: e.Id();
      missing := {};
      for i := 0 to |envelopes|
        invariant forall p :: p in missing <==> p in ParentsIn(envelopes[..i]) && p !in present
      {
        var parents := envelopes[i].core.parents;
        ghost var before := missing;
        for j := 0 to |parents|
          invariant forall p :: p in missing <==> p in before || (p in parents[..j] && p !in present)
        {
          var parent := parents[j];
          assert parents[..j + 1] == parents[..j] + [parent];
          if parent !in present {
            missing := missing + {parent};
          }
        }
        assert parents[..|parents|] == parents;
        assert envelopes[..i + 1] == envelopes[..i] + [envelopes[i]];
        ParentsInAppend(envelopes[..i], envelopes[i]);
      }
      assert envelopes[..|envelopes|] == envelopes;
      ghost var dir := Stored(FilesOf(conversations, conversation));
      assert present == dir.Keys;
      FrontierFromListing(dir, envelopes);
    }

    /** Ids of stored messages, in any conversation, that name `parent`. */
    method Successors(parent: MessageId) returns (ids: set<MessageId>)
      requires Valid()
      ensures forall id :: id in ids <==> exists c :: c in conversations && id in SuccessorsIn(conversations[c], parent)
    {
      hide AllFiled, Stored, Listing, SuccessorsIn;
      ids := {};
      var left := conversations.Keys;
      while left != {}
        invariant left <= conversations.Keys
        invariant forall id | id in ids ::
                    exists c :: c in conversations && id in SuccessorsIn(conversations[c], parent)
        invariant forall c | c in conversations && c !in left :: SuccessorsIn(conversations[c], parent) <= ids
      {
        var c :| c in left;
        var loaded := LoadEnvelopes(c);
        var found := set e | e in loaded.value && parent in e.core.parents :: e.Id();
        ListedSuccessors(conversations, c, loaded.value, parent);
        ids := ids + found;
        left := left - {c};
      }
    }
  }

  // ---- The two frontiers --------------------------------------------------------

  ghost predicate AllAcceptable(conversation: MessageId, dir: Directory) {
    forall id | id in dir :: Accepted(conversation, dir[id].core)
  }

  ghost predicate ParentClosed(dir: Directory) {
    forall id, parent | id in dir && parent in dir[id].core.parents :: parent in dir
  }

  /**
   * When every stored message is structurally valid, the frontier read from the files is
   * the rebuilt DAG's, and it is empty exactly when the stored set is parent-closed.
   */
  lemma FrontiersAgree(conversation: MessageId, dir: Directory)
    requires Filed(conversation, dir) && AllAcceptable(conversation, dir)
    ensures FileFrontier(dir) == MissingOf(AcceptableCores(conversation, dir))
    ensures FileFrontier(dir) == {} <==> ParentClosed(dir)
  {
    assert AcceptableCores(conversation, dir) == StoredCores(dir);
    var m := StoredCores(dir);
    ReferencedMeaning(m);
    forall id, parent | FileFrontier(dir) == {} && id in dir && parent in dir[id].core.parents
      ensures parent in dir
    {
      assert Edge(m, id, parent);
      assert parent !in FileFrontier(dir);
    }
  }

  /** A stored core of this conversation that the rebuild skips: no parents, or numbered 0. */
  predicate Skipped(core: MessageCore) {
    core.conversation.Some? && (core.parents == [] || core.logical == 0)
  }

  lemma SkippedIffRefused(conversation: MessageId, dir: Directory, id: MessageId)
    requires Filed(conversation, dir) && id in dir
    ensures Skipped(dir[id].core) <==> !Accepted(conversation, dir[id].core)
  {
  }

  predicate Inert(conversation: MessageId, dir: Directory, id: MessageId, parent: MessageId)
    requires id in dir
  {
    if Skipped(dir[id].core) then parent == conversation else parent in dir ==> !Skipped(dir[parent].core)
  }

  /** Skipped files name no parent but the genesis, and no message the rebuild takes names a skipped one. */
  ghost predicate SkippedAreInert(conversation: MessageId, dir: Directory) {
    forall id, parent | id in dir && parent in dir[id].core.parents :: Inert(conversation, dir, id, parent)
  }

  /** Some of a directory's files, the genesis among them. */
  ghost predicate SubDirectory(conversation: MessageId, sub: Directory, dir: Directory) {
    && conversation in sub
    && forall id | id in sub :: id in dir && sub[id] == dir[id]
  }

  ghost predicate FrontiersEqual(conversation: MessageId, dir: Directory) {
    FileFrontier(dir) == MissingOf(AcceptableCores(conversation, dir))
  }

  lemma InertFrontiers(conversation: MessageId, dir: Directory)
    requires Filed(conversation, dir) && HasGenesis(conversation, dir) && SkippedAreInert(conversation, dir)
    ensures FrontiersEqual(conversation, dir)
  {
    var part, all := AcceptableCores(conversation, dir), StoredCores(dir);
    ReferencedMeaning(all);
    ReferencedMeaning(part);
    forall id | id in dir
      ensures id in part <==> !Skipped(dir[id].core)
    {
      SkippedIffRefused(conversation, dir, id);
    }
    forall p | p in MissingOf(all)
      ensures p in MissingOf(part)
    {
      var id :| Edge(all, id, p);
      assert Edge(part, id, p);
    }
    forall p | p in MissingOf(part)
      ensures p in MissingOf(all)
    {
      var id :| Edge(part, id, p);
      assert Edge(all, id, p);
    }
  }

  /** A skipped file that names a parent of its own splits the frontiers of the two-file directory. */
  lemma SkippedChildSplits(conversation: MessageId, dir: Directory, id: MessageId, parent: MessageId)
      returns (sub: Directory)
    requires Filed(conversation, dir) && HasGenesis(conversation, dir) && GenesisShaped(dir[conversation].core)
    requires id in dir && parent in dir[id].core.parents && Skipped(dir[id].core) && parent != conversation
    ensures SubDirectory(conversation, sub, dir) && !FrontiersEqual(conversation, sub)
  {
    sub := map x | x in {conversation, id} :: dir[x];
    ParentIsShallower(dir[id].core, parent);
    SkippedIffRefused(conversation, dir, id);
    assert id in StoredCores(sub) && parent in StoredCores(sub)[id].parents;
    assert parent in FileFrontier(sub);
    assert AcceptableCores(conversation, sub).Keys == {conversation};
  }

  /** So does a skipped file that a message the rebuild takes names as its parent. */
  lemma SkippedParentSplits(conversation: MessageId, dir: Directory, id: MessageId, parent: MessageId)
      returns (sub: Directory)
    requires Filed(conversation, dir) && HasGenesis(conversation, dir)
    requires id in dir && parent in dir[id].core.parents && !Skipped(dir[id].core)
    requires parent in dir && Skipped(dir[parent].core)
    ensures SubDirectory(conversation, sub, dir) && !FrontiersEqual(conversation, sub)
  {
    sub := map x | x in {conversation, id, parent} :: dir[x];
    SkippedIffRefused(conversation, dir, id);
    SkippedIffRefused(conversation, dir, parent);
    var part := AcceptableCores(conversation, sub);
    assert id in part && parent in part[id].parents && parent !in part;
    assert parent in MissingOf(part);
    assert parent !in FileFrontier(sub);
  }

  /**
   * When some stored files are skipped, the two frontiers agree on every part of the
   * directory that holds the genesis exactly when the skipped files are inert.
   */
  lemma FrontiersAgreeIff(conversation: MessageId, dir: Directory)
    requires Filed(conversation, dir) && HasGenesis(conversation, dir) && GenesisShaped(dir[conversation].core)
    ensures SkippedAreInert(conversation, dir) <==>
              forall sub: Directory | SubDirectory(conversation, sub, dir) :: FrontiersEqual(conversation, sub)
  {
    if SkippedAreInert(conversation, dir) {
      forall sub: Directory | SubDirectory(conversation, sub, dir)
        ensures FrontiersEqual(conversation, sub)
      {
        forall id, parent | id in sub && parent in sub[id].core.parents
          ensures Inert(conversation, sub, id, parent)
        {
          assert parent in dir[id].core.parents && Inert(conversation, dir, id, parent);
        }
        InertFrontiers(conversation, sub);
      }
    } else {
      var id, parent :| id in dir && parent in dir[id].core.parents && !Inert(conversation, dir, id, parent);
      if Skipped(dir[id].core) {
        var sub := SkippedChildSplits(conversation, dir, id, parent);
      } else {
        var sub := SkippedParentSplits(conversation, dir, id, parent);
      }
    }
  }

  /** A skipped stored file does make the two frontiers differ, though its sender signed it. */
  lemma RefusedFileSplitsFrontiers() returns (conversation: MessageId, dir: Directory)
    ensures Filed(conversation, dir) && HasGenesis(conversation, dir)
    ensures GenesisShaped(dir[conversation].core)
    ensures forall id | id in dir :: Envelopes.Verify(dir[id]) == None
    ensures FileFrontier(dir) != MissingOf(AcceptableCores(conversation, dir))
  {
    var device := DeviceKey(0);
    var blank := TooShort([]);
    var genesis := MessageCore(
      1, None, [], [device.Public()], device.Public(), 0, 0, 0, blank, ForeignCommitment(0), []);
    conversation := genesis.Id();
    var refused := genesis.(conversation := Some(conversation), parents := [RawId(7)], seqNo := 1);
    dir := map[conversation := MessageEnvelope(1, genesis, SignatureBy(device, conversation), []),
               refused.Id() := MessageEnvelope(1, refused, SignatureBy(device, refused.Id()), [])];
    assert refused.Id() in StoredCores(dir) && RawId(7) in StoredCores(dir)[refused.Id()].parents;
    assert RawId(7) in FileFrontier(dir);
    assert AcceptableCores(conversation, dir).Keys == {conversation};
    assert Referenced(AcceptableCores(conversation, dir)) == {};
  }
}
