/**
 * An append as the file system sees it: four separate steps, with a crash possible
 * between any two of them (or in the middle of a temp-file write), any number of
 * restarts, and files removed at any quiet moment by a purge or an ack.
 */
module CrashSafety {
  import opened Basics
  import opened Messages
  import opened Mailboxes
  import opened FsMailboxes

  /** How far the append holding the store's lock has come. */
  datatype Process =
    | Idle
    | AtCursorTemp(deposit: Deposit)
    | AtCursorRename(deposit: Deposit, cursor: nat)
    | AtItemTemp(deposit: Deposit, cursor: nat)
    | AtItemRename(deposit: Deposit, name: ItemName)

  /**
   * One mailbox directory and the process working on it. `issued` logs each cursor as it
   * is committed to the cursor file, `shown` each cursor as its item becomes visible.
   */
  datatype Disk = Disk(dir: Directory, process: Process, issued: seq<nat>, shown: seq<nat>)

  datatype Event =
    | Start(deposit: Deposit, now: nat)
    | Advance(now: nat)
    | Crash(torn: Option<Bytes>, now: nat)
    | Unlink(name: ItemName)

  const BLANK := Disk(map[], Idle, [], [])

  function Advanced(disk: Disk, now: nat): Disk {
    var dir := disk.dir;
    match disk.process
    case Idle => disk
    case AtCursorTemp(deposit) =>
      var cursor := LastCursor(dir) + 1;
      disk.(dir := dir[CursorTemp := Number(cursor)], process := AtCursorRename(deposit, cursor))
    case AtCursorRename(deposit, cursor) =>
      if CursorTemp !in dir then disk else
      disk.(dir := dir[CursorFile := dir[CursorTemp]] - {CursorTemp},
            process := AtItemTemp(deposit, cursor),
            issued := disk.issued + [cursor])
    case AtItemTemp(deposit, cursor) =>
      var name := ItemName(cursor, now, deposit.id);
      disk.(dir := dir[ItemTemp(name) := Envelope(deposit)], process := AtItemRename(deposit, name))
    case AtItemRename(deposit, name) =>
      if ItemTemp(name) !in dir then disk else
      disk.(dir := dir[ItemFile(name) := dir[ItemTemp(name)]] - {ItemTemp(name)},
            process := Idle,
            shown := disk.shown + [name.cursor])
  }

  /** The process dies; a temp file being written at that moment may be left half-written. */
  function Crashed(disk: Disk, torn: Option<Bytes>, now: nat): Disk {
    match (disk.process, torn)
    case (AtCursorTemp(_), Some(bytes)) =>
      disk.(dir := disk.dir[CursorTemp := Torn(bytes)], process := Idle)
    case (AtItemTemp(deposit, cursor), Some(bytes)) =>
      disk.(dir := disk.dir[ItemTemp(ItemName(cursor, now, deposit.id)) := Torn(bytes)], process := Idle)
    case _ => disk.(process := Idle)
  }

  /** The one thing a crash does to the files: what was being written to a temp file may be there in part. */
  lemma CrashTearsTempFile(disk: Disk, torn: Option<Bytes>, now: nat)
    ensures var after := Crashed(disk, torn, now);
            var writing := match disk.process
                           case AtCursorTemp(_) => Some(CursorTemp)
                           case AtItemTemp(deposit, cursor) => Some(ItemTemp(ItemName(cursor, now, deposit.id)))
                           case _ => None;
            && after.process == Idle && after.issued == disk.issued && after.shown == disk.shown
            && (writing.Some? && torn.Some? ==>
                  writing.value in after.dir && after.dir[writing.value] == Torn(torn.value))
            && forall f | torn.None? || Some(f) != writing ::
                 (f in after.dir <==> f in disk.dir) && (f in disk.dir ==> after.dir[f] == disk.dir[f])
  {
  }

  ghost function Step(limits: Limits, disk: Disk, event: Event): Disk
    requires Intact(disk.dir)
  {
    match event
    case Start(deposit, now) =>
      if !disk.process.Idle? then disk else
        var names := LiveListing(limits, now, disk.dir);
        var purged := disk.(dir := PurgedDir(limits, now, disk.dir));
        if FsTakes(limits, ItemsOf(disk.dir, names), names, deposit)
        then purged.(process := AtCursorTemp(deposit)) else purged
    case Advance(now) => Advanced(disk, now)
    case Crash(torn, now) => Crashed(disk, torn, now)
    case Unlink(name) =>
      if disk.process.Idle? then disk.(dir := disk.dir - {ItemFile(name)}) else disk
  }

  // ---- The invariant ------------------------------------------------------------

  ghost predicate StrictlyIncreasing(log: seq<nat>) {
    forall i, j :: 0 <= i < j < |log| ==> log[i] < log[j]
  }

  ghost predicate NoCopy(dir: Directory, id: MessageId) {
    forall n | n in NamesIn(dir) :: n.id != id
  }

  /** A cursor issued last and not yet shown. */
  ghost predicate Reserved(disk: Disk, cursor: nat) {
    && cursor == LastCursor(disk.dir)
    && cursor in disk.issued
    && forall c | c in disk.shown :: c < cursor
  }

  ghost predicate ProcessOk(disk: Disk) {
    var dir := disk.dir;
    match disk.process
    case Idle => true
    case AtCursorTemp(deposit) => NoCopy(dir, deposit.id)
    case AtCursorRename(deposit, cursor) =>
      && NoCopy(dir, deposit.id)
      && cursor == LastCursor(dir) + 1
      && CursorTemp in dir && dir[CursorTemp] == Number(cursor)
    case AtItemTemp(deposit, cursor) =>
      NoCopy(dir, deposit.id) && Reserved(disk, cursor)
    case AtItemRename(deposit, name) =>
      && NoCopy(dir, deposit.id) && Reserved(disk, name.cursor)
      && name.id == deposit.id
      && ItemTemp(name) in dir && dir[ItemTemp(name)] == Envelope(deposit)
  }

  ghost predicate LogsOk(disk: Disk) {
    && StrictlyIncreasing(disk.issued)
    && StrictlyIncreasing(disk.shown)
    && (forall c | c in disk.issued :: 1 <= c <= LastCursor(disk.dir))
    && (forall c | c in disk.shown :: c in disk.issued)
    && (forall n | n in NamesIn(disk.dir) :: n.cursor in disk.shown)
  }

  /** Every visible item is whole, and no cursor was ever issued or shown twice. */
  ghost predicate Safe(disk: Disk) {
    Intact(disk.dir) && LogsOk(disk) && ProcessOk(disk)
  }

  /** `dir'` holds some of the item files of `dir`, unchanged, and the same cursor file. */
  ghost predicate KeepsItems(dir: Directory, dir': Directory) {
    && LastCursor(dir') == LastCursor(dir)
    && (CursorFile in dir' ==> dir'[CursorFile].Number?)
    && NamesIn(dir') <= NamesIn(dir)
    && forall n | n in NamesIn(dir') ::
         ItemFile(n) in dir' && ItemFile(n) in dir && dir'[ItemFile(n)] == dir[ItemFile(n)]
  }

  lemma KeepsItemsSafe(disk: Disk, dir': Directory)
    requires Intact(disk.dir) && LogsOk(disk) && KeepsItems(disk.dir, dir')
    ensures Intact(dir') && LogsOk(disk.(dir := dir'))
  {
  }

  /** Writing or removing a file that is neither an item nor the cursor. */
  lemma TempWriteKeeps(dir: Directory, temp: FileName, content: Content)
    requires Intact(dir) && (temp.CursorTemp? || temp.ItemTemp?)
    ensures KeepsItems(dir, dir[temp := content])
    ensures NamesIn(dir[temp := content]) == NamesIn(dir)
  {
    var dir' := dir[temp := content];
    assert forall n :: n in NamesIn(dir') <==> ItemFile(n) in dir';
    assert forall n :: n in NamesIn(dir) <==> ItemFile(n) in dir;
  }

  lemma StartSafe(limits: Limits, disk: Disk, deposit: Deposit, now: nat)
    requires Safe(disk)
    ensures Safe(Step(limits, disk, Start(deposit, now)))
  {
    if disk.process.Idle? {
      var purged := PurgedDir(limits, now, disk.dir);
      LiveNamesAreNames(limits, now, disk.dir);
      assert forall n | n in NamesIn(purged) :: ItemFile(n) in purged;
      KeepsItemsSafe(disk, purged);
      var names := LiveListing(limits, now, disk.dir);
      assert forall n | n in NamesIn(purged) :: n in ToSet(names);
    }
  }

  lemma CursorTempSafe(disk: Disk, now: nat)
    requires Safe(disk) && disk.process.AtCursorTemp?
    ensures Safe(Advanced(disk, now))
  {
    var content := Number(LastCursor(disk.dir) + 1);
    TempWriteKeeps(disk.dir, CursorTemp, content);
    KeepsItemsSafe(disk, disk.dir[CursorTemp := content]);
  }

  lemma CursorRenameSafe(disk: Disk, now: nat)
    requires Safe(disk) && disk.process.AtCursorRename?
    ensures Safe(Advanced(disk, now))
  {
    var dir, cursor := disk.dir, disk.process.cursor;
    var dir' := dir[CursorFile := Number(cursor)] - {CursorTemp};
    assert forall n :: n in NamesIn(dir') <==> ItemFile(n) in dir';
    assert forall n :: n in NamesIn(dir) <==> ItemFile(n) in dir;
    assert NamesIn(dir') == NamesIn(dir);
    assert LastCursor(dir') == cursor;
    var issued := disk.issued + [cursor];
    assert forall c :: c in issued <==> c in disk.issued || c == cursor;
    assert forall i | 0 <= i < |disk.issued| :: disk.issued[i] in disk.issued;
    assert Intact(dir');
  }

  lemma ItemTempSafe(disk: Disk, now: nat)
    requires Safe(disk) && disk.process.AtItemTemp?
    ensures Safe(Advanced(disk, now))
  {
    var name := ItemName(disk.process.cursor, now, disk.process.deposit.id);
    var content := Envelope(disk.process.deposit);
    TempWriteKeeps(disk.dir, ItemTemp(name), content);
    KeepsItemsSafe(disk, disk.dir[ItemTemp(name) := content]);
  }

  lemma ItemRenameSafe(disk: Disk, now: nat)
    requires Safe(disk) && disk.process.AtItemRename?
    ensures Safe(Advanced(disk, now))
    ensures NamesIn(Advanced(disk, now).dir) == NamesIn(disk.dir) + {disk.process.name}
    ensures Advanced(disk, now).process == Idle
  {
    var dir, name := disk.dir, disk.process.name;
    var dir' := dir[ItemFile(name) := Envelope(disk.process.deposit)] - {ItemTemp(name)};
    assert forall n :: n in NamesIn(dir') <==> ItemFile(n) in dir';
    assert forall n :: n in NamesIn(dir) <==> ItemFile(n) in dir;
    assert NamesIn(dir') == NamesIn(dir) + {name};
    assert LastCursor(dir') == LastCursor(dir);
    assert forall n | n in NamesIn(dir) :: n.cursor < name.cursor && n.id != name.id;
    assert Intact(dir');
    var shown := disk.shown + [name.cursor];
    assert forall c :: c in shown <==> c in disk.shown || c == name.cursor;
    assert forall i | 0 <= i < |disk.shown| :: disk.shown[i] in disk.shown;
  }

  lemma CrashSafe(disk: Disk, torn: Option<Bytes>, now: nat)
    requires Safe(disk)
    ensures Safe(Crashed(disk, torn, now))
    ensures NamesIn(Crashed(disk, torn, now).dir) == NamesIn(disk.dir)
    ensures KeepsItems(disk.dir, Crashed(disk, torn, now).dir)
  {
    match (disk.process, torn)
    case (AtCursorTemp(_), Some(bytes)) =>
      TempWriteKeeps(disk.dir, CursorTemp, Torn(bytes));
    case (AtItemTemp(deposit, cursor), Some(bytes)) =>
      TempWriteKeeps(disk.dir, ItemTemp(ItemName(cursor, now, deposit.id)), Torn(bytes));
    case _ =>
  }

  lemma UnlinkSafe(limits: Limits, disk: Disk, name: ItemName)
    requires Safe(disk)
    ensures Safe(Step(limits, disk, Unlink(name)))
    ensures disk.process.Idle? ==> NamesIn(Step(limits, disk, Unlink(name)).dir) == NamesIn(disk.dir) - {name}
  {
    if disk.process.Idle? {
      var dir' := disk.dir - {ItemFile(name)};
      assert forall n :: n in NamesIn(dir') <==> ItemFile(n) in dir';
      assert forall n :: n in NamesIn(disk.dir) <==> ItemFile(n) in disk.dir;
      KeepsItemsSafe(disk, dir');
    }
  }

  lemma StepSafe(limits: Limits, disk: Disk, event: Event)
    requires Safe(disk)
    ensures Safe(Step(limits, disk, event))
  {
    match event
    case Start(deposit, now) => StartSafe(limits, disk, deposit, now);
    case Advance(now) =>
      match disk.process {
        case Idle =>
        case AtCursorTemp(_) => CursorTempSafe(disk, now);
        case AtCursorRename(_, _) => CursorRenameSafe(disk, now);
        case AtItemTemp(_, _) => ItemTempSafe(disk, now);
        case AtItemRename(_, _) => ItemRenameSafe(disk, now);
      }
    case Crash(torn, now) => CrashSafe(disk, torn, now);
    case Unlink(name) => UnlinkSafe(limits, disk, name);
  }

  // ---- Whole runs ---------------------------------------------------------------

  ghost function Run(limits: Limits, disk: Disk, events: seq<Event>): Disk
    requires Safe(disk)
    decreases |events|
  {
    if events == [] then disk else
      StepSafe(limits, disk, events[0]);
      Run(limits, Step(limits, disk, events[0]), events[1..])
  }

  lemma StepOnlyAddsLogs(limits: Limits, disk: Disk, event: Event)
    requires Safe(disk)
    ensures disk.issued <= Step(limits, disk, event).issued
    ensures disk.shown <= Step(limits, disk, event).shown
  {
  }

  lemma {:induction false} RunSafe(limits: Limits, disk: Disk, events: seq<Event>)
    requires Safe(disk)
    ensures Safe(Run(limits, disk, events))
    ensures disk.issued <= Run(limits, disk, events).issued
    ensures disk.shown <= Run(limits, disk, events).shown
    decreases |events|
  {
    if events != [] {
      var next := Step(limits, disk, events[0]);
      StepSafe(limits, disk, events[0]);
      StepOnlyAddsLogs(limits, disk, events[0]);
      RunSafe(limits, next, events[1..]);
      assert Run(limits, disk, events) == Run(limits, next, events[1..]);
    }
  }

  /** Some append in the trace was for this deposit. */
  ghost predicate WasStarted(trace: seq<Event>, deposit: Deposit) {
    exists i :: 0 <= i < |trace| && trace[i].Start? && trace[i].deposit == deposit
  }

  /** Every visible item, and the append under way, is for a deposit that was started. */
  ghost predicate OnlyStarted(disk: Disk, trace: seq<Event>)
    requires Safe(disk)
  {
    && (forall n | n in NamesIn(disk.dir) :: WasStarted(trace, disk.dir[ItemFile(n)].deposit))
    && (!disk.process.Idle? ==> WasStarted(trace, disk.process.deposit))
  }

  lemma LongerTrace(trace: seq<Event>, event: Event)
    ensures forall deposit | WasStarted(trace, deposit) :: WasStarted(trace + [event], deposit)
    ensures event.Start? ==> WasStarted(trace + [event], event.deposit)
  {
    var longer := trace + [event];
    assert longer[|trace|] == event;
    forall deposit | WasStarted(trace, deposit)
      ensures WasStarted(longer, deposit)
    {
      var i :| 0 <= i < |trace| && trace[i].Start? && trace[i].deposit == deposit;
      assert longer[i] == trace[i];
    }
  }

  /** A visible item was visible before, or is the one the append under way has just renamed into place. */
  lemma NewOrKept(limits: Limits, disk: Disk, event: Event, name: ItemName)
    requires Safe(disk) && name in NamesIn(Step(limits, disk, event).dir)
    ensures ItemFile(name) in Step(limits, disk, event).dir
    ensures
      || (name in NamesIn(disk.dir) && ItemFile(name) in disk.dir &&
          Step(limits, disk, event).dir[ItemFile(name)] == disk.dir[ItemFile(name)])
      || (!disk.process.Idle? && Step(limits, disk, event).dir[ItemFile(name)] == Envelope(disk.process.deposit))
  {
  }

  lemma StepOnlyStarted(limits: Limits, disk: Disk, trace: seq<Event>, event: Event)
    requires Safe(disk) && OnlyStarted(disk, trace)
    ensures Safe(Step(limits, disk, event))
    ensures OnlyStarted(Step(limits, disk, event), trace + [event])
  {
    StepSafe(limits, disk, event);
    LongerTrace(trace, event);
    var next := Step(limits, disk, event);
    hide WasStarted, Safe, Intact;
    forall n | n in NamesIn(next.dir)
      ensures WasStarted(trace + [event], next.dir[ItemFile(n)].deposit)
    {
      NewOrKept(limits, disk, event, n);
    }
  }

  lemma {:induction false} RunOnlyStarted(limits: Limits, disk: Disk, trace: seq<Event>, events: seq<Event>)
    requires Safe(disk) && OnlyStarted(disk, trace)
    ensures Safe(Run(limits, disk, events))
    ensures OnlyStarted(Run(limits, disk, events), trace + events)
    decreases |events|
  {
    if events == [] {
      assert trace + events == trace;
    } else {
      StepOnlyStarted(limits, disk, trace, events[0]);
      RunOnlyStarted(limits, Step(limits, disk, events[0]), trace + [events[0]], events[1..]);
      assert trace + [events[0]] + events[1..] == trace + events;
      hide Safe, Step, OnlyStarted;
    }
  }

  /**
   * Over every run from an empty directory, whatever crashes: no cursor is issued twice,
   * items become visible under ever larger cursors, and each visible item is, whole, the
   * deposit of some append in the run.
   */
  lemma EveryRunIsSafe(limits: Limits, events: seq<Event>)
    ensures Safe(BLANK)
    ensures var disk := Run(limits, BLANK, events);
            && StrictlyIncreasing(disk.issued)
            && StrictlyIncreasing(disk.shown)
            && (forall n | n in NamesIn(disk.dir) ::
                  && n.cursor in disk.issued
                  && ItemFile(n) in disk.dir
                  && disk.dir[ItemFile(n)].Envelope?
                  && disk.dir[ItemFile(n)].deposit.id == n.id
                  && WasStarted(events, disk.dir[ItemFile(n)].deposit))
  {
    RunSafe(limits, BLANK, events);
    RunOnlyStarted(limits, BLANK, [], events);
    assert [] + events == events;
  }

  /** A later append never lands under a cursor at or below one already visible. */
  lemma LaterItemsLieAbove(limits: Limits, disk: Disk, events: seq<Event>, earlier: ItemName, later: ItemName)
    requires Safe(disk) && earlier.cursor in disk.shown
    requires later in NamesIn(Run(limits, disk, events).dir) && later.cursor !in disk.shown
    ensures earlier.cursor < later.cursor
  {
    RunSafe(limits, disk, events);
    var next := Run(limits, disk, events);
    var i :| 0 <= i < |disk.shown| && disk.shown[i] == earlier.cursor;
    var j :| 0 <= j < |next.shown| && next.shown[j] == later.cursor;
    assert next.shown[i] == disk.shown[i];
    assert next.shown[..|disk.shown|] == disk.shown;
  }

  // ---- Retrying an append -------------------------------------------------------

  function Copies(dir: Directory, id: MessageId): set<ItemName> {
    set n | n in NamesIn(dir) && n.id == id
  }

  /** An append nothing interrupts. */
  ghost function Attempt(limits: Limits, disk: Disk, deposit: Deposit, now: nat): Disk
    requires Safe(disk)
  {
    Run(limits, disk, [Start(deposit, now), Advance(now), Advance(now), Advance(now), Advance(now)])
  }

  lemma RunOne(limits: Limits, disk: Disk, event: Event, rest: seq<Event>)
    requires Safe(disk)
    ensures Safe(Step(limits, disk, event))
    ensures Run(limits, disk, [event] + rest) == Run(limits, Step(limits, disk, event), rest)
  {
    StepSafe(limits, disk, event);
    assert ([event] + rest)[1..] == rest;
  }

  lemma AttemptUnfolds(limits: Limits, disk: Disk, deposit: Deposit, now: nat)
    requires Safe(disk)
    ensures Attempt(limits, disk, deposit, now) ==
              Advanced(Advanced(Advanced(Advanced(Step(limits, disk, Start(deposit, now)), now), now), now), now)
  {
    var a := Advance(now);
    var d0 := Step(limits, disk, Start(deposit, now));
    assert [Start(deposit, now), a, a, a, a] == [Start(deposit, now)] + ([a] + ([a] + ([a] + ([a] + []))));
    RunOne(limits, disk, Start(deposit, now), [a] + ([a] + ([a] + ([a] + []))));
    RunOne(limits, d0, a, [a] + ([a] + ([a] + [])));
    RunOne(limits, Advanced(d0, now), a, [a] + ([a] + []));
    RunOne(limits, Advanced(Advanced(d0, now), now), a, [a] + []);
    RunOne(limits, Advanced(Advanced(Advanced(d0, now), now), now), a, []);
  }

  /** The four steps together do to the directory what the store's append is specified to do. */
  lemma AttemptIsAppend(limits: Limits, disk: Disk, deposit: Deposit, now: nat)
    requires Safe(disk) && disk.process == Idle
    ensures Attempt(limits, disk, deposit, now).dir == DepositedIn(limits, disk.dir, deposit, now)
    ensures Attempt(limits, disk, deposit, now).process == Idle
  {
    AttemptUnfolds(limits, disk, deposit, now);
    var names := LiveListing(limits, now, disk.dir);
    if FsTakes(limits, ItemsOf(disk.dir, names), names, deposit) {
      var purged := PurgedDir(limits, now, disk.dir);
      var cursor := LastCursor(purged) + 1;
      var dir1 := purged[CursorTemp := Number(cursor)];
      var dir2 := dir1[CursorFile := Number(cursor)] - {CursorTemp};
      var name := ItemName(cursor, now, deposit.id);
      var dir3 := dir2[ItemTemp(name) := Envelope(deposit)];
      assert LastCursor(purged) + 1 == cursor;
      assert dir2 == WriteAtomic(purged, CursorTemp, CursorFile, Number(cursor));
    }
  }

  /** Room for the deposit, or a live copy of it already there. */
  ghost predicate LandsOrIsThere(limits: Limits, dir: Directory, deposit: Deposit, now: nat)
    requires Intact(dir)
  {
    var names := LiveListing(limits, now, dir);
    (exists n :: n in names && n.id == deposit.id) || FsTakes(limits, ItemsOf(dir, names), names, deposit)
  }

  /**
   * However the earlier attempts at a deposit were cut short, one that completes leaves
   * exactly one copy.
   */
  lemma RetryLeavesOneCopy(limits: Limits, disk: Disk, deposit: Deposit, now: nat) returns (name: ItemName)
    requires Safe(disk) && disk.process == Idle
    requires LandsOrIsThere(limits, disk.dir, deposit, now)
    ensures Copies(Attempt(limits, disk, deposit, now).dir, deposit.id) == {name}
  {
    var names := LiveListing(limits, now, disk.dir);
    var purged := PurgedDir(limits, now, disk.dir);
    AttemptIsAppend(limits, disk, deposit, now);
    LiveNamesAreNames(limits, now, disk.dir);
    if FsTakes(limits, ItemsOf(disk.dir, names), names, deposit) {
      name := ItemName(LastCursor(purged) + 1, now, deposit.id);
      forall n | n in NamesIn(purged)
        ensures n.id != deposit.id
      {
        assert n in ToSet(names);
      }
      StoredInIntact(purged, deposit, now);
    } else {
      var n :| n in names && n.id == deposit.id;
      name := n;
      assert name in ToSet(names);
      assert Copies(purged, deposit.id) == {name};
    }
  }

  /** Nothing in a run acks or expires the item. */
  ghost predicate Spares(limits: Limits, events: seq<Event>, name: ItemName) {
    forall i | 0 <= i < |events| ::
      && events[i] != Unlink(name)
      && (events[i].Start? ==> !Expired(limits, events[i].now, name.depositedMs))
  }

  lemma StepKeepsCopy(limits: Limits, disk: Disk, event: Event, name: ItemName)
    requires Safe(disk) && name in NamesIn(disk.dir)
    requires event != Unlink(name) && (event.Start? ==> !Expired(limits, event.now, name.depositedMs))
    ensures name in NamesIn(Step(limits, disk, event).dir)
  {
    assert ItemFile(name) in disk.dir;
    assert ItemFile(name) in Step(limits, disk, event).dir;
  }

  /** Until it is acked or expires, a stored item stays, and stays the only copy, whatever crashes. */
  lemma {:induction false} CopySurvives(limits: Limits, disk: Disk, events: seq<Event>, name: ItemName)
    requires Safe(disk) && name in NamesIn(disk.dir) && Spares(limits, events, name)
    ensures Copies(Run(limits, disk, events).dir, name.id) == {name}
    decreases |events|
  {
    if events != [] {
      StepKeepsCopy(limits, disk, events[0], name);
      StepSafe(limits, disk, events[0]);
      assert Spares(limits, events[1..], name) by {
        assert forall i | 0 <= i < |events[1..]| :: events[1..][i] == events[i + 1];
      }
      CopySurvives(limits, Step(limits, disk, events[0]), events[1..], name);
    }
  }
}
