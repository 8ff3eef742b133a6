/**
 * The meaning of a mailbox directory: a persistent cursor file, one file per stored
 * item whose name carries its metadata, and leftover temp files nobody reads.
 */
module FsMailboxes {
  import opened Basics
  import opened Messages
  import opened Mailboxes

  datatype ItemName = ItemName(cursor: nat, depositedMs: nat, id: MessageId)

  /** File names, as `FileNames` prints and tells them apart. */
  datatype FileName = CursorFile | CursorTemp | ItemFile(name: ItemName) | ItemTemp(name: ItemName)

  datatype Content = Number(n: nat) | Envelope(deposit: Deposit) | Torn(bytes: Bytes)

  type Directory = map<FileName, Content>

  type Root = map<PublicKey, Directory>

  /** The persistent high-water mark; an absent or unreadable file counts as 0. */
  function LastCursor(dir: Directory): nat {
    if CursorFile in dir && dir[CursorFile].Number? then dir[CursorFile].n else 0
  }

  /** The on-disk retention test: wall-clock milliseconds, subtraction stopping at zero. */
  predicate Expired(limits: Limits, now: nat, depositedMs: nat) {
    (if depositedMs <= now then now - depositedMs else 0) >= limits.retention
  }

  function NamesIn(dir: Directory): set<ItemName> {
    set f | f in dir && f.ItemFile? :: f.name
  }

  function LiveNames(limits: Limits, now: nat, dir: Directory): set<ItemName> {
    set f | f in dir && f.ItemFile? && !Expired(limits, now, f.name.depositedMs) :: f.name
  }

  function PurgedDir(limits: Limits, now: nat, dir: Directory): Directory {
    map f | f in dir && (f.ItemFile? ==> !Expired(limits, now, f.name.depositedMs)) :: dir[f]
  }

  /** What a directory written only by the store looks like between operations. */
  ghost predicate Intact(dir: Directory) {
    && (CursorFile in dir ==> dir[CursorFile].Number?)
    && (forall n | n in NamesIn(dir) ::
          ItemFile(n) in dir && dir[ItemFile(n)].Envelope? && dir[ItemFile(n)].deposit.id == n.id)
    && (forall n | n in NamesIn(dir) :: 1 <= n.cursor <= LastCursor(dir))
    && (forall a, b | a in NamesIn(dir) && b in NamesIn(dir) && a.cursor == b.cursor :: a == b)
    && (forall a, b | a in NamesIn(dir) && b in NamesIn(dir) && a.id == b.id :: a == b)
  }

  ghost predicate AllIntact(root: Root) {
    forall key | key in root :: Intact(root[key])
  }

  lemma UpdateIntact(root: Root, key: PublicKey, dir: Directory)
    requires AllIntact(root) && Intact(dir)
    ensures AllIntact(root[key := dir])
  {
  }

  lemma UpdateTwice(root: Root, key: PublicKey, first: Directory, second: Directory)
    ensures root[key := first][key := second] == root[key := second]
    ensures root[key := first][key] == first
  {
  }

  /** The directory without some item files. */
  function Without(dir: Directory, names: seq<ItemName>): Directory {
    map f | f in dir && (f.ItemFile? ==> f.name !in names) :: dir[f]
  }

  lemma WithoutOneMore(dir: Directory, names: seq<ItemName>, name: ItemName)
    ensures Without(dir, names + [name]) == Without(dir, names) - {ItemFile(name)}
    ensures Without(dir, []) == dir
  {
  }

  // ---- Listing in cursor order --------------------------------------------------

  ghost predicate DistinctCursors(names: set<ItemName>) {
    forall a, b | a in names && b in names && a.cursor == b.cursor :: a == b
  }

  ghost predicate SortedByCursor(names: seq<ItemName>) {
    forall i, j :: 0 <= i < j < |names| ==> names[i].cursor < names[j].cursor
  }

  ghost predicate IsListing(names: seq<ItemName>, s: set<ItemName>) {
    ToSet(names) == s && SortedByCursor(names)
  }

  /** Sorting by cursor has one outcome, whatever order the directory was read in. */
  lemma ListingIsUnique(a: seq<ItemName>, b: seq<ItemName>, s: set<ItemName>)
    requires IsListing(a, s) && IsListing(b, s)
    ensures a == b
  {
    SortedIsUnique(a, b, (x: ItemName, y: ItemName) => x.cursor < y.cursor);
  }

  lemma InsertKeepsSorted(names: seq<ItemName>, name: ItemName, at: nat)
    requires SortedByCursor(names) && at <= |names|
    requires forall i | 0 <= i < at :: names[i].cursor < name.cursor
    requires forall i | at <= i < |names| :: name.cursor < names[i].cursor
    ensures SortedByCursor(names[..at] + [name] + names[at..])
  {
    var r := names[..at] + [name] + names[at..];
    forall i, j | 0 <= i < j < |r|
      ensures r[i].cursor < r[j].cursor
    {
      if i != at && j != at {
        var i', j' := if i < at then i else i - 1, if j < at then j else j - 1;
        assert names[i'].cursor < names[j'].cursor;
      }
    }
  }

  lemma InsertIntoListing(names: seq<ItemName>, s: set<ItemName>, name: ItemName, at: nat)
    requires IsListing(names, s) && name !in s && DistinctCursors(s + {name})
    requires at <= |names|
    requires forall i | 0 <= i < at :: names[i].cursor <= name.cursor
    requires at < |names| ==> name.cursor < names[at].cursor
    ensures IsListing(names[..at] + [name] + names[at..], s + {name})
  {
    var r := names[..at] + [name] + names[at..];
    assert names == names[..at] + names[at..];
    assert forall x :: x in r <==> x in names || x == name;
    forall i | 0 <= i < at
      ensures names[i].cursor < name.cursor
    {
      assert names[i] in ToSet(names);
    }
    forall i | at <= i < |names|
      ensures name.cursor < names[i].cursor
    {
      assert at < i ==> names[at].cursor < names[i].cursor;
    }
    InsertKeepsSorted(names, name, at);
    assert ToSet(r) == s + {name};
  }

  /** A set of names, each once, by cursor; names a foreign hand gave the same cursor come in either order. */
  ghost predicate IsOrdering(names: seq<ItemName>, s: set<ItemName>) {
    && ToSet(names) == s
    && (forall i, j :: 0 <= i < j < |names| ==> names[i] != names[j])
    && (forall i, j :: 0 <= i < j < |names| ==> names[i].cursor <= names[j].cursor)
  }

  /** Without repeated cursors there is one ordering, the listing. */
  lemma OrderingIsListing(names: seq<ItemName>, s: set<ItemName>)
    requires IsOrdering(names, s) && DistinctCursors(s)
    ensures IsListing(names, s)
  {
    forall i, j | 0 <= i < j < |names|
      ensures names[i].cursor < names[j].cursor
    {
      assert names[i] in ToSet(names) && names[j] in ToSet(names);
    }
  }

  lemma InsertIntoOrdering(names: seq<ItemName>, s: set<ItemName>, name: ItemName, at: nat)
    requires IsOrdering(names, s) && name !in s
    requires at <= |names|
    requires forall i | 0 <= i < at :: names[i].cursor <= name.cursor
    requires at < |names| ==> name.cursor < names[at].cursor
    ensures IsOrdering(names[..at] + [name] + names[at..], s + {name})
  {
    var r := names[..at] + [name] + names[at..];
    assert names == names[..at] + names[at..];
    assert forall x :: x in r <==> x in names || x == name;
    assert forall i | 0 <= i < |names| :: names[i] in ToSet(names);
    forall i | at <= i < |names|
      ensures name.cursor <= names[i].cursor
    {
      assert at < i ==> names[at].cursor <= names[i].cursor;
    }
    forall i, j | 0 <= i < j < |r|
      ensures r[i] != r[j] && r[i].cursor <= r[j].cursor
    {
      if i != at && j != at {
        var i', j' := if i < at then i else i - 1, if j < at then j else j - 1;
        assert names[i'] != names[j'] && names[i'].cursor <= names[j'].cursor;
      }
    }
  }

  /** The item a file records. */
  function ItemOf(dir: Directory, name: ItemName): Item
    requires ItemFile(name) in dir && dir[ItemFile(name)].Envelope?
  {
    Item(name.cursor, name.depositedMs, dir[ItemFile(name)].deposit)
  }

  ghost predicate Readable(dir: Directory, names: seq<ItemName>) {
    forall n | n in names :: ItemFile(n) in dir && dir[ItemFile(n)].Envelope?
  }

  function ItemsOf(dir: Directory, names: seq<ItemName>): (items: seq<Item>)
    requires forall n | n in names :: ItemFile(n) in dir && dir[ItemFile(n)].Envelope?
    ensures |items| == |names|
    ensures forall i | 0 <= i < |names| :: items[i] == ItemOf(dir, names[i])
  {
    seq(|names|, i requires 0 <= i < |names| => ItemOf(dir, names[i]))
  }

  /** The live items a directory records, as a set. */
  ghost function LiveItemSet(limits: Limits, now: nat, dir: Directory): set<Item>
    requires Intact(dir)
  {
    set n | n in LiveNames(limits, now, dir) :: ItemOf(dir, n)
  }

  lemma LiveNamesAreNames(limits: Limits, now: nat, dir: Directory)
    ensures LiveNames(limits, now, dir) <= NamesIn(dir)
    ensures LiveNames(limits, now, dir) == NamesIn(PurgedDir(limits, now, dir))
    ensures LastCursor(PurgedDir(limits, now, dir)) == LastCursor(dir)
    ensures Intact(dir) ==> Intact(PurgedDir(limits, now, dir))
  {
    var purged := PurgedDir(limits, now, dir);
    assert forall f :: f in purged ==> f in dir && purged[f] == dir[f];
    assert NamesIn(purged) <= NamesIn(dir);
    forall n | n in NamesIn(purged)
      ensures ItemFile(n) in purged
    {
    }
  }

  lemma PlaceFor(names: seq<ItemName>, name: ItemName) returns (at: nat)
    ensures at <= |names|
    ensures forall i | 0 <= i < at :: names[i].cursor <= name.cursor
    ensures at < |names| ==> name.cursor < names[at].cursor
  {
    at := 0;
    while at < |names| && names[at].cursor <= name.cursor
      invariant at <= |names|
      invariant forall i | 0 <= i < at :: names[i].cursor <= name.cursor
    {
      at := at + 1;
    }
  }

  lemma {:induction false} BuildListing(s: set<ItemName>) returns (names: seq<ItemName>)
    requires DistinctCursors(s)
    ensures IsListing(names, s)
    decreases |s|
  {
    names := [];
    if s != {} {
      var name :| name in s;
      var others := s - {name};
      var rest := BuildListing(others);
      var at := PlaceFor(rest, name);
      assert others + {name} == s;
      InsertIntoListing(rest, others, name, at);
      names := rest[..at] + [name] + rest[at..];
    }
  }

  lemma ListingExists(s: set<ItemName>)
    requires DistinctCursors(s)
    ensures exists names :: IsListing(names, s)
  {
    var names := BuildListing(s);
  }

  /** The names of a directory's live items, oldest first. */
  ghost function LiveListing(limits: Limits, now: nat, dir: Directory): (names: seq<ItemName>)
    requires Intact(dir)
    ensures IsListing(names, LiveNames(limits, now, dir))
    ensures Readable(dir, names)
  {
    LiveNamesAreNames(limits, now, dir);
    ListingExists(LiveNames(limits, now, dir));
    var names :| IsListing(names, LiveNames(limits, now, dir));
    assert forall n | n in names :: n in ToSet(names);
    names
  }

  /** Reading a live item after the purge yields what was there before it. */
  lemma ReadableAfterPurge(limits: Limits, now: nat, dir: Directory)
    requires Intact(dir)
    ensures var names, purged := LiveListing(limits, now, dir), PurgedDir(limits, now, dir);
            Readable(purged, names) && ItemsOf(purged, names) == ItemsOf(dir, names)
  {
    var names := LiveListing(limits, now, dir);
    assert forall n | n in names :: n in ToSet(names);
  }

  predicate Decodes(dir: Directory, name: ItemName) {
    ItemFile(name) in dir && dir[ItemFile(name)].Envelope?
  }

  /** Reading files one by one, above a cursor: one that is gone or does not decode is skipped. */
  function ReadBack(dir: Directory, names: seq<ItemName>, after: nat): (items: seq<Item>)
    ensures forall item :: item in items <==>
              exists n :: n in names && n.cursor > after && Decodes(dir, n) && ItemOf(dir, n) == item
  {
    if names == [] then [] else
      var init, last := names[..|names| - 1], names[|names| - 1];
      assert names == init + [last];
      ReadBack(dir, init, after) + (if last.cursor > after && Decodes(dir, last) then [ItemOf(dir, last)] else [])
  }

  lemma ReadBackAppend(dir: Directory, names: seq<ItemName>, name: ItemName, after: nat)
    ensures ReadBack(dir, names + [name], after) ==
              ReadBack(dir, names, after) +
              (if name.cursor > after && Decodes(dir, name) then [ItemOf(dir, name)] else [])
  {
    assert (names + [name])[..|names|] == names;
  }

  /** Where every file decodes, what is read back is what the names stand for. */
  lemma {:induction false} ReadBackAll(dir: Directory, names: seq<ItemName>, after: nat)
    requires Readable(dir, names)
    ensures ReadBack(dir, names, after) == Above(ItemsOf(dir, names), after)
    decreases |names|
  {
    if names != [] {
      var init, last := names[..|names| - 1], names[|names| - 1];
      assert last in names && names == init + [last];
      ReadBackAll(dir, init, after);
      ReadBackAppend(dir, init, last, after);
      AboveAppend(ItemsOf(dir, init), [ItemOf(dir, last)], after);
      AboveOne(ItemOf(dir, last), after);
      assert ItemsOf(dir, names) == ItemsOf(dir, init) + [ItemOf(dir, last)];
      hide Above, ReadBack, ItemOf, ItemsOf;
    }
  }

  function UpTo(names: seq<ItemName>, upTo: nat): (r: seq<ItemName>)
    ensures forall n :: n in r <==> n in names && n.cursor <= upTo
  {
    if names == [] then [] else
      var init, last := names[..|names| - 1], names[|names| - 1];
      assert names == init + [last];
      if last.cursor <= upTo then UpTo(init, upTo) + [last] else UpTo(init, upTo)
  }

  lemma UpToAppend(names: seq<ItemName>, name: ItemName, upTo: nat)
    ensures UpTo(names + [name], upTo) == if name.cursor <= upTo then UpTo(names, upTo) + [name] else UpTo(names, upTo)
  {
    assert (names + [name])[..|names|] == names;
  }

  // ---- Operations on one directory ----------------------------------------------

  /** Temp file, then rename: afterwards the target is whole and the temp name is free. */
  function WriteAtomic(dir: Directory, temp: FileName, target: FileName, content: Content): Directory {
    dir[temp := content][target := content] - {temp}
  }

  /** One file replaced whole, its temp file gone, every other file as it was. */
  ghost predicate Replaced(before: Directory, after: Directory, temp: FileName, target: FileName, content: Content) {
    && target in after && after[target] == content
    && temp !in after
    && forall f | f != temp && f != target ::
         (f in after <==> f in before) && (f in after ==> after[f] == before[f])
  }

  lemma ReplacedIsAtomic(before: Directory, after: Directory, temp: FileName, target: FileName, content: Content)
    requires temp != target
    ensures Replaced(before, after, temp, target, content) <==> after == WriteAtomic(before, temp, target, content)
  {
    if Replaced(before, after, temp, target, content) {
      assert after.Keys == WriteAtomic(before, temp, target, content).Keys;
    }
  }

  /** Only one mailbox differs. */
  ghost predicate OnlyAt(before: Root, after: Root, key: PublicKey) {
    && after.Keys == before.Keys
    && forall other | other in after && other != key :: after[other] == before[other]
  }

  function StoredIn(dir: Directory, deposit: Deposit, now: nat): Directory {
    var cursor := LastCursor(dir) + 1;
    var name := ItemName(cursor, now, deposit.id);
    WriteAtomic(
      WriteAtomic(dir, CursorTemp, CursorFile, Number(cursor)),
      ItemTemp(name), ItemFile(name), Envelope(deposit))
  }

  predicate FsTakes(limits: Limits, items: seq<Item>, names: seq<ItemName>, deposit: Deposit) {
    && (forall n | n in names :: n.id != deposit.id)
    && |names| < limits.maxItems
    && BytesHeld(items) + |deposit.wire| <= limits.maxBytes
  }

  ghost function DepositedInAt(limits: Limits, dir: Directory, deposit: Deposit, now: nat, at: nat): Directory
    requires Intact(dir)
  {
    var names := LiveListing(limits, now, dir);
    var purged := PurgedDir(limits, now, dir);
    if FsTakes(limits, ItemsOf(dir, names), names, deposit) then StoredIn(purged, deposit, at) else purged
  }

  ghost function DepositedIn(limits: Limits, dir: Directory, deposit: Deposit, now: nat): Directory
    requires Intact(dir)
  {
    DepositedInAt(limits, dir, deposit, now, now)
  }

  function AckedIn(limits: Limits, dir: Directory, upTo: nat, now: nat): Directory {
    var purged := PurgedDir(limits, now, dir);
    map f | f in purged && (f.ItemFile? ==> f.name.cursor > upTo) :: purged[f]
  }

  lemma AckedByListing(limits: Limits, dir: Directory, names: seq<ItemName>, upTo: nat, now: nat)
    requires ToSet(names) == LiveNames(limits, now, dir)
    ensures Without(PurgedDir(limits, now, dir), UpTo(names, upTo)) == AckedIn(limits, dir, upTo, now)
  {
    var purged := PurgedDir(limits, now, dir);
    forall f | f in purged && f.ItemFile?
      ensures f.name in UpTo(names, upTo) <==> f.name.cursor <= upTo
    {
      assert f.name in ToSet(names);
    }
  }

  lemma StoredInNames(dir: Directory, deposit: Deposit, now: nat)
    ensures var dir' := StoredIn(dir, deposit, now);
            && NamesIn(dir') == NamesIn(dir) + {ItemName(LastCursor(dir) + 1, now, deposit.id)}
            && forall n | n in NamesIn(dir') :: ItemFile(n) in dir'
  {
    var dir' := StoredIn(dir, deposit, now);
    assert forall n :: n in NamesIn(dir') <==> ItemFile(n) in dir';
    assert forall n :: n in NamesIn(dir) <==> ItemFile(n) in dir;
  }

  lemma StoredInIntact(dir: Directory, deposit: Deposit, now: nat)
    requires Intact(dir)
    requires forall n | n in NamesIn(dir) :: n.id != deposit.id
    ensures var name := ItemName(LastCursor(dir) + 1, now, deposit.id);
            var dir' := StoredIn(dir, deposit, now);
            && Intact(dir')
            && LastCursor(dir') == LastCursor(dir) + 1
            && NamesIn(dir') == NamesIn(dir) + {name}
            && dir'[ItemFile(name)] == Envelope(deposit)
            && forall n | n in NamesIn(dir) :: dir'[ItemFile(n)] == dir[ItemFile(n)]
  {
    var name := ItemName(LastCursor(dir) + 1, now, deposit.id);
    var dir' := StoredIn(dir, deposit, now);
    StoredInNames(dir, deposit, now);
    assert dir'[CursorFile] == Number(LastCursor(dir) + 1);
    forall n | n in NamesIn(dir')
      ensures dir'[ItemFile(n)].Envelope? && dir'[ItemFile(n)].deposit.id == n.id
    {
      assert n != name ==> dir'[ItemFile(n)] == dir[ItemFile(n)];
    }
  }

  lemma AckedInIntact(limits: Limits, dir: Directory, upTo: nat, now: nat)
    requires Intact(dir)
    ensures Intact(AckedIn(limits, dir, upTo, now))
    ensures LastCursor(AckedIn(limits, dir, upTo, now)) == LastCursor(dir)
  {
    LiveNamesAreNames(limits, now, dir);
    var purged, acked := PurgedDir(limits, now, dir), AckedIn(limits, dir, upTo, now);
    assert forall f :: f in acked ==> f in purged && acked[f] == purged[f];
    assert NamesIn(acked) <= NamesIn(purged);
    forall n | n in NamesIn(acked)
      ensures ItemFile(n) in acked
    {
    }
  }

  // ---- Appending to any directory ------------------------------------------------

  function DecimalDigits(n: nat): seq<nat> {
    if n < 10 then [n] else DecimalDigits(n / 10) + [n % 10]
  }

  lemma OneMoreDigit(n: nat, d: nat)
    requires d < 10
    ensures |DecimalDigits(d)| == 1
    ensures n > 0 ==> |DecimalDigits(10 * n + d)| == |DecimalDigits(n)| + 1
  {
  }

  function FileLength(content: Content): nat {
    match content
    case Number(n) => |DecimalDigits(n)|
    case Envelope(deposit) => |deposit.wire|
    case Torn(bytes) => |bytes|
  }

  /** What one item file adds to the held bytes; one that is gone adds nothing. */
  function SizeOf(dir: Directory, name: ItemName): nat {
    if ItemFile(name) in dir then FileLength(dir[ItemFile(name)]) else 0
  }

  ghost function BytesOnDisk(dir: Directory, names: set<ItemName>): nat {
    SumOver(names, name => SizeOf(dir, name))
  }

  lemma BytesOnDiskAdd(dir: Directory, names: set<ItemName>, name: ItemName)
    requires name !in names
    ensures BytesOnDisk(dir, names + {name}) == BytesOnDisk(dir, names) + SizeOf(dir, name)
  {
    SumOverRemove(names + {name}, n => SizeOf(dir, n), name);
    assert names + {name} - {name} == names;
  }

  /** Whether a deposit is stored beside some names: it is news to them, and within both caps. */
  ghost predicate HasRoom(limits: Limits, dir: Directory, names: set<ItemName>, deposit: Deposit) {
    && (forall n | n in names :: n.id != deposit.id)
    && |names| < limits.maxItems
    && BytesOnDisk(dir, names) + |deposit.wire| <= limits.maxBytes
  }

  /** An append to a directory whatever it holds: damaged item files count by name and by size. */
  ghost function AppendedTo(limits: Limits, dir: Directory, deposit: Deposit, now: nat, at: nat): Directory {
    var purged := PurgedDir(limits, now, dir);
    if HasRoom(limits, purged, LiveNames(limits, now, dir), deposit) then StoredIn(purged, deposit, at) else purged
  }

  lemma {:induction false} ListedBytes(dir: Directory, names: seq<ItemName>)
    requires Readable(dir, names)
    requires forall i, j | 0 <= i < j < |names| :: names[i] != names[j]
    ensures BytesOnDisk(dir, ToSet(names)) == BytesHeld(ItemsOf(dir, names))
    decreases |names|
  {
    if names != [] {
      var init, last := names[..|names| - 1], names[|names| - 1];
      assert names == init + [last] && last in names;
      ListedBytes(dir, init);
      ToSetAppend(init, last);
      BytesOnDiskAdd(dir, ToSet(init), last);
      BytesHeldAppend(ItemsOf(dir, init), ItemOf(dir, last));
      assert ItemsOf(dir, names) == ItemsOf(dir, init) + [ItemOf(dir, last)];
      assert SizeOf(dir, last) == |ItemOf(dir, last).deposit.wire|;
      hide BytesOnDisk, BytesHeld, ItemsOf, ItemOf, SizeOf;
    }
  }

  // ---- Retention in plain terms -------------------------------------------------

  /** Of the item files those deposited less than the retention ago stay; other files all stay. */
  lemma PurgedIsInDate(limits: Limits, now: nat, dir: Directory)
    ensures forall n :: n in LiveNames(limits, now, dir) <==>
              ItemFile(n) in dir && 0 < limits.retention && now < n.depositedMs + limits.retention
    ensures var purged := PurgedDir(limits, now, dir);
            && (forall n :: ItemFile(n) in purged <==>
                  ItemFile(n) in dir && 0 < limits.retention && now < n.depositedMs + limits.retention)
            && (forall f: FileName | !f.ItemFile? :: f in purged <==> f in dir)
            && forall f | f in purged :: purged[f] == dir[f]
  {
  }

  /** The names of the item files deposited less than the retention ago. */
  ghost function InDateNames(limits: Limits, now: nat, dir: Directory): set<ItemName> {
    set f | f in dir && f.ItemFile? && 0 < limits.retention && now < f.name.depositedMs + limits.retention :: f.name
  }

  /**
   * A deposit at `now` is judged by exactly the files deposited less than the retention ago,
   * and of the item files exactly those stay; a stored one comes under the next cursor, in a
   * file named with the time read for it.
   */
  ghost predicate FilesJudgedInDate(
      limits: Limits, dir: Directory, after: Directory, deposit: Deposit, now: nat, at: nat)
  {
    var live := InDateNames(limits, now, dir);
    var stored :=
      && (forall n | n in live :: n.id != deposit.id)
      && |live| < limits.maxItems
      && BytesOnDisk(dir, live) + |deposit.wire| <= limits.maxBytes;
    var name := ItemName(LastCursor(dir) + 1, at, deposit.id);
    && (forall n :: ItemFile(n) in after <==> n in live || (stored && n == name))
    && (forall n | n in live :: after[ItemFile(n)] == dir[ItemFile(n)])
    && (stored ==> after[ItemFile(name)] == Envelope(deposit))
    && LastCursor(after) == LastCursor(dir) + (if stored then 1 else 0)
  }

  lemma StoredInFiles(dir: Directory, deposit: Deposit, at: nat)
    ensures var name, after := ItemName(LastCursor(dir) + 1, at, deposit.id), StoredIn(dir, deposit, at);
            && (forall n :: ItemFile(n) in after <==> ItemFile(n) in dir || n == name)
            && (forall n | ItemFile(n) in dir && n != name :: after[ItemFile(n)] == dir[ItemFile(n)])
            && after[ItemFile(name)] == Envelope(deposit)
            && LastCursor(after) == LastCursor(dir) + 1
  {
  }

  lemma InDateIsLive(limits: Limits, now: nat, dir: Directory)
    ensures InDateNames(limits, now, dir) == LiveNames(limits, now, dir)
    ensures BytesOnDisk(PurgedDir(limits, now, dir), LiveNames(limits, now, dir)) ==
              BytesOnDisk(dir, LiveNames(limits, now, dir))
  {
    var live, purged := LiveNames(limits, now, dir), PurgedDir(limits, now, dir);
    SumOverSame(live, n => SizeOf(purged, n), n => SizeOf(dir, n));
  }

  lemma AppendedFiles(limits: Limits, dir: Directory, deposit: Deposit, now: nat, at: nat)
    ensures var live, after := LiveNames(limits, now, dir), AppendedTo(limits, dir, deposit, now, at);
            var name := ItemName(LastCursor(dir) + 1, at, deposit.id);
            var stored := HasRoom(limits, PurgedDir(limits, now, dir), live, deposit);
            && (forall n :: ItemFile(n) in after <==> n in live || (stored && n == name))
            && (forall n | n in live :: after[ItemFile(n)] == dir[ItemFile(n)])
            && (stored ==> after[ItemFile(name)] == Envelope(deposit))
            && LastCursor(after) == LastCursor(dir) + (if stored then 1 else 0)
  {
    var live, purged := LiveNames(limits, now, dir), PurgedDir(limits, now, dir);
    PurgedIsInDate(limits, now, dir);
    LiveNamesAreNames(limits, now, dir);
    StoredInFiles(purged, deposit, at);
    hide LiveNames, PurgedDir, StoredIn, BytesOnDisk, LastCursor;
    assert HasRoom(limits, purged, live, deposit) ==> ItemName(LastCursor(dir) + 1, at, deposit.id) !in live;
  }

  lemma AppendedInDate(limits: Limits, dir: Directory, deposit: Deposit, now: nat, at: nat)
    ensures FilesJudgedInDate(limits, dir, AppendedTo(limits, dir, deposit, now, at), deposit, now, at)
  {
    hide AppendedTo, BytesOnDisk, PurgedDir, LiveNames, InDateNames, LastCursor;
    InDateIsLive(limits, now, dir);
    AppendedFiles(limits, dir, deposit, now, at);
  }

  /** Acknowledging leaves the files above the cursor that were deposited less than the retention ago. */
  lemma AckedIsInDate(limits: Limits, dir: Directory, upTo: nat, now: nat)
    ensures forall n :: ItemFile(n) in AckedIn(limits, dir, upTo, now) <==>
              && ItemFile(n) in dir && n.cursor > upTo
              && 0 < limits.retention && now < n.depositedMs + limits.retention
  {
  }

  /** What is read back are the files above the cursor that decode and were deposited less than the retention ago. */
  lemma ReadBackIsInDate(limits: Limits, dir: Directory, names: seq<ItemName>, after: nat, now: nat)
    requires ToSet(names) == LiveNames(limits, now, dir)
    ensures var found := ReadBack(PurgedDir(limits, now, dir), names, after);
            forall item :: item in found <==>
              exists id ::
                var file := ItemFile(ItemName(item.cursor, item.depositedAt, id));
                && file in dir && dir[file] == Envelope(item.deposit) && item.cursor > after
                && 0 < limits.retention && now < item.depositedAt + limits.retention
  {
    var purged := PurgedDir(limits, now, dir);
    PurgedIsInDate(limits, now, dir);
    assert forall n :: n in names <==> n in ToSet(names);
    hide PurgedDir, LiveNames;
    forall item
      ensures item in ReadBack(purged, names, after) <==>
                exists id ::
                  var file := ItemFile(ItemName(item.cursor, item.depositedAt, id));
                  && file in dir && dir[file] == Envelope(item.deposit) && item.cursor > after
                  && 0 < limits.retention && now < item.depositedAt + limits.retention
    {
      if item in ReadBack(purged, names, after) {
        var n :| n in names && n.cursor > after && Decodes(purged, n) && ItemOf(purged, n) == item;
        assert n == ItemName(item.cursor, item.depositedAt, n.id);
      }
      if id :|
        var file := ItemFile(ItemName(item.cursor, item.depositedAt, id));
        && file in dir && dir[file] == Envelope(item.deposit) && item.cursor > after
        && 0 < limits.retention && now < item.depositedAt + limits.retention
      {
        var n := ItemName(item.cursor, item.depositedAt, id);
        assert n in names && Decodes(purged, n) && ItemOf(purged, n) == item;
      }
    }
  }

  /** Where the store alone has written, those files in cursor order. */
  lemma ListedIsInDate(limits: Limits, dir: Directory, after: nat, now: nat)
    requires Intact(dir)
    ensures var due := Above(ItemsOf(dir, LiveListing(limits, now, dir)), after);
            && Increasing(due)
            && forall item :: item in due <==>
                 var file := ItemFile(ItemName(item.cursor, item.depositedAt, item.deposit.id));
                 && file in dir && dir[file] == Envelope(item.deposit) && item.cursor > after
                 && 0 < limits.retention && now < item.depositedAt + limits.retention
  {
    var names := LiveListing(limits, now, dir);
    var items := ItemsOf(dir, names);
    LiveNamesAreNames(limits, now, dir);
    PurgedIsInDate(limits, now, dir);
    assert forall n :: n in names <==> n in ToSet(names);
    hide LiveNames, PurgedDir, LiveListing;
    forall i, j | 0 <= i < j < |items|
      ensures items[i].cursor < items[j].cursor && items[i].deposit.id != items[j].deposit.id
    {
      assert names[i] in names && names[j] in names;
    }
    AboveSubsequence(items, after);
    SubsequenceKeeps(Above(items, after), items);
    forall item
      ensures item in items <==>
                var file := ItemFile(ItemName(item.cursor, item.depositedAt, item.deposit.id));
                && file in dir && dir[file] == Envelope(item.deposit)
                && 0 < limits.retention && now < item.depositedAt + limits.retention
    {
      var n := ItemName(item.cursor, item.depositedAt, item.deposit.id);
      if n in names && dir[ItemFile(n)] == Envelope(item.deposit) {
        var i :| 0 <= i < |names| && names[i] == n;
        assert items[i] == item;
      }
      if item in items {
        var i :| 0 <= i < |items| && items[i] == item;
        assert names[i] in names && names[i].id == item.deposit.id;
      }
    }
  }

  /** Where the store alone has written, that is the deposit judged by the items on record. */
  lemma AppendedToIntact(limits: Limits, dir: Directory, deposit: Deposit, now: nat, at: nat)
    requires Intact(dir)
    ensures AppendedTo(limits, dir, deposit, now, at) == DepositedInAt(limits, dir, deposit, now, at)
  {
    var names, purged := LiveListing(limits, now, dir), PurgedDir(limits, now, dir);
    ReadableAfterPurge(limits, now, dir);
    DistinctSize(names);
    ListedBytes(purged, names);
    assert forall n :: n in names <==> n in LiveNames(limits, now, dir) by {
      assert forall n :: n in names <==> n in ToSet(names);
    }
  }

  lemma DepositedInIntact(limits: Limits, dir: Directory, deposit: Deposit, now: nat, at: nat)
    requires Intact(dir)
    ensures Intact(DepositedInAt(limits, dir, deposit, now, at))
  {
    LiveNamesAreNames(limits, now, dir);
    var names := LiveListing(limits, now, dir);
    var purged := PurgedDir(limits, now, dir);
    if FsTakes(limits, ItemsOf(dir, names), names, deposit) {
      assert forall n | n in NamesIn(purged) :: n in ToSet(names);
      StoredInIntact(purged, deposit, at);
    }
  }
}
