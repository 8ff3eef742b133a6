/** The on-disk mailbox store: one directory per mailbox, mutated under one lock. */
module FsMailboxStores {
  import opened Basics
  import opened Messages
  import opened Mailboxes
  import opened FsMailboxes

  class FsMailboxStore {
    const limits: Limits
    var root: map<PublicKey, Directory>

    ghost predicate Valid()
      reads this
    {
      AllIntact(root)
    }

    constructor (limits: Limits)
      ensures Valid() && this.limits == limits && root == map[]
    {
      this.limits := limits;
      root := map[];
    }

    /** Write a temp file, then rename it onto the target: the target is whole and nothing else has changed. */
    method WriteAtomically(key: PublicKey, temp: FileName, target: FileName, content: Content)
      requires key in root && temp != target
      modifies this
      ensures OnlyAt(old(root), root, key)
      ensures Replaced(old(root)[key], root[key], temp, target, content)
    {
      root := root[key := root[key][temp := content]];
      root := root[key := root[key][target := content] - {temp}];
    }

    /** Take the next number of the mailbox's counter; it is on disk before it is used. */
    method NextCursor(key: PublicKey) returns (next: nat)
      requires key in root
      modifies this
      ensures next == LastCursor(old(root)[key]) + 1
      ensures root == old(root)[key := WriteAtomic(old(root)[key], CursorTemp, CursorFile, Number(next))]
    {
      var dir := root[key];
      var last := if CursorFile in dir && dir[CursorFile].Number? then dir[CursorFile].n else 0;
      next := last + 1;
      WriteAtomically(key, CursorTemp, CursorFile, Number(next));
      ReplacedIsAtomic(dir, root[key], CursorTemp, CursorFile, Number(next));
    }

    /** The lazy purge: expired entries lose their file, the others are kept. */
    method Retain(key: PublicKey, entries: seq<ItemName>, now: nat) returns (live: seq<ItemName>)
      requires key in root && ToSet(entries) == NamesIn(root[key])
      requires forall i, j | 0 <= i < j < |entries| :: entries[i] != entries[j]
      modifies this
      ensures root == old(root)[key := PurgedDir(limits, now, old(root)[key])]
      ensures ToSet(live) == LiveNames(limits, now, old(root)[key])
      ensures forall i, j | 0 <= i < j < |live| :: live[i] != live[j]
    {
      live := [];
      ghost var dir := root[key];
      ghost var gone: seq<ItemName> := [];
      WithoutOneMore(dir, [], ItemName(0, 0, RawId(0)));
      for i := 0 to |entries|
        invariant root == old(root)[key := Without(dir, gone)]
        invariant forall n :: n in gone <==> n in entries[..i] && Expired(limits, now, n.depositedMs)
        invariant forall n :: n in live <==> n in entries[..i] && !Expired(limits, now, n.depositedMs)
        invariant forall a, b | 0 <= a < b < |live| :: live[a] != live[b]
      {
        assert entries[..i + 1] == entries[..i] + [entries[i]];
        if Expired(limits, now, entries[i].depositedMs) {
          WithoutOneMore(dir, gone, entries[i]);
          root := root[key := root[key] - {ItemFile(entries[i])}];
          gone := gone + [entries[i]];
        } else {
          assert entries[i] !in entries[..i];
          live := live + [entries[i]];
        }
      }
      assert entries[..|entries|] == entries;
      assert forall f :: f in dir && f.ItemFile? ==> f.name in NamesIn(dir) && f.name in ToSet(entries);
      assert Without(dir, gone) == PurgedDir(limits, now, dir);
      assert forall n :: n in NamesIn(dir) <==> n in ToSet(entries);
      assert forall n ::
          n in LiveNames(limits, now, dir) <==> n in NamesIn(dir) && !Expired(limits, now, n.depositedMs);
    }

    /** The item names in a directory, in whatever order it yields them. */
    method ReadDir(dir: Directory) returns (entries: seq<ItemName>)
      ensures ToSet(entries) == NamesIn(dir)
      ensures forall i, j | 0 <= i < j < |entries| :: entries[i] != entries[j]
    {
      entries := [];
      var left := dir.Keys;
      while left != {}
        invariant left <= dir.Keys
        invariant forall n :: n in entries <==> ItemFile(n) in dir && ItemFile(n) !in left
        invariant forall i, j | 0 <= i < j < |entries| :: entries[i] != entries[j]
      {
        var f :| f in left;
        if f.ItemFile? {
          assert f.name !in entries;
          entries := entries + [f.name];
        }
        left := left - {f};
      }
      assert forall n :: n in NamesIn(dir) <==> ItemFile(n) in dir;
    }

    method SortByCursor(names: seq<ItemName>) returns (sorted: seq<ItemName>)
      requires forall i, j | 0 <= i < j < |names| :: names[i] != names[j]
      ensures IsOrdering(sorted, ToSet(names))
    {
      sorted := [];
      for i := 0 to |names|
        invariant IsOrdering(sorted, ToSet(names[..i]))
      {
        var at := 0;
        while at < |sorted| && sorted[at].cursor <= names[i].cursor
          invariant at <= |sorted|
          invariant forall k | 0 <= k < at :: sorted[k].cursor <= names[i].cursor
        {
          at := at + 1;
        }
        ToSetAppend(names[..i], names[i]);
        assert names[..i + 1] == names[..i] + [names[i]];
        InsertIntoOrdering(sorted, ToSet(names[..i]), names[i], at);
        sorted := sorted[..at] + [names[i]] + sorted[at..];
      }
      assert names[..|names|] == names;
    }

    /**
     * List what has not expired by cursor, and delete the files of what has. A directory is
     * read in an arbitrary order and then sorted, so as long as no two names share a cursor
     * the outcome does not depend on it.
     */
    method LiveItems(key: PublicKey, now: nat) returns (items: seq<ItemName>)
      modifies this
      ensures key !in old(root) ==> items == [] && root == old(root)
      ensures key in old(root) ==>
                && root == old(root)[key := PurgedDir(limits, now, old(root)[key])]
                && IsOrdering(items, LiveNames(limits, now, old(root)[key]))
      ensures key in old(root) ==>
                && (forall n :: n in items <==>
                      && ItemFile(n) in old(root)[key]
                      && 0 < limits.retention && now < n.depositedMs + limits.retention)
                && forall n :: ItemFile(n) in root[key] <==> n in items
      ensures old(Valid()) ==> Valid()
      ensures old(Valid()) && key in old(root) ==> items == LiveListing(limits, now, old(root)[key])
    {
      if key !in root {
        return [];
      }
      ghost var dir := root[key];
      var entries := ReadDir(root[key]);
      var live := Retain(key, entries, now);
      items := SortByCursor(live);
      PurgedIsInDate(limits, now, dir);
      assert forall n :: n in items <==> n in ToSet(items);
      if old(Valid()) {
        LiveNamesAreNames(limits, now, dir);
        UpdateIntact(old(root), key, PurgedDir(limits, now, dir));
        OrderingIsListing(items, LiveNames(limits, now, dir));
        ListingIsUnique(items, LiveListing(limits, now, dir), LiveNames(limits, now, dir));
      }
    }

    method Register(key: PublicKey)
      requires Valid()
      modifies this
      ensures Valid()
      ensures root == if key in old(root) then old(root) else old(root)[key := map[]]
    {
      if key !in root {
        root := root[key := map[]];
      }
    }

    /** The write half of `Append`: persist the next cursor, then the item under it. */
    method StoreItem(key: PublicKey, deposit: Deposit, at: nat)
      requires key in root
      modifies this
      ensures root == old(root)[key := StoredIn(old(root)[key], deposit, at)]
    {
      var cursor := NextCursor(key);
      var name := ItemName(cursor, at, deposit.id);
      ghost var dir := root[key];
      WriteAtomically(key, ItemTemp(name), ItemFile(name), Envelope(deposit));
      ReplacedIsAtomic(dir, root[key], ItemTemp(name), ItemFile(name), Envelope(deposit));
    }

    /** The skips of `Append`: a live item of that id, the item cap, the byte cap by file sizes. */
    method HasRoomFor(dir: Directory, items: seq<ItemName>, deposit: Deposit) returns (takes: bool)
      requires forall i, j | 0 <= i < j < |items| :: items[i] != items[j]
      ensures takes == HasRoom(limits, dir, ToSet(items), deposit)
    {
      DistinctSize(items);
      for i := 0 to |items|
        invariant forall n | n in items[..i] :: n.id != deposit.id
      {
        assert items[..i + 1] == items[..i] + [items[i]];
        if items[i].id == deposit.id {
          assert items[i] in ToSet(items);
          return false;
        }
      }
      assert items[..|items|] == items;
      if |items| >= limits.maxItems {
        return false;
      }
      var held := 0;
      for i := 0 to |items|
        invariant held == BytesOnDisk(dir, ToSet(items[..i]))
      {
        assert items[i] !in items[..i];
        assert items[..i + 1] == items[..i] + [items[i]];
        ToSetAppend(items[..i], items[i]);
        BytesOnDiskAdd(dir, ToSet(items[..i]), items[i]);
        held := held + SizeOf(dir, items[i]);
      }
      assert items[..|items|] == items;
      return held + |deposit.wire| <= limits.maxBytes;
    }

    /**
     * Whatever the directory holds. The clock is read twice: at `now` for the purge, at
     * `at` for the item's name.
     */
    method Append(key: PublicKey, deposit: Deposit, now: nat, at: nat)
      modifies this
      ensures key !in old(root) ==> root == old(root)
      ensures key in old(root) ==>
                && root == old(root)[key := AppendedTo(limits, old(root)[key], deposit, now, at)]
                && FilesJudgedInDate(limits, old(root)[key], root[key], deposit, now, at)
      ensures old(Valid()) ==> Valid()
      ensures old(Valid()) && key in old(root) ==>
                root == old(root)[key := DepositedInAt(limits, old(root)[key], deposit, now, at)]
    {
      if key !in root {
        return;
      }
      ghost var dir := root[key];
      ghost var purged := PurgedDir(limits, now, dir);
      AppendedInDate(limits, dir, deposit, now, at);
      if Valid() {
        AppendedToIntact(limits, dir, deposit, now, at);
        DepositedInIntact(limits, dir, deposit, now, at);
        UpdateIntact(root, key, DepositedInAt(limits, dir, deposit, now, at));
      }
      hide DepositedInAt, FilesJudgedInDate;
      var items := LiveItems(key, now);
      UpdateTwice(old(root), key, purged, StoredIn(purged, deposit, at));
      var takes := HasRoomFor(root[key], items, deposit);
      if takes {
        StoreItem(key, deposit, at);
      }
    }

    /** Read the item files above a cursor; one that does not decode is skipped. */
    method ReadItems(dir: Directory, items: seq<ItemName>, after: nat) returns (found: seq<Item>)
      ensures found == ReadBack(dir, items, after)
    {
      found := [];
      for i := 0 to |items|
        invariant found == ReadBack(dir, items[..i], after)
      {
        assert items[..i + 1] == items[..i] + [items[i]];
        ReadBackAppend(dir, items[..i], items[i], after);
        if items[i].cursor > after && ItemFile(items[i]) in dir {
          var content := dir[ItemFile(items[i])];
          if content.Envelope? {
            found := found + [Item(items[i].cursor, items[i].depositedMs, content.deposit)];
          }
        }
      }
      assert items[..|items|] == items;
    }

    /** Whatever the directory holds, files that do not decode are skipped and the rest is returned. */
    method Fetch(key: PublicKey, after: nat, now: nat) returns (found: seq<Item>)
      modifies this
      ensures key !in old(root) ==> root == old(root) && found == []
      ensures key in old(root) ==>
                var purged := PurgedDir(limits, now, old(root)[key]);
                && root == old(root)[key := purged]
                && exists names :: IsOrdering(names, LiveNames(limits, now, old(root)[key])) &&
                                   found == ReadBack(purged, names, after)
      ensures forall item :: item in found <==>
                key in old(root) &&
                exists id ::
                  var file := ItemFile(ItemName(item.cursor, item.depositedAt, id));
                  && file in old(root)[key] && old(root)[key][file] == Envelope(item.deposit)
                  && item.cursor > after
                  && 0 < limits.retention && now < item.depositedAt + limits.retention
      ensures old(Valid()) ==> Valid()
      ensures old(Valid()) && key in old(root) ==>
                var dir := old(root)[key];
                found == Above(ItemsOf(dir, LiveListing(limits, now, dir)), after)
    {
      var items := LiveItems(key, now);
      found := [];
      if key in root {
        found := ReadItems(root[key], items, after);
        ReadBackIsInDate(limits, old(root)[key], items, after, now);
        if old(Valid()) {
          ReadableAfterPurge(limits, now, old(root)[key]);
          ReadBackAll(root[key], items, after);
        }
      }
    }

    method RemoveUpTo(key: PublicKey, items: seq<ItemName>, upTo: nat)
      requires key in root
      modifies this
      ensures root == old(root)[key := Without(old(root)[key], UpTo(items, upTo))]
    {
      ghost var dir := root[key];
      WithoutOneMore(dir, [], ItemName(0, 0, RawId(0)));
      for i := 0 to |items|
        invariant root == old(root)[key := Without(dir, UpTo(items[..i], upTo))]
      {
        ghost var gone := UpTo(items[..i], upTo);
        assert items[..i + 1] == items[..i] + [items[i]];
        UpToAppend(items[..i], items[i], upTo);
        if items[i].cursor <= upTo {
          WithoutOneMore(dir, gone, items[i]);
          UpdateTwice(old(root), key, Without(dir, gone), Without(dir, gone + [items[i]]));
          root := root[key := root[key] - {ItemFile(items[i])}];
        }
      }
      assert items[..|items|] == items;
    }

    method Ack(key: PublicKey, upTo: nat, now: nat)
      modifies this
      ensures key !in old(root) ==> root == old(root)
      ensures key in old(root) ==>
                && root == old(root)[key := AckedIn(limits, old(root)[key], upTo, now)]
                && forall n :: ItemFile(n) in root[key] <==>
                     && ItemFile(n) in old(root)[key] && n.cursor > upTo
                     && 0 < limits.retention && now < n.depositedMs + limits.retention
      ensures old(Valid()) ==> Valid()
    {
      var items := LiveItems(key, now);
      if key in root {
        ghost var dir := old(root)[key];
        UpdateTwice(old(root), key, PurgedDir(limits, now, dir), AckedIn(limits, dir, upTo, now));
        RemoveUpTo(key, items, upTo);
        AckedByListing(limits, dir, items, upTo, now);
        AckedIsInDate(limits, dir, upTo, now);
        if old(Valid()) {
          AckedInIntact(limits, dir, upTo, now);
          UpdateIntact(old(root), key, AckedIn(limits, dir, upTo, now));
        }
      }
    }

    function RegisteredCount(): nat
      reads this
    {
      |root|
    }

    predicate IsRegistered(key: PublicKey)
      reads this
    {
      key in root
    }
  }
}
