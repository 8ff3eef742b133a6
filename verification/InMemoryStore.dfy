/** The in-memory mailbox store. */
module InMemoryStores {
  import opened Messages
  import opened Mailboxes

  class InMemoryStore {
    const limits: Limits
    var mailboxes: map<PublicKey, Mailbox>

    ghost predicate Valid()
      reads this
    {
      AllOk(limits, mailboxes)
    }

    constructor (limits: Limits)
      ensures Valid() && this.limits == limits && mailboxes == map[]
    {
      this.limits := limits;
      mailboxes := map[];
    }

    /** Drop expired items: `retain` over one mailbox. */
    method PurgeExpired(items: seq<Item>, now: nat) returns (kept: seq<Item>)
      ensures kept == Purge(limits, now, items)
      ensures forall item :: item in kept <==>
                item in items && 0 < limits.retention && now < item.depositedAt + limits.retention
    {
      kept := [];
      for i := 0 to |items|
        invariant kept == Purge(limits, now, items[..i])
      {
        PurgeAppend(limits, now, items[..i], [items[i]]);
        assert items[..i + 1] == items[..i] + [items[i]];
        if Live(limits, now, items[i].depositedAt) {
          kept := kept + [items[i]];
        }
      }
      assert items[..|items|] == items;
    }

    method Register(key: PublicKey)
      requires Valid()
      modifies this
      ensures Valid() && mailboxes == Registered(old(mailboxes), key)
    {
      if key !in mailboxes {
        mailboxes := mailboxes[key := EMPTY_MAILBOX];
      }
    }

    /** The skips of `Append`, in its order: a held id, the item cap, the byte cap. */
    method HasRoomFor(items: seq<Item>, deposit: Deposit) returns (takes: bool)
      ensures takes == Takes(limits, items, deposit)
    {
      for i := 0 to |items|
        invariant forall item | item in items[..i] :: item.deposit.id != deposit.id
      {
        assert items[..i + 1] == items[..i] + [items[i]];
        if items[i].deposit.id == deposit.id {
          return false;
        }
      }
      assert items[..|items|] == items;
      if |items| >= limits.maxItems {
        return false;
      }
      var held := 0;
      for i := 0 to |items|
        invariant held == BytesHeld(items[..i])
      {
        assert items[..i + 1] == items[..i] + [items[i]];
        BytesHeldAppend(items[..i], items[i]);
        held := held + |items[i].deposit.wire|;
      }
      assert items[..|items|] == items;
      return held + |deposit.wire| <= limits.maxBytes;
    }

    /** The clock is read twice: at `now` for the purge, at `at` for the time of the deposit. */
    method Append(key: PublicKey, deposit: Deposit, now: nat, at: nat)
      requires Valid()
      modifies this
      ensures Valid() && mailboxes == AppendedAt(limits, old(mailboxes), key, deposit, now, at)
      ensures key in old(mailboxes) ==>
                JudgedInDate(limits, old(mailboxes)[key], mailboxes[key], deposit, now, at)
    {
      if key !in mailboxes {
        return;
      }
      var box := mailboxes[key];
      DepositedInDate(limits, box, deposit, now, at);
      DepositedOk(limits, box, deposit, now, at);
      hide JudgedInDate;
      assert AllOk(limits, mailboxes[key := DepositedAt(limits, box, deposit, now, at)]);
      var items := PurgeExpired(box.items, now);
      mailboxes := mailboxes[key := box.(items := items)];
      var takes := HasRoomFor(items, deposit);
      if takes {
        var cursor := box.lastCursor + 1;
        SetTwice(old(mailboxes), key, box.(items := items), Mailbox(cursor, items + [Item(cursor, at, deposit)]));
        mailboxes := mailboxes[key := Mailbox(cursor, items + [Item(cursor, at, deposit)])];
      }
    }

    method Fetch(key: PublicKey, after: nat, now: nat) returns (found: seq<Item>)
      requires Valid()
      modifies this
      ensures Valid() && mailboxes == Purged(limits, old(mailboxes), key, now)
      ensures found == Fetched(limits, old(mailboxes), key, after, now)
      ensures forall item :: item in found <==>
                && key in old(mailboxes) && item in old(mailboxes)[key].items && item.cursor > after
                && 0 < limits.retention && now < item.depositedAt + limits.retention
      ensures forall i, j | 0 <= i < j < |found| :: found[i].cursor < found[j].cursor
    {
      FetchedIsInDate(limits, mailboxes, key, after, now);
      if key !in mailboxes {
        return [];
      }
      var box := mailboxes[key];
      var items := PurgeExpired(box.items, now);
      PurgeSubsequence(limits, now, box.items);
      FewerItemsOk(limits, box, items);
      mailboxes := mailboxes[key := box.(items := items)];
      return Above(items, after);
    }

    method Ack(key: PublicKey, upTo: nat)
      requires Valid()
      modifies this
      ensures Valid() && mailboxes == Acked(old(mailboxes), key, upTo)
    {
      if key in mailboxes {
        var box := mailboxes[key];
        AboveSubsequence(box.items, upTo);
        FewerItemsOk(limits, box, Above(box.items, upTo));
        mailboxes := mailboxes[key := box.(items := Above(box.items, upTo))];
      }
    }

    function RegisteredCount(): nat
      reads this
    {
      |mailboxes|
    }

    predicate IsRegistered(key: PublicKey)
      reads this
    {
      key in mailboxes
    }
  }
}
