/** Per-sender sequence numbers: the next one to use, and the holes below it. */
module DagSeqs {
  import opened Basics
  import opened Messages
  import opened DagGraph

  function SeqsOf(m: Held, sender: PublicKey): set<nat> {
    set id | id in m && m[id].sender == sender :: m[id].seqNo
  }

  function Senders(m: Held): set<PublicKey> {
    set id | id in m :: m[id].sender
  }

  /** One above the largest number in the set, 0 for the empty set. */
  ghost function OneAbove(seqs: set<nat>): (n: nat)
    ensures forall s | s in seqs :: s < n
    ensures n > 0 ==> n - 1 in seqs
  {
    if seqs == {} then 0 else
      var s :| s in seqs;
      var rest := OneAbove(seqs - {s});
      assert forall x | x in seqs :: x == s || x in seqs - {s};
      Max(s + 1, rest)
  }

  ghost function NextSeqOf(m: Held, sender: PublicKey): nat {
    OneAbove(SeqsOf(m, sender))
  }

  function Below(n: nat): (r: set<nat>)
    ensures forall k: nat :: k in r <==> k < n
    ensures |r| == n
  {
    if n == 0 then {} else Below(n - 1) + {n - 1}
  }

  ghost function GapsIn(seqs: set<nat>): set<nat> {
    Below(OneAbove(seqs)) - seqs
  }

  ghost function GapsOf(m: Held, sender: PublicKey): set<nat> {
    GapsIn(SeqsOf(m, sender))
  }

  /** Every number below the next one is either held or reported as a gap. */
  lemma SeqsAndGapsPartition(m: Held, sender: PublicKey)
    ensures |SeqsOf(m, sender)| + |GapsOf(m, sender)| == NextSeqOf(m, sender)
  {
    assert SeqsOf(m, sender) + GapsOf(m, sender) == Below(NextSeqOf(m, sender));
    assert SeqsOf(m, sender) !! GapsOf(m, sender);
  }

  /** A gap is a number no held message of the sender carries although one carries a larger number. */
  lemma GapsAreHoles(m: Held, sender: PublicKey, n: nat)
    ensures n in GapsOf(m, sender) <==>
              && (exists id :: id in m && m[id].sender == sender && m[id].seqNo > n)
              && forall id | id in m && m[id].sender == sender :: m[id].seqNo != n
  {
    var seqs := SeqsOf(m, sender);
    assert forall id | id in m && m[id].sender == sender :: m[id].seqNo in seqs;
    var next := OneAbove(seqs);
    if n in GapsOf(m, sender) {
      assert next - 1 in seqs && n != next - 1;
    }
  }

  lemma OneAboveIsUnique(seqs: set<nat>, n: nat)
    requires forall s | s in seqs :: s < n
    requires n > 0 ==> n - 1 in seqs
    ensures OneAbove(seqs) == n
  {
  }

  lemma NextNumberLeavesGaps(seqs: set<nat>)
    ensures var next := OneAbove(seqs);
            OneAbove(seqs + {next}) == next + 1 && GapsIn(seqs + {next}) == GapsIn(seqs)
  {
    var next := OneAbove(seqs);
    OneAboveIsUnique(seqs + {next}, next + 1);
    assert Below(next + 1) - (seqs + {next}) == Below(next) - seqs;
  }

  lemma SeqsExtend(m: Held, id: MessageId, core: MessageCore, sender: PublicKey)
    requires id !in m
    ensures SeqsOf(m[id := core], sender) ==
              if sender == core.sender then SeqsOf(m, sender) + {core.seqNo} else SeqsOf(m, sender)
  {
    var m' := m[id := core];
    assert id in m' && m'[id] == core;
    forall s | s in SeqsOf(m, sender)
      ensures s in SeqsOf(m', sender)
    {
      var x :| x in m && m[x].sender == sender && m[x].seqNo == s;
      assert x in m' && m'[x].sender == sender;
    }
  }

  /** A message numbered with the next number opens no gap and closes none, for any sender. */
  lemma SendingOpensNoGap(m: Held, core: MessageCore, sender: PublicKey)
    requires core.Id() !in m && core.seqNo == NextSeqOf(m, core.sender)
    ensures GapsOf(m[core.Id() := core], sender) == GapsOf(m, sender)
    ensures NextSeqOf(m[core.Id() := core], sender) ==
              NextSeqOf(m, sender) + (if sender == core.sender then 1 else 0)
  {
    SeqsExtend(m, core.Id(), core, sender);
    NextNumberLeavesGaps(SeqsOf(m, sender));
  }

  function SeqIndex(m: Held): map<PublicKey, set<nat>> {
    map sender | sender in Senders(m) :: SeqsOf(m, sender)
  }

  lemma SeqIndexExtend(m: Held, id: MessageId, core: MessageCore)
    requires id !in m
    ensures var index := SeqIndex(m);
            var known := if core.sender in index then index[core.sender] else {};
            SeqIndex(m[id := core]) == index[core.sender := known + {core.seqNo}]
  {
    var m' := m[id := core];
    assert id in m' && m'[id] == core;
    assert Senders(m') == Senders(m) + {core.sender} by {
      forall s | s in Senders(m)
        ensures s in Senders(m')
      {
        var x :| x in m && m[x].sender == s;
        assert x in m' && m'[x] == m[x];
      }
    }
    forall sender | sender in Senders(m')
      ensures SeqsOf(m', sender) ==
                if sender == core.sender then SeqsOf(m, sender) + {core.seqNo} else SeqsOf(m, sender)
    {
      SeqsExtend(m, id, core, sender);
    }
    if core.sender !in Senders(m) {
      assert SeqsOf(m, core.sender) == {};
    }
  }

  ghost predicate Ascending(s: seq<nat>) {
    forall i, j :: 0 <= i < j < |s| ==> s[i] < s[j]
  }

  /** `gaps` lists, for every sender but those left to look at, exactly the holes of those that have any. */
  ghost predicate ReportsGaps(gaps: map<PublicKey, seq<nat>>, index: map<PublicKey, set<nat>>, left: set<PublicKey>) {
    && (forall s :: s in gaps <==> s in index && s !in left && GapsIn(index[s]) != {})
    && forall s | s in gaps :: Ascending(gaps[s]) && ToSet(gaps[s]) == GapsIn(index[s])
  }

  lemma ReportOneMore(
      gaps: map<PublicKey, seq<nat>>, index: map<PublicKey, set<nat>>, left: set<PublicKey>,
      sender: PublicKey, missed: seq<nat>)
    requires ReportsGaps(gaps, index, left) && sender in index && sender in left
    requires Ascending(missed) && ToSet(missed) == GapsIn(index[sender])
    ensures ReportsGaps(if missed == [] then gaps else gaps[sender := missed], index, left - {sender})
  {
    hide GapsIn;
    assert missed != [] ==> missed[0] in ToSet(missed);
  }

  /** Once every indexed sender has been looked at, the report is complete. */
  lemma GapsReported(m: Held, gaps: map<PublicKey, seq<nat>>)
    requires ReportsGaps(gaps, SeqIndex(m), {})
    ensures forall sender :: sender in gaps <==> GapsOf(m, sender) != {}
    ensures forall sender | sender in gaps ::
              Ascending(gaps[sender]) && ToSet(gaps[sender]) == GapsOf(m, sender)
  {
    forall sender | sender !in Senders(m)
      ensures GapsOf(m, sender) == {}
    {
      assert SeqsOf(m, sender) == {};
    }
  }
}
