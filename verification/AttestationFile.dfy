/**
 * How attestation lists are kept in a file: each entry is four bytes of length, least
 * significant first, and then its wire bytes. The wire codec is a parameter that decodes what it encodes.
 */
module AttestationFiles {
  import opened Basics

  datatype Codec<!A> = Codec(encode: A -> Bytes, decode: Bytes -> Option<A>)

  ghost predicate Inverse<A(!new)>(c: Codec<A>) {
    forall a: A :: c.decode(c.encode(a)) == Some(a)
  }

  const U32_LIMIT: nat := 0x1_0000_0000

  function LittleEndian(n: nat, width: nat): (b: Bytes)
    ensures |b| == width
  {
    if width == 0 then [] else [n % 256] + LittleEndian(n / 256, width - 1)
  }

  function ReadLittleEndian(b: Bytes): nat {
    if b == [] then 0 else b[0] + 256 * ReadLittleEndian(b[1..])
  }

  function PowerOf256(n: nat): nat {
    if n == 0 then 1 else 256 * PowerOf256(n - 1)
  }

  lemma {:induction false} LittleEndianRoundTrip(n: nat, width: nat)
    requires n < PowerOf256(width)
    ensures ReadLittleEndian(LittleEndian(n, width)) == n
    decreases width
  {
    if width > 0 {
      assert n / 256 < PowerOf256(width - 1);
      LittleEndianRoundTrip(n / 256, width - 1);
      assert LittleEndian(n, width)[1..] == LittleEndian(n / 256, width - 1);
    }
  }

  /** A length cast to 32 bits, least significant byte first. */
  function LengthBytes(n: nat): (b: Bytes)
    ensures |b| == 4
  {
    LittleEndian(n % U32_LIMIT, 4)
  }

  function ReadLength(b: Bytes): nat
    requires |b| >= 4
  {
    ReadLittleEndian(b[..4])
  }

  lemma FourBytes()
    ensures PowerOf256(4) == U32_LIMIT
  {
    assert PowerOf256(1) == 256;
    assert PowerOf256(2) == 65536;
    assert PowerOf256(3) == 16777216;
  }

  lemma BytesOfLength(n: nat)
    requires n < U32_LIMIT
    ensures var b := LittleEndian(n, 4);
            n == b[0] as int + 256 * b[1] as int + 65536 * b[2] as int + 16777216 * b[3] as int
  {
    var a, b, c := n / 256, n / 65536, n / 16777216;
    assert a / 256 == b && b / 256 == c;
    assert LittleEndian(c, 1) == [c % 256];
    assert LittleEndian(b, 2) == [b % 256, c % 256];
    assert LittleEndian(a, 3) == [a % 256, b % 256, c % 256];
    assert LittleEndian(n, 4) == [n % 256, a % 256, b % 256, c % 256];
  }

  lemma LengthRoundTrip(n: nat, rest: Bytes)
    requires n < U32_LIMIT
    ensures ReadLength(LengthBytes(n) + rest) == n
    ensures var b := LengthBytes(n);
            n == b[0] as int + 256 * b[1] as int + 65536 * b[2] as int + 16777216 * b[3] as int
  {
    FourBytes();
    BytesOfLength(n);
    LittleEndianRoundTrip(n, 4);
    hide LittleEndian, ReadLittleEndian, PowerOf256;
    assert (LengthBytes(n) + rest)[..4] == LengthBytes(n);
  }

  function Frame(payload: Bytes): Bytes {
    LengthBytes(|payload|) + payload
  }

  function Encoded<A>(c: Codec<A>, list: seq<A>): Bytes {
    if list == [] then [] else Frame(c.encode(list[0])) + Encoded(c, list[1..])
  }

  /** Decode frame by frame: a damaged payload is skipped, a frame that does not fit ends the list. */
  function Decoded<A>(c: Codec<A>, bytes: Bytes): seq<A>
    decreases |bytes|
  {
    if |bytes| < 4 then [] else
      var len, rest := ReadLength(bytes), bytes[4..];
      if |rest| < len then [] else
        var tail := Decoded(c, rest[len..]);
        match c.decode(rest[..len])
        case None => tail
        case Some(a) => [a] + tail
  }

  method Encode<A>(c: Codec<A>, list: seq<A>) returns (out: Bytes)
    ensures out == Encoded(c, list)
  {
    out := [];
    for i := 0 to |list|
      invariant out + Encoded(c, list[i..]) == Encoded(c, list)
    {
      assert list[i..][0] == list[i] && list[i..][1..] == list[i + 1..];
      var bytes := c.encode(list[i]);
      out := out + LengthBytes(|bytes|);
      out := out + bytes;
    }
    assert out + [] == out;
  }

  method Decode<A>(c: Codec<A>, bytes: Bytes) returns (list: seq<A>)
    ensures list == Decoded(c, bytes)
  {
    list := [];
    var rest := bytes;
    while |rest| >= 4
      invariant list + Decoded(c, rest) == Decoded(c, bytes)
      decreases |rest|
    {
      var len := ReadLength(rest);
      ghost var start := rest;
      rest := rest[4..];
      if |rest| < len {
        assert Decoded(c, start) == [];
        break;
      }
      var decoded := c.decode(rest[..len]);
      ghost var tail := Decoded(c, rest[len..]);
      if decoded.Some? {
        assert Decoded(c, start) == [decoded.value] + tail;
        assert list + ([decoded.value] + tail) == list + [decoded.value] + tail;
        list := list + [decoded.value];
      }
      rest := rest[len..];
    }
    assert list + [] == list;
  }

  // ---- Truncation and damage ----------------------------------------------------

  /** How many whole frames fit in the first `cut` bytes of the encoding. */
  function WholeFrames<A>(c: Codec<A>, list: seq<A>, cut: nat): (n: nat)
    ensures n <= |list|
  {
    if list == [] || cut < |Frame(c.encode(list[0]))| then 0 else
      1 + WholeFrames(c, list[1..], cut - |Frame(c.encode(list[0]))|)
  }

  lemma EncodedHead<A>(c: Codec<A>, list: seq<A>, n: nat)
    requires 0 < n <= |list|
    ensures |Encoded(c, list[..n])| == |Frame(c.encode(list[0]))| + |Encoded(c, list[1..][..n - 1])|
  {
    assert list[..n][1..] == list[1..][..n - 1];
  }

  /** The largest number of entries whose encoding fits in the cut. */
  lemma {:induction false} WholeFramesIsLargest<A>(c: Codec<A>, list: seq<A>, cut: nat)
    ensures var n := WholeFrames(c, list, cut);
            && |Encoded(c, list[..n])| <= cut
            && (n < |list| ==> |Encoded(c, list[..n + 1])| > cut)
    decreases |list|
  {
    var n := WholeFrames(c, list, cut);
    if list != [] {
      var frame := |Frame(c.encode(list[0]))|;
      assert list[..1] == [list[0]];
      if frame <= cut {
        WholeFramesIsLargest(c, list[1..], cut - frame);
        EncodedHead(c, list, n);
        if n < |list| {
          EncodedHead(c, list, n + 1);
        }
      } else {
        EncodedHead(c, list, 1);
      }
    }
  }

  ghost predicate EntriesFit<A>(c: Codec<A>, list: seq<A>) {
    forall a | a in list :: |c.encode(a)| < U32_LIMIT
  }

  /** One whole frame in front: its payload decodes on its own, the rest on its own. */
  lemma DecodeFrame<A>(c: Codec<A>, payload: Bytes, rest: Bytes)
    requires |payload| < U32_LIMIT
    ensures Decoded(c, Frame(payload) + rest) ==
              match c.decode(payload)
              case None => Decoded(c, rest)
              case Some(a) => [a] + Decoded(c, rest)
  {
    var bytes := Frame(payload) + rest;
    assert bytes == LengthBytes(|payload|) + (payload + rest);
    LengthRoundTrip(|payload|, payload + rest);
    assert bytes[4..] == payload + rest;
    assert (payload + rest)[..|payload|] == payload && (payload + rest)[|payload|..] == rest;
  }

  /** A torn frame yields nothing. */
  lemma DecodeTornFrame<A>(c: Codec<A>, payload: Bytes, cut: nat)
    requires |payload| < U32_LIMIT && cut < |Frame(payload)|
    ensures Decoded(c, Frame(payload)[..cut]) == []
  {
    var bytes := Frame(payload)[..cut];
    if cut >= 4 {
      assert bytes == LengthBytes(|payload|) + payload[..cut - 4];
      LengthRoundTrip(|payload|, payload[..cut - 4]);
    }
  }

  lemma CutAfter(frame: Bytes, rest: Bytes, cut: nat)
    requires |frame| <= cut <= |frame| + |rest|
    ensures (frame + rest)[..cut] == frame + rest[..cut - |frame|]
  {
  }

  lemma TakeOneMore<A>(list: seq<A>, n: nat)
    requires n < |list|
    ensures list[..n + 1] == [list[0]] + list[1..][..n]
  {
  }

  /** Any truncation of an encoded list decodes to exactly the entries whose frames fit whole. */
  lemma {:induction false} TruncationKeepsWholeFrames<A(!new)>(c: Codec<A>, list: seq<A>, cut: nat)
    requires Inverse(c) && EntriesFit(c, list) && cut <= |Encoded(c, list)|
    ensures Decoded(c, Encoded(c, list)[..cut]) == list[..WholeFrames(c, list, cut)]
    decreases |list|
  {
    if list != [] {
      var payload := c.encode(list[0]);
      var frame, rest := Frame(payload), Encoded(c, list[1..]);
      assert list[0] in list;
      if cut < |frame| {
        assert (frame + rest)[..cut] == frame[..cut];
        DecodeTornFrame(c, payload, cut);
      } else {
        var tail := rest[..cut - |frame|];
        CutAfter(frame, rest, cut);
        DecodeFrame(c, payload, tail);
        TruncationKeepsWholeFrames(c, list[1..], cut - |frame|);
        TakeOneMore(list, WholeFrames(c, list[1..], cut - |frame|));
      }
    }
  }

  lemma {:induction false} AllFramesFit<A>(c: Codec<A>, list: seq<A>)
    ensures WholeFrames(c, list, |Encoded(c, list)|) == |list|
    decreases |list|
  {
    if list != [] {
      AllFramesFit(c, list[1..]);
    }
  }

  /** The whole file reads back as written. */
  lemma FileRoundTrip<A(!new)>(c: Codec<A>, list: seq<A>)
    requires Inverse(c) && EntriesFit(c, list)
    ensures Decoded(c, Encoded(c, list)) == list
  {
    AllFramesFit(c, list);
    TruncationKeepsWholeFrames(c, list, |Encoded(c, list)|);
    assert Encoded(c, list)[..|Encoded(c, list)|] == Encoded(c, list);
  }

  lemma {:induction false} EncodedAppend<A>(c: Codec<A>, s: seq<A>, t: seq<A>)
    ensures Encoded(c, s + t) == Encoded(c, s) + Encoded(c, t)
    decreases |s|
  {
    if s == [] {
      assert s + t == t;
    } else {
      assert (s + t)[1..] == s[1..] + t;
      EncodedAppend(c, s[1..], t);
    }
  }

  lemma ConcatAssociates<T>(a: seq<T>, b: seq<T>, c: seq<T>)
    ensures a + b + c == a + (b + c)
  {
  }

  lemma {:induction false} DecodeAfter<A(!new)>(c: Codec<A>, s: seq<A>, rest: Bytes)
    requires Inverse(c) && EntriesFit(c, s)
    ensures Decoded(c, Encoded(c, s) + rest) == s + Decoded(c, rest)
    decreases |s|
  {
    if s == [] {
      assert Encoded(c, s) + rest == rest;
    } else {
      var head, tail := s[0], s[1..];
      assert head in s;
      ConcatAssociates(Frame(c.encode(head)), Encoded(c, tail), rest);
      DecodeFrame(c, c.encode(head), Encoded(c, tail) + rest);
      DecodeAfter(c, tail, rest);
      assert s == [head] + tail;
      ConcatAssociates([head], tail, Decoded(c, rest));
    }
  }

  /** Where one entry's frame lies in the file. */
  lemma FileAround<A>(c: Codec<A>, before: seq<A>, victim: A, after: seq<A>)
    ensures var file := Encoded(c, before + [victim] + after);
            var prefix, frame := Encoded(c, before), Frame(c.encode(victim));
            && |prefix| + |frame| <= |file|
            && file[..|prefix|] == prefix
            && file[|prefix| + |frame|..] == Encoded(c, after)
  {
    var prefix, frame := Encoded(c, before), Frame(c.encode(victim));
    assert before + [victim] + after == before + ([victim] + after);
    EncodedAppend(c, before, [victim] + after);
    assert ([victim] + after)[1..] == after;
    assert Encoded(c, before + [victim] + after) == prefix + (frame + Encoded(c, after));
  }

  lemma DamagedFrameSkipped<A(!new)>(c: Codec<A>, before: seq<A>, after: seq<A>, damaged: Bytes)
    requires Inverse(c) && EntriesFit(c, before) && EntriesFit(c, after)
    requires |damaged| < U32_LIMIT && c.decode(damaged).None?
    ensures Decoded(c, Encoded(c, before) + Frame(damaged) + Encoded(c, after)) == before + after
  {
    ConcatAssociates(Encoded(c, before), Frame(damaged), Encoded(c, after));
    DecodeAfter(c, before, Frame(damaged) + Encoded(c, after));
    DecodeFrame(c, damaged, Encoded(c, after));
    FileRoundTrip(c, after);
  }

  /** A payload corrupted in place to undecodable bytes of the same length costs only its own entry. */
  lemma CorruptionDropsOneEntry<A(!new)>(c: Codec<A>, before: seq<A>, victim: A, after: seq<A>, damaged: Bytes)
    requires Inverse(c) && EntriesFit(c, before + [victim] + after)
    requires |damaged| == |c.encode(victim)| && c.decode(damaged).None?
    ensures var prefix, size := |Encoded(c, before)|, |Frame(c.encode(victim))|;
            var file := Encoded(c, before + [victim] + after);
            && prefix + size <= |file|
            && Decoded(c, file[..prefix] + Frame(damaged) + file[prefix + size..]) == before + after
  {
    FileAround(c, before, victim, after);
    assert victim in before + [victim] + after;
    assert forall a | a in before || a in after :: a in before + [victim] + after;
    DamagedFrameSkipped(c, before, after, damaged);
  }
}
