/**
 * Names the relay prints and parses back: item files, whose metadata is their name, and
 * the retention tags of pushed blobs. Both print a number zero-padded to 20 digits.
 */
module FileNames {
  import opened Basics

  const U64_LIMIT: nat := 0x1_0000_0000_0000_0000

  const WIDTH: nat := 20

  predicate IsDigit(c: char) {
    '0' <= c <= '9'
  }

  function DigitOf(c: char): nat
    requires IsDigit(c)
  {
    c as int - '0' as int
  }

  function PowerOfTen(n: nat): nat {
    if n == 0 then 1 else 10 * PowerOfTen(n - 1)
  }

  /** The last `width` decimal digits of `n`, most significant first. */
  function Padded(n: nat, width: nat): (s: string)
    ensures |s| == width && forall i | 0 <= i < |s| :: IsDigit(s[i])
  {
    if width == 0 then "" else Padded(n / 10, width - 1) + [('0' as int + n % 10) as char]
  }

  predicate AllDigits(s: string) {
    forall i | 0 <= i < |s| :: IsDigit(s[i])
  }

  function Decimal(s: string): nat
    requires AllDigits(s)
  {
    if s == "" then 0 else 10 * Decimal(s[..|s| - 1]) + DigitOf(s[|s| - 1])
  }

  /** Parsing into 64 bits: one optional plus sign, then at least one digit, no overflow. */
  function ParseU64(s: string): Option<nat> {
    var digits := if s != "" && s[0] == '+' then s[1..] else s;
    if digits == "" || !AllDigits(digits) || Decimal(digits) >= U64_LIMIT then None else Some(Decimal(digits))
  }

  lemma {:induction false} DecimalOfPadded(n: nat, width: nat)
    requires n < PowerOfTen(width)
    ensures Decimal(Padded(n, width)) == n
    decreases width
  {
    if width > 0 {
      assert n / 10 < PowerOfTen(width - 1);
      DecimalOfPadded(n / 10, width - 1);
      var s := Padded(n, width);
      assert s[..|s| - 1] == Padded(n / 10, width - 1);
    }
  }

  lemma DivIs(n: nat, d: nat, q: nat, r: nat)
    requires d > 0 && r < d && n == q * d + r
    ensures n / d == q
  {
    var k := n / d;
    assert n == k * d + n % d;
    assert k < q ==> (k + 1) * d <= q * d;
    assert q < k ==> (q + 1) * d <= k * d;
  }

  lemma DivTwice(n: nat, d: nat)
    requires d > 0
    ensures n / 10 / d == n / (10 * d)
  {
    var q, r := n / 10 / d, n / 10 % d;
    assert n / 10 == q * d + r;
    assert n == 10 * (n / 10) + n % 10;
    assert n == q * (10 * d) + (10 * r + n % 10);
    assert 10 * r + n % 10 < 10 * d;
    DivIs(n, 10 * d, q, 10 * r + n % 10);
  }

  /** Padding is positional, most significant digit first. */
  lemma {:induction false} PaddedDigits(n: nat, width: nat, i: nat)
    requires i < width
    ensures PowerOfTen(width - 1 - i) > 0
    ensures DigitOf(Padded(n, width)[i]) == n / PowerOfTen(width - 1 - i) % 10
    decreases width
  {
    if i < width - 1 {
      PaddedDigits(n / 10, width - 1, i);
      assert Padded(n, width)[i] == Padded(n / 10, width - 1)[i];
      DivTwice(n, PowerOfTen(width - 2 - i));
    }
  }

  lemma FiveMore(n: nat)
    ensures PowerOfTen(n + 5) == 100000 * PowerOfTen(n)
  {
    assert PowerOfTen(n + 5) == 10 * PowerOfTen(n + 4);
    assert PowerOfTen(n + 4) == 10 * PowerOfTen(n + 3);
    assert PowerOfTen(n + 3) == 10 * PowerOfTen(n + 2);
    assert PowerOfTen(n + 2) == 10 * PowerOfTen(n + 1);
  }

  lemma TwentyDigitsSuffice()
    ensures U64_LIMIT < PowerOfTen(WIDTH)
  {
    FiveMore(0);
    FiveMore(5);
    FiveMore(10);
    FiveMore(15);
  }

  /** What twenty digits print parses back exactly if it fits 64 bits. */
  lemma PaddedRoundTrip(n: nat)
    requires n < PowerOfTen(WIDTH)
    ensures ParseU64(Padded(n, WIDTH)) == if n <= 0xffff_ffff_ffff_ffff then Some(n) else None
  {
    DecimalOfPadded(n, WIDTH);
    assert !(Padded(n, WIDTH)[0] == '+');
  }

  function StripPrefix(prefix: string, s: string): Option<string> {
    if prefix <= s then Some(s[|prefix|..]) else None
  }

  function StripSuffix(s: string, suffix: string): Option<string> {
    if |suffix| <= |s| && s[|s| - |suffix|..] == suffix then Some(s[..|s| - |suffix|]) else None
  }

  // ---- Item files ---------------------------------------------------------------

  datatype PrintedName = PrintedName(cursor: nat, depositedMs: nat, idHex: string)

  function Stem(name: PrintedName): string {
    Padded(name.cursor, WIDTH) + "-" + Padded(name.depositedMs, WIDTH) + "-" + name.idHex
  }

  function PrintName(name: PrintedName): string {
    Stem(name) + ".env"
  }

  function ParseStem(stem: string): Option<PrintedName> {
    if |stem| < WIDTH then None else
      match StripPrefix("-", stem[WIDTH..])
      case None => None
      case Some(rest) =>
        if |rest| < WIDTH then None else
          match (ParseU64(stem[..WIDTH]), ParseU64(rest[..WIDTH]), StripPrefix("-", rest[WIDTH..]))
          case (Some(cursor), Some(deposited), Some(idHex)) => Some(PrintedName(cursor, deposited, idHex))
          case _ => None
  }

  function ParseName(name: string): Option<PrintedName> {
    match StripSuffix(name, ".env")
    case None => None
    case Some(stem) => ParseStem(stem)
  }

  /** Cutting a string at a dash after a known head. */
  lemma SplitAt(head: string, tail: string)
    ensures (head + ("-" + tail))[..|head|] == head
    ensures StripPrefix("-", (head + ("-" + tail))[|head|..]) == Some(tail)
  {
    assert (head + ("-" + tail))[|head|..] == "-" + tail;
    assert ("-" + tail)[1..] == tail;
  }

  lemma ParseFields(cursor: string, deposited: string, name: PrintedName)
    requires |cursor| == |deposited| == WIDTH
    requires ParseU64(cursor) == Some(name.cursor) && ParseU64(deposited) == Some(name.depositedMs)
    ensures ParseStem(cursor + ("-" + (deposited + ("-" + name.idHex)))) == Some(name)
  {
    hide ParseU64;
    SplitAt(cursor, deposited + ("-" + name.idHex));
    SplitAt(deposited, name.idHex);
  }

  lemma StemRoundTrip(name: PrintedName)
    requires name.cursor < U64_LIMIT && name.depositedMs < U64_LIMIT
    ensures ParseStem(Stem(name)) == Some(name)
  {
    var cursor, deposited := Padded(name.cursor, WIDTH), Padded(name.depositedMs, WIDTH);
    TwentyDigitsSuffice();
    PaddedRoundTrip(name.cursor);
    PaddedRoundTrip(name.depositedMs);
    ParseFields(cursor, deposited, name);
    assert Stem(name) == cursor + ("-" + (deposited + ("-" + name.idHex)));
  }

  /** The name of a file is a faithful record of its item. */
  lemma NameRoundTrip(name: PrintedName)
    requires name.cursor < U64_LIMIT && name.depositedMs < U64_LIMIT
    ensures ParseName(PrintName(name)) == Some(name)
    ensures var s := PrintName(name);
            && |s| == 46 + |name.idHex|
            && ParseU64(s[..20]) == Some(name.cursor) && s[20] == '-'
            && ParseU64(s[21..41]) == Some(name.depositedMs) && s[41] == '-'
            && s[42..|s| - 4] == name.idHex && s[|s| - 4..] == ".env"
  {
    var stem := Stem(name);
    TwentyDigitsSuffice();
    PaddedRoundTrip(name.cursor);
    PaddedRoundTrip(name.depositedMs);
    hide ParseU64;
    assert PrintName(name)[..20] == Padded(name.cursor, WIDTH);
    assert PrintName(name)[21..41] == Padded(name.depositedMs, WIDTH);
    StemRoundTrip(name);
    assert PrintName(name)[|stem|..] == ".env" && PrintName(name)[..|stem|] == stem;
  }

  /** The other files of a mailbox directory: the cursor, and temp files named by a process id. */
  function TempName(stem: string, pid: string): string {
    stem + ".tmp" + pid
  }

  /** Neither the cursor file nor any temp file is ever mistaken for an item. */
  lemma OnlyItemsParse(stem: string, pid: string)
    requires pid != "" && AllDigits(pid)
    ensures ParseName("cursor") == None
    ensures ParseName(TempName(stem, pid)) == None
  {
    var name := TempName(stem, pid);
    assert name[|name| - 1] == pid[|pid| - 1];
    assert name[|name| - 4..][3] == name[|name| - 1];
    assert "cursor"[2..] == "rsor";
  }

  /** Two items never share a file, so writing one never overwrites another. */
  lemma PrintNameInjective(a: PrintedName, b: PrintedName)
    requires a.cursor < U64_LIMIT && a.depositedMs < U64_LIMIT
    requires b.cursor < U64_LIMIT && b.depositedMs < U64_LIMIT
    requires PrintName(a) == PrintName(b)
    ensures a == b
  {
    NameRoundTrip(a);
    NameRoundTrip(b);
  }

  // ---- Push tags ----------------------------------------------------------------

  const PUSH_TAG_PREFIX := "pushed-"

  function PushTag(nowMs: nat, hashHex: string): string {
    PUSH_TAG_PREFIX + Padded(nowMs, WIDTH) + "-" + hashHex
  }

  function PushTagTimestamp(tag: string): Option<nat> {
    match StripPrefix(PUSH_TAG_PREFIX, tag)
    case None => None
    case Some(rest) => if |rest| < WIDTH then None else ParseU64(rest[..WIDTH])
  }

  /** Whatever starts with the prefix and twenty printed digits is a push tag of that time, and nothing shorter is. */
  lemma PushTagOf(nowMs: nat, rest: string)
    requires nowMs < U64_LIMIT
    ensures PushTagTimestamp("pushed-" + Padded(nowMs, 20) + rest) == Some(nowMs)
    ensures |rest| < 27 ==> PushTagTimestamp(rest) == None
  {
    TwentyDigitsSuffice();
    PaddedRoundTrip(nowMs);
    var tail := Padded(nowMs, WIDTH) + rest;
    var tag := PUSH_TAG_PREFIX + tail;
    assert "pushed-" + Padded(nowMs, 20) + rest == tag;
    assert tag[|PUSH_TAG_PREFIX|..] == tail && tail[..WIDTH] == Padded(nowMs, WIDTH);
  }

  /** A push tag tells its own age. */
  lemma PushTagRoundTrip(nowMs: nat, hashHex: string)
    requires nowMs < U64_LIMIT
    ensures PushTagTimestamp(PushTag(nowMs, hashHex)) == Some(nowMs)
  {
    PushTagOf(nowMs, "-" + hashHex);
    assert PushTag(nowMs, hashHex) == "pushed-" + Padded(nowMs, 20) + ("-" + hashHex);
  }
}
