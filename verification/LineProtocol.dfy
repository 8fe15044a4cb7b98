/** The text protocol of the DUMB servers: how a command line is read and what
    the blocking server of `dumb_common.c` answers to it.  Characters stand for
    bytes; a line has no newline and, where C string functions see it, no NUL. */
module LineProtocol {
  import opened Wrappers
  import opened Modular

  const NUL: char := 0 as char
  const MIN64 := -0x8000_0000_0000_0000
  const MAX64 := 0x7FFF_FFFF_FFFF_FFFF

  // ---- Numbers: strtoll, and the %lld of snprintf ----

  predicate IsSpace(c: char) { c == ' ' || 9 <= c as int <= 13 }
  predicate IsDigit(c: char) { '0' <= c <= '9' }

  function SkipSpaces(s: string): string {
    if s != "" && IsSpace(s[0]) then SkipSpaces(s[1..]) else s
  }

  function LeadingDigits(s: string): string {
    if s != "" && IsDigit(s[0]) then [s[0]] + LeadingDigits(s[1..]) else ""
  }

  function DigitsValue(s: string): int {
    if s == "" then 0 else 10 * DigitsValue(s[..|s| - 1]) + (s[|s| - 1] as int - '0' as int)
  }

  function Clamp64(n: int): int { if n < MIN64 then MIN64 else if n > MAX64 then MAX64 else n }

  /** Leading blanks, a sign, digits; `None` if there are no digits. */
  function Number(s: string): Option<int> {
    var t := SkipSpaces(s);
    var negative := t != "" && t[0] == '-';
    var digits := LeadingDigits(if negative || (t != "" && t[0] == '+') then t[1..] else t);
    if digits == "" then None
    else Some(Clamp64(if negative then 0 - DigitsValue(digits) else DigitsValue(digits)))
  }

  function Atoll(s: string): int {
    match Number(s) case Some(n) => n case None => 0
  }

  function DecimalNat(n: nat): string {
    if n < 10 then [(n + '0' as int) as char] else DecimalNat(n / 10) + [(n % 10 + '0' as int) as char]
  }

  function Decimal(n: int): string {
    if n < 0 then "-" + DecimalNat(-n) else DecimalNat(n)
  }

  lemma {:induction false} DecimalDigits(n: nat)
    ensures DecimalNat(n) != "" && DigitsValue(DecimalNat(n)) == n
    ensures forall k :: 0 <= k < |DecimalNat(n)| ==> IsDigit(DecimalNat(n)[k])
  {
    if n >= 10 {
      DecimalDigits(n / 10);
      assert DecimalNat(n)[..|DecimalNat(n)| - 1] == DecimalNat(n / 10);
    } else {
      assert DecimalNat(n)[..0] == "";
    }
  }

  lemma {:induction false} AllDigitsLead(s: string)
    requires forall k :: 0 <= k < |s| ==> IsDigit(s[k])
    ensures LeadingDigits(s) == s
  {
    if s != "" {
      AllDigitsLead(s[1..]);
    }
  }

  /** A printed number is read back. */
  lemma ReadBack(n: int)
    requires MIN64 <= n <= MAX64
    ensures Number(Decimal(n)) == Some(n)
  {
    var digits := DecimalNat(if n < 0 then -n else n);
    DecimalDigits(if n < 0 then -n else n);
    AllDigitsLead(digits);
    var s := Decimal(n);
    if n < 0 {
      assert s[0] == '-' && s[1..] == digits;
    } else {
      assert IsDigit(s[0]);
    }
    assert SkipSpaces(s) == s;
  }

  function Pow10(k: nat): nat { if k == 0 then 1 else 10 * Pow10(k - 1) }

  lemma {:induction false} DecimalLength(n: nat, k: nat)
    requires k > 0 && n < Pow10(k)
    ensures |DecimalNat(n)| <= k
  {
    if n >= 10 {
      DecimalLength(n / 10, k - 1);
    }
  }

  /** A 64-bit number takes at most 20 characters. */
  lemma Decimal64(n: int)
    requires MIN64 <= n <= MAX64
    ensures |Decimal(n)| <= 20
  {
    assert Pow10(4) == 1_0000;
    assert Pow10(8) == 1_0000_0000;
    assert Pow10(12) == 1_0000_0000_0000;
    assert Pow10(16) == 1_0000_0000_0000_0000;
    assert Pow10(19) == 1000_0000_0000_0000_0000;
    DecimalLength(if n < 0 then -n else n, 19);
  }

  // ---- BURN ----

  /** Two's complement wrap-around of `long long`. */
  function Wrap64(n: int): int { (n - MIN64) % 0x1_0000_0000_0000_0000 + MIN64 }

  function RecursiveBurn(depth: int): (sum: int)
    ensures MIN64 <= sum <= MAX64
    decreases depth
  {
    if depth <= 0 then 0 else Wrap64(depth + RecursiveBurn(depth - 1))
  }

  lemma WrapAdd(a: int, b: int)
    ensures Wrap64(a + Wrap64(b)) == Wrap64(a + b)
  {
    var m := 0x1_0000_0000_0000_0000;
    var q := (b - MIN64) / m;
    assert Wrap64(b) == b - q * m;
    var x, y := a + Wrap64(b) - MIN64, a + b - MIN64;
    assert y == x + q * m;
    ModUnique(y, m, x / m + q, x % m);
  }

  /** The sum of 1..depth, modulo 2^64. */
  lemma {:induction false} BurnIsTriangular(depth: nat)
    ensures RecursiveBurn(depth) == Wrap64(depth * (depth + 1) / 2)
    decreases depth
  {
    if depth > 0 {
      BurnIsTriangular(depth - 1);
      WrapAdd(depth, (depth - 1) * depth / 2);
      assert depth * (depth + 1) == (depth - 1) * depth + 2 * depth;
    }
  }

  lemma ProductBound(a: nat, b: nat, c: nat, d: nat)
    requires a <= c && b <= d
    ensures a * b <= c * d
  {
    assert a * b <= a * d && a * d <= c * d;
  }

  /** Exact as long as the sum fits. */
  lemma BurnExact(depth: nat)
    requires depth <= 0xFFFF_FFFF
    ensures RecursiveBurn(depth) == depth * (depth + 1) / 2
  {
    BurnIsTriangular(depth);
    var p := depth * (depth + 1);
    assert p <= 0xFFFF_FFFF * 0x1_0000_0000 by {
      ProductBound(depth, depth + 1, 0xFFFF_FFFF, 0x1_0000_0000);
    }
  }

  function ResultText(depth: int): (text: string)
    ensures 8 <= |text| <= 28
  {
    Decimal64(RecursiveBurn(depth));
    "RESULT " + Decimal(RecursiveBurn(depth)) + "\n"
  }

  // ---- The answers of the blocking server ----

  function As(n: int): string { if n <= 0 then "" else seq(n, _ => 'A') }

  function StreamText(n: int): string { As(n) + "DONE\n" }

  function BlockingReply(line: string): string {
    if "PING" <= line then "PONG\n"
    else if "WAIT " <= line then "DONE\n"
    else if "BURN " <= line then ResultText(Atoll(line[5..]))
    else if "STREAM " <= line then StreamText(Atoll(line[7..]))
    else "UNKNOWN_COMMAND\n"
  }

  function BlockingReplies(lines: seq<string>): string {
    if lines == [] then "" else BlockingReplies(lines[..|lines| - 1]) + BlockingReply(lines[|lines| - 1])
  }
}
