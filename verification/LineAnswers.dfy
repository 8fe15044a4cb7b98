/** What the two line servers answer, command by command, in plain numbers and texts. */
module LineAnswers {
  import opened Wrappers
  import opened LineProtocol
  import opened EpollServer

  // ---- Numbers ----

  predicate Blank(c: char) { c == ' ' || 9 <= c as int <= 13 }

  predicate Digit(c: char) { 48 <= c as int <= 57 }

  /** The nearest number that `long long` can hold. */
  function Nearest(n: int): int {
    if n < -9223372036854775808 then -9223372036854775808
    else if n > 9223372036854775807 then 9223372036854775807 else n
  }

  lemma {:induction false} BlanksSkipped(blanks: string, s: string)
    requires (forall k :: 0 <= k < |blanks| ==> Blank(blanks[k])) && (s == "" || !Blank(s[0]))
    ensures SkipSpaces(blanks + s) == s
  {
    if blanks == "" {
      assert blanks + s == s;
    } else {
      assert (blanks + s)[1..] == blanks[1..] + s;
      BlanksSkipped(blanks[1..], s);
    }
  }

  lemma {:induction false} DigitsLead(digits: string, rest: string)
    requires (forall k :: 0 <= k < |digits| ==> Digit(digits[k])) && (rest == "" || !Digit(rest[0]))
    ensures LeadingDigits(digits + rest) == digits
  {
    if digits == "" {
      assert digits + rest == rest;
    } else {
      assert (digits + rest)[1..] == digits[1..] + rest;
      DigitsLead(digits[1..], rest);
      assert digits == [digits[0]] + digits[1..];
    }
  }

  /** `atoll`, and `%lld` of `sscanf`: blanks, a sign, digits; what follows is ignored,
      and a number out of range is read as the nearest one. */
  lemma NumberReads(blanks: string, sign: string, n: nat, rest: string)
    requires (forall k :: 0 <= k < |blanks| ==> Blank(blanks[k])) && sign in {"", "+", "-"}
    requires rest == "" || !Digit(rest[0])
    ensures Number(blanks + sign + DecimalNat(n) + rest) == Some(Nearest(if sign == "-" then 0 - n else n))
  {
    DecimalDigits(n);
    hide SkipSpaces, LeadingDigits, DigitsValue, DecimalNat, Number;
    var digits := DecimalNat(n);
    var t := sign + digits + rest;
    assert blanks + sign + digits + rest == blanks + t;
    assert t[0] == if sign == "" then digits[0] else sign[0];
    BlanksSkipped(blanks, t);
    DigitsLead(digits, rest);
    SignedNumber(blanks + t, sign, digits, rest);
  }

  lemma SignedNumber(s: string, sign: string, digits: string, rest: string)
    requires sign in {"", "+", "-"} && SkipSpaces(s) == sign + digits + rest
    requires LeadingDigits(digits + rest) == digits && digits != "" && Digit(digits[0])
    ensures Number(s) == Some(Nearest(if sign == "-" then 0 - DigitsValue(digits) else DigitsValue(digits)))
  {
    hide SkipSpaces, LeadingDigits, DigitsValue;
    var t := sign + digits + rest;
    if sign == "" {
      assert t == digits + rest && t[0] == digits[0];
      assert t[0] != '-' && t[0] != '+';
    } else if sign == "-" {
      assert t[0] == '-' && t[1..] == digits + rest;
    } else {
      assert t[0] == '+' && t[1..] == digits + rest;
    }
  }

  /** Without digits there is no number: `atoll` gives 0, `sscanf` leaves its default. */
  lemma NoNumber(blanks: string, sign: string, rest: string)
    requires (forall k :: 0 <= k < |blanks| ==> Blank(blanks[k])) && sign in {"", "+", "-"}
    requires rest == "" || (!Digit(rest[0]) && (sign == "" ==> !Blank(rest[0]) && rest[0] != '+' && rest[0] != '-'))
    ensures Number(blanks + sign + rest) == None && Atoll(blanks + sign + rest) == 0
  {
    var t := sign + rest;
    assert blanks + sign + rest == blanks + t;
    assert t == "" || t[0] == if sign == "" then rest[0] else sign[0];
    BlanksSkipped(blanks, t);
    DigitsLead("", rest);
    assert "" + rest == rest;
    assert sign == "" ==> t == rest;
    assert sign != "" ==> t[1..] == rest;
  }

  lemma NumberOfDecimal(n: int)
    requires -9223372036854775808 <= n <= 9223372036854775807
    ensures Number(Decimal(n)) == Some(n)
  {
    ReadBack(n);
  }

  /** Some numbers as they are printed. */
  lemma Printed()
    ensures Decimal(0) == "0" && Decimal(3) == "3" && Decimal(6) == "6"
    ensures Decimal(120) == "120" && Decimal(-45) == "-45"
  {
    assert DecimalNat(12) == "12" && DecimalNat(120) == "120" && DecimalNat(45) == "45";
  }

  // ---- BURN ----

  /** The sum of 1 to n as 64 bits hold it: in range, and off by a multiple of 2^64. */
  predicate IsSum64(sum: int, n: nat) {
    && -9223372036854775808 <= sum <= 9223372036854775807
    && (n * (n + 1) / 2 - sum) % 18446744073709551616 == 0
  }

  lemma SumUpTo(n: nat)
    ensures IsSum64(RecursiveBurn(n), n)
    ensures n <= 4294967295 ==> RecursiveBurn(n) == n * (n + 1) / 2
  {
    BurnIsTriangular(n);
    WrapOff(n * (n + 1) / 2);
    if n <= 4294967295 { BurnExact(n); }
  }

  lemma WrapOff(n: int)
    ensures (n - Wrap64(n)) % 18446744073709551616 == 0
  {
  }

  /** `BURN n` is answered with the sum of 1 to n, by both servers. */
  lemma BurnAnswer(n: nat)
    requires n <= 9223372036854775807
    ensures exists sum :: IsSum64(sum, n) && BlockingReply("BURN " + Decimal(n)) == "RESULT " + Decimal(sum) + "\n"
    ensures n <= 4294967295 ==>
              BlockingReply("BURN " + Decimal(n)) == "RESULT " + Decimal(n * (n + 1) / 2) + "\n"
    ensures EpollAnswer("BURN " + Decimal(n)) == Finite(BlockingReply("BURN " + Decimal(n)))
  {
    BurnText(Decimal(n));
    NumberOfDecimal(n);
    SumUpTo(n);
    assert IsSum64(RecursiveBurn(n), n);
    BurnAlike(Decimal(n));
  }

  lemma BurnText(arg: string)
    ensures BlockingReply("BURN " + arg) == "RESULT " + Decimal(RecursiveBurn(Atoll(arg))) + "\n"
  {
    FirstLetter("BURN " + arg);
    assert ("BURN " + arg)[0] == 'B' && ("BURN " + arg)[5..] == arg;
  }

  lemma BurnAlike(arg: string)
    ensures EpollAnswer("BURN " + arg) == Finite(BlockingReply("BURN " + arg))
  {
    assert "BURN " <= "BURN " + arg;
    AgreeExactly("BURN " + arg);
  }

  /** Nothing to add up: a number that is not positive, or none at all. */
  lemma BurnNothing(arg: string)
    requires Number(arg).None? || Number(arg).value <= 0
    ensures BlockingReply("BURN " + arg) == "RESULT 0\n"
    ensures EpollAnswer("BURN " + arg) == Finite("RESULT 0\n")
  {
    BurnText(arg);
    BurnAlike(arg);
    assert Decimal(0) == "0";
    assert "RESULT " + "0" + "\n" == "RESULT 0\n";
  }

  // ---- STREAM ----

  /** n letters, and the trailer. */
  predicate IsStream(text: string, n: nat) {
    && |text| == n + 5 && text[n..] == "DONE\n"
    && forall k :: 0 <= k < n ==> text[k] == 'A'
  }

  lemma StreamTextIs(n: nat)
    ensures IsStream(StreamText(n), n)
  {
  }

  lemma StreamReply(arg: string)
    ensures BlockingReply("STREAM " + arg) == StreamText(Atoll(arg))
    ensures EpollAnswer("STREAM " + arg) ==
            match Number(arg)
            case None => Finite(StreamText(65536))
            case Some(n) => if n < 0 then Endless else Finite(StreamText(n))
  {
    var line := "STREAM " + arg;
    FirstLetter(line);
    assert line[0] == 'S' && line[7..] == arg && "STREAM " <= line;
    BlankSkipped(line[6..]);
    assert line[6..][1..] == arg;
  }

  /** `STREAM n` is answered with n letters and DONE, by both servers. */
  lemma StreamAnswer(n: nat)
    requires n <= 9223372036854775807
    ensures IsStream(BlockingReply("STREAM " + Decimal(n)), n)
    ensures EpollAnswer("STREAM " + Decimal(n)) == Finite(BlockingReply("STREAM " + Decimal(n)))
  {
    StreamReply(Decimal(n));
    NumberOfDecimal(n);
    StreamTextIs(n);
  }

  /** Where they part: a negative size is DONE at once for the one and never for the
      other, and no size at all is 0 for the one and 65536 for the other. */
  lemma StreamAnswersDiffer(arg: string)
    requires Number(arg).None? || Number(arg).value < 0
    ensures BlockingReply("STREAM " + arg) == "DONE\n"
    ensures Number(arg).Some? ==> EpollAnswer("STREAM " + arg) == Endless
    ensures Number(arg).None? ==>
              EpollAnswer("STREAM " + arg).Finite? && IsStream(EpollAnswer("STREAM " + arg).text, 65536)
  {
    StreamReply(arg);
    StreamTextIs(65536);
    assert "" + "DONE\n" == "DONE\n";
  }

  // ---- The other commands ----

  lemma PingAnswer(arg: string)
    ensures BlockingReply("PING" + arg) == "PONG\n" && EpollAnswer("PING" + arg) == Finite("PONG\n")
  {
    assert "PING" <= "PING" + arg;
  }

  lemma WaitAnswer(arg: string)
    ensures BlockingReply("WAIT " + arg) == "DONE\n" && EpollAnswer("WAIT " + arg) == Silent
  {
    assert "WAIT " <= "WAIT " + arg && ("WAIT " + arg)[0] == 'W';
    FirstLetter("WAIT " + arg);
  }

  /** Everything else: the one says so, the other says nothing. */
  lemma UnknownAnswer(line: string)
    requires !("PING" <= line) && !("WAIT " <= line) && !("BURN " <= line) && !("STREAM " <= line)
    ensures BlockingReply(line) == "UNKNOWN_COMMAND\n"
    ensures !("BURN" <= line) && !("STREAM" <= line) ==> EpollAnswer(line) == Silent
  {
  }

  lemma BurnThree(line: string)
    requires line == "BURN 3"
    ensures BlockingReply(line) == "RESULT 6\n" && EpollAnswer(line) == Finite("RESULT 6\n")
  {
    hide BlockingReply, EpollAnswer, DecimalNat;
    Printed();
    BurnAnswer(3);
    assert line == "BURN " + Decimal(3);
    assert "RESULT " + Decimal(6) + "\n" == "RESULT 6\n";
  }
}
