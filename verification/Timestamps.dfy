/** Unix timestamps as decimal text: the resolution is not written, it is told from the length. */
module Timestamps {
  import opened Options

  /** Any value but the four prints as zero. */
  datatype Resolution = Second | Milli | Micro | Nano | Other

  // ----- Decimal text

  const MIN_INT64 := -0x8000_0000_0000_0000
  const MAX_INT64 := 0x7fff_ffff_ffff_ffff

  function Digit(d: nat): char
    requires d < 10
  {
    '0' + d as char
  }

  predicate IsDigit(c: char) {
    '0' <= c <= '9'
  }

  /** Without leading zeros. */
  function Digits(n: nat): string {
    if n < 10 then [Digit(n)] else Digits(n / 10) + [Digit(n % 10)]
  }

  function FormatInt(i: int): string {
    if i < 0 then "-" + Digits(-i) else Digits(i)
  }

  function DigitsValue(s: string): Option<nat> {
    if s == "" then None
    else
      var c := s[|s| - 1];
      if !IsDigit(c) then None
      else if |s| == 1 then Some((c - '0') as nat)
      else match DigitsValue(s[..|s| - 1])
        case None => None
        case Some(n) => Some(10 * n + (c - '0') as nat)
  }

  /** A sign or none, then digits; fails outside 64 bits. */
  function ParseInt(s: string): Option<int> {
    var signed := s != "" && s[0] in {'+', '-'};
    match DigitsValue(if signed then s[1..] else s)
    case None => None
    case Some(n) =>
      var i := if signed && s[0] == '-' then 0 - n as int else n as int;
      if MIN_INT64 <= i <= MAX_INT64 then Some(i) else None
  }

  /** Digits are read if there is at least one and nothing else; a leading zero changes nothing. */
  lemma {:induction false} ReadsDigits(s: string)
    ensures DigitsValue(s).Some? <==> s != "" && forall c :: c in s ==> IsDigit(c)
    ensures DigitsValue(s).Some? ==> DigitsValue("0" + s) == DigitsValue(s)
  {
    if |s| == 1 {
      assert s == [s[0]];
      assert ("0" + s)[..1] == "0" && ("0" + s)[1] == s[0];
    } else if s != "" {
      var n := |s| - 1;
      assert s == s[..n] + [s[n]];
      ReadsDigits(s[..n]);
      assert ("0" + s)[..n + 1] == "0" + s[..n];
    }
  }

  /** A number may have a sign and leading zeros; it is read if it fits 64 bits. */
  lemma ReadsNumbers(s: string, n: nat)
    requires DigitsValue(s) == Some(n)
    ensures ParseInt(s) == ParseInt("+" + s) == if n <= MAX_INT64 then Some(n) else None
    ensures ParseInt("-" + s) == if 0 - n as int >= MIN_INT64 then Some(0 - n as int) else None
  {
    ReadsDigits(s);
    assert IsDigit(s[0]);
    assert ("+" + s)[1..] == s && ("-" + s)[1..] == s;
  }

  lemma {:induction false} DigitsRoundTrip(n: nat)
    ensures DigitsValue(Digits(n)) == Some(n) && forall c :: c in Digits(n) ==> IsDigit(c)
  {
    if n < 10 {
    } else {
      DigitsRoundTrip(n / 10);
      var s := Digits(n);
      assert s[..|s| - 1] == Digits(n / 10) && s[|s| - 1] == Digit(n % 10);
    }
  }

  /** The text of a number parses to it, if it fits 64 bits. */
  lemma FormatRoundTrip(i: int)
    ensures ParseInt(FormatInt(i)) == if MIN_INT64 <= i <= MAX_INT64 then Some(i) else None
  {
    var n: nat := if i < 0 then 0 - i else i;
    DigitsRoundTrip(n);
    var s := FormatInt(i);
    if i < 0 {
      assert s[0] == '-' && s[1..] == Digits(n);
    } else {
      assert s[0] in Digits(n);
      assert IsDigit(s[0]);
    }
  }

  function Pow10(k: nat): nat {
    if k == 0 then 1 else 10 * Pow10(k - 1)
  }

  /** A number has at most `k` digits exactly when it is below the k-th power of ten. */
  lemma {:induction false} DigitCount(n: nat, k: nat)
    requires k > 0
    ensures |Digits(n)| <= k <==> n < Pow10(k)
  {
    if k == 1 {
      assert Pow10(1) == 10;
    } else if n < 10 {
      PowAtLeastTen(k);
    } else {
      DigitCount(n / 10, k - 1);
    }
  }

  lemma {:induction false} PowAtLeastTen(k: nat)
    requires k > 0
    ensures Pow10(k) >= 10
  {
    if k > 1 {
      PowAtLeastTen(k - 1);
    }
  }

  // ----- Instants, in nanoseconds since the epoch

  function Unit(res: Resolution): nat {
    match res
    case Second => 1_000_000_000
    case Milli => 1_000_000
    case Micro => 1_000
    case Nano => 1
    case Other => 1
  }

  /** Two's complement in 64 bits. */
  function Wrap64(x: int): int {
    (x - MIN_INT64) % 0x1_0000_0000_0000_0000 + MIN_INT64
  }

  /** The whole units up to an instant, rounded down. */
  function Count(time: int, res: Resolution): int {
    if res == Other then 0 else Wrap64(time / Unit(res))
  }

  function Printed(time: int, res: Resolution): string {
    FormatInt(Count(time, res))
  }

  function ResolutionOf(length: nat): Option<Resolution> {
    if length <= 12 then Some(Second)
    else if length <= 15 then Some(Milli)
    else if length <= 18 then Some(Micro)
    else if length <= 21 then Some(Nano)
    else None
  }

  function Parsed(b: string): Option<(int, Resolution)> {
    match ParseInt(b)
    case None => None
    case Some(i) =>
      match ResolutionOf(|b|)
      case None => None
      case Some(res) => Some((i * Unit(res), res))
  }

  class Unix {
    var time: int
    var res: Resolution

    constructor (time: int, res: Resolution)
      ensures this.time == time && this.res == res
    {
      this.time, this.res := time, res;
    }

    method SetResolution(res: Resolution)
      modifies this
      ensures this.res == res && time == old(time)
    {
      this.res := res;
    }

    method String() returns (text: string)
      ensures text == Printed(time, res)
      ensures MIN_INT64 <= time <= MAX_INT64 ==> text == FormatInt(WholeUnitsOf(time, res))
    {
      CountFits(time, res);
      var s := 0;
      match res {
        case Second => s := Wrap64(time / 1_000_000_000);
        case Milli => s := Wrap64(time / 1_000_000);
        case Micro => s := Wrap64(time / 1_000);
        case Nano => s := Wrap64(time);
        case Other =>
      }
      text := FormatInt(s);
    }

    method UnmarshalJSON(b: string) returns (ok: bool)
      modifies this
      ensures ok <==> Parsed(b).Some?
      ensures if ok then (time, res) == Parsed(b).value else time == old(time) && res == old(res)
      ensures ok <==> ParseInt(b).Some? && |b| <= 21
      ensures ok ==>
        var n := ParseInt(b).value;
        if |b| <= 12 then res == Second && time == n * 1_000_000_000
        else if |b| <= 15 then res == Milli && time == n * 1_000_000
        else if |b| <= 18 then res == Micro && time == n * 1_000
        else res == Nano && time == n
    {
      var i := ParseInt(b);
      if i == None {
        return false;
      }
      var length := |b|;
      if length <= 12 {
        time, res := i.value * 1_000_000_000, Second;
      } else if length <= 15 {
        time, res := i.value * 1_000_000, Milli;
      } else if length <= 18 {
        time, res := i.value * 1_000, Micro;
      } else if length <= 21 {
        time, res := i.value, Nano;
      } else {
        return false;
      }
      ok := true;
    }
  }

  /** Wrapping gives the one number of 64 bits that differs by a multiple of 2 to the 64th. */
  lemma WrapInRange(x: int)
    ensures MIN_INT64 <= Wrap64(x) <= MAX_INT64 && (Wrap64(x) - x) % 0x1_0000_0000_0000_0000 == 0
    ensures MIN_INT64 <= x <= MAX_INT64 ==> Wrap64(x) == x
  {
  }

  /** Seconds, thousandths, millionths or billionths, rounded down; anything else counts nothing. */
  function WholeUnitsOf(time: int, res: Resolution): int {
    match res
    case Second => time / 1_000_000_000
    case Milli => time / 1_000_000
    case Micro => time / 1_000
    case Nano => time
    case Other => 0
  }

  /** What an instant within 64 bits counts in each resolution. */
  lemma CountFits(time: int, res: Resolution)
    ensures MIN_INT64 <= Count(time, res) <= MAX_INT64
    ensures MIN_INT64 <= time <= MAX_INT64 ==> Count(time, res) == WholeUnitsOf(time, res)
  {
    WrapInRange(time / Unit(res));
    if MIN_INT64 <= time <= MAX_INT64 {
      match res {
        case Second => assert MIN_INT64 <= time / 1_000_000_000 <= MAX_INT64;
        case Milli => assert MIN_INT64 <= time / 1_000_000 <= MAX_INT64;
        case Micro => assert MIN_INT64 <= time / 1_000 <= MAX_INT64;
        case Nano => assert time / 1 == time;
        case Other =>
      }
    }
  }

  lemma WholeUnits(i: int, res: Resolution)
    requires MIN_INT64 <= i <= MAX_INT64 && res != Other
    ensures Count(i * Unit(res), res) == i
  {
    WrapInRange(i);
    match res {
      case Second => assert i * 1_000_000_000 / 1_000_000_000 == i;
      case Milli => assert i * 1_000_000 / 1_000_000 == i;
      case Micro => assert i * 1_000 / 1_000 == i;
      case Nano =>
    }
  }

  /** Printing what was parsed gives the canonical text of the same number, and so the same text
      if it was canonical. */
  lemma TextRoundTrip(b: string)
    requires Parsed(b).Some?
    ensures Printed(Parsed(b).value.0, Parsed(b).value.1) == FormatInt(ParseInt(b).value)
    ensures (exists i: int :: b == FormatInt(i)) ==> Printed(Parsed(b).value.0, Parsed(b).value.1) == b
  {
    var i := ParseInt(b).value;
    WholeUnits(i, Parsed(b).value.1);
    if j: int :| b == FormatInt(j) {
      FormatRoundTrip(j);
    }
  }

  /** The counts whose texts have the lengths of a resolution. */
  predicate InRange(v: int, res: Resolution) {
    match res
    case Second => -100_000_000_000 < v < 1_000_000_000_000
    case Milli => 1_000_000_000_000 <= v < 1_000_000_000_000_000 || -100_000_000_000_000 < v <= -100_000_000_000
    case Micro => 1_000_000_000_000_000 <= v < 1_000_000_000_000_000_000 ||
      -100_000_000_000_000_000 < v <= -100_000_000_000_000
    case Nano => 1_000_000_000_000_000_000 <= v || v <= -100_000_000_000_000_000
    case Other => false
  }

  lemma Powers()
    ensures Pow10(11) == 100_000_000_000 && Pow10(12) == 1_000_000_000_000
    ensures Pow10(14) == 100_000_000_000_000 && Pow10(15) == 1_000_000_000_000_000
    ensures Pow10(17) == 100_000_000_000_000_000 && Pow10(18) == 1_000_000_000_000_000_000
    ensures Pow10(20) == 100_000_000_000_000_000_000 && Pow10(21) == 1_000_000_000_000_000_000_000
  {
    assert Pow10(6) == 1_000_000;
    assert Pow10(12) == 1_000_000_000_000;
    assert Pow10(18) == 1_000_000_000_000_000_000;
  }

  lemma LengthOf(v: int)
    requires MIN_INT64 <= v <= MAX_INT64
    ensures |FormatInt(v)| <= 12 <==> -100_000_000_000 < v < 1_000_000_000_000
    ensures |FormatInt(v)| <= 15 <==> -100_000_000_000_000 < v < 1_000_000_000_000_000
    ensures |FormatInt(v)| <= 18 <==> -100_000_000_000_000_000 < v < 1_000_000_000_000_000_000
    ensures |FormatInt(v)| <= 21
  {
    Powers();
    if v < 0 {
      DigitCount(-v, 11);
      DigitCount(-v, 14);
      DigitCount(-v, 17);
      DigitCount(-v, 20);
    } else {
      DigitCount(v, 12);
      DigitCount(v, 15);
      DigitCount(v, 18);
      DigitCount(v, 21);
    }
  }

  /** Parsing a printed instant always succeeds; it restores the resolution exactly when the count
      of units is in the resolution's range, and then the instant rounded down. */
  lemma RestoredExactlyWhen(time: int, res: Resolution)
    ensures Parsed(Printed(time, res)).Some?
    ensures Parsed(Printed(time, res)).value.1 == res <==> InRange(Count(time, res), res)
    ensures InRange(Count(time, res), res) ==> Parsed(Printed(time, res)).value.0 == Count(time, res) * Unit(res)
  {
    var v := Count(time, res);
    WrapInRange(time / Unit(res));
    FormatRoundTrip(v);
    LengthOf(v);
  }

  /** From the billionth second to the last nanosecond that 64 bits count, every resolution and
      the instant rounded down to it are restored. */
  lemma InstantRoundTrip(time: int, res: Resolution)
    requires 1_000_000_000 * 1_000_000_000 <= time <= MAX_INT64 && res != Other
    ensures Parsed(Printed(time, res)) == Some((time - time % Unit(res), res))
    ensures Unit(res) ==
      match res
      case Second => 1_000_000_000
      case Milli => 1_000_000
      case Micro => 1_000
      case _ => 1
  {
    InstantCount(time, res);
    WrapInRange(time / Unit(res));
    RestoredExactlyWhen(time, res);
  }

  lemma InstantCount(time: int, res: Resolution)
    requires 1_000_000_000 * 1_000_000_000 <= time <= MAX_INT64 && res != Other
    ensures InRange(time / Unit(res), res) && 0 <= time / Unit(res) <= MAX_INT64
    ensures time / Unit(res) * Unit(res) == time - time % Unit(res)
  {
    match res {
      case Second => assert 1_000_000_000 <= time / 1_000_000_000 <= 9_223_372_036;
      case Milli => assert 1_000_000_000_000 <= time / 1_000_000 <= 9_223_372_036_854;
      case Micro => assert 1_000_000_000_000_000 <= time / 1_000 <= 9_223_372_036_854_775;
      case Nano =>
    }
  }
}
