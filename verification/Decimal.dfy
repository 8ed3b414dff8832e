/** Decimal text of 64-bit integers, as strconv.FormatInt and strconv.ParseInt see it. */
module Decimal {
  import opened Meta

  const MIN_INT64 := -0x8000_0000_0000_0000
  const MAX_INT64 := 0x7fff_ffff_ffff_ffff

  type Int64 = x: int | MIN_INT64 <= x <= MAX_INT64

  function Digit(d: nat): char
    requires d < 10
  {
    '0' + d as char
  }

  predicate IsDigit(c: char) {
    '0' <= c <= '9'
  }

  function FormatNat(n: nat): string {
    if n < 10 then [Digit(n)] else FormatNat(n / 10) + [Digit(n % 10)]
  }

  function FormatInt(n: int): string {
    if n < 0 then "-" + FormatNat(-n) else FormatNat(n)
  }

  /** None if there is a character that is no digit. */
  function ParseDigits(s: string): Option<nat> {
    if s == [] then Some(0)
    else
      var front, c := s[..|s| - 1], s[|s| - 1];
      match ParseDigits(front)
      case None => None
      case Some(n) => if IsDigit(c) then Some(10 * n + (c as int - '0' as int)) else None
  }

  /** An optional sign, at least one digit, and a value of 64 bits. */
  function ParseInt(s: string): Option<int> {
    if s == [] then None
    else
      var signed := s[0] == '-' || s[0] == '+';
      var digits := if signed then s[1..] else s;
      if digits == [] then None
      else match ParseDigits(digits)
        case None => None
        case Some(n) =>
          var value := if s[0] == '-' then -(n as int) else n as int;
          if MIN_INT64 <= value <= MAX_INT64 then Some(value) else None
  }

  lemma {:induction false} ParseFormatNat(n: nat)
    ensures ParseDigits(FormatNat(n)) == Some(n)
    ensures |FormatNat(n)| > 0 && IsDigit(FormatNat(n)[0])
  {
    if n < 10 {
      assert ParseDigits([]) == Some(0);
      assert [Digit(n)][..0] == [];
    } else {
      ParseFormatNat(n / 10);
      var s := FormatNat(n);
      assert s[..|s| - 1] == FormatNat(n / 10);
      assert s[0] == FormatNat(n / 10)[0];
    }
  }

  /** Every 64-bit integer is read back from its text. */
  lemma ParseFormatInt(n: Int64)
    ensures ParseInt(FormatInt(n)) == Some(n)
  {
    var i: int := n;
    if i < 0 {
      ParseFormatNat(-i);
      var s := FormatInt(i);
      assert s[0] == '-' && s[1..] == FormatNat(-i);
    } else {
      ParseFormatNat(i);
    }
  }

  ghost function Pow10(k: nat): nat {
    if k == 0 then 1 else 10 * Pow10(k - 1)
  }

  predicate AllDigits(s: string) {
    forall i | 0 <= i < |s| :: IsDigit(s[i])
  }

  /** The number that digits stand for: each counts by its position. */
  ghost function Positional(s: string): nat
    requires AllDigits(s)
  {
    if s == [] then 0 else (s[0] as int - '0' as int) * Pow10(|s| - 1) + Positional(s[1..])
  }

  lemma TenTimes(d: int, p: int)
    ensures d * (10 * p) == 10 * (d * p)
  {
  }

  lemma {:induction false} OneDigitMore(s: string, c: char)
    requires AllDigits(s) && IsDigit(c)
    ensures AllDigits(s + [c]) && Positional(s + [c]) == 10 * Positional(s) + (c as int - '0' as int)
  {
    if s == [] {
      assert (s + [c])[1..] == [];
    } else {
      OneDigitMore(s[1..], c);
      assert (s + [c])[1..] == s[1..] + [c];
      TenTimes(s[0] as int - '0' as int, Pow10(|s| - 1));
    }
  }

  /** Digits are read by position, and nothing else is read. */
  lemma {:induction false} ParseDigitsIsPositional(s: string)
    ensures ParseDigits(s) == if AllDigits(s) then Some(Positional(s)) else None
  {
    if s != [] {
      var front, c := s[..|s| - 1], s[|s| - 1];
      assert s == front + [c];
      ParseDigitsIsPositional(front);
      if AllDigits(front) && IsDigit(c) { OneDigitMore(front, c); }
      assert AllDigits(s) <==> AllDigits(front) && IsDigit(c);
    }
  }

  /** What can be read: digits, after a sign or not, whose value has 64 bits. */
  lemma ReadableInts(s: string)
    requires AllDigits(s) && s != []
    ensures ParseInt(s) == (if Positional(s) <= 0x7fff_ffff_ffff_ffff then Some(Positional(s)) else None)
    ensures ParseInt("+" + s) == ParseInt(s)
    ensures ParseInt("-" + s) ==
            (if Positional(s) <= 0x8000_0000_0000_0000 then Some(-(Positional(s) as int)) else None)
  {
    ParseDigitsIsPositional(s);
    assert ("+" + s)[1..] == s && ("-" + s)[1..] == s;
  }

  lemma UnreadableInts(s: string)
    requires !AllDigits(s) || s == []
    ensures ParseInt("+" + s).None? && ParseInt("-" + s).None?
    ensures (s == [] || (s[0] != '+' && s[0] != '-')) ==> ParseInt(s).None?
  {
    ParseDigitsIsPositional(s);
    assert ("+" + s)[1..] == s && ("-" + s)[1..] == s;
  }

  /** The text of a number has a minus sign if it is negative, and no superfluous zeros. */
  lemma {:induction false} FormatNatIsShort(n: nat)
    ensures AllDigits(FormatNat(n)) && |FormatNat(n)| > 0 && (FormatNat(n)[0] == '0' <==> n == 0)
    ensures n == 0 ==> FormatNat(n) == "0"
  {
    if n >= 10 { FormatNatIsShort(n / 10); }
  }

  lemma FormatIntIsShort(n: int)
    ensures var digits := if n < 0 then FormatInt(n)[1..] else FormatInt(n);
            && (n < 0 ==> FormatInt(n)[0] == '-')
            && AllDigits(digits) && digits != [] && (digits[0] == '0' ==> digits == "0" && n == 0)
  {
    FormatNatIsShort(if n < 0 then -n else n);
  }
}
