// boost::lexical_cast as the protocol uses it: decimal texts of ids, limits and flags.
module Decimal {
  import opened Basics
  import opened TextCodec

  type SolutionId = n: nat | n < UINT64
  type Millis = n: int | -INT64 <= n < INT64

  function Digit(d: nat): char
    requires d < 10
  {
    ('0' as int + d) as char
  }

  predicate IsDigit(c: char) {
    '0' <= c <= '9'
  }

  function NatText(n: nat): Bytes {
    if n < 10 then [Digit(n)] else NatText(n / 10) + [Digit(n % 10)]
  }

  function IntText(n: int): Bytes {
    if n < 0 then "-" + NatText(-n) else NatText(n)
  }

  function BoolText(b: bool): Bytes {
    if b then "1" else "0"
  }

  predicate AllDigits(s: Bytes) {
    forall i | 0 <= i < |s| :: IsDigit(s[i])
  }

  function Value(s: Bytes): nat
    requires AllDigits(s)
  {
    if s == [] then 0
    else Value(s[..|s| - 1]) * 10 + (s[|s| - 1] as int - '0' as int)
  }

  function ParseNat(s: Bytes): Parsed<nat> {
    if s != [] && AllDigits(s) then Ok(Value(s)) else Error(BadCast)
  }

  function CastId(s: Bytes): Parsed<SolutionId> {
    var n :- ParseNat(s);
    if n < UINT64 then Ok(n) else Error(BadCast)
  }

  function CastMillis(s: Bytes): Parsed<Millis> {
    if s != [] && s[0] == '-' then
      var n :- ParseNat(s[1..]);
      if n <= INT64 then Ok(0 - n) else Error(BadCast)
    else
      var n :- ParseNat(s);
      if n < INT64 then Ok(n) else Error(BadCast)
  }

  function CastBool(s: Bytes): Parsed<bool> {
    if s == "1" then Ok(true) else if s == "0" then Ok(false) else Error(BadCast)
  }

  lemma {:induction false} NatTextReadsBack(n: nat)
    ensures NatText(n) != [] && AllDigits(NatText(n)) && Value(NatText(n)) == n
  {
    if n >= 10 {
      NatTextReadsBack(n / 10);
      var s := NatText(n);
      assert s[..|s| - 1] == NatText(n / 10);
    } else {
      assert NatText(n)[..0] == [];
    }
  }

  function Power10(n: nat): nat {
    if n == 0 then 1 else 10 * Power10(n - 1)
  }

  // What a text of decimal digits stands for: each digit counts as much as its position says.
  function Positional(s: Bytes): int {
    if s == [] then 0 else (s[0] as int - 48) * Power10(|s| - 1) + Positional(s[1..])
  }

  lemma {:induction false} PositionalSnoc(s: Bytes, c: char)
    ensures Positional(s + [c]) == 10 * Positional(s) + (c as int - 48)
    decreases |s|
  {
    if s == [] {
      assert (s + [c])[1..] == [];
    } else {
      assert (s + [c])[1..] == s[1..] + [c];
      PositionalSnoc(s[1..], c);
    }
  }

  // Numbers are printed in decimal, without leading zeros.
  lemma {:induction false} NatTextIsDecimal(n: nat)
    ensures var s := NatText(n);
            && (forall i | 0 <= i < |s| :: '0' <= s[i] <= '9')
            && s != [] && (s[0] == '0' ==> n == 0 && |s| == 1)
            && Positional(s) == n
  {
    if n >= 10 {
      NatTextIsDecimal(n / 10);
      PositionalSnoc(NatText(n / 10), Digit(n % 10));
    } else {
      assert NatText(n)[1..] == [];
    }
  }

  lemma IntTextIsDecimal(n: int)
    ensures n >= 0 ==> Positional(IntText(n)) == n
    ensures n < 0 ==> IntText(n) != [] && IntText(n)[0] == '-' && Positional(IntText(n)[1..]) == -n
  {
    NatTextIsDecimal(if n < 0 then -n else n);
  }

  // Every value the protocol carries survives printing and parsing, up to both ends of its
  // machine range.
  lemma IdReadsBack(id: nat)
    requires id < 0x1_0000_0000_0000_0000
    ensures CastId(NatText(id)) == Ok(id)
  {
    NatTextReadsBack(id);
  }

  lemma MillisReadsBack(millis: int)
    requires -0x8000_0000_0000_0000 <= millis < 0x8000_0000_0000_0000
    ensures CastMillis(IntText(millis)) == Ok(millis)
  {
    hide NatText, Value;
    var s := IntText(millis);
    if millis < 0 {
      NatTextReadsBack(0 - millis);
      assert s[1..] == NatText(0 - millis);
    } else {
      NatTextReadsBack(millis);
      assert IsDigit(s[0]);
    }
  }

  lemma {:induction false} ValueIsPositional(s: Bytes)
    requires AllDigits(s)
    ensures Value(s) == Positional(s)
    decreases |s|
  {
    if s != [] {
      var n := |s| - 1;
      ValueIsPositional(s[..n]);
      PositionalSnoc(s[..n], s[n]);
      assert s == s[..n] + [s[n]];
    }
  }

  ghost predicate IsNumeral(s: Bytes) {
    s != [] && forall i | 0 <= i < |s| :: '0' <= s[i] <= '9'
  }

  // Exactly the numerals in range are ids.
  lemma CastIdIsExact(s: Bytes)
    ensures IsNumeral(s) && Positional(s) < 0x1_0000_0000_0000_0000 ==> CastId(s) == Ok(Positional(s))
    ensures !(IsNumeral(s) && Positional(s) < 0x1_0000_0000_0000_0000) ==> CastId(s) == Error(BadCast)
  {
    if IsNumeral(s) {
      ValueIsPositional(s);
    }
  }

  // Exactly the numerals in range, with or without a minus sign, are milliseconds.
  lemma CastMillisIsExact(s: Bytes)
    ensures var negative := s != [] && s[0] == '-';
            var digits := if negative then s[1..] else s;
            var n := if negative then -Positional(digits) else Positional(digits);
            CastMillis(s) ==
            if IsNumeral(digits) && -0x8000_0000_0000_0000 <= n < 0x8000_0000_0000_0000 then Ok(n)
            else Error(BadCast)
  {
    var digits := if s != [] && s[0] == '-' then s[1..] else s;
    if IsNumeral(digits) {
      ValueIsPositional(digits);
    }
  }

  // Numbers contain nothing that escaping would change.
  lemma {:induction false} DigitsAreNotEscaped(s: Bytes)
    requires forall i | 0 <= i < |s| :: IsDigit(s[i]) || s[i] == '-'
    ensures Escape(s) == s
    decreases |s|
  {
    if s != [] {
      DigitsAreNotEscaped(s[1..]);
      assert IsDigit(s[0]) || s[0] == '-';
      assert s == [s[0]] + s[1..];
    }
  }

  lemma NumbersAreNotEscaped(n: int)
    ensures Escape(IntText(n)) == IntText(n)
  {
    NatTextReadsBack(if n < 0 then -n else n);
    DigitsAreNotEscaped(IntText(n));
  }
}
