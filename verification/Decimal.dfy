/** Printing integers in decimal and reading them back the way std::stoi does. */
module Decimal {
  import opened Base

  const INT_MIN: int := -0x8000_0000
  const INT_MAX: int := 0x7fff_ffff

  predicate IsInt32(n: int) {
    INT_MIN <= n <= INT_MAX
  }

  predicate IsDigit(c: char) {
    '0' <= c <= '9'
  }

  predicate IsSpace(c: char) {
    c == ' ' || '\t' <= c <= '\r'
  }

  function DigitValue(c: char): nat
    requires IsDigit(c)
  {
    (c - '0') as nat
  }

  function Digits(n: nat): (s: string)
    ensures s != "" && forall c | c in s :: IsDigit(c)
  {
    if n < 10 then ['0' + n as char] else Digits(n / 10) + ['0' + (n % 10) as char]
  }

  /** std::to_string and the %d conversion. */
  function ToString(n: int): (s: string)
    ensures s != "" && forall c | c in s :: IsDigit(c) || c == '-'
  {
    if n < 0 then "-" + Digits(-n) else Digits(n)
  }

  function SkipSpace(s: string): string {
    if s != "" && IsSpace(s[0]) then SkipSpace(s[1..]) else s
  }

  /** The value of the leading digits, continuing from acc. */
  function LeadingValue(s: string, acc: nat): nat {
    if s == "" || !IsDigit(s[0]) then acc else LeadingValue(s[1..], 10 * acc + DigitValue(s[0]))
  }

  /** std::stoi in base 10; None stands for either exception. */
  function Stoi(s: string): (r: Option<int>)
    ensures r.Some? ==> IsInt32(r.value)
  {
    var t := SkipSpace(s);
    var signed := t != "" && (t[0] == '-' || t[0] == '+');
    var u := if signed then t[1..] else t;
    if u == "" || !IsDigit(u[0]) then None else
    var v: int := LeadingValue(u, 0);
    var v := if signed && t[0] == '-' then -v else v;
    if IsInt32(v) then Some(v) else None
  }

  lemma {:induction false} LeadingValueSnoc(s: string, c: char, acc: nat)
    requires IsDigit(c) && forall d | d in s :: IsDigit(d)
    ensures LeadingValue(s + [c], acc) == 10 * LeadingValue(s, acc) + DigitValue(c)
  {
    var whole := s + [c];
    if s == "" {
      assert whole[1..] == "";
    } else {
      assert s[0] in s && whole[0] == s[0] && whole[1..] == s[1..] + [c];
      LeadingValueSnoc(s[1..], c, 10 * acc + DigitValue(s[0]));
    }
  }

  lemma {:induction false} DigitsRoundTrip(n: nat)
    ensures LeadingValue(Digits(n), 0) == n
  {
    if n >= 10 {
      DigitsRoundTrip(n / 10);
      LeadingValueSnoc(Digits(n / 10), '0' + (n % 10) as char, 0);
    }
  }

  /** No digit is written in vain. */
  lemma {:induction false} NoLeadingZero(n: nat)
    ensures Digits(n)[0] == '0' <==> n == 0
    ensures n == 0 ==> Digits(n) == "0"
  {
    if n >= 10 { NoLeadingZero(n / 10); }
  }

  lemma {:induction false} LeadingValueStops(s: string, rest: string, acc: nat)
    requires (forall d | d in s :: IsDigit(d)) && (rest != "" ==> !IsDigit(rest[0]))
    ensures LeadingValue(s + rest, acc) == LeadingValue(s, acc)
  {
    var whole := s + rest;
    if s == "" {
      assert whole == rest;
    } else {
      assert s[0] in s && whole[0] == s[0] && whole[1..] == s[1..] + rest;
      LeadingValueStops(s[1..], rest, 10 * acc + DigitValue(s[0]));
    }
  }

  lemma {:induction false} SkipsSpace(space: string, t: string)
    requires (forall c | c in space :: IsSpace(c)) && (t != "" ==> !IsSpace(t[0]))
    ensures SkipSpace(space + t) == t
  {
    if space == "" {
      assert space + t == t;
    } else {
      assert (space + t)[0] == space[0] && space[0] in space && (space + t)[1..] == space[1..] + t;
      SkipsSpace(space[1..], t);
    }
  }

  /** What std::stoi reads: leading white space, a sign or none, and digits, whatever comes
      after these; only 32-bit values are let through. */
  lemma StoiReads(space: string, sign: string, n: nat, rest: string)
    requires (forall c | c in space :: IsSpace(c)) && sign in {"", "+", "-"}
    requires rest != "" ==> !IsDigit(rest[0])
    ensures var v: int := if sign == "-" then 0 - n else n;
            Stoi(space + (sign + (Digits(n) + rest))) == if IsInt32(v) then Some(v) else None
  {
    var u := Digits(n) + rest;
    var t := sign + u;
    assert Digits(n)[0] in Digits(n) && u[0] == Digits(n)[0];
    SkipsSpace(space, t);
    assert sign == "" ==> t == u;
    assert sign != "" ==> t[1..] == u;
    LeadingValueStops(Digits(n), rest, 0);
    DigitsRoundTrip(n);
  }

  /** Where no digit follows the white space and the sign, there is nothing to read. */
  lemma StoiNeedsDigit(space: string, sign: string, rest: string)
    requires (forall c | c in space :: IsSpace(c)) && sign in {"", "+", "-"}
    requires rest != "" ==> !IsDigit(rest[0]) && (sign == "" ==> !IsSpace(rest[0]) && rest[0] != '+' && rest[0] != '-')
    ensures Stoi(space + (sign + rest)) == None
  {
    var t := sign + rest;
    SkipsSpace(space, t);
    assert sign == "" ==> t == rest;
    assert sign != "" ==> t[1..] == rest;
  }

  /** Every 32-bit integer survives printing and reading. */
  lemma StoiRoundTrip(n: int)
    requires IsInt32(n)
    ensures Stoi(ToString(n)) == Some(n)
  {
    if n < 0 {
      assert ToString(n)[1..] == Digits(-n);
      assert Digits(-n)[0] in Digits(-n);
      DigitsRoundTrip(-n);
    } else {
      assert Digits(n)[0] in Digits(n);
      DigitsRoundTrip(n);
    }
  }
}
