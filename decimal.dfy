/**
 * Decimal text as the C library reads and writes it: `%d`/`%u` formatting and
 * the `%d` conversion of `sscanf`.
 */
module Decimal {
  import opened Lua

  predicate IsDigit(c: char)
  {
    '0' <= c <= '9'
  }

  predicate AllDigits(s: string)
  {
    forall i :: 0 <= i < |s| ==> IsDigit(s[i])
  }

  function DigitValue(c: char): (d: nat)
    requires IsDigit(c)
    ensures d < 10
  {
    c as int - '0' as int
  }

  function DigitChar(d: nat): (c: char)
    requires d < 10
    ensures IsDigit(c) && DigitValue(c) == d
  {
    ('0' as int + d) as char
  }

  /** `isspace` in the C locale: space, tab, newline, vertical tab, form feed, carriage return. */
  predicate IsSpace(c: char)
  {
    c == ' ' || c == '\t' || c == '\n' || c == '\r' || c as int == 11 || c as int == 12
  }

  /** `%u`, and `%d` of a non-negative value: the shortest decimal numeral. */
  function NatToString(n: nat): (s: string)
    ensures |s| > 0 && AllDigits(s)
    ensures n < 10 <==> |s| == 1
    decreases n
  {
    if n < 10 then [DigitChar(n)] else NatToString(n / 10) + [DigitChar(n % 10)]
  }

  /** `%d`: a minus sign before the numeral of a negative value. */
  function IntToString(i: int): (s: string)
    ensures |s| > 0
    ensures i < 0 <==> s[0] == '-'
  {
    if i < 0 then "-" + NatToString(-i) else NatToString(i)
  }

  /** The value of a numeral, most significant digit first. */
  function DigitsValue(s: string): nat
    requires AllDigits(s)
  {
    if |s| == 0 then 0 else DigitsValue(s[..|s| - 1]) * 10 + DigitValue(s[|s| - 1])
  }

  /** The length of the run of digits that starts `s`. */
  function DigitRun(s: string): (k: nat)
    ensures k <= |s| && AllDigits(s[..k])
    ensures k < |s| ==> !IsDigit(s[k])
  {
    if |s| == 0 || !IsDigit(s[0]) then 0
    else
      var k := 1 + DigitRun(s[1..]);
      assert s[..k] == [s[0]] + s[1..][..k - 1];
      k
  }

  /** The length of the run of white space that starts `s`. */
  function SpaceRun(s: string): (k: nat)
    ensures k <= |s|
    ensures forall i :: 0 <= i < k ==> IsSpace(s[i])
    ensures k < |s| ==> !IsSpace(s[k])
  {
    if |s| == 0 || !IsSpace(s[0]) then 0 else 1 + SpaceRun(s[1..])
  }

  /**
   * The `%d` conversion of `sscanf`: white space is skipped, then an optional
   * sign, then the longest run of digits, of which there must be at least one.
   */
  function ScanInt(s: string): Option<int>
  {
    ScanSigned(s[SpaceRun(s)..])
  }

  /** `%d` once the white space is skipped. */
  function ScanSigned(t: string): Option<int>
  {
    var signed := |t| > 0 && (t[0] == '+' || t[0] == '-');
    var u := if signed then t[1..] else t;
    var k := DigitRun(u);
    if k == 0 then None
    else
      var m: int := DigitsValue(u[..k]);
      Some(if signed && t[0] == '-' then -m else m)
  }

  lemma {:induction false} NatToStringValue(n: nat)
    ensures DigitsValue(NatToString(n)) == n
    decreases n
  {
    if n >= 10 {
      var s := NatToString(n);
      NatToStringValue(n / 10);
      assert s[..|s| - 1] == NatToString(n / 10);
    }
  }

  lemma {:induction false} DigitRunOfNumeral(ds: string, rest: string)
    requires AllDigits(ds)
    requires rest == [] || !IsDigit(rest[0])
    ensures DigitRun(ds + rest) == |ds|
    decreases |ds|
  {
    if |ds| > 0 {
      assert (ds + rest)[1..] == ds[1..] + rest;
      DigitRunOfNumeral(ds[1..], rest);
    } else {
      assert ds + rest == rest;
    }
  }

  lemma {:induction false} SpaceRunOfSpaces(ws: string, t: string)
    requires forall i :: 0 <= i < |ws| ==> IsSpace(ws[i])
    requires t == [] || !IsSpace(t[0])
    ensures SpaceRun(ws + t) == |ws|
    decreases |ws|
  {
    if |ws| > 0 {
      assert (ws + t)[1..] == ws[1..] + t;
      SpaceRunOfSpaces(ws[1..], t);
    } else {
      assert ws + t == t;
    }
  }

  lemma DigitsPrefix(ds: string, rest: string)
    requires AllDigits(ds)
    requires rest == [] || !IsDigit(rest[0])
    ensures DigitRun(ds + rest) == |ds|
    ensures (ds + rest)[..|ds|] == ds
  {
    DigitRunOfNumeral(ds, rest);
    assert (ds + rest)[..|ds|] == ds;
  }

  /** An unsigned numeral followed by a non-digit reads as its value. */
  lemma ScanUnsigned(n: nat, rest: string)
    requires rest == [] || !IsDigit(rest[0])
    ensures ScanSigned(NatToString(n) + rest) == Some(n)
  {
    var ds := NatToString(n);
    NatToStringValue(n);
    DigitsPrefix(ds, rest);
    assert IsDigit((ds + rest)[0]);
  }

  /** A minus sign, then a numeral followed by a non-digit, reads as the negated value. */
  lemma ScanNegative(n: nat, rest: string)
    requires rest == [] || !IsDigit(rest[0])
    ensures ScanSigned("-" + NatToString(n) + rest) == Some(-(n as int))
  {
    var ds := NatToString(n);
    var t := "-" + ds + rest;
    NatToStringValue(n);
    DigitsPrefix(ds, rest);
    assert t[0] == '-' && t[1..] == ds + rest;
  }

  lemma ScanSignedOfNumeral(i: int, rest: string)
    requires rest == [] || !IsDigit(rest[0])
    ensures ScanSigned(IntToString(i) + rest) == Some(i)
  {
    if i < 0 {
      ScanNegative(-i, rest);
    } else {
      ScanUnsigned(i, rest);
    }
  }

  /** Reading back what `%d` wrote, after any white space and before a non-digit, gives the value. */
  lemma ScanIntOfIntToString(ws: string, i: int, rest: string)
    requires forall j :: 0 <= j < |ws| ==> IsSpace(ws[j])
    requires rest == [] || !IsDigit(rest[0])
    ensures ScanInt(ws + IntToString(i) + rest) == Some(i)
  {
    var t := IntToString(i) + rest;
    assert ws + IntToString(i) + rest == ws + t;
    SpaceRunOfSpaces(ws, t);
    assert (ws + t)[|ws|..] == t;
    ScanSignedOfNumeral(i, rest);
  }
}
