/**
 * The string formatting the application relies on: JavaScript's `String(n)` for an
 * integer and `String.prototype.padStart`, plus a decimal reader that serves as the
 * partner of `NatToString` (what is printed reads back as the number).
 */
module Text {

  predicate IsDigit(c: char) {
    '0' <= c <= '9'
  }

  function Digit(d: nat): (c: char)
    requires d < 10
    ensures IsDigit(c) && c as int - '0' as int == d
  {
    "0123456789"[d]
  }

  function DigitValue(c: char): (d: nat)
    requires IsDigit(c)
    ensures d < 10 && Digit(d) == c
  {
    c as int - '0' as int
  }

  /** Decimal digits of `n`, most significant first, without leading zeros. */
  function NatToString(n: nat): (s: string)
    ensures |s| >= 1
    ensures forall i :: 0 <= i < |s| ==> IsDigit(s[i])
    ensures n > 0 ==> s[0] != '0'
    ensures n < 10 <==> |s| == 1
    decreases n
  {
    if n < 10 then [Digit(n)] else NatToString(n / 10) + [Digit(n % 10)]
  }

  /** JavaScript's `String(n)` on an integer-valued number. */
  function IntToString(n: int): (s: string)
    ensures n >= 0 ==> s == NatToString(n)
    ensures n < 0 ==> |s| >= 2 && s[0] == '-' && s[1..] == NatToString(-n)
  {
    if n < 0 then "-" + NatToString(-n) else NatToString(n)
  }

  function Repeat(c: char, k: nat): (s: string)
    ensures |s| == k && forall i :: 0 <= i < k ==> s[i] == c
  {
    if k == 0 then [] else [c] + Repeat(c, k - 1)
  }

  /** `s.padStart(width, fill)` for a one-character fill string. */
  function PadStart(s: string, width: nat, fill: char): (r: string)
    ensures |r| == if |s| >= width then |s| else width
    ensures r[|r| - |s|..] == s
    ensures forall i :: 0 <= i < |r| - |s| ==> r[i] == fill
  {
    if |s| >= width then s else Repeat(fill, width - |s|) + s
  }

  /** Reads a string of decimal digits (leading zeros allowed) as a number. */
  function ParseDigits(s: string): (n: nat)
    requires forall i :: 0 <= i < |s| ==> IsDigit(s[i])
  {
    if s == [] then 0 else 10 * ParseDigits(s[..|s| - 1]) + DigitValue(s[|s| - 1])
  }

  /** Printing a natural number and reading it back gives the number. */
  lemma {:induction false} ParseNatToString(n: nat)
    ensures ParseDigits(NatToString(n)) == n
    decreases n
  {
    var s := NatToString(n);
    if n >= 10 {
      ParseNatToString(n / 10);
      assert s[..|s| - 1] == NatToString(n / 10);
    }
  }

  /** Leading zeros do not change the value that is read. */
  lemma {:induction false} ParseIgnoresLeadingZeros(k: nat, s: string)
    requires forall i :: 0 <= i < |s| ==> IsDigit(s[i])
    ensures ParseDigits(Repeat('0', k) + s) == ParseDigits(s)
    decreases |s|
  {
    if s == [] {
      ParseZeros(k);
      assert Repeat('0', k) + s == Repeat('0', k);
    } else {
      var t := Repeat('0', k) + s;
      assert t[..|t| - 1] == Repeat('0', k) + s[..|s| - 1];
      ParseIgnoresLeadingZeros(k, s[..|s| - 1]);
    }
  }

  lemma {:induction false} ParseZeros(k: nat)
    ensures ParseDigits(Repeat('0', k)) == 0
  {
    if k > 0 {
      var z := Repeat('0', k);
      assert z[..k - 1] == Repeat('0', k - 1);
      ParseZeros(k - 1);
    }
  }

  /** Padding digits with zeros keeps them digits. */
  lemma PadStartKeepsDigits(s: string, width: nat)
    requires forall i :: 0 <= i < |s| ==> IsDigit(s[i])
    ensures var r := PadStart(s, width, '0'); forall i :: 0 <= i < |r| ==> IsDigit(r[i])
  {
    var r := PadStart(s, width, '0');
    forall i | 0 <= i < |r| ensures IsDigit(r[i]) {
      if i >= |r| - |s| {
        assert r[i] == r[|r| - |s|..][i - (|r| - |s|)];
      }
    }
  }

  /** A natural number padded with zeros still reads back as the number. */
  lemma PaddedNatReadsBack(n: nat, width: nat)
    ensures var r := PadStart(NatToString(n), width, '0');
      (forall i :: 0 <= i < |r| ==> IsDigit(r[i])) && ParseDigits(r) == n
  {
    var s := NatToString(n);
    PadStartKeepsDigits(s, width);
    ParseNatToString(n);
    if |s| < width {
      assert PadStart(s, width, '0') == Repeat('0', width - |s|) + s;
      ParseIgnoresLeadingZeros(width - |s|, s);
    }
  }
}
