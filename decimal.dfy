/** Decimal rendering of integers, as `Number.prototype.toString()` and
    `String.prototype.padStart` produce it, and its inverse. */
module Decimal {

  predicate IsDigit(c: char) { '0' <= c <= '9' }

  predicate AllDigits(s: string) { forall i :: 0 <= i < |s| ==> IsDigit(s[i]) }

  function DigitChar(d: nat): (c: char)
    requires d < 10
    ensures IsDigit(c) && c as int - '0' as int == d
  {
    ('0' as int + d) as char
  }

  /** `n.toString()` for a non-negative integer. */
  function NatToString(n: nat): (s: string)
    ensures |s| >= 1 && AllDigits(s)
    ensures n < 10 <==> |s| == 1
  {
    if n < 10 then [DigitChar(n)] else NatToString(n / 10) + [DigitChar(n % 10)]
  }

  /** `n.toString()` for any integer. */
  function IntToString(n: int): (s: string)
    ensures |s| >= 1
    ensures n < 0 <==> s[0] == '-'
  {
    if n < 0 then "-" + NatToString(-n) else NatToString(n)
  }

  /** The number a string of decimal digits denotes. */
  function Value(s: string): nat
    requires AllDigits(s)
  {
    if s == [] then 0 else Value(s[..|s| - 1]) * 10 + (s[|s| - 1] as int - '0' as int)
  }

  function Repeat(c: char, k: nat): (r: string)
    ensures |r| == k && forall i :: 0 <= i < k ==> r[i] == c
  {
    if k == 0 then [] else [c] + Repeat(c, k - 1)
  }

  /** `s.padStart(width, fill)`. */
  function PadStart(s: string, width: nat, fill: char): (r: string)
    ensures |r| == if |s| >= width then |s| else width
    ensures r[|r| - |s|..] == s
    ensures forall i :: 0 <= i < |r| - |s| ==> r[i] == fill
  {
    if |s| >= width then s else Repeat(fill, width - |s|) + s
  }

  lemma {:induction false} ValueSnoc(s: string, c: char)
    requires AllDigits(s) && IsDigit(c)
    ensures AllDigits(s + [c])
    ensures Value(s + [c]) == Value(s) * 10 + (c as int - '0' as int)
  {
    assert (s + [c])[..|s + [c]| - 1] == s;
  }

  /** Reading back what NatToString writes gives the number. */
  lemma {:induction false} NatToStringValue(n: nat)
    ensures Value(NatToString(n)) == n
  {
    if n < 10 {
      assert NatToString(n)[..0] == [];
    } else {
      NatToStringValue(n / 10);
      ValueSnoc(NatToString(n / 10), DigitChar(n % 10));
    }
  }

  /** A leading zero does not change the value. */
  lemma {:induction false} ValueLeadingZero(s: string)
    requires AllDigits(s)
    ensures AllDigits("0" + s) && Value("0" + s) == Value(s)
    decreases |s|
  {
    if s == [] {
      assert ("0" + s)[..0] == [];
    } else {
      var p, c := s[..|s| - 1], s[|s| - 1];
      assert s == p + [c];
      ValueLeadingZero(p);
      assert "0" + s == ("0" + p) + [c];
      ValueSnoc("0" + p, c);
      ValueSnoc(p, c);
    }
  }

  /** Padding a digit string with zeros keeps its value. */
  lemma {:induction false} PadZerosValue(s: string, width: nat)
    requires AllDigits(s)
    ensures AllDigits(PadStart(s, width, '0'))
    ensures Value(PadStart(s, width, '0')) == Value(s)
    decreases width - |s|
  {
    if |s| < width {
      ValueLeadingZero(s);
      PadZerosValue("0" + s, width);
      assert PadStart(s, width, '0') == PadStart("0" + s, width, '0') by {
        assert Repeat('0', width - |s|) + s == Repeat('0', width - |s| - 1) + ("0" + s);
      }
    }
  }
}
