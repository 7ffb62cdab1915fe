/** Decimal digit text: Ruby's `Integer#to_s` for the time keys, and the
    digit values that `strptime` and `Date.parse` read back. */
module Decimal {

  predicate IsDigit(c: char) { '0' <= c <= '9' }

  predicate AllDigits(s: string) { forall i :: 0 <= i < |s| ==> IsDigit(s[i]) }

  function DigitChar(d: nat): (c: char)
    requires d < 10
    ensures IsDigit(c)
  {
    (48 + d) as char
  }

  function DigitValue(c: char): (d: nat)
    requires IsDigit(c)
    ensures d < 10
  {
    c as int - 48
  }

  function Pow10(k: nat): (r: nat)
    ensures r >= 1
  {
    if k == 0 then 1 else 10 * Pow10(k - 1)
  }

  /** Decimal text of a natural number without sign or leading zeros. */
  function NatText(n: nat): (s: string)
    ensures 1 <= |s| && AllDigits(s)
  {
    if n < 10 then [DigitChar(n)] else NatText(n / 10) + [DigitChar(n % 10)]
  }

  /** `Integer#to_s`: the decimal digits of the value, without leading zeros,
      after a minus sign when the value is negative. */
  function IntText(i: int): (s: string)
    ensures i >= 0 ==> AllDigits(s) && Value(s) == i && (|s| > 1 ==> s[0] != '0')
    ensures i < 0 ==> |s| >= 2 && s[0] == '-' && AllDigits(s[1..]) && Value(s[1..]) == -i && s[1] != '0'
  {
    var n := if i < 0 then -i else i;
    ValueOfNatText(n);
    NatTextLeading(n);
    if i < 0 then
      var s := "-" + NatText(n);
      assert s[1..] == NatText(n);
      s
    else NatText(n)
  }

  /** The text of a positive number does not start with a zero; the text of
      zero is "0" alone. */
  lemma {:induction false} NatTextLeading(n: nat)
    ensures n >= 1 ==> NatText(n)[0] != '0'
    ensures n < 10 <==> |NatText(n)| == 1
  {
    if n >= 10 {
      NatTextLeading(n / 10);
      assert NatText(n)[0] == NatText(n / 10)[0];
    }
  }

  /** The number a string of digits denotes, read most significant first. */
  function Value(s: string): (v: nat)
    requires AllDigits(s)
    ensures v < Pow10(|s|)
  {
    if s == [] then 0
    else
      var v' := Value(s[..|s| - 1]);
      assert v' <= Pow10(|s| - 1) - 1;
      v' * 10 + DigitValue(s[|s| - 1])
  }

  /** Reading back the text of `n` gives `n`. */
  lemma {:induction false} ValueOfNatText(n: nat)
    ensures Value(NatText(n)) == n
  {
    if n >= 10 {
      var s := NatText(n);
      assert s[..|s| - 1] == NatText(n / 10);
      ValueOfNatText(n / 10);
    }
  }

  /** The number of digits `Integer#to_s` writes, for the ranges the time
      keys fall into. */
  lemma {:induction false} NatTextWidth(n: nat)
    ensures n < 10 ==> |NatText(n)| == 1
    ensures 10 <= n < 100 ==> |NatText(n)| == 2
    ensures 100 <= n < 1000 ==> |NatText(n)| == 3
    ensures 1000 <= n < 10000 ==> |NatText(n)| == 4
    ensures 10000 <= n ==> |NatText(n)| >= 5
  {
    if n >= 10 {
      NatTextWidth(n / 10);
    }
  }

  /** The value of a concatenation: the prefix is shifted by the suffix's width. */
  lemma {:induction false} ValueConcat(a: string, b: string)
    requires AllDigits(a) && AllDigits(b)
    ensures AllDigits(a + b)
    ensures Value(a + b) == Value(a) * Pow10(|b|) + Value(b)
  {
    var ab := a + b;
    assert AllDigits(ab) by {
      forall i | 0 <= i < |ab| ensures IsDigit(ab[i]) {
        if i < |a| { assert ab[i] == a[i]; } else { assert ab[i] == b[i - |a|]; }
      }
    }
    if b == [] {
      assert ab == a;
    } else {
      var b' := b[..|b| - 1];
      assert AllDigits(b');
      assert ab[..|ab| - 1] == a + b';
      ValueConcat(a, b');
      var d := DigitValue(b[|b| - 1]);
      assert Value(ab) == Value(a + b') * 10 + d;
      assert Value(b) == Value(b') * 10 + d;
      ShiftByDigit(Value(a), Pow10(|b'|), Value(b'), d);
    }
  }

  lemma ShiftByDigit(x: nat, p: nat, y: nat, d: nat)
    ensures (x * p + y) * 10 + d == x * (10 * p) + (y * 10 + d)
  {
  }

  /** A two-digit string denotes zero exactly when it is "00". */
  lemma TwoDigitZero(t: string)
    requires |t| == 2 && AllDigits(t)
    ensures Value(t) == DigitValue(t[0]) * 10 + DigitValue(t[1])
    ensures Value(t) == 0 <==> t == "00"
  {
    assert t[..1][..0] == [];
    assert t[..1] == [t[0]];
  }
}
