/** Decimal text of a natural number, plain and zero-padded, and how it is read back. */
module Decimal {

  function Digit(n: nat): char
    requires n < 10
  {
    "0123456789"[n]
  }

  predicate IsDigit(c: char) {
    '0' <= c <= '9'
  }

  predicate AllDigits(s: string) {
    forall i :: 0 <= i < |s| ==> IsDigit(s[i])
  }

  /** `str(n)`. */
  function Dec(n: nat): string {
    if n < 10 then [Digit(n)] else Dec(n / 10) + [Digit(n % 10)]
  }

  function Parse(s: string): nat
    requires AllDigits(s)
  {
    if s == "" then 0 else 10 * Parse(s[..|s| - 1]) + (s[|s| - 1] as int - '0' as int)
  }

  function Pow10(k: nat): nat {
    if k == 0 then 1 else 10 * Pow10(k - 1)
  }

  lemma DigitValue(n: nat)
    requires n < 10
    ensures IsDigit(Digit(n)) && Digit(n) as int - '0' as int == n
  {
  }

  lemma {:induction false} DecDigits(n: nat)
    ensures AllDigits(Dec(n)) && |Dec(n)| >= 1
  {
    DigitValue(n % 10);
    if n >= 10 {
      DecDigits(n / 10);
    }
  }

  lemma ParseSnoc(s: string, d: nat)
    requires AllDigits(s) && d < 10
    ensures AllDigits(s + [Digit(d)]) && Parse(s + [Digit(d)]) == 10 * Parse(s) + d
  {
    DigitValue(d);
    hide Digit;
    assert (s + [Digit(d)])[..|s|] == s;
  }

  /** Reading undoes printing. */
  lemma {:induction false} ParseDec(n: nat)
    ensures AllDigits(Dec(n)) && Parse(Dec(n)) == n
  {
    DecDigits(n);
    hide AllDigits;
    if n < 10 {
      ParseNothing();
      ParseSnoc("", n);
      assert "" + [Digit(n)] == [Digit(n)];
    } else {
      ParseDec(n / 10);
      ParseSnoc(Dec(n / 10), n % 10);
    }
  }

  lemma ParseNothing()
    ensures AllDigits("") && Parse("") == 0
  {
  }

  /** A number has at most `k` digits exactly below the `k`th power of ten. */
  lemma {:induction false} DecLength(n: nat, k: nat)
    requires k > 0
    ensures |Dec(n)| <= k <==> n < Pow10(k)
    decreases n
  {
    PowPositive(k - 1);
    if n >= 10 {
      DecDigits(n / 10);
      if k > 1 {
        DecLength(n / 10, k - 1);
        assert n / 10 < Pow10(k - 1) <==> n < 10 * Pow10(k - 1);
      } else {
        assert Pow10(0) == 1;
      }
    }
  }

  lemma {:induction false} PowPositive(k: nat)
    ensures Pow10(k) >= 1
  {
    if k > 0 {
      PowPositive(k - 1);
    }
  }

  lemma PowTen()
    ensures Pow10(10) == 10_000_000_000
  {
    assert Pow10(2) == 100;
    assert Pow10(4) == 10000;
    assert Pow10(6) == 1000000;
    assert Pow10(8) == 100000000;
  }

  function Zeros(k: nat): (s: string)
    ensures |s| == k
  {
    if k == 0 then "" else "0" + Zeros(k - 1)
  }

  /** `f"{n:010d}"`. */
  function Pad10(n: nat): string {
    var d := Dec(n);
    if |d| < 10 then Zeros(10 - |d|) + d else d
  }

  lemma {:induction false} ParseZeros(k: nat, s: string)
    requires AllDigits(s)
    ensures AllDigits(Zeros(k) + s) && Parse(Zeros(k) + s) == Parse(s)
  {
    if k == 0 {
      assert Zeros(0) + s == s;
    } else {
      ParseZeros(k - 1, s);
      assert Zeros(k) + s == "0" + (Zeros(k - 1) + s);
      LeadingZero(Zeros(k - 1) + s);
    }
  }

  lemma {:induction false} LeadingZero(s: string)
    requires AllDigits(s)
    ensures AllDigits("0" + s) && Parse("0" + s) == Parse(s)
  {
    hide IsDigit;
    assert IsDigit('0') by { DigitValue(0); }
    var z := "0" + s;
    assert AllDigits(z);
    if s == "" {
      assert z[..0] == "";
    } else {
      LeadingZero(s[..|s| - 1]);
      assert z[..|z| - 1] == "0" + s[..|s| - 1];
    }
  }

  /** Padding keeps the value, and gives ten characters exactly below ten to the tenth. */
  lemma PadReads(n: nat)
    ensures AllDigits(Pad10(n)) && Parse(Pad10(n)) == n
    ensures |Pad10(n)| == 10 <==> n < 10_000_000_000
  {
    ParseDec(n);
    DecLength(n, 10);
    PowTen();
    hide AllDigits, Dec, Pow10, Zeros;
    var d := Dec(n);
    if |d| < 10 {
      ParseZeros(10 - |d|, d);
    }
  }
}
