/** Decimal numerals as the program prints and reads them. */
module Decimal {

  function DigitChar(d: nat): (c: char)
    requires d < 10
    ensures IsDigit(c) && DigitValue(c) == d
  {
    ['0', '1', '2', '3', '4', '5', '6', '7', '8', '9'][d]
  }

  predicate IsDigit(c: char) {
    '0' <= c <= '9'
  }

  function DigitValue(c: char): nat
    requires IsDigit(c)
  {
    c as int - '0' as int
  }

  predicate AllDigits(s: string) {
    forall i :: 0 <= i < |s| ==> IsDigit(s[i])
  }

  /** The shortest numeral of `n`. */
  function Show(n: nat): (s: string)
    ensures |s| >= 1 && AllDigits(s)
  {
    if n < 10 then [DigitChar(n)] else Show(n / 10) + [DigitChar(n % 10)]
  }

  /** The numeral of an integer, with a leading minus sign when it is negative. */
  function ShowInt(n: int): string {
    if n < 0 then "-" + Show(-n) else Show(n)
  }

  /** The number a string of digits denotes. */
  function Value(s: string): nat
    requires AllDigits(s)
  {
    if s == [] then 0 else 10 * Value(s[..|s| - 1]) + DigitValue(s[|s| - 1])
  }

  /** Reading a printed number gives the number back. */
  lemma {:induction false} ValueOfShow(n: nat)
    ensures Value(Show(n)) == n
  {
    if n >= 10 {
      ValueOfShow(n / 10);
      var s := Show(n);
      assert s[..|s| - 1] == Show(n / 10);
    } else {
      assert Show(n)[..0] == [];
      assert Value(Show(n)[..0]) == 0;
    }
  }

  lemma {:induction false} ShowInjective(m: nat, n: nat)
    requires Show(m) == Show(n)
    ensures m == n
  {
    calc {
      m;
      { ValueOfShow(m); }
      Value(Show(m));
      Value(Show(n));
      { ValueOfShow(n); }
      n;
    }
  }

  lemma NegativesInjective(m: int, n: int)
    requires m < 0 && n < 0 && ShowInt(m) == ShowInt(n)
    ensures m == n
  {
    hide Show;
    assert ShowInt(m)[1..] == Show(-m) && ShowInt(n)[1..] == Show(-n);
    ShowInjective(-m, -n);
  }

  lemma NonNegativesInjective(m: int, n: int)
    requires m >= 0 && n >= 0 && ShowInt(m) == ShowInt(n)
    ensures m == n
  {
    hide Show;
    ShowInjective(m, n);
  }

  lemma ShowIntInjective(m: int, n: int)
    requires ShowInt(m) == ShowInt(n)
    ensures m == n
  {
    hide ShowInt;
    ShowIntSign(m);
    ShowIntSign(n);
    if m >= 0 {
      NonNegativesInjective(m, n);
    } else {
      NegativesInjective(m, n);
    }
  }

  lemma ShowIntSign(n: int)
    ensures |ShowInt(n)| >= 1 && (ShowInt(n)[0] == '-' <==> n < 0)
  {
    if n >= 0 {
      assert IsDigit(Show(n)[0]);
    }
  }

  // ----- Fixed-width numerals --------------------------------------------

  function Zeros(k: nat): (s: string)
    ensures |s| == k && AllDigits(s)
  {
    if k == 0 then "" else "0" + Zeros(k - 1)
  }

  /** The numeral of `n` padded with zeros to at least `width` characters. */
  function ShowPadded(n: nat, width: nat): (s: string)
    ensures AllDigits(s) && |s| >= width && |s| >= 1
  {
    var s := Show(n);
    if |s| >= width then s else Zeros(width - |s|) + s
  }

  function Pow10(k: nat): (r: nat)
    ensures r >= 1
  {
    if k == 0 then 1 else 10 * Pow10(k - 1)
  }

  lemma {:induction false} ZerosEndInZero(k: nat)
    requires k > 0
    ensures Zeros(k)[..k - 1] == Zeros(k - 1) && Zeros(k)[k - 1] == '0'
  {
    if k > 1 {
      ZerosEndInZero(k - 1);
      assert Zeros(k)[..k - 1] == "0" + Zeros(k - 1)[..k - 2];
    }
  }

  lemma {:induction false} ValueOfZeros(k: nat)
    ensures Value(Zeros(k)) == 0
  {
    if k > 0 {
      ValueOfZeros(k - 1);
      ZerosEndInZero(k);
    }
  }

  lemma {:induction false} ValueOfZerosThen(k: nat, s: string)
    requires AllDigits(s)
    ensures AllDigits(Zeros(k) + s) && Value(Zeros(k) + s) == Value(s)
  {
    hide Zeros;
    if s == [] {
      ValueOfZeros(k);
      assert Zeros(k) + s == Zeros(k);
    } else {
      var t := Zeros(k) + s;
      ValueOfZerosThen(k, s[..|s| - 1]);
      assert t[..|t| - 1] == Zeros(k) + s[..|s| - 1];
    }
  }

  lemma ValueOfPadded(n: nat, width: nat)
    ensures Value(ShowPadded(n, width)) == n
  {
    var s := Show(n);
    if |s| >= width {
      ValueOfShow(n);
    } else {
      calc {
        Value(ShowPadded(n, width));
        { ValueOfZerosThen(width - |s|, s); }
        Value(s);
        { ValueOfShow(n); }
        n;
      }
    }
  }

  /** A numeral has at most `k` digits exactly when the number is below ten to the `k`. */
  lemma {:induction false} ShowLength(n: nat, k: nat)
    requires k >= 1
    ensures |Show(n)| <= k <==> n < Pow10(k)
  {
    if n < 10 {
      Pow10AtLeast10(k);
    } else if k == 1 {
      assert Pow10(1) == 10 * Pow10(0);
    } else {
      ShowLength(n / 10, k - 1);
    }
  }

  lemma {:induction false} Pow10AtLeast10(k: nat)
    requires k >= 1
    ensures Pow10(k) >= 10
  {
    if k > 1 {
      Pow10AtLeast10(k - 1);
    }
  }
}
