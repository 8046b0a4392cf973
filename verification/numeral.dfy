/**
 Decimal numerals as the transcript parser reads them: the credit token
 `\d+(?:\.\d+)?`, and the GPA token accepted when removing its first '.'
 leaves a non-empty run of digits. Values are exact reals, i.e. what
 `float()` would give before rounding to binary.
 */
module Numeral {
  import opened Wrappers
  import opened Text

  function Pow10(n: nat): (p: nat)
    ensures p >= 1
  {
    if n == 0 then 1 else 10 * Pow10(n - 1)
  }

  function DigitValue(c: char): (d: nat)
    requires IsDigit(c)
    ensures d < 10
  {
    (c - '0') as nat
  }

  /** Value of a run of ASCII digits, most significant first ("" is 0). */
  function DigitsValue(ds: string): (v: nat)
    requires AllDigits(ds)
    ensures v < Pow10(|ds|)
  {
    if |ds| == 0 then 0
    else
      var init := ds[..|ds| - 1];
      assert AllDigits(init);
      var w := DigitsValue(init);
      var d := DigitValue(ds[|ds| - 1]);
      assert 10 * w + d < 10 * Pow10(|init|) by {
        assert w + 1 <= Pow10(|init|);
        assert 10 * (w + 1) <= 10 * Pow10(|init|);
      }
      10 * w + d
  }

  /** Number of '.' characters in `s`. */
  function Dots(s: string): nat
  {
    if |s| == 0 then 0 else (if s[0] == '.' then 1 else 0) + Dots(s[1..])
  }

  /** A numeral `float()` accepts among digit-and-dot strings: only digits
      and dots, at most one dot, at least one digit ("5.", ".5", "4.0"). */
  predicate IsNumeral(s: string) {
    && (forall i :: 0 <= i < |s| ==> IsDigit(s[i]) || s[i] == '.')
    && Dots(s) <= 1
    && exists i :: 0 <= i < |s| && IsDigit(s[i])
  }


  /** `s.replace('.', '', 1)`: `s` without its first '.'. */
  function RemoveFirstDot(s: string): (r: string)
    ensures |r| == |s| - (if '.' in s then 1 else 0)
    ensures Dots(r) == if Dots(s) == 0 then 0 else Dots(s) - 1
  {
    var k := RunEnd(s, 0, NonDot);
    if k == |s| then
      assert '.' !in s;
      NoDots(s);
      s
    else
      assert '.' in s;
      DotsSplit(s[..k], s[k..]);
      DotsSplit(s[..k], s[k + 1..]);
      assert s[..k] + s[k..] == s;
      NoDots(s[..k]);
      s[..k] + s[k + 1..]
  }

  /** `s.isdigit()` on ASCII text: non-empty and all digits. */
  predicate IsDigitString(s: string) {
    |s| > 0 && AllDigits(s)
  }

  /** `float(g) if g and g.replace('.', '', 1).isdigit() else None`. */
  function ParseGpa(g: Option<string>): (r: Option<real>)
    ensures r.Some? <==> g.Some? && IsNumeral(g.value)
    ensures r.Some? ==> r.value >= 0.0
  {
    match g
    case None => None
    case Some(s) =>
      NumeralCheck(s);
      if |s| > 0 && IsDigitString(RemoveFirstDot(s)) then Some(Value(s)) else None
  }

  /** The value of a numeral: the digits before the first non-digit form the
      integer part, those after the dot the fraction. */
  function Value(s: string): (v: real)
    requires IsNumeral(s)
    ensures DigitsValue(s[..RunEnd(s, 0, Digit)]) as real <= v
    ensures v < DigitsValue(s[..RunEnd(s, 0, Digit)]) as real + 1.0
  {
    var k := RunEnd(s, 0, Digit);
    var whole := DigitsValue(s[..k]) as real;
    if k == |s| then whole
    else
      assert s[k] == '.';
      FractionDigits(s, k);
      var frac := s[k + 1..];
      whole + Fraction(DigitsValue(frac), Pow10(|frac|))
  }

  /** `n / p` as a real, for a digit run's value `n` below `p`. */
  function Fraction(n: nat, p: nat): (f: real)
    requires n < p
    ensures 0.0 <= f < 1.0
  {
    (n as real) / (p as real)
  }

  lemma {:induction false} DotsSplit(a: string, b: string)
    ensures Dots(a + b) == Dots(a) + Dots(b)
  {
    if |a| == 0 {
      assert a + b == b;
    } else {
      assert (a + b)[0] == a[0];
      assert (a + b)[1..] == a[1..] + b;
      DotsSplit(a[1..], b);
    }
  }

  lemma NoDots(s: string)
    requires '.' !in s
    ensures Dots(s) == 0
  {
    if |s| > 0 {
      assert s[0] in s;
      assert forall c :: c in s[1..] ==> c in s;
      NoDots(s[1..]);
    }
  }

  lemma {:induction false} DotsPositive(s: string, i: nat)
    requires i < |s| && s[i] == '.'
    ensures Dots(s) >= 1
  {
    if i > 0 {
      DotsPositive(s[1..], i - 1);
    }
  }

  /** After the first non-digit of a numeral (which is its one dot) come
      only digits. */
  lemma FractionDigits(s: string, k: nat)
    requires IsNumeral(s) && k == RunEnd(s, 0, Digit) && k < |s|
    ensures AllDigits(s[k + 1..])
  {
    assert s[k] == '.';
    DotsSplit(s[..k + 1], s[k + 1..]);
    assert s[..k + 1] + s[k + 1..] == s;
    DotsPositive(s[..k + 1], k);
    var f := s[k + 1..];
    forall i | 0 <= i < |f|
      ensures IsDigit(f[i])
    {
      if !IsDigit(f[i]) {
        DotsPositive(f, i);
      }
    }
  }

  /** The Python check `g.replace('.', '', 1).isdigit()` accepts exactly the
      numerals: digits with at most one dot and at least one digit. */
  lemma NumeralCheck(s: string)
    ensures IsDigitString(RemoveFirstDot(s)) <==> IsNumeral(s)
  {
    var k := RunEnd(s, 0, NonDot);
    var r := RemoveFirstDot(s);
    if k == |s| {
      assert r == s;
      if IsDigitString(s) {
        assert IsDigit(s[0]);
      }
      if IsNumeral(s) {
        forall i | 0 <= i < |s| ensures IsDigit(s[i]) {
          assert InClass(NonDot, s[i]);
        }
      }
    } else {
      assert r == s[..k] + s[k + 1..];
      if IsDigitString(r) {
        forall i | 0 <= i < |s| ensures IsDigit(s[i]) || s[i] == '.' {
          if i < k {
            assert s[i] == r[i];
          } else if i > k {
            assert s[i] == r[i - 1];
          }
        }
        assert Dots(r) == 0 by {
          forall i | 0 <= i < |r| ensures r[i] != '.' {
            assert IsDigit(r[i]);
          }
          assert '.' !in r;
          NoDots(r);
        }
        if k > 0 {
          assert IsDigit(s[0]) by { assert s[0] == r[0]; }
        } else {
          assert IsDigit(s[1]) by { assert s[1] == r[0]; }
        }
      }
      if IsNumeral(s) {
        assert Dots(r) == 0;
        forall i | 0 <= i < |r| ensures IsDigit(r[i]) {
          if r[i] == '.' {
            DotsPositive(r, i);
          }
          if i < k {
            assert r[i] == s[i];
          } else {
            assert r[i] == s[i + 1];
          }
        }
        var j :| 0 <= j < |s| && IsDigit(s[j]);
        assert j != k;
        assert |r| > 0;
      }
    }
  }

  /** Appending a fractional '0' does not change a numeral's value: "4.0"
      and "4.00" both read as 4. */
  lemma TrailingZero(s: string)
    requires IsNumeral(s) && '.' in s
    ensures IsNumeral(s + "0")
    ensures Value(s + "0") == Value(s)
  {
    var t := s + "0";
    var k := RunEnd(s, 0, Digit);
    assert k < |s| by {
      var j :| 0 <= j < |s| && s[j] == '.';
    }
    ZeroNumeral(s);
    ZeroParts(s, k);
    FractionDigits(s, k);
    ShiftDigits(s[k + 1..]);
  }

  /** `s + "0"` has the same whole part as `s`, and its fraction gains the '0'. */
  lemma ZeroParts(s: string, k: nat)
    requires IsNumeral(s) && k == RunEnd(s, 0, Digit) && k < |s|
    ensures RunEnd(s + "0", 0, Digit) == k
    ensures (s + "0")[..k] == s[..k] && (s + "0")[k + 1..] == s[k + 1..] + "0"
  {
    var t := s + "0";
    assert t[..k] == s[..k];
    assert forall i :: 0 <= i < k ==> t[i] == s[i];
    assert t[k] == '.';
    RunEndUnique(t, 0, Digit, k);
    assert t[k + 1..] == s[k + 1..] + "0";
  }

  /** A numeral followed by '0' is still a numeral. */
  lemma ZeroNumeral(s: string)
    requires IsNumeral(s)
    ensures IsNumeral(s + "0")
  {
    var t := s + "0";
    DotsSplit(s, "0");
    assert Dots("0") == 0 by { NoDots("0"); }
    var j :| 0 <= j < |s| && IsDigit(s[j]);
    assert IsDigit(t[j]);
  }

  /** One more fractional digit '0' scales numerator and denominator alike. */
  lemma ShiftDigits(f: string)
    requires AllDigits(f)
    ensures AllDigits(f + "0")
    ensures Fraction(DigitsValue(f + "0"), Pow10(|f + "0"|)) == Fraction(DigitsValue(f), Pow10(|f|))
  {
    assert (f + "0")[..|f|] == f;
    var n := DigitsValue(f);
    var p := Pow10(|f|);
    assert DigitsValue(f + "0") == 10 * n;
    assert Pow10(|f + "0"|) == 10 * p;
    ScaleFraction(n, p);
  }

  lemma ScaleFraction(n: nat, p: nat)
    requires n < p
    ensures Fraction(10 * n, 10 * p) == Fraction(n, p)
  {
    var x := n as real;
    var y := p as real;
    assert (10.0 * x) / (10.0 * y) == x / y;
  }

  /** `v` with its decimal point moved `e` places to the right. */
  function Shifted(v: real, e: nat): real {
    v * (Pow10(e) as real)
  }

  /** Number of digits after the first '.' of `s`; 0 when it has none. */
  function Decimals(s: string): nat {
    var d := RunEnd(s, 0, NonDot);
    if d == |s| then 0 else |s| - d - 1
  }

  /** The value of digits written one after the other: the first run
      shifted left by the length of the second. */
  lemma {:induction false} DigitsConcat(a: string, b: string)
    requires AllDigits(a) && AllDigits(b)
    ensures AllDigits(a + b)
    ensures DigitsValue(a + b) == DigitsValue(a) * Pow10(|b|) + DigitsValue(b)
    decreases |b|
  {
    if |b| == 0 {
      assert a + b == a;
    } else {
      var init := b[..|b| - 1];
      var ab := a + b;
      assert ab[..|ab| - 1] == a + init;
      assert ab[|ab| - 1] == b[|b| - 1];
      DigitsConcat(a, init);
      assert DigitsValue(ab) == 10 * DigitsValue(a + init) + DigitValue(ab[|ab| - 1]);
      assert DigitsValue(b) == 10 * DigitsValue(init) + DigitValue(b[|b| - 1]);
      assert Pow10(|b|) == 10 * Pow10(|init|);
      ShiftLeft(DigitsValue(a), Pow10(|init|), DigitsValue(init), DigitValue(b[|b| - 1]));
    }
  }

  lemma ShiftLeft(x: nat, p: nat, i: nat, d: nat)
    ensures 10 * (x * p + i) + d == x * (10 * p) + (10 * i + d)
  {
    assert 10 * (x * p) == x * (10 * p);
  }

  /** Scaling a whole part plus a fraction by the fraction's denominator. */
  lemma FractionScale(w: nat, n: nat, p: nat)
    requires n < p
    ensures (w as real + Fraction(n, p)) * (p as real) == (w * p + n) as real
  {
    var x, y, z := w as real, n as real, p as real;
    assert (y / z) * z == y;
    assert (x + y / z) * z == x * z + (y / z) * z;
    assert (w * p) as real == x * z;
  }

  /** The value of a numeral is what `float()` reads: the digits left once
      the dot is removed, divided by ten to the number of decimals. */
  lemma ValueDigits(s: string)
    requires IsNumeral(s)
    ensures AllDigits(RemoveFirstDot(s))
    ensures Shifted(Value(s), Decimals(s)) == DigitsValue(RemoveFirstDot(s)) as real
  {
    NumeralCheck(s);
    var k := RunEnd(s, 0, Digit);
    RunEndUnique(s, 0, NonDot, k);
    if k == |s| {
      assert s[..k] == s;
      assert RemoveFirstDot(s) == s && Decimals(s) == 0;
      assert Value(s) == DigitsValue(s) as real;
      assert Shifted(Value(s), 0) == Value(s);
    } else {
      assert s[k] == '.';
      DotValue(s, k);
    }
  }

  /** `ValueDigits` for a numeral whose first non-digit, its dot, is at `k`. */
  lemma DotValue(s: string, k: nat)
    requires IsNumeral(s) && k == RunEnd(s, 0, Digit) && k < |s|
    requires RunEnd(s, 0, NonDot) == k
    ensures AllDigits(RemoveFirstDot(s))
    ensures Shifted(Value(s), Decimals(s)) == DigitsValue(RemoveFirstDot(s)) as real
  {
    var w, f := DotParts(s, k);
    DigitsConcat(w, f);
    ScaledValue(Value(s), Decimals(s), DigitsValue(RemoveFirstDot(s)),
                DigitsValue(w), DigitsValue(f), Pow10(|f|));
  }

  /** A numeral with a dot at `k` is its whole digits, the dot, and its
      fraction digits. */
  lemma DotParts(s: string, k: nat) returns (w: string, f: string)
    requires IsNumeral(s) && k == RunEnd(s, 0, Digit) && k < |s|
    requires RunEnd(s, 0, NonDot) == k
    ensures AllDigits(w) && AllDigits(f)
    ensures RemoveFirstDot(s) == w + f && Decimals(s) == |f|
    ensures Value(s) == DigitsValue(w) as real + Fraction(DigitsValue(f), Pow10(|f|))
  {
    FractionDigits(s, k);
    w, f := s[..k], s[k + 1..];
  }

  /** A whole part plus a fraction, shifted left by the fraction's digits. */
  lemma ScaledValue(v: real, e: nat, d: nat, x: nat, n: nat, p: nat)
    requires n < p && v == x as real + Fraction(n, p) && Pow10(e) == p && d == x * p + n
    ensures Shifted(v, e) == d as real
  {
    FractionScale(x, n, p);
  }

  /** "4.0" reads as 4. */
  lemma ValueOfFour()
    ensures IsNumeral("4.0") && Value("4.0") == 4.0
  {
    assert Dots("4.0") == 1;
    assert IsDigit("4.0"[0]);
    assert RunEnd("4.0", 0, Digit) == 1;
    assert "4.0"[..1] == "4";
    assert "4.0"[2..] == "0";
    assert DigitsValue("4") == 4;
  }

  /** "1.7", the passing grade, reads exactly as 1.7. */
  lemma ValueOfPassGrade()
    ensures IsNumeral("1.7") && Value("1.7") == 1.7
  {
    assert Dots("1.7") == 1;
    assert IsDigit("1.7"[0]);
    assert RunEnd("1.7", 0, Digit) == 1;
    assert "1.7"[..1] == "1";
    assert "1.7"[2..] == "7";
    assert DigitsValue("1") == 1;
    assert DigitsValue("7") == 7;
  }

  /** "1.5" reads as 1.5. */
  lemma ValueOfOneHalf()
    ensures IsNumeral("1.5") && Value("1.5") == 1.5
  {
    assert Dots("1.5") == 1;
    assert IsDigit("1.5"[0]);
    assert RunEnd("1.5", 0, Digit) == 1;
    assert "1.5"[..1] == "1";
    assert "1.5"[2..] == "5";
    assert DigitsValue("1") == 1;
    assert DigitsValue("5") == 5;
  }

  /** "3" reads as 3. */
  lemma ValueOfThree()
    ensures IsNumeral("3") && Value("3") == 3.0
  {
    assert Dots("3") == 0;
    assert IsDigit("3"[0]);
    assert RunEnd("3", 0, Digit) == 1;
    assert "3"[..1] == "3";
    assert DigitsValue("3") == 3;
  }

  /** "4.0.0" has two dots: no grade. */
  lemma TwoDotsNoGrade(g: string)
    requires g == "4.0.0"
    ensures ParseGpa(Some(g)) == None
  {
    assert Dots("4.0.0") == 2;
  }
}
