/** Which layout a number takes, told by its value, and the texts at the borders. */
module CanonicalLayout {
  import opened Prelude
  import opened JsonValue
  import opened CanonicalNumber

  /** c * 10^e is at least 10^m. */
  predicate AtLeast(c: nat, e: int, m: int) {
    c > 0 && (e >= m || c >= Pow10(m - e))
  }

  lemma {:induction false} PowOrder(a: nat, b: nat)
    requires a <= b
    ensures Pow10(a) <= Pow10(b)
    decreases b
  {
    if a < b {
      PowOrder(a, b - 1);
    }
  }

  /** k digits without a leading zero make a number from 10^(k-1) up and below 10^k. */
  lemma {:induction false} Magnitude(s: string)
    requires AllDigits(s) && s != [] && s[0] != '0'
    ensures Pow10(|s| - 1) <= NatOf(s) < Pow10(|s|)
    decreases |s|
  {
    var k := |s| - 1;
    if k == 0 {
      assert s[..0] == [];
    } else {
      Magnitude(s[..k]);
    }
  }

  /** A double is at least 10^m exactly when its first digit stands there or higher. */
  lemma AtLeastPoint(f: F64, m: int)
    requires f.Fin? && ShortestForm(f)
    ensures AtLeast(DecOf(f).c, DecOf(f).e, m) <==> f.point - 1 >= m
  {
    var c, k, e := NatOf(f.digits), |f.digits|, f.point - |f.digits|;
    Magnitude(f.digits);
    if e < m {
      if k - 1 >= m - e {
        PowOrder(m - e, k - 1);
      } else {
        PowOrder(k, m - e);
      }
    }
  }

  predicate Trimmed(digits: string) {
    digits == "" || digits[|digits| - 1] != '0'
  }

  /** An exponent is written exactly for what is 10^21 or more, or below 10^-6; a fraction
      never ends in a zero; and an exponent stands behind one digit that is not zero, with
      a small e, always with its sign and without leading zeros. Together with the value
      this leaves one text. */
  lemma LayoutChoice(f: F64)
    requires f.Fin? && ShortestForm(f)
    ensures var l, d := Layout(f), DecOf(f);
      && FormatNumber(f) == Some(LitText(l)) && LitForm(l) && l.neg == f.neg && Trimmed(l.frac)
      && (l.exp.Some? <==> AtLeast(d.c, d.e, 21) || !AtLeast(d.c, d.e, -6))
      && (l.exp.Some? ==>
            && |l.whole| == 1 && l.whole != "0" && l.exp.value.mark == 'e'
            && l.exp.value.sign == (if AtLeast(d.c, d.e, 0) then "+" else "-")
            && (l.exp.value.digits == "0" || l.exp.value.digits[0] != '0'))
  {
    hide DecOf, LitText, AtLeast, Zeros, DigitsOf;
    AtLeastPoint(f, 21);
    AtLeastPoint(f, -6);
    AtLeastPoint(f, 0);
    var n := f.point;
    NatOfDigits(if n - 1 >= 0 then n - 1 else 1 - n);
  }

  lemma Spelled(f: F64, l: NumLit, t: string)
    requires f.Fin? && ShortestForm(f) && Layout(f) == l && t == LitText(l)
    ensures FormatNumber(f) == Some(t)
  {
  }

  lemma SpelledOut()
    ensures FormatNumber(Fin(false, "1", 21)) == Some("100000000000000000000")
  {
    var l := NumLit(false, "1" + Zeros(20), "", None);
    assert l.whole == "100000000000000000000";
    assert LitText(l) == l.whole;
    Spelled(Fin(false, "1", 21), l, l.whole);
  }

  lemma SpelledSmall()
    ensures FormatNumber(Fin(false, "1", -5)) == Some("0.000001")
  {
    var l := NumLit(false, "0", Zeros(5) + "1", None);
    assert l.frac == "000001";
    assert LitText(l) == "0" + ("." + l.frac);
    assert "0" + ("." + "000001") == "0.000001";
    Spelled(Fin(false, "1", -5), l, "0.000001");
  }

  lemma TwoDigits()
    ensures DigitsOf(7) == "7" && DigitsOf(10) == "10" && DigitsOf(21) == "21"
  {
    assert DigitsOf(1) == "1" && DigitsOf(2) == "2";
  }

  lemma SpelledLarge()
    ensures FormatNumber(Fin(false, "1", 22)) == Some("1e+21")
  {
    TwoDigits();
    assert "1"[..1] == "1" && "1"[1..] == "";
    var l := NumLit(false, "1", "", Some(Exp('e', "+", "21")));
    assert LitText(l) == "" + ("1" + ("" + (['e'] + "+" + "21")));
    assert LitText(l) == "1e+21";
    Spelled(Fin(false, "1", 22), l, "1e+21");
  }

  lemma SpelledTiny()
    ensures FormatNumber(Fin(false, "1", -6)) == Some("1e-7")
  {
    TwoDigits();
    assert "1"[..1] == "1" && "1"[1..] == "";
    var l := NumLit(false, "1", "", Some(Exp('e', "-", "7")));
    assert LitText(l) == "" + ("1" + ("" + (['e'] + "-" + "7")));
    assert LitText(l) == "1e-7";
    Spelled(Fin(false, "1", -6), l, "1e-7");
  }

  lemma SpelledMantissa()
    ensures FormatNumber(Fin(true, "15", -9)) == Some("-1.5e-10")
  {
    TwoDigits();
    assert "15"[..1] == "1" && "15"[1..] == "5";
    var l := NumLit(true, "1", "5", Some(Exp('e', "-", "10")));
    assert LitText(l) == "-" + ("1" + (("." + "5") + (['e'] + "-" + "10")));
    assert LitText(l) == "-1.5e-10";
    Spelled(Fin(true, "15", -9), l, "-1.5e-10");
  }

  /** The borders: 10^20 is spelled out and 10^21 is not, 10^-6 is and 10^-7 is not; and
      zero has no sign. */
  lemma Borders()
    ensures FormatNumber(Fin(false, "1", 21)) == Some("100000000000000000000")
    ensures FormatNumber(Fin(false, "1", 22)) == Some("1e+21")
    ensures FormatNumber(Fin(false, "1", -5)) == Some("0.000001")
    ensures FormatNumber(Fin(false, "1", -6)) == Some("1e-7")
    ensures FormatNumber(Fin(true, "15", -9)) == Some("-1.5e-10")
    ensures FormatNumber(Zero(true)) == Some("0") && FormatNumber(Zero(false)) == Some("0")
  {
    SpelledOut();
    SpelledLarge();
    SpelledSmall();
    SpelledTiny();
    SpelledMantissa();
  }

  lemma NotFinite(neg: bool)
    ensures FormatNumber(NaN) == None && FormatNumber(Inf(neg)) == None
  {
  }

  // ---------------------------------------------------------------------
  // What is accepted.

  predicate Finite(f: F64) {
    f.Fin? || f.Zero?
  }

  /** An integer of a document is accepted exactly when its nearest double is finite and
      either is the integer or is written with the integer's own digits; and what is
      written is that double. */
  lemma IntAccepted(fl: Floats, i: int)
    requires Lawful(fl)
    ensures var f := fl.nearest(DecOfInt(i));
      && (FormatBigInt(fl, i).Some? <==> Finite(f) && (fl.exact(i) || FormatNumber(f) == Some(IntText(i))))
      && (FormatBigInt(fl, i).Some? ==> FormatBigInt(fl, i) == FormatNumber(f))
      && (-0x20_0000_0000_0000 <= i <= 0x20_0000_0000_0000 ==> FormatInt(fl, i) == FormatNumber(f))
      && (!(-0x20_0000_0000_0000 <= i <= 0x20_0000_0000_0000) ==> FormatInt(fl, i) == FormatBigInt(fl, i))
  {
  }

  /** A literal with a fraction or an exponent is accepted exactly when its nearest double
      is finite, and one with neither as the integer it is. */
  lemma LitAccepted(fl: Floats, lit: string)
    requires Lawful(fl)
    ensures ParseLit(lit).None? ==> FormatJSONNumber(fl, lit) == None
    ensures ParseLit(lit).Some? ==>
      var l := ParseLit(lit).value;
      var f := fl.nearest(LitDec(l));
      FormatJSONNumber(fl, lit) ==
        if l.frac == "" && l.exp.None? then FormatBigInt(fl, LitInt(l))
        else if Finite(f) then FormatNumber(f) else None
  {
    hide ParseLit, LitDec, LitInt, FormatBigInt, Layout;
  }
}
