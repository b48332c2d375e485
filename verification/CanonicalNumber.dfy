/** Canonical numbers: ECMAScript's Number::toString, as RFC 8785 section 3.2.2.3
    requires it, and the way back in through a JSON document. */
module CanonicalNumber {
  import opened Prelude
  import opened JsonValue

  // ---------------------------------------------------------------------
  // Decimal digits.

  predicate IsDigit(c: char) { '0' <= c <= '9' }

  predicate AllDigits(s: string) {
    forall i | 0 <= i < |s| :: IsDigit(s[i])
  }

  function DigitValue(c: char): nat
    requires IsDigit(c)
  {
    c as int - '0' as int
  }

  function DigitChar(d: nat): (c: char)
    requires d < 10
    ensures IsDigit(c) && DigitValue(c) == d
  {
    ('0' as int + d) as char
  }

  function NatOf(s: string): nat
    requires AllDigits(s)
    decreases |s|
  {
    if s == [] then 0 else NatOf(s[..|s| - 1]) * 10 + DigitValue(s[|s| - 1])
  }

  /** The decimal text of a natural number. */
  function DigitsOf(n: nat): (s: string)
    ensures s != [] && AllDigits(s)
  {
    if n < 10 then [DigitChar(n)] else DigitsOf(n / 10) + [DigitChar(n % 10)]
  }

  function IntText(i: int): string {
    if i < 0 then "-" + DigitsOf(-i) else DigitsOf(i)
  }

  function Zeros(n: nat): (s: string)
    ensures |s| == n && AllDigits(s) && forall i | 0 <= i < n :: s[i] == '0'
  {
    seq(n, _ => '0')
  }

  function Pow10(n: nat): (p: nat)
    ensures p > 0
  {
    if n == 0 then 1 else 10 * Pow10(n - 1)
  }

  lemma NatOfSnoc(s: string, c: char)
    requires AllDigits(s) && IsDigit(c)
    ensures AllDigits(s + [c]) && NatOf(s + [c]) == NatOf(s) * 10 + DigitValue(c)
  {
    assert (s + [c])[..|s|] == s;
  }

  lemma {:induction false} NatOfTrailing(s: string, m: nat)
    requires AllDigits(s)
    ensures NatOf(s + Zeros(m)) == NatOf(s) * Pow10(m)
    decreases m
  {
    if m == 0 {
      assert s + Zeros(0) == s;
    } else {
      NatOfTrailing(s, m - 1);
      assert s + Zeros(m) == (s + Zeros(m - 1)) + ['0'];
      NatOfSnoc(s + Zeros(m - 1), '0');
      var v, p := NatOf(s), Pow10(m - 1);
      TenTimes(v, p);
      assert NatOf(s + Zeros(m)) == (v * p) * 10;
    }
  }

  lemma TenTimes(v: nat, p: nat)
    ensures (v * p) * 10 == v * (10 * p)
  {
  }

  lemma {:induction false} NatOfLeading(s: string, m: nat)
    requires AllDigits(s)
    ensures NatOf(Zeros(m) + s) == NatOf(s)
    decreases m + |s|
  {
    if s == [] {
      assert Zeros(m) + s == Zeros(m);
      if m > 0 {
        NatOfLeading([], m - 1);
        assert Zeros(m)[..m - 1] == Zeros(m - 1) + [];
      }
    } else {
      var n := |s| - 1;
      NatOfLeading(s[..n], m);
      assert (Zeros(m) + s)[..m + n] == Zeros(m) + s[..n];
    }
  }

  lemma {:induction false} NatOfDigits(n: nat)
    ensures NatOf(DigitsOf(n)) == n
    ensures n > 0 ==> DigitsOf(n)[0] != '0'
    ensures n == 0 ==> DigitsOf(n) == "0"
  {
    if n < 10 {
      assert [DigitChar(n)][..0] == [];
    } else {
      NatOfDigits(n / 10);
      NatOfSnoc(DigitsOf(n / 10), DigitChar(n % 10));
    }
  }

  /** A digit string without a leading zero is the text of its value. */
  lemma {:induction false} DigitsOfNat(s: string)
    requires AllDigits(s) && s != [] && s[0] != '0'
    ensures DigitsOf(NatOf(s)) == s && NatOf(s) > 0
    decreases |s|
  {
    var n := |s| - 1;
    assert s == s[..n] + [s[n]];
    if n > 0 {
      DigitsOfNat(s[..n]);
    } else {
      assert s[..0] == [];
    }
  }

  // ---------------------------------------------------------------------
  // Decimal values.

  /** The value (-1)^neg * c * 10^e, with no power of ten left in c. */
  datatype Dec = Dec(neg: bool, c: nat, e: int)

  function Norm(neg: bool, c: nat, e: int): Dec
    decreases c
  {
    if c == 0 then Dec(neg, 0, 0)
    else if c % 10 == 0 then Norm(neg, c / 10, e + 1)
    else Dec(neg, c, e)
  }

  lemma {:induction false} NormScaled(neg: bool, c: nat, m: nat, e: int)
    requires c % 10 != 0
    ensures Norm(neg, c * Pow10(m), e) == Dec(neg, c, e + m)
    decreases m
  {
    if m > 0 {
      var d := c * Pow10(m - 1);
      assert c * Pow10(m) == d * 10;
      assert d > 0;
      NormScaled(neg, c, m - 1, e + 1);
    }
  }

  function DecOfInt(i: int): Dec {
    Norm(i < 0, if i < 0 then -i else i, 0)
  }

  // ---------------------------------------------------------------------
  // Doubles.

  /** What the standard library knows and this code relies on: the double nearest
      to a decimal, and whether an integer is a double without loss. */
  datatype Floats = Floats(nearest: Dec -> F64, exact: int -> bool)

  /** Shortest digits carry no zero at either end. */
  predicate ShortestForm(f: F64)
    requires f.Fin?
  {
    f.digits != [] && AllDigits(f.digits) && f.digits[0] != '0' && f.digits[|f.digits| - 1] != '0'
  }

  /** The value of a double's shortest digits. */
  function DecOf(f: F64): Dec
    requires f.Fin? && ShortestForm(f)
  {
    Dec(f.neg, NatOf(f.digits), f.point - |f.digits|)
  }

  /** f is a double: its own shortest digits round to it. */
  predicate IsDouble(fl: Floats, f: F64) {
    f.Fin? ==> ShortestForm(f) && fl.nearest(DecOf(f)) == f
  }

  /** Rounding yields doubles and keeps the sign; only zero comes from zero, and
      nothing as large as one becomes zero. */
  ghost predicate Lawful(fl: Floats) {
    forall d :: var f := fl.nearest(d);
      && !f.NaN? && IsDouble(fl, f)
      && (f.Fin? ==> f.neg == d.neg && d.c != 0)
      && (d.c == 0 ==> f == Zero(d.neg))
      && (f.Zero? ==> f.neg == d.neg && (d.e >= 0 ==> d.c == 0))
  }

  // ---------------------------------------------------------------------
  // Number literals, section 6 of RFC 8259.

  /** mark is 'e' or 'E', sign is "", "+" or "-". */
  datatype Exp = Exp(mark: char, sign: string, digits: string)

  datatype NumLit = NumLit(neg: bool, whole: string, frac: string, exp: Option<Exp>)

  predicate WholeForm(s: string) {
    s != [] && AllDigits(s) && (s[0] == '0' ==> |s| == 1)
  }

  predicate LitForm(l: NumLit) {
    && WholeForm(l.whole) && AllDigits(l.frac)
    && match l.exp
       case None => true
       case Some(x) => (x.mark == 'e' || x.mark == 'E') && x.sign in ["", "+", "-"] && x.digits != [] && AllDigits(x.digits)
  }

  function ExpText(x: Option<Exp>): string {
    match x case None => "" case Some(e) => [e.mark] + e.sign + e.digits
  }

  function FracText(frac: string): string {
    if frac == "" then "" else "." + frac
  }

  function BodyText(l: NumLit): string {
    l.whole + (FracText(l.frac) + ExpText(l.exp))
  }

  function LitText(l: NumLit): string {
    (if l.neg then "-" else "") + BodyText(l)
  }

  predicate IsInteger(l: NumLit) { l.frac == "" && l.exp.None? }

  function ExpValue(x: Option<Exp>): int
    requires x.Some? ==> AllDigits(x.value.digits)
  {
    match x
    case None => 0
    case Some(e) => if e.sign == "-" then -(NatOf(e.digits) as int) else NatOf(e.digits)
  }

  /** The exact decimal value a literal denotes. */
  function LitDec(l: NumLit): Dec
    requires LitForm(l)
  {
    Norm(l.neg, NatOf(l.whole + l.frac), ExpValue(l.exp) - |l.frac|)
  }

  function LitInt(l: NumLit): int
    requires LitForm(l)
  {
    if l.neg then -(NatOf(l.whole) as int) else NatOf(l.whole)
  }

  // ---------------------------------------------------------------------
  // Formatting.

  /** Which of the four ECMAScript layouts a double's digits take. */
  function Layout(f: F64): NumLit
    requires f.Fin? && ShortestForm(f)
  {
    var k, n, digits := |f.digits|, f.point, f.digits;
    if k <= n <= 21 then NumLit(f.neg, digits + Zeros(n - k), "", None)
    else if 0 < n <= 21 then NumLit(f.neg, digits[..n], digits[n..], None)
    else if -6 < n <= 0 then NumLit(f.neg, "0", Zeros(-n) + digits, None)
    else NumLit(f.neg, digits[..1], digits[1..],
                Some(Exp('e', if n - 1 >= 0 then "+" else "-", DigitsOf(if n - 1 >= 0 then n - 1 else 1 - n))))
  }

  function FormatNumber(f: F64): Option<string>
    requires f.Fin? ==> ShortestForm(f)
  {
    match f
    case NaN => None
    case Inf(_) => None
    case Zero(_) => Some("0")
    case Fin(_, _, _) => Some(LitText(Layout(f)))
  }

  /** The digits in their layout, appended piece by piece. */
  method WriteDigits(f: F64, b0: string) returns (b: string)
    requires f.Fin? && ShortestForm(f)
    ensures b == b0 + BodyText(Layout(f))
  {
    hide BodyText;
    var k, n, digits := |f.digits|, f.point, f.digits;
    b := b0;
    if k <= n && n <= 21 {
      b := b + digits;
      b := b + Zeros(n - k);
      WholeBody(f.neg, b0, digits, Zeros(n - k));
    } else if 0 < n && n <= 21 {
      b := b + digits[..n];
      b := b + ".";
      b := b + digits[n..];
      PointBody(f.neg, b0, digits[..n], digits[n..]);
    } else if -6 < n && n <= 0 {
      b := b + "0.";
      b := b + Zeros(-n);
      b := b + digits;
      SmallBody(f.neg, b0, Zeros(-n), digits);
    } else {
      b := WriteExponential(f.neg, digits, n, b);
    }
  }

  lemma WholeBody(neg: bool, b: string, digits: string, zeros: string)
    ensures b + digits + zeros == b + BodyText(NumLit(neg, digits + zeros, "", None))
  {
  }

  lemma PointBody(neg: bool, b: string, whole: string, frac: string)
    requires frac != ""
    ensures b + whole + "." + frac == b + BodyText(NumLit(neg, whole, frac, None))
  {
  }

  lemma SmallBody(neg: bool, b: string, zeros: string, digits: string)
    requires digits != ""
    ensures b + "0." + zeros + digits == b + BodyText(NumLit(neg, "0", zeros + digits, None))
  {
    assert zeros + digits != "";
  }

  method WriteExponential(neg: bool, digits: string, n: int, b0: string) returns (b: string)
    requires digits != []
    ensures b == b0 + BodyText(NumLit(neg, digits[..1], digits[1..],
      Some(Exp('e', if n - 1 >= 0 then "+" else "-", DigitsOf(if n - 1 >= 0 then n - 1 else 1 - n)))))
  {
    hide DigitsOf, BodyText, FracText;
    b := WriteMantissa(digits, b0);
    ghost var mantissa := digits[..1] + FracText(digits[1..]);
    b := b + "e";
    var sign := if n - 1 >= 0 then "+" else "-";
    b := b + sign;
    var power := DigitsOf(if n - 1 >= 0 then n - 1 else 1 - n);
    b := b + power;
    ExponentialBody(neg, digits, sign, power);
    assert b == b0 + (mantissa + (['e'] + sign + power));
  }

  lemma ExponentialBody(neg: bool, digits: string, sign: string, power: string)
    requires digits != []
    ensures BodyText(NumLit(neg, digits[..1], digits[1..], Some(Exp('e', sign, power)))) ==
      (digits[..1] + FracText(digits[1..])) + (['e'] + sign + power)
  {
  }

  method WriteMantissa(digits: string, b0: string) returns (b: string)
    requires digits != []
    ensures b == b0 + (digits[..1] + FracText(digits[1..]))
  {
    b := b0;
    if |digits| == 1 {
      b := b + digits;
    } else {
      b := b + digits[..1];
      b := b + ".";
      b := b + digits[1..];
    }
  }

  /** The formatter as it builds its text. */
  method WriteNumber(f: F64) returns (out: Option<string>)
    requires f.Fin? ==> ShortestForm(f)
    ensures out == FormatNumber(f)
  {
    if f.NaN? || f.Inf? {
      return None;
    }
    if f.Zero? {
      return Some("0");
    }
    var b := if f.neg then "-" else "";
    b := WriteDigits(f, b);
    return Some(b);
  }

  lemma LayoutForm(f: F64)
    requires f.Fin? && ShortestForm(f)
    ensures LitForm(Layout(f))
  {
  }

  lemma ModTen(a: nat, d: nat)
    requires d < 10
    ensures (a * 10 + d) % 10 == d
  {
  }

  lemma LastDigit(s: string)
    requires AllDigits(s) && s != [] && s[|s| - 1] != '0'
    ensures NatOf(s) % 10 != 0
  {
    var n := |s| - 1;
    ModTen(NatOf(s[..n]), DigitValue(s[n]));
  }

  /** A literal that adds zeros to digits denotes their value, shifted. */
  lemma PaddedValue(neg: bool, digits: string, m: nat)
    requires AllDigits(digits) && NatOf(digits) % 10 != 0
    ensures Norm(neg, NatOf(digits + Zeros(m)), 0) == Dec(neg, NatOf(digits), m)
  {
    NatOfTrailing(digits, m);
    NormScaled(neg, NatOf(digits), m, 0);
  }

  lemma NormFixed(neg: bool, c: nat, e: int)
    requires c % 10 != 0
    ensures Norm(neg, c, e) == Dec(neg, c, e)
  {
  }

  /** Every layout denotes exactly the value of the digits it was given. */
  lemma LayoutValue(f: F64)
    requires f.Fin? && ShortestForm(f)
    ensures LitForm(Layout(f)) && LitDec(Layout(f)) == DecOf(f)
  {
    hide Norm, NatOf, DigitsOf, IsDigit;
    LayoutForm(f);
    var k, n, digits, l := |f.digits|, f.point, f.digits, Layout(f);
    LastDigit(digits);
    NormFixed(f.neg, NatOf(digits), n - k);
    if k <= n <= 21 {
      assert l.whole + l.frac == digits + Zeros(n - k);
      PaddedValue(f.neg, digits, n - k);
    } else if 0 < n <= 21 {
      assert l.whole + l.frac == digits;
    } else if -6 < n <= 0 {
      assert l.whole + l.frac == Zeros(1 - n) + digits;
      NatOfLeading(digits, 1 - n);
    } else {
      assert l.whole + l.frac == digits;
      NatOfDigits(if n - 1 >= 0 then n - 1 else 1 - n);
    }
  }

  // ---------------------------------------------------------------------
  // Reading a literal back.

  /** How many digits s begins with. */
  function DigitRun(s: string): (n: nat)
    ensures n <= |s| && AllDigits(s[..n]) && (n < |s| ==> !IsDigit(s[n]))
  {
    if s == [] || !IsDigit(s[0]) then 0
    else
      var m := DigitRun(s[1..]);
      assert s[..1 + m] == [s[0]] + s[1..][..m];
      1 + m
  }

  lemma {:induction false} DigitRunOf(d: string, rest: string)
    requires AllDigits(d) && (rest != [] ==> !IsDigit(rest[0]))
    ensures DigitRun(d + rest) == |d|
    decreases |d|
  {
    if d == [] {
      assert d + rest == rest;
    } else {
      assert (d + rest)[1..] == d[1..] + rest;
      DigitRunOf(d[1..], rest);
    }
  }

  function ReadWhole(s: string): (r: Option<(string, string)>)
    ensures r.Some? ==> WholeForm(r.value.0) && r.value.0 + r.value.1 == s
  {
    var w := DigitRun(s);
    if w == 0 || (s[0] == '0' && w > 1) then None else Some((s[..w], s[w..]))
  }

  function ReadFrac(s: string): (r: Option<(string, string)>)
    ensures r.Some? ==> AllDigits(r.value.0) && FracText(r.value.0) + r.value.1 == s
  {
    if s == [] || s[0] != '.' then Some(("", s))
    else
      var k := DigitRun(s[1..]);
      if k == 0 then None else Some((s[1..][..k], s[1..][k..]))
  }

  /** A leading sign, or nothing. */
  function SignOf(s: string): (sign: string)
    ensures |sign| <= |s| && s[..|sign|] == sign && sign in ["", "+", "-"]
  {
    if s != [] && (s[0] == '+' || s[0] == '-') then [s[0]] else ""
  }

  lemma ExpParts(s: string, sign: string, x: nat)
    requires s != [] && |s| >= 1 + |sign| + x && s[1..1 + |sign|] == sign
    ensures var s2 := s[1..][|sign|..];
      s2[..x] == s[1 + |sign|..1 + |sign| + x] && ExpText(Some(Exp(s[0], sign, s2[..x]))) + s2[x..] == s
  {
    var n := 1 + |sign|;
    assert s[1..][|sign|..] == s[n..];
    assert s == [s[0]] + s[1..n] + s[n..n + x] + s[n + x..];
  }

  function ReadExp(s: string): (r: Option<(Option<Exp>, string)>)
    ensures r.Some? ==> LitForm(NumLit(false, "0", "", r.value.0)) && ExpText(r.value.0) + r.value.1 == s
  {
    if s == [] || (s[0] != 'e' && s[0] != 'E') then Some((None, s))
    else
      var s1 := s[1..];
      var sign := SignOf(s1);
      var s2 := s1[|sign|..];
      var x := DigitRun(s2);
      if x == 0 then None
      else
        ExpParts(s, sign, x);
        Some((Some(Exp(s[0], sign, s2[..x])), s2[x..]))
  }

  lemma Assembles(l: NumLit, s: string, s1: string, s2: string, s3: string, s4: string)
    requires s1 == l.whole + s2 && s2 == FracText(l.frac) + s3 && s3 == ExpText(l.exp) + s4
    requires if l.neg then s == ['-'] + s1 else s == s1
    ensures LitText(l) + s4 == s
  {
    hide FracText, ExpText;
    assert BodyText(l) + s4 == s1;
  }

  /** One literal at the head of s, and what follows it. */
  function ReadLit(s: string): (r: Option<(NumLit, string)>)
    ensures r.Some? ==> LitForm(r.value.0) && LitText(r.value.0) + r.value.1 == s
  {
    var neg := s != [] && s[0] == '-';
    var s1 := if neg then s[1..] else s;
    var whole := ReadWhole(s1);
    if whole.None? then None
    else
      var frac := ReadFrac(whole.value.1);
      if frac.None? then None
      else
        var exp := ReadExp(frac.value.1);
        if exp.None? then None
        else
          var l := NumLit(neg, whole.value.0, frac.value.0, exp.value.0);
          Assembles(l, s, s1, whole.value.1, frac.value.1, exp.value.1);
          Some((l, exp.value.1))
  }

  /** What may follow a literal without becoming part of it. */
  predicate Ends(rest: string) {
    rest == [] || (!IsDigit(rest[0]) && rest[0] != '.' && rest[0] != 'e' && rest[0] != 'E')
  }

  lemma WholeBack(whole: string, rest: string)
    requires WholeForm(whole) && (rest != [] ==> !IsDigit(rest[0]))
    ensures ReadWhole(whole + rest) == Some((whole, rest))
  {
    DigitRunOf(whole, rest);
  }

  lemma FracBack(frac: string, rest: string)
    requires AllDigits(frac) && (rest != [] ==> !IsDigit(rest[0]) && rest[0] != '.')
    ensures ReadFrac(FracText(frac) + rest) == Some((frac, rest))
  {
    var s := FracText(frac) + rest;
    if frac != "" {
      assert s[1..] == frac + rest;
      DigitRunOf(frac, rest);
    } else {
      assert s == rest;
    }
  }

  lemma SignBack(sign: string, digits: string, rest: string)
    requires sign in ["", "+", "-"] && digits != [] && AllDigits(digits)
    ensures var s := sign + (digits + rest);
      SignOf(s) == sign && s[|sign|..] == digits + rest
  {
    assert IsDigit(digits[0]);
  }

  lemma ReadExpAt(s: string)
    requires s != [] && (s[0] == 'e' || s[0] == 'E')
    ensures var sign := SignOf(s[1..]);
      var s2 := s[1..][|sign|..];
      var x := DigitRun(s2);
      x > 0 ==> ReadExp(s) == Some((Some(Exp(s[0], sign, s2[..x])), s2[x..]))
  {
    hide SignOf, AllDigits, IsDigit;
  }

  lemma ExpBack(x: Option<Exp>, rest: string)
    requires LitForm(NumLit(false, "0", "", x)) && Ends(rest)
    ensures ReadExp(ExpText(x) + rest) == Some((x, rest))
  {
    var s := ExpText(x) + rest;
    match x
    case None => assert s == rest;
    case Some(e) => SomeExpBack(e, rest);
  }

  lemma SomeExpBack(e: Exp, rest: string)
    requires LitForm(NumLit(false, "0", "", Some(e))) && Ends(rest)
    ensures ReadExp(ExpText(Some(e)) + rest) == Some((Some(e), rest))
  {
    var s, s1 := ExpText(Some(e)) + rest, e.sign + (e.digits + rest);
    assert s == [e.mark] + s1 && s[1..] == s1;
    SignBack(e.sign, e.digits, rest);
    ExpDigits(e.digits, rest);
    hide AllDigits, IsDigit, SignOf, ReadExp, Ends;
    ReadExpAt(s);
  }

  lemma ExpDigits(digits: string, rest: string)
    requires AllDigits(digits) && Ends(rest)
    ensures DigitRun(digits + rest) == |digits|
    ensures (digits + rest)[..|digits|] == digits && (digits + rest)[|digits|..] == rest
  {
    DigitRunOf(digits, rest);
  }

  lemma BodyBack(l: NumLit, rest: string)
    requires LitForm(l) && Ends(rest)
    ensures ReadWhole(BodyText(l) + rest) == Some((l.whole, FracText(l.frac) + (ExpText(l.exp) + rest)))
    ensures ReadFrac(FracText(l.frac) + (ExpText(l.exp) + rest)) == Some((l.frac, ExpText(l.exp) + rest))
  {
    hide ReadWhole, ReadFrac;
    var tail := ExpText(l.exp) + rest;
    assert BodyText(l) + rest == l.whole + (FracText(l.frac) + tail);
    WholeBack(l.whole, FracText(l.frac) + tail);
    FracBack(l.frac, tail);
  }

  /** A printed literal is read back whole, whatever follows it. */
  lemma ReadBack(l: NumLit, rest: string)
    requires LitForm(l) && Ends(rest)
    ensures ReadLit(LitText(l) + rest) == Some((l, rest))
  {
    hide ReadWhole, ReadFrac, ReadExp, BodyText, FracText, ExpText;
    var body := BodyText(l) + rest;
    BodyBack(l, rest);
    ExpBack(l.exp, rest);
    BodyStart(l, rest);
    assert LitText(l) + rest == (if l.neg then "-" else "") + body;
    assert l.neg ==> (LitText(l) + rest)[1..] == body;
    assert !l.neg ==> LitText(l) + rest == body;
  }

  lemma BodyStart(l: NumLit, rest: string)
    requires LitForm(l)
    ensures var s := BodyText(l) + rest; s != [] && IsDigit(s[0])
  {
  }

  // ---------------------------------------------------------------------
  // Numbers of a document.

  /** A number's whole text, when it is one literal. */
  function ParseLit(s: string): (r: Option<NumLit>)
    ensures r.Some? ==> LitForm(r.value) && LitText(r.value) == s
  {
    var r := ReadLit(s);
    if r.Some? && r.value.1 == "" then
      assert LitText(r.value.0) + "" == LitText(r.value.0);
      Some(r.value.0)
    else None
  }

  lemma ParseBack(l: NumLit)
    requires LitForm(l)
    ensures ParseLit(LitText(l)) == Some(l)
  {
    ReadBack(l, "");
    assert LitText(l) + "" == LitText(l);
  }

  /** An integer, refused when canonicalizing it would change digits a double does
      not hold. */
  function FormatBigInt(fl: Floats, i: int): Option<string>
    requires IsDouble(fl, fl.nearest(DecOfInt(i)))
  {
    var out := FormatNumber(fl.nearest(DecOfInt(i)));
    if fl.exact(i) then out
    else if out != Some(IntText(i)) then None
    else out
  }

  const EXACT_BOUND: int := 0x20_0000_0000_0000

  /** The integer kinds: small ones go straight to the double. */
  function FormatInt(fl: Floats, i: int): Option<string>
    requires IsDouble(fl, fl.nearest(DecOfInt(i)))
  {
    if -EXACT_BOUND <= i <= EXACT_BOUND then FormatNumber(fl.nearest(DecOfInt(i)))
    else FormatBigInt(fl, i)
  }

  /** A number literal of a document. */
  function FormatLit(fl: Floats, l: NumLit): Option<string>
    requires LitForm(l) && Lawful(fl)
  {
    if IsInteger(l) then FormatBigInt(fl, LitInt(l))
    else FormatNumber(fl.nearest(LitDec(l)))
  }

  function FormatJSONNumber(fl: Floats, lit: string): Option<string>
    requires Lawful(fl)
  {
    var l := ParseLit(lit);
    if l.None? then None else FormatLit(fl, l.value)
  }

  // ---------------------------------------------------------------------
  // What formatting keeps.

  /** Equal, up to the sign of zero. */
  predicate SameDouble(f: F64, g: F64) {
    f == g || (f.Zero? && g.Zero?)
  }

  lemma FormattedReads(f: F64)
    requires f.Fin? && ShortestForm(f)
    ensures LitForm(Layout(f)) && ParseLit(LitText(Layout(f))) == Some(Layout(f))
    ensures LitDec(Layout(f)) == DecOf(f)
  {
    LayoutValue(f);
    ParseBack(Layout(f));
  }

  lemma ZeroLit()
    ensures LitForm(NumLit(false, "0", "", None)) && ParseLit("0") == Some(NumLit(false, "0", "", None))
    ensures LitInt(NumLit(false, "0", "", None)) == 0 && DecOfInt(0) == Dec(false, 0, 0) && IntText(0) == "0"
    ensures LitDec(NumLit(false, "0", "", None)) == Dec(false, 0, 0)
  {
    var l := NumLit(false, "0", "", None);
    assert LitText(l) == "0";
    assert "0" + "" == "0";
    assert "0"[..0] == [];
    ParseBack(l);
    NatOfDigits(0);
  }

  /** The integer an integer literal spells, and its text. */
  lemma IntegerLit(l: NumLit)
    requires LitForm(l) && IsInteger(l) && l.whole[0] != '0'
    ensures DecOfInt(LitInt(l)) == LitDec(l) && IntText(LitInt(l)) == LitText(l)
  {
    DigitsOfNat(l.whole);
    assert l.whole + l.frac == l.whole;
    assert BodyText(l) == l.whole;
  }

  /** A number re-canonicalizes to itself: the text of any finite double is
      accepted back and formats to the same text, in every layout, the integer one
      included. */
  lemma NumberStable(fl: Floats, f: F64)
    requires Lawful(fl) && IsDouble(fl, f) && (f.Fin? || f.Zero?)
    ensures FormatNumber(f).Some?
    ensures FormatJSONNumber(fl, FormatNumber(f).value) == FormatNumber(f)
  {
    hide ParseLit, ReadLit, Norm, DigitsOf, NatOf, DecOf, LitDec, DecOfInt, LitInt, IntText, LitText, Layout, LitForm;
    if f.Zero? {
      ZeroLit();
      assert fl.nearest(Dec(false, 0, 0)) == Zero(false);
    } else {
      FiniteStable(fl, f);
    }
  }

  lemma FiniteStable(fl: Floats, f: F64)
    requires Lawful(fl) && IsDouble(fl, f) && f.Fin?
    ensures FormatJSONNumber(fl, FormatNumber(f).value) == FormatNumber(f)
  {
    hide ReadLit, ParseLit, Norm, DigitsOf, NatOf, DecOf, LitDec, DecOfInt, LitInt, IntText, LitText;
    FormattedReads(f);
    var l := Layout(f);
    if IsInteger(l) {
      IntegerLit(l);
    }
  }

  /** An accepted literal and its output denote one double. */
  lemma SameNearest(fl: Floats, lit: string)
    requires Lawful(fl) && FormatJSONNumber(fl, lit).Some?
    ensures var out := FormatJSONNumber(fl, lit).value;
      && ParseLit(lit).Some? && ParseLit(out).Some?
      && SameDouble(fl.nearest(LitDec(ParseLit(out).value)), fl.nearest(LitDec(ParseLit(lit).value)))
  {
    var l := ParseLit(lit).value;
    var d := if IsInteger(l) then DecOfInt(LitInt(l)) else LitDec(l);
    var f := fl.nearest(d);
    assert FormatJSONNumber(fl, lit) == FormatNumber(f);
    ReadsAs(fl, l);
    if f.Fin? {
      FormattedReads(f);
    } else {
      ZeroLit();
    }
  }

  /** The double an integer literal is formatted from is the one it denotes. */
  lemma ReadsAs(fl: Floats, l: NumLit)
    requires Lawful(fl) && LitForm(l)
    ensures IsInteger(l) ==> SameDouble(fl.nearest(DecOfInt(LitInt(l))), fl.nearest(LitDec(l)))
  {
    if IsInteger(l) {
      assert l.whole + l.frac == l.whole;
      if l.whole[0] == '0' {
        assert l.whole == "0" && "0"[..0] == [];
        assert LitDec(l) == Dec(l.neg, 0, 0) && DecOfInt(LitInt(l)) == Dec(false, 0, 0);
      } else {
        IntegerLit(l);
      }
    }
  }

  /** Canonicalizing a number twice is canonicalizing it once. */
  lemma NumberIdempotent(fl: Floats, lit: string)
    requires Lawful(fl) && FormatJSONNumber(fl, lit).Some?
    ensures FormatJSONNumber(fl, FormatJSONNumber(fl, lit).value) == FormatJSONNumber(fl, lit)
  {
    var l := ParseLit(lit).value;
    var f := fl.nearest(if IsInteger(l) then DecOfInt(LitInt(l)) else LitDec(l));
    NumberStable(fl, f);
  }

  /** Different doubles have different texts. */
  lemma TextInjective(fl: Floats, f: F64, g: F64)
    requires IsDouble(fl, f) && IsDouble(fl, g)
    requires FormatNumber(f).Some? && FormatNumber(f) == FormatNumber(g)
    ensures SameDouble(f, g)
  {
    if f.Fin? {
      FormattedReads(f);
      NotZeroText(f);
    }
    if g.Fin? {
      FormattedReads(g);
      NotZeroText(g);
    }
  }

  lemma NotZeroText(f: F64)
    requires f.Fin? && ShortestForm(f)
    ensures FormatNumber(f) != Some("0")
  {
    FormattedReads(f);
    ZeroLit();
    LastDigit(f.digits);
  }

  /** Two accepted integers share a text exactly when they share their nearest
      double. */
  lemma IntTextsExact(fl: Floats, i: int, j: int)
    requires Lawful(fl) && FormatBigInt(fl, i).Some? && FormatBigInt(fl, j).Some?
    ensures FormatBigInt(fl, i) == FormatBigInt(fl, j) <==> fl.nearest(DecOfInt(i)) == fl.nearest(DecOfInt(j))
  {
    var f, g := fl.nearest(DecOfInt(i)), fl.nearest(DecOfInt(j));
    if FormatBigInt(fl, i) == FormatBigInt(fl, j) {
      TextInjective(fl, f, g);
      NormInt(i < 0, if i < 0 then -i else i, 0);
      NormInt(j < 0, if j < 0 then -j else j, 0);
    }
  }

  lemma {:induction false} NormInt(neg: bool, c: nat, e: nat)
    ensures var d := Norm(neg, c, e); d.neg == neg && d.e >= 0 && (d.c == 0 <==> c == 0)
    decreases c
  {
    if c != 0 && c % 10 == 0 {
      NormInt(neg, c / 10, e + 1);
    }
  }

  // ---------------------------------------------------------------------
  // Integers a double holds.

  /** The shortest digits of a small integer are its own. */
  ghost predicate SmallExact(fl: Floats) {
    forall i | -EXACT_BOUND <= i <= EXACT_BOUND && i != 0 ::
      fl.exact(i) && fl.nearest(DecOfInt(i)).Fin? && ShortestForm(fl.nearest(DecOfInt(i)))
      && DecOf(fl.nearest(DecOfInt(i))) == DecOfInt(i)
  }

  lemma {:induction false} NormValue(neg: bool, c: nat, e: nat)
    requires c > 0
    ensures var d := Norm(neg, c, e); d.e >= e && d.c * Pow10(d.e - e) == c
    decreases c
  {
    if c % 10 == 0 {
      NormValue(neg, c / 10, e + 1);
      var d := Norm(neg, c, e);
      assert d.c * Pow10(d.e - e) == 10 * (d.c * Pow10(d.e - e - 1));
    }
  }

  lemma {:induction false} PowAdd(a: nat, b: nat)
    ensures Pow10(a + b) == Pow10(a) * Pow10(b)
    decreases a
  {
    if a > 0 {
      PowAdd(a - 1, b);
      assert Pow10(a) * Pow10(b) == 10 * (Pow10(a - 1) * Pow10(b));
    }
  }

  lemma {:induction false} DigitsBound(s: string, m: nat)
    requires AllDigits(s) && s != [] && s[0] != '0' && NatOf(s) < Pow10(m)
    ensures |s| <= m
    decreases |s|
  {
    var n := |s| - 1;
    if n > 0 && m > 0 {
      DigitsBound(s[..n], m - 1);
    } else if n == 0 {
      assert s[..0] == [];
    } else {
      DigitsOfNat(s);
    }
  }

  lemma BoundDigits()
    ensures EXACT_BOUND < Pow10(16) && Pow10(17) == 100000000000000000
  {
    PowAdd(2, 2);
    PowAdd(4, 4);
    PowAdd(8, 8);
  }

  /** A double whose shortest digits spell the positive integer c. */
  lemma WholeLayout(f: F64, c: nat)
    requires f.Fin? && ShortestForm(f) && 0 < c <= EXACT_BOUND
    requires DecOf(f) == Norm(f.neg, c, 0)
    ensures Layout(f) == NumLit(f.neg, DigitsOf(c), "", None)
  {
    NormValue(f.neg, c, 0);
    var m := f.point - |f.digits|;
    NatOfTrailing(f.digits, m);
    var whole := f.digits + Zeros(m);
    assert NatOf(whole) == c;
    BoundDigits();
    DigitsBound(whole, 16);
    DigitsOfNat(whole);
  }

  /** Up to 2^53 every integer formats as its own decimal text. */
  lemma SmallInts(fl: Floats, i: int)
    requires Lawful(fl) && SmallExact(fl) && -EXACT_BOUND <= i <= EXACT_BOUND
    ensures FormatInt(fl, i) == Some(IntText(i)) == FormatBigInt(fl, i)
  {
    hide Norm;
    if i == 0 {
      ZeroLit();
      assert fl.nearest(Dec(false, 0, 0)) == Zero(false);
    } else {
      var f := fl.nearest(DecOfInt(i));
      var c: nat := if i < 0 then -i else i;
      NormInt(i < 0, c, 0);
      assert f.neg == (i < 0);
      WholeLayout(f, c);
      assert BodyText(Layout(f)) == DigitsOf(c);
      assert "" + DigitsOf(c) == DigitsOf(c);
      assert FormatNumber(f) == Some(IntText(i));
    }
  }

  /** Beyond 2^53 the integer kinds are not told apart. 10^17 + 16 is a double, so
      it is taken, and its shortest digits spell 10^17 + 20, which is taken because
      that text is its own. */
  lemma IntsCollide(fl: Floats, f: F64)
    requires Lawful(fl) && fl.exact(100000000000000016)
    requires f == Fin(false, "1" + Zeros(15) + "2", 18)
    requires fl.nearest(DecOfInt(100000000000000016)) == f && fl.nearest(DecOfInt(100000000000000020)) == f
    ensures FormatInt(fl, 100000000000000016).Some?
    ensures FormatInt(fl, 100000000000000016) == FormatInt(fl, 100000000000000020)
  {
    CollidingLit(f);
    hide NatOf, Zeros, Layout, LitInt, LitText, LitForm;
    IntegerLit(Layout(f));
  }

  lemma CollidingLit(f: F64)
    requires f == Fin(false, "1" + Zeros(15) + "2", 18)
    ensures var l := Layout(f);
      && LitForm(l) && IsInteger(l) && l.whole[0] != '0' && LitInt(l) == 100000000000000020
    ensures Layout(f) == NumLit(false, f.digits + Zeros(1), "", None)
  {
    BoundDigits();
    SpelledOut();
  }

  lemma SpelledOut()
    ensures NatOf("1" + Zeros(15) + "2" + Zeros(1)) == 10 * (10 * Pow10(15) + 2)
    ensures 10 * (10 * Pow10(15) + 2) == Pow10(17) + 20
  {
    assert NatOf("1") == 1 && Pow10(1) == 10 by { assert "1"[..0] == []; }
    assert Pow10(17) == 10 * Pow10(16) && Pow10(16) == 10 * Pow10(15);
    hide NatOf, Pow10, Zeros;
    NatOfTrailing("1", 15);
    NatOfSnoc("1" + Zeros(15), '2');
    NatOfTrailing("1" + Zeros(15) + "2", 1);
  }

  // ---------------------------------------------------------------------
  // The laws have a model: decimals that are never rounded.

  lemma {:induction false} NormStable(neg: bool, c: nat, e: int)
    requires c != 0
    ensures var d := Norm(neg, c, e);
      && d.neg == neg && d.c % 10 != 0 && Norm(d.neg, d.c, d.e) == d
    ensures e >= 0 ==> Norm(neg, c, e).e >= 0
    decreases c
  {
    if c % 10 == 0 {
      NormStable(neg, c / 10, e + 1);
    }
  }

  lemma DigitsEnd(n: nat)
    ensures DigitValue(DigitsOf(n)[|DigitsOf(n)| - 1]) == n % 10
  {
  }

  function Unrounded(d: Dec): F64 {
    if d.c == 0 then Zero(d.neg)
    else
      var n := Norm(d.neg, d.c, d.e);
      Fin(n.neg, DigitsOf(n.c), n.e + |DigitsOf(n.c)|)
  }

  lemma UnroundedValue(d: Dec)
    requires d.c != 0
    ensures Unrounded(d).Fin? && ShortestForm(Unrounded(d))
    ensures DecOf(Unrounded(d)) == Norm(d.neg, d.c, d.e)
    ensures Unrounded(DecOf(Unrounded(d))) == Unrounded(d)
  {
    NormStable(d.neg, d.c, d.e);
    var n := Norm(d.neg, d.c, d.e);
    NatOfDigits(n.c);
    DigitsEnd(n.c);
  }

  lemma UnroundedLawful(fl: Floats, d: Dec)
    requires fl.nearest == Unrounded
    ensures var f := fl.nearest(d);
      && !f.NaN? && IsDouble(fl, f)
      && (f.Fin? ==> f.neg == d.neg && d.c != 0)
      && (d.c == 0 ==> f == Zero(d.neg))
      && (f.Zero? ==> f.neg == d.neg && (d.e >= 0 ==> d.c == 0))
  {
    if d.c != 0 {
      hide Norm, DecOf, ShortestForm;
      UnroundedValue(d);
      NormStable(d.neg, d.c, d.e);
    }
  }

  lemma UnroundedSmall(i: int)
    requires i != 0
    ensures var f := Unrounded(DecOfInt(i)); f.Fin? && ShortestForm(f) && DecOf(f) == DecOfInt(i)
  {
    hide Unrounded, ShortestForm, DecOf;
    NormStable(i < 0, if i < 0 then -i else i, 0);
    UnroundedValue(DecOfInt(i));
  }

  lemma FloatsExist()
    ensures exists fl :: Lawful(fl) && SmallExact(fl)
  {
    hide Unrounded, IsDouble, ShortestForm, DecOf, DecOfInt;
    var fl := Floats(Unrounded, i => true);
    forall d ensures var f := fl.nearest(d);
      && !f.NaN? && IsDouble(fl, f)
      && (f.Fin? ==> f.neg == d.neg && d.c != 0)
      && (d.c == 0 ==> f == Zero(d.neg))
      && (f.Zero? ==> f.neg == d.neg && (d.e >= 0 ==> d.c == 0))
    {
      UnroundedLawful(fl, d);
    }
    forall i | -EXACT_BOUND <= i <= EXACT_BOUND && i != 0
      ensures fl.exact(i) && fl.nearest(DecOfInt(i)).Fin? && ShortestForm(fl.nearest(DecOfInt(i)))
        && DecOf(fl.nearest(DecOfInt(i))) == DecOfInt(i)
    {
      UnroundedSmall(i);
    }
    assert Lawful(fl);
    assert SmallExact(fl);
  }
}
