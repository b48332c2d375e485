/** How strings are spelled, in numbers: what each character is written as and what each
    escape is read as, section 3.2.2.2 of RFC 8785 and section 7 of RFC 8259. */
module CanonicalSpelling {
  import opened Prelude
  import opened CanonicalString

  // ---------------------------------------------------------------------
  // Writing.

  lemma {:induction false} EscapedBoth(a: string, b: string)
    ensures Escaped(a + b) == Escaped(a) + Escaped(b)
    decreases |a|
  {
    hide Escape;
    if a == "" {
      assert a + b == b;
    } else {
      assert (a + b)[1..] == a[1..] + b;
      EscapedBoth(a[1..], b);
    }
  }

  /** A hexadecimal digit, in capitals or not. */
  function Digit(n: nat, capital: bool): char
    requires n < 16
  {
    if n < 10 then (48 + n) as char else ((if capital then 55 else 87) + n) as char
  }

  /** Each character is written for itself, in this way: seven as two-letter escapes,
      the other controls as four lower-case hexadecimal digits, and everything else,
      the solidus and what is not ASCII included, as it is. */
  lemma Spelling(s: string, c: char)
    ensures Quoted(s) == ['"'] + Escaped(s) + ['"'] && Escaped(s + [c]) == Escaped(s) + Escaped([c])
    ensures var n := c as int;
      Escaped([c]) ==
        if n == 0x22 then [0x5C as char, 0x22 as char]
        else if n == 0x5C then [0x5C as char, 0x5C as char]
        else if n == 0x08 then [0x5C as char, 'b']
        else if n == 0x09 then [0x5C as char, 't']
        else if n == 0x0A then [0x5C as char, 'n']
        else if n == 0x0C then [0x5C as char, 'f']
        else if n == 0x0D then [0x5C as char, 'r']
        else if n < 0x20 then [0x5C as char, 'u', '0', '0', Digit(n / 16, false), Digit(n % 16, false)]
        else [c]
  {
    hide Escape, Digit;
    EscapedBoth(s, [c]);
    OneEscaped(c);
    ControlEscape(c);
    PlainEscape(c);
  }

  lemma OneEscaped(c: char)
    ensures Escaped([c]) == Escape(c)
  {
    hide Escape;
    assert [c][1..] == "";
    assert Escaped([c]) == Escape(c) + "";
  }

  lemma ControlEscape(c: char)
    ensures var n := c as int;
      n < 0x20 && n !in {0x08, 0x09, 0x0A, 0x0C, 0x0D} ==>
        Escape(c) == [0x5C as char, 'u', '0', '0', Digit(n / 16, false), Digit(n % 16, false)]
  {
    if c as int < 0x20 {
      LowerDigit(c as int / 16);
      LowerDigit(c as int % 16);
      hide Digit, HexDigit;
    }
  }

  lemma PlainEscape(c: char)
    ensures var n := c as int;
      && (n == 0x22 ==> Escape(c) == [0x5C as char, 0x22 as char]) && (n == 0x5C ==> Escape(c) == [0x5C as char, 0x5C as char])
      && (n == 0x08 ==> Escape(c) == [0x5C as char, 'b']) && (n == 0x09 ==> Escape(c) == [0x5C as char, 't'])
      && (n == 0x0A ==> Escape(c) == [0x5C as char, 'n']) && (n == 0x0C ==> Escape(c) == [0x5C as char, 'f'])
      && (n == 0x0D ==> Escape(c) == [0x5C as char, 'r'])
      && (n >= 0x20 && n != 0x22 && n != 0x5C ==> Escape(c) == [c])
  {
    hide HexDigit;
  }

  lemma LowerDigit(n: nat)
    requires n < 16
    ensures HexDigit(n) == Digit(n, false)
  {
  }

  // ---------------------------------------------------------------------
  // Reading.

  /** c, and then whatever the rest is. */
  function Then(c: char, rest: string): Option<(string, string)> {
    var more := ReadChars(rest);
    if more.None? then None else Some(([c] + more.value.0, more.value.1))
  }

  /** A two-letter escape, the solidus's included, stands for one character. */
  lemma ShortRead(letter: char, c: char, rest: string)
    requires (letter as int, c as int) in
      {(0x22, 0x22), (0x5C, 0x5C), (0x2F, 0x2F), (98, 0x08), (102, 0x0C), (110, 0x0A), (114, 0x0D), (116, 0x09)}
    ensures ReadChars([0x5C as char, letter] + rest) == Then(c, rest)
  {
    var s := [0x5C as char, letter] + rest;
    assert s[2..] == rest;
  }

  /** No other letter makes an escape, but u. */
  lemma NoOther(letter: char, rest: string)
    requires letter as int !in {0x22, 0x5C, 0x2F, 98, 102, 110, 114, 116, 117}
    ensures ReadChars([0x5C as char, letter] + rest) == None
  {
  }

  /** A character is its own spelling unless it is a quote, a backslash or a control. */
  lemma PlainRead(c: char, rest: string)
    ensures ReadChars([c] + rest) ==
      if c as int == 0x22 then Some(("", rest))
      else if (c as int) < 0x20 then None
      else if c as int == 0x5C then ReadChars([0x5C as char] + rest)
      else Then(c, rest)
  {
    assert ([c] + rest)[1..] == rest;
  }

  datatype Quad = Quad(a: nat, b: nat, c: nat, d: nat, capital: seq<bool>)

  predicate QuadForm(q: Quad) {
    q.a < 16 && q.b < 16 && q.c < 16 && q.d < 16 && |q.capital| == 4
  }

  /** \u and four digits, each in capitals or not. */
  function QuadText(q: Quad): string
    requires QuadForm(q)
  {
    [0x5C as char, 'u', Digit(q.a, q.capital[0]), Digit(q.b, q.capital[1]), Digit(q.c, q.capital[2]), Digit(q.d, q.capital[3])]
  }

  function QuadCode(q: Quad): nat {
    q.a * 0x1000 + q.b * 0x100 + q.c * 0x10 + q.d
  }

  lemma DigitBack(n: nat, capital: bool)
    requires n < 16
    ensures HexValue(Digit(n, capital)) == Some(n)
  {
  }

  lemma QuadAt(q: Quad, rest: string)
    requires QuadForm(q)
    ensures UnicodeAt(QuadText(q) + rest) == Some(QuadCode(q)) && (QuadText(q) + rest)[6..] == rest
  {
    DigitBack(q.a, q.capital[0]);
    DigitBack(q.b, q.capital[1]);
    DigitBack(q.c, q.capital[2]);
    DigitBack(q.d, q.capital[3]);
    var s := QuadText(q) + rest;
    assert s[2..6] == QuadText(q)[2..6];
  }

  /** A four-digit escape stands for the character of its number, unless that is half of
      a pair; the other half right after it makes the character of both; and half a pair
      alone is read as U+FFFD. */
  lemma QuadRead(q: Quad, rest: string)
    requires QuadForm(q)
    ensures var n := QuadCode(q);
      && (n < 0xD800 || 0xE000 <= n < 0x10000 ==> ReadChars(QuadText(q) + rest) == Then(n as char, rest))
      && (0xDC00 <= n < 0xE000 ==> ReadChars(QuadText(q) + rest) == Then(0xFFFD as char, rest))
      && n < 0x10000
  {
    QuadAt(q, rest);
    hide Hex4;
  }

  lemma PairRead(q: Quad, r: Quad, rest: string)
    requires QuadForm(q) && QuadForm(r) && 0xD800 <= QuadCode(q) < 0xDC00
    ensures 0xDC00 <= QuadCode(r) < 0xE000 ==>
      ReadChars(QuadText(q) + (QuadText(r) + rest)) ==
        Then((0x10000 + (QuadCode(q) - 0xD800) * 0x400 + (QuadCode(r) - 0xDC00)) as char, rest)
    ensures !(0xDC00 <= QuadCode(r) < 0xE000) ==>
      ReadChars(QuadText(q) + (QuadText(r) + rest)) == Then(0xFFFD as char, QuadText(r) + rest)
  {
    QuadAt(q, QuadText(r) + rest);
    QuadAt(r, rest);
    var s := QuadText(q) + (QuadText(r) + rest);
    assert s[12..] == (QuadText(r) + rest)[6..] == rest;
    hide Hex4, UnicodeAt;
  }

  // ---------------------------------------------------------------------
  // The shortest spelling.

  /** a is b up to hexadecimal digits in capitals. */
  predicate UpToCapitals(a: string, b: string) {
    |a| == |b| && forall i | 0 <= i < |a| :: a[i] == b[i] || ('A' <= a[i] <= 'F' && b[i] as int == a[i] as int + 32)
  }

  lemma ElemShortest(s: string)
    requires ReadElem(s).Some?
    ensures var (c, rest) := ReadElem(s).value;
      var n := |s| - |rest|;
      && rest == s[n..] && |Escape(c)| <= n
      && (n == |Escape(c)| ==> UpToCapitals(s[..n], Escape(c)))
  {
    var (c, rest) := ReadElem(s).value;
    if s[0] == '\\' && !(|s| >= 2 && Short(s[1]).Some?) {
      HexShortest(s, c, rest);
    }
  }

  lemma HexShortest(s: string, c: char, rest: string)
    requires ReadElem(s) == Some((c, rest)) && s[0] == '\\' && !(|s| >= 2 && Short(s[1]).Some?)
    ensures var n := |s| - |rest|;
      && rest == s[n..] && n >= 6
      && (|Escape(c)| == n ==> UpToCapitals(s[..n], Escape(c)))
  {
    var n := |s| - |rest|;
    if |Escape(c)| == 6 && n == 6 {
      ControlDigits(s[2..6], c as int);
      assert s[..6] == "\\u" + s[2..6];
      LowerDigit(c as int / 16);
      LowerDigit(c as int % 16);
    }
  }

  lemma ControlDigits(h: string, n: nat)
    requires |h| == 4 && Hex4(h) == Some(n) && n < 0x20
    ensures h[0] == '0' && h[1] == '0' && h[2] == Digit(n / 16, false)
    ensures h[3] == Digit(n % 16, false) || h[3] == Digit(n % 16, true)
  {
    var a, b, c, d := HexValue(h[0]).value, HexValue(h[1]).value, HexValue(h[2]).value, HexValue(h[3]).value;
    assert ((a * 16 + b) * 16 + c) * 16 + d == n;
    assert a == 0 && b == 0;
    assert c == n / 16 && d == n % 16;
  }

  /** No literal that reads as s is shorter than the one written, and one that is as long
      differs from it in the case of hexadecimal digits at most. */
  lemma {:induction false} Shortest(t: string, s: string)
    requires ReadChars(t) == Some((s, ""))
    ensures |Escaped(s)| + 1 <= |t|
    ensures |t| == |Escaped(s)| + 1 ==> UpToCapitals(t, Escaped(s) + "\"")
    decreases |t|
  {
    hide ReadElem, Escape;
    if t[0] == '"' {
      assert t == "\"";
    } else {
      var (c, rest) := ReadElem(t).value;
      var n := |t| - |rest|;
      ElemShortest(t);
      Shortest(rest, s[1..]);
      assert s == [c] + s[1..];
      assert Escaped(s) == Escape(c) + Escaped(s[1..]);
      if |t| == |Escaped(s)| + 1 {
        JoinCapitals(t[..n], rest, Escape(c), Escaped(s[1..]) + "\"");
        assert t[..n] + rest == t;
        assert Escape(c) + (Escaped(s[1..]) + "\"") == Escaped(s) + "\"";
      }
    }
  }

  lemma JoinCapitals(a: string, b: string, c: string, d: string)
    requires UpToCapitals(a, c) && UpToCapitals(b, d)
    ensures UpToCapitals(a + b, c + d)
  {
  }
}
