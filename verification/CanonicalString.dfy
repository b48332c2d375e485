/** Canonical strings: the RFC 8785 section 3.2.2.2 escapes and their reading
    back, and the section 3.2.3 order of property names. A string is a sequence
    of Unicode scalar values, which is what valid UTF-8 encodes. */
module CanonicalString {
  import opened Prelude

  // ---------------------------------------------------------------------
  // Writing.

  function HexDigit(n: nat): (c: char)
    requires n < 16
  {
    "0123456789abcdef"[n]
  }

  function Escape(c: char): string {
    if c == '"' then "\\\""
    else if c == '\\' then "\\\\"
    else if c == '\U{08}' then "\\b"
    else if c == '\t' then "\\t"
    else if c == '\n' then "\\n"
    else if c == '\U{0C}' then "\\f"
    else if c == '\r' then "\\r"
    else if c < ' ' then "\\u00" + [HexDigit(c as int / 16), HexDigit(c as int % 16)]
    else [c]
  }

  function Escaped(s: string): string {
    if s == "" then "" else Escape(s[0]) + Escaped(s[1..])
  }

  function Quoted(s: string): string {
    "\"" + (Escaped(s) + "\"")
  }

  lemma {:induction false} EscapedSnoc(s: string, c: char)
    ensures Escaped(s + [c]) == Escaped(s) + Escape(c)
  {
    if s == "" {
      assert Escaped([c]) == Escape(c) + Escaped("");
    } else {
      assert (s + [c])[1..] == s[1..] + [c];
      EscapedSnoc(s[1..], c);
    }
  }

  lemma EscapedEmpty()
    ensures Escaped("") == ""
  {
  }

  /** The writer: one pass, appending. */
  method WriteString(b0: string, s: string) returns (b: string)
    ensures b == b0 + Quoted(s)
  {
    hide Escape, Escaped;
    b := b0 + "\"";
    assert Escaped(s[..0]) == "" by { EscapedEmpty(); }
    for i := 0 to |s|
      invariant b == b0 + "\"" + Escaped(s[..i])
    {
      b := b + Escape(s[i]);
      EscapedSnoc(s[..i], s[i]);
      assert s[..i + 1] == s[..i] + [s[i]];
    }
    assert s[..|s|] == s;
    b := b + "\"";
  }

  // ---------------------------------------------------------------------
  // Reading.

  function HexValue(c: char): Option<nat> {
    if '0' <= c <= '9' then Some(c as int - '0' as int)
    else if 'a' <= c <= 'f' then Some(10 + c as int - 'a' as int)
    else if 'A' <= c <= 'F' then Some(10 + c as int - 'A' as int)
    else None
  }

  /** Four hexadecimal digits, as section 7 of RFC 8259 has them after \u. */
  function Hex4(s: string): (r: Option<nat>)
    requires |s| >= 4
    ensures r.Some? ==> r.value < 0x10000
  {
    var a, b, c, d := HexValue(s[0]), HexValue(s[1]), HexValue(s[2]), HexValue(s[3]);
    if a.None? || b.None? || c.None? || d.None? then None
    else
      assert a.value < 16 && b.value < 16 && c.value < 16 && d.value < 16;
      Some(((a.value * 16 + b.value) * 16 + c.value) * 16 + d.value)
  }

  predicate High(n: nat) { 0xD800 <= n < 0xDC00 }

  predicate Low(n: nat) { 0xDC00 <= n < 0xE000 }

  function PairChar(hi: nat, lo: nat): char
    requires High(hi) && Low(lo)
  {
    (0x10000 + (hi - 0xD800) * 0x400 + (lo - 0xDC00)) as char
  }

  /** The character a two-letter escape stands for. */
  function Short(c: char): Option<char> {
    if c == '"' then Some('"')
    else if c == '\\' then Some('\\')
    else if c == '/' then Some('/')
    else if c == 'b' then Some('\U{08}')
    else if c == 'f' then Some('\U{0C}')
    else if c == 'n' then Some('\n')
    else if c == 'r' then Some('\r')
    else if c == 't' then Some('\t')
    else None
  }

  /** One \uXXXX escape at the head of s. */
  function UnicodeAt(s: string): Option<nat> {
    if |s| >= 6 && s[0] == '\\' && s[1] == 'u' then Hex4(s[2..6]) else None
  }

  /** One element of a string literal: the character it stands for and what
      follows. An unpaired surrogate escape reads as U+FFFD. */
  function ReadElem(s: string): (r: Option<(char, string)>)
    ensures r.Some? ==> |r.value.1| < |s|
  {
    if s == "" || s[0] == '"' || s[0] < ' ' then None
    else if s[0] != '\\' then Some((s[0], s[1..]))
    else if |s| >= 2 && Short(s[1]).Some? then Some((Short(s[1]).value, s[2..]))
    else
      var u := UnicodeAt(s);
      if u.None? then None
      else if High(u.value) then
        var lo := UnicodeAt(s[6..]);
        if lo.Some? && Low(lo.value) then Some((PairChar(u.value, lo.value), s[12..]))
        else Some(('\U{FFFD}', s[6..]))
      else if Low(u.value) then Some(('\U{FFFD}', s[6..]))
      else Some((u.value as char, s[6..]))
  }

  /** The rest of a string literal whose opening quote has been read. */
  function ReadChars(s: string): (r: Option<(string, string)>)
    ensures r.Some? ==> |r.value.1| < |s|
    decreases |s|
  {
    if s != "" && s[0] == '"' then Some(("", s[1..]))
    else
      var e := ReadElem(s);
      if e.None? then None
      else
        var more := ReadChars(e.value.1);
        if more.None? then None else Some(([e.value.0] + more.value.0, more.value.1))
  }

  lemma HexBack(n: nat)
    requires n < 16
    ensures HexValue(HexDigit(n)) == Some(n)
  {
  }

  lemma ElemBack(c: char, rest: string)
    ensures Escape(c) + rest != "" && (Escape(c) + rest)[0] != '"'
    ensures ReadElem(Escape(c) + rest) == Some((c, rest))
  {
    var s := Escape(c) + rest;
    if |Escape(c)| == 6 {
      HexBack(c as int / 16);
      HexBack(c as int % 16);
      assert s[2..6] == ['0', '0', HexDigit(c as int / 16), HexDigit(c as int % 16)];
      assert s[6..] == rest;
    } else if |Escape(c)| == 2 {
      assert s[2..] == rest;
    } else {
      assert s[1..] == rest;
    }
  }

  /** What was quoted reads back, whatever follows it. */
  lemma {:induction false} StringBack(s: string, rest: string)
    ensures ReadChars(Escaped(s) + "\"" + rest) == Some((s, rest))
  {
    hide ReadElem, Escape;
    if s == "" {
      assert (Escaped(s) + "\"" + rest)[1..] == rest;
    } else {
      var tail := Escaped(s[1..]) + "\"" + rest;
      assert Escaped(s) + "\"" + rest == Escape(s[0]) + tail;
      ElemBack(s[0], tail);
      StringBack(s[1..], rest);
      assert s == [s[0]] + s[1..];
    }
  }

  // ---------------------------------------------------------------------
  // The order of names.

  function Units(c: char): (u: seq<nat>) {
    if c as int < 0x10000 then [c as int]
    else [0xD800 + (c as int - 0x10000) / 0x400, 0xDC00 + (c as int - 0x10000) % 0x400]
  }

  function Utf16(s: string): seq<nat> {
    if s == "" then [] else Units(s[0]) + Utf16(s[1..])
  }

  /** Code units compared in turn; a proper prefix comes first. */
  predicate LessUnits(a: seq<nat>, b: seq<nat>)
    decreases |a|
  {
    if a == [] || b == [] then |a| < |b|
    else if a[0] != b[0] then a[0] < b[0]
    else LessUnits(a[1..], b[1..])
  }

  predicate Less(a: string, b: string) {
    LessUnits(Utf16(a), Utf16(b))
  }

  method LessUTF16(a: string, b: string) returns (less: bool)
    ensures less == Less(a, b)
  {
    var au, bu := Utf16(a), Utf16(b);
    var i := 0;
    while i < |au| && i < |bu|
      invariant 0 <= i <= |au| && i <= |bu|
      invariant LessUnits(au[i..], bu[i..]) == Less(a, b)
    {
      if au[i] != bu[i] {
        return au[i] < bu[i];
      }
      assert au[i..][1..] == au[i + 1..] && bu[i..][1..] == bu[i + 1..];
      i := i + 1;
    }
    return |au| < |bu|;
  }

  lemma {:induction false} UnitsTrichotomy(a: seq<nat>, b: seq<nat>)
    ensures !(LessUnits(a, b) && LessUnits(b, a))
    ensures LessUnits(a, b) || LessUnits(b, a) || a == b
    ensures a == b ==> !LessUnits(a, b)
    decreases |a|
  {
    if a != [] && b != [] && a[0] == b[0] {
      UnitsTrichotomy(a[1..], b[1..]);
      assert a == [a[0]] + a[1..] && b == [b[0]] + b[1..];
    }
  }

  lemma {:induction false} UnitsTransitive(a: seq<nat>, b: seq<nat>, c: seq<nat>)
    requires LessUnits(a, b) && LessUnits(b, c)
    ensures LessUnits(a, c)
    decreases |a|
  {
    if a != [] && b != [] && c != [] && a[0] == b[0] == c[0] {
      UnitsTransitive(a[1..], b[1..], c[1..]);
    }
  }

  lemma UnitsInjective(c: char, d: char, x: seq<nat>, y: seq<nat>)
    requires Units(c) + x == Units(d) + y
    ensures c == d && x == y
  {
    var l, r := Units(c) + x, Units(d) + y;
    assert l[0] == Units(c)[0] && r[0] == Units(d)[0];
    assert |Units(c)| == |Units(d)|;
    if |Units(c)| == 2 {
      assert l[1] == Units(c)[1] && r[1] == Units(d)[1];
    }
    assert x == l[|Units(c)|..] && y == r[|Units(d)|..];
  }

  /** Encoding into UTF-16 loses nothing of a Unicode string. */
  lemma {:induction false} Utf16Injective(a: string, b: string)
    requires Utf16(a) == Utf16(b)
    ensures a == b
  {
    if a != "" && b != "" {
      UnitsInjective(a[0], b[0], Utf16(a[1..]), Utf16(b[1..]));
      Utf16Injective(a[1..], b[1..]);
    }
  }

  /** lessUTF16 is a strict total order on Unicode strings. */
  lemma LessTotal(a: string, b: string)
    ensures !(Less(a, b) && Less(b, a)) && !Less(a, a)
    ensures a != b ==> Less(a, b) || Less(b, a)
  {
    UnitsTrichotomy(Utf16(a), Utf16(b));
    UnitsTrichotomy(Utf16(a), Utf16(a));
    if Utf16(a) == Utf16(b) {
      Utf16Injective(a, b);
    }
  }

  lemma LessTransitive(a: string, b: string, c: string)
    requires Less(a, b) && Less(b, c)
    ensures Less(a, c)
  {
    UnitsTransitive(Utf16(a), Utf16(b), Utf16(c));
  }

  /** It is not the order of code points: a character above U+FFFF sorts below
      every character from U+E000 to U+FFFF. */
  lemma NotCodePointOrder(c: char, d: char)
    requires c as int >= 0x10000 && 0xE000 <= d as int < 0x10000
    ensures d < c && Less([c], [d])
  {
    assert Utf16([c]) == Units(c) + [] && Utf16([d]) == Units(d) + [];
    assert Utf16([c])[0] == Units(c)[0];
  }

  ghost predicate SortedKeys(ks: seq<string>) {
    forall i, j | 0 <= i < j < |ks| :: Less(ks[i], ks[j])
  }

  /** A set of names has one sorted arrangement: whatever order a map yields them
      in, sorting ends in the same sequence. */
  lemma {:induction false} SortUnique(a: seq<string>, b: seq<string>)
    requires SortedKeys(a) && SortedKeys(b)
    requires forall k :: k in a <==> k in b
    ensures a == b
    decreases |a|
  {
    assert a != [] ==> a[0] in b;
    assert b != [] ==> b[0] in a;
    if a != [] && b != [] {
      SortHead(a, b);
      forall k ensures k in a[1..] <==> k in b[1..] {
        SortTail(a, k);
        SortTail(b, k);
      }
      SortUnique(a[1..], b[1..]);
      assert a == [a[0]] + a[1..] && b == [b[0]] + b[1..];
    }
  }

  lemma SortHead(a: seq<string>, b: seq<string>)
    requires a != [] && b != [] && SortedKeys(a) && SortedKeys(b)
    requires forall k :: k in a <==> k in b
    ensures a[0] == b[0]
  {
    assert a[0] in b && b[0] in a;
    var i :| 0 <= i < |b| && b[i] == a[0];
    var j :| 0 <= j < |a| && a[j] == b[0];
    if i > 0 && j > 0 {
      LessTotal(a[0], b[0]);
    }
  }

  lemma SortTail(a: seq<string>, k: string)
    requires a != [] && SortedKeys(a)
    ensures k in a[1..] <==> k in a && k != a[0]
  {
    LessTotal(a[0], a[0]);
    if k in a && k != a[0] {
      var i :| 0 <= i < |a| && a[i] == k;
      assert a[1..][i - 1] == k;
    }
    if k in a[1..] {
      var i :| 0 <= i < |a[1..]| && a[1..][i] == k;
      assert a[i + 1] == k && Less(a[0], a[i + 1]);
    }
  }
}
