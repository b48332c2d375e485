/** The raw scan for unpaired surrogate escapes: a lexical pass that skips by
    index, and the string literals it stands for. */
module CanonicalSurrogates {
  import opened Prelude
  import opened CanonicalString

  // ---------------------------------------------------------------------
  // The scan.

  /** What the scan answers about the text from here on: true when it finds no
      unpaired surrogate escape. */
  predicate Scan(d: string)
    decreases |d|
  {
    if |d| < 2 then true
    else if d[0] != '\\' then Scan(d[1..])
    else if d[1] == '\\' then Scan(d[2..])
    else if d[1] != 'u' || |d| <= 5 then Scan(d[1..])
    else
      var hi := Hex4(d[2..6]);
      if hi.None? then Scan(d[1..])
      else if Low(hi.value) then false
      else if High(hi.value) then
        if |d| <= 11 || d[6] != '\\' || d[7] != 'u' then false
        else
          var lo := Hex4(d[8..12]);
          if lo.None? || !Low(lo.value) then false else Scan(d[12..])
      else Scan(d[1..])
  }

  method CheckSurrogateEscapes(data: string) returns (ok: bool)
    ensures ok == Scan(data)
  {
    var i := 0;
    while i + 1 < |data|
      invariant 0 <= i <= |data|
      invariant Scan(data[i..]) == Scan(data)
      decreases |data| - i
    {
      ghost var d := data[i..];
      assert d[0] == data[i] && d[1] == data[i + 1];
      assert d[1..] == data[i + 1..];
      if data[i] != '\\' {
        i := i + 1;
        continue;
      }
      if data[i + 1] == '\\' {
        assert d[2..] == data[i + 2..];
        i := i + 2;
        continue;
      }
      if data[i + 1] != 'u' || i + 5 >= |data| {
        i := i + 1;
        continue;
      }
      assert d[2..6] == data[i + 2..i + 6];
      var hi := Hex4(data[i + 2..i + 6]);
      if hi.None? {
        i := i + 1;
        continue;
      }
      if Low(hi.value) {
        return false;
      }
      if High(hi.value) {
        var j := i + 6;
        if j + 5 >= |data| || data[j] != '\\' || data[j + 1] != 'u' {
          return false;
        }
        assert d[8..12] == data[j + 2..j + 6];
        var lo := Hex4(data[j + 2..j + 6]);
        if lo.None? || !Low(lo.value) {
          return false;
        }
        assert d[12..] == data[j + 6..];
        i := j + 5;
      }
      i := i + 1;
    }
    return true;
  }

  // ---------------------------------------------------------------------
  // The literals of a JSON text.

  /** One element of a string literal: a character as it is, a two-letter escape,
      or \u with four hexadecimal digits. */
  datatype Elem = Plain(c: char) | Pair(c: char) | Uni(hex: string)

  predicate ElemForm(e: Elem) {
    match e
    case Plain(c) => c != '"' && c != '\\' && c >= ' '
    case Pair(c) => Short(c).Some?
    case Uni(hex) => |hex| == 4 && Hex4(hex).Some?
  }

  function ElemText(e: Elem): string {
    match e
    case Plain(c) => [c]
    case Pair(c) => ['\\', c]
    case Uni(hex) => "\\u" + hex
  }

  /** A JSON text, lexically: characters outside strings, none of them a quote or
      a backslash, and string literals. */
  datatype Piece = Outside(c: char) | Literal(elems: seq<Elem>)

  predicate PieceForm(p: Piece) {
    match p
    case Outside(c) => c != '"' && c != '\\'
    case Literal(es) => forall i | 0 <= i < |es| :: ElemForm(es[i])
  }

  predicate Formed(ps: seq<Piece>) {
    forall i | 0 <= i < |ps| :: PieceForm(ps[i])
  }

  function ElemsText(es: seq<Elem>): string {
    if es == [] then "" else ElemText(es[0]) + ElemsText(es[1..])
  }

  function PieceText(p: Piece): string {
    match p
    case Outside(c) => [c]
    case Literal(es) => "\"" + (ElemsText(es) + "\"")
  }

  function Text(ps: seq<Piece>): string {
    if ps == [] then "" else PieceText(ps[0]) + Text(ps[1..])
  }

  predicate HighElem(e: Elem)
    requires ElemForm(e)
  {
    e.Uni? && High(Hex4(e.hex).value)
  }

  predicate LowElem(e: Elem)
    requires ElemForm(e)
  {
    e.Uni? && Low(Hex4(e.hex).value)
  }

  /** Element i of a literal is not an unpaired surrogate: a leading one has a
      trailing one right after it, and a trailing one a leading one right before
      it that is not taken by another. */
  predicate Paired(es: seq<Elem>)
    requires PieceForm(Literal(es))
  {
    if es == [] then true
    else if LowElem(es[0]) then false
    else if HighElem(es[0]) then |es| >= 2 && LowElem(es[1]) && Paired(es[2..])
    else Paired(es[1..])
  }

  predicate AllPaired(ps: seq<Piece>)
    requires Formed(ps)
  {
    forall i | 0 <= i < |ps| && ps[i].Literal? :: Paired(ps[i].elems)
  }

  // ---------------------------------------------------------------------
  // The scan is exact.

  /** Characters that are not a backslash are passed one at a time. */
  lemma {:induction false} ScanPlain(s: string, rest: string)
    requires forall i | 0 <= i < |s| :: s[i] != '\\'
    ensures Scan(s + rest) == Scan(rest)
    decreases |s|
  {
    if s == "" {
      assert s + rest == rest;
    } else {
      var d := s + rest;
      assert d[1..] == s[1..] + rest;
      ScanPlain(s[1..], rest);
      if |d| < 2 {
        assert |rest| < 2;
      }
    }
  }

  lemma HexPlain(hex: string)
    requires |hex| == 4 && Hex4(hex).Some?
    ensures forall i | 0 <= i < 4 :: hex[i] != '\\'
  {
  }

  /** One element that is no surrogate is passed whole. */
  lemma ScanElem(e: Elem, rest: string)
    requires ElemForm(e) && !HighElem(e) && !LowElem(e)
    ensures Scan(ElemText(e) + rest) == Scan(rest)
  {
    var d := ElemText(e) + rest;
    match e
    case Plain(c) => ScanPlain([c], rest);
    case Pair(c) =>
      if c == '\\' {
        assert d[2..] == rest;
      } else {
        assert d[1..] == [c] + rest;
        ScanPlain([c], rest);
      }
    case Uni(hex) =>
      HexPlain(hex);
      assert d[1..] == ("u" + hex) + rest;
      assert d[2..6] == hex;
      ScanPlain("u" + hex, rest);
  }

  lemma ScanLow(e: Elem, rest: string)
    requires ElemForm(e) && LowElem(e)
    ensures !Scan(ElemText(e) + rest)
  {
    var d := ElemText(e) + rest;
    assert d[2..6] == e.hex;
  }

  lemma ScanPair(e: Elem, f: Elem, rest: string)
    requires ElemForm(e) && ElemForm(f) && HighElem(e) && LowElem(f)
    ensures Scan(ElemText(e) + (ElemText(f) + rest)) == Scan(rest)
  {
    var d := ElemText(e) + (ElemText(f) + rest);
    assert d[2..6] == e.hex && d[8..12] == f.hex && d[12..] == rest;
    assert d[6] == '\\' && d[7] == 'u';
  }

  lemma ScanAtHigh(d: string)
    requires |d| >= 6 && d[0] == '\\' && d[1] == 'u' && Scan(d)
    requires Hex4(d[2..6]).Some? && High(Hex4(d[2..6]).value)
    ensures |d| > 11 && d[6] == '\\' && d[7] == 'u'
    ensures Hex4(d[8..12]).Some? && Low(Hex4(d[8..12]).value)
  {
    hide Hex4;
  }

  lemma HighNeeds(e: Elem, tail: string)
    requires ElemForm(e) && HighElem(e) && Scan(ElemText(e) + tail)
    ensures |tail| >= 6 && tail[0] == '\\' && tail[1] == 'u'
    ensures Hex4(tail[2..6]).Some? && Low(Hex4(tail[2..6]).value)
  {
    hide Scan, Hex4;
    var d := ElemText(e) + tail;
    assert d[2..6] == e.hex;
    ScanAtHigh(d);
    assert |d| > 11 ==> d[6] == tail[0] && d[7] == tail[1] && d[8..12] == tail[2..6];
  }

  /** A leading surrogate not followed by a trailing one stops the scan; inside a
      literal there is always at least the closing quote to look at. */
  lemma ScanHigh(e: Elem, es: seq<Elem>, rest: string)
    requires ElemForm(e) && HighElem(e) && PieceForm(Literal(es))
    requires es == [] || !LowElem(es[0])
    ensures !Scan(ElemText(e) + (ElemsText(es) + ("\"" + rest)))
  {
    hide Scan, HighElem, Hex4;
    var tail := ElemsText(es) + ("\"" + rest);
    assert es != [] ==> tail == ElemText(es[0]) + (ElemsText(es[1..]) + ("\"" + rest));
    assert es != [] && es[0].Uni? ==> tail[2..6] == es[0].hex;
    if Scan(ElemText(e) + tail) {
      HighNeeds(e, tail);
    }
  }

  lemma {:induction false} ScanElems(es: seq<Elem>, rest: string)
    requires PieceForm(Literal(es))
    ensures Scan(ElemsText(es) + ("\"" + rest)) == (Paired(es) && Scan(rest))
    decreases |es|
  {
    hide Scan, ElemForm, HighElem, LowElem, ElemText;
    var tail := "\"" + rest;
    if es == [] {
      assert ElemsText(es) + tail == tail;
      ScanPlain("\"", rest);
    } else {
      var more := ElemsText(es[1..]) + tail;
      assert ElemsText(es) + tail == ElemText(es[0]) + more;
      if LowElem(es[0]) {
        ScanLow(es[0], more);
      } else if HighElem(es[0]) {
        if |es| >= 2 && LowElem(es[1]) {
          assert es[1..][1..] == es[2..];
          assert more == ElemText(es[1]) + (ElemsText(es[2..]) + tail);
          ScanPair(es[0], es[1], ElemsText(es[2..]) + tail);
          ScanElems(es[2..], rest);
        } else {
          assert |es| >= 2 ==> es[1..][0] == es[1];
          ScanHigh(es[0], es[1..], rest);
        }
      } else {
        ScanElem(es[0], more);
        ScanElems(es[1..], rest);
      }
    }
  }

  /** The scan finds nothing exactly when no literal of the text holds an unpaired
      surrogate escape, escaped backslashes and adjoining literals notwithstanding. */
  lemma {:induction false} ScanExact(ps: seq<Piece>)
    requires Formed(ps)
    ensures Scan(Text(ps)) <==> AllPaired(ps)
    decreases |ps|
  {
    hide Scan, AllPaired, Paired;
    if ps == [] {
      ScanNothing();
    } else {
      ScanExact(ps[1..]);
      PairedCons(ps);
      var rest := Text(ps[1..]);
      match ps[0]
      case Outside(c) => ScanPlain([c], rest);
      case Literal(es) =>
        assert Text(ps) == "\"" + (ElemsText(es) + ("\"" + rest));
        ScanPlain("\"", ElemsText(es) + ("\"" + rest));
        ScanElems(es, rest);
    }
  }

  lemma ScanNothing()
    ensures Scan("") && AllPaired([])
  {
  }

  lemma PairedCons(ps: seq<Piece>)
    requires Formed(ps) && ps != []
    ensures Formed(ps[1..])
    ensures AllPaired(ps) <==> (ps[0].Literal? ==> Paired(ps[0].elems)) && AllPaired(ps[1..])
  {
    hide Paired, PieceForm;
    assert forall i | 0 <= i < |ps[1..]| :: ps[1..][i] == ps[i + 1];
    if AllPaired(ps) {
      forall i | 0 <= i < |ps[1..]| && ps[1..][i].Literal? ensures Paired(ps[1..][i].elems) {
        assert ps[i + 1].Literal?;
      }
    }
    if (ps[0].Literal? ==> Paired(ps[0].elems)) && AllPaired(ps[1..]) {
      forall i | 0 <= i < |ps| && ps[i].Literal? ensures Paired(ps[i].elems) {
        assert i > 0 ==> ps[1..][i - 1] == ps[i];
      }
    }
  }
}
