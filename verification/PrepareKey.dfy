/** What a prepared artifact is named by: everything that would make it different. */
module PrepareKey {
  import opened CanonicalNumber
  import opened Names

  /** cards names each of the node's cards by its model. */
  datatype Inputs = Inputs(
    model: string, manifest: string, backend: string, image: string, argv: seq<string>,
    archSpecific: bool, cards: seq<string>)

  /** The models among the cards, each once, in order. */
  function Models(cards: seq<string>): seq<string> {
    Sorted(Distinct(cards))
  }

  function Tail(i: Inputs): seq<string> {
    i.argv + if i.archSpecific then Models(i.cards) else []
  }

  function Parts(i: Inputs): seq<string> {
    [i.model, i.manifest, i.backend, i.image] + Tail(i)
  }

  /** Each part after its length. */
  function Text(parts: seq<string>): string
    decreases |parts|
  {
    if parts == [] then "" else DigitsOf(|parts[0]|) + (":" + (parts[0] + Text(parts[1..])))
  }

  lemma {:induction false} TextSnoc(parts: seq<string>, p: string)
    ensures Text(parts + [p]) == Text(parts) + (DigitsOf(|p|) + ":" + p)
    decreases |parts|
  {
    hide DigitsOf;
    if parts == [] {
      assert [p][1..] == [] && parts + [p] == [p];
      LastText(p);
    } else {
      TextSnoc(parts[1..], p);
      assert (parts + [p])[1..] == parts[1..] + [p];
      Regroup(DigitsOf(|parts[0]|), parts[0], Text(parts[1..]), DigitsOf(|p|) + ":" + p);
    }
  }

  lemma LastText(p: string)
    ensures DigitsOf(|p|) + (":" + (p + "")) == "" + (DigitsOf(|p|) + ":" + p)
  {
    assert p + "" == p;
  }

  lemma Regroup(n: string, p: string, t: string, u: string)
    ensures n + (":" + (p + (t + u))) == (n + (":" + (p + t))) + u
  {
  }

  lemma {:induction false} TextBoth(a: seq<string>, b: seq<string>)
    ensures Text(a + b) == Text(a) + Text(b)
    decreases |b|
  {
    hide DigitsOf;
    if b == [] {
      assert a + b == a && Text(b) == "";
    } else {
      var k := |b| - 1;
      TextBoth(a, b[..k]);
      TextSnoc(a + b[..k], b[k]);
      TextSnoc(b[..k], b[k]);
      assert (a + b[..k]) + [b[k]] == a + b && b[..k] + [b[k]] == b;
    }
  }

  /** Each part after its length, one after the other. */
  method WriteParts(text0: string, parts: seq<string>) returns (text: string)
    ensures text == text0 + Text(parts)
  {
    text := text0;
    var k := 0;
    while k < |parts|
      invariant 0 <= k <= |parts| && text == text0 + Text(parts[..k])
    {
      TextSnoc(parts[..k], parts[k]);
      assert parts[..k + 1] == parts[..k] + [parts[k]];
      text := text + (DigitsOf(|parts[k]|) + ":" + parts[k]);
      k := k + 1;
    }
    assert parts[..k] == parts;
  }

  /** What is hashed into the key. */
  method KeyText(i: Inputs) returns (text: string)
    ensures text == Text(Parts(i))
  {
    hide Text, Sorted;
    var head := [i.model, i.manifest, i.backend, i.image] + i.argv;
    text := WriteParts("", head);
    if i.archSpecific {
      var names, k := [], 0;
      while k < |i.cards|
        invariant 0 <= k <= |i.cards| && names == Distinct(i.cards[..k])
      {
        assert i.cards[..k + 1][..k] == i.cards[..k];
        if i.cards[k] !in names {
          names := names + [i.cards[k]];
        }
        k := k + 1;
      }
      assert i.cards[..k] == i.cards;
      TextBoth(head, Sorted(names));
      assert head + Sorted(names) == Parts(i);
      text := WriteParts(text, Sorted(names));
    } else {
      assert head == Parts(i);
    }
  }

  /** The first part can be read off the text. */
  lemma FirstPart(p: string, rest: string, q: string, more: string)
    requires DigitsOf(|p|) + (":" + (p + rest)) == DigitsOf(|q|) + (":" + (q + more))
    ensures p == q && rest == more
  {
    var a, b := DigitsOf(|p|), DigitsOf(|q|);
    DigitRunOf(a, ":" + (p + rest));
    DigitRunOf(b, ":" + (q + more));
    var s := a + (":" + (p + rest));
    assert a == s[..|a|] && b == s[..|b|];
    NatOfDigits(|p|);
    NatOfDigits(|q|);
    assert s[|a| + 1..] == p + rest == q + more;
    assert (p + rest)[..|p|] == p && (q + more)[..|q|] == q;
    assert (p + rest)[|p|..] == rest && (q + more)[|q|..] == more;
  }

  lemma {:induction false} TextInjective(a: seq<string>, b: seq<string>)
    requires Text(a) == Text(b)
    ensures a == b
    decreases |a|
  {
    if a != [] && b != [] {
      FirstPart(a[0], Text(a[1..]), b[0], Text(b[1..]));
      TextInjective(a[1..], b[1..]);
      assert a == [a[0]] + a[1..] && b == [b[0]] + b[1..];
    } else {
      NeverEmpty(a);
      NeverEmpty(b);
    }
  }

  lemma NeverEmpty(a: seq<string>)
    ensures Text(a) == "" <==> a == []
  {
  }

  /** Two builds are hashed from one text exactly when model, weights, backend and image
      agree and so do arguments and GPU names taken as one list: no other split of the
      same bytes reads alike, but where the arguments end is not marked. */
  lemma KeyExact(a: Inputs, b: Inputs)
    ensures Text(Parts(a)) == Text(Parts(b)) <==>
      && a.model == b.model && a.manifest == b.manifest && a.backend == b.backend && a.image == b.image
      && Tail(a) == Tail(b)
  {
    hide Text, Tail;
    if Text(Parts(a)) == Text(Parts(b)) {
      TextInjective(Parts(a), Parts(b));
      var p, q := Parts(a), Parts(b);
      assert p[0] == q[0] && p[1] == q[1] && p[2] == q[2] && p[3] == q[3];
      assert p[4..] == Tail(a) && q[4..] == Tail(b);
    }
  }

  /** So two splits do hash alike: a model named as the last argument, and the same model
      among the cards it comes before. */
  lemma SplitsCollide(i: Inputs, first: string)
    requires i.archSpecific && forall n | n in i.cards :: Before(first, n)
    ensures var a, b := i.(argv := i.argv + [first]), i.(cards := [first] + i.cards);
      a.argv != b.argv && Models(a.cards) != Models(b.cards) && Text(Parts(a)) == Text(Parts(b))
  {
    hide Text, Sorted, Distinct, Before;
    var a, b := i.(argv := i.argv + [first]), i.(cards := [first] + i.cards);
    ModelsFirst(i.cards, first);
    assert Tail(a) == Tail(b);
    KeyExact(a, b);
  }

  lemma ModelsFirst(cards: seq<string>, first: string)
    requires forall n | n in cards :: Before(first, n)
    ensures Models([first] + cards) == [first] + Models(cards)
  {
    hide Before, Distinct, Sorted;
    var all, rest := Distinct([first] + cards), Distinct(cards);
    SortedAscends(all);
    SortedAscends(rest);
    forall n ensures (n in Sorted(all) <==> n in [first] + cards) && (n in Sorted(rest) <==> n in cards) {
      SortedHas(all, n);
      SortedHas(rest, n);
    }
    AscendsUnique(Models([first] + cards), [first] + Models(cards));
  }

  /** What the cards change. An artifact tied to its cards has one key exactly on the
      nodes with the same set of models, however many cards of each there are and in
      whatever order they are reported; one that is not has one key on all nodes. */
  lemma CardsExact(i: Inputs, cards: seq<string>)
    ensures Text(Parts(i)) == Text(Parts(i.(cards := cards))) <==>
      !i.archSpecific || forall n :: n in i.cards <==> n in cards
  {
    hide Text, Sorted, Distinct;
    var j := i.(cards := cards);
    KeyExact(i, j);
    if i.archSpecific {
      SortedExact(Distinct(i.cards), Distinct(cards));
      assert Tail(i)[|i.argv|..] == Models(i.cards) && Tail(j)[|i.argv|..] == Models(cards);
    }
  }
}
