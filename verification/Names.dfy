/** Strings in Go's order: sorted lists, and the sorted list of a set of names. */
module Names {

  predicate Before(a: string, b: string) {
    b != "" && (a == "" || a[0] < b[0] || (a[0] == b[0] && Before(a[1..], b[1..])))
  }

  /** a stops where b goes on, or has the lower character where they first differ. */
  ghost predicate Lower(a: string, b: string, k: nat) {
    k <= |a| && k < |b| && a[..k] == b[..k] && (k == |a| || a[k] < b[k])
  }

  /** The order in full. */
  lemma {:induction false} BeforeExact(a: string, b: string)
    ensures Before(a, b) <==> exists k: nat :: Lower(a, b, k)
    decreases |a|
  {
    if b != "" && (a == "" || a[0] < b[0]) {
      assert Lower(a, b, 0);
    } else if a != "" && b != "" && a[0] == b[0] {
      BeforeExact(a[1..], b[1..]);
      if k: nat :| Lower(a[1..], b[1..], k) {
        assert a[..k + 1] == [a[0]] + a[1..][..k] && b[..k + 1] == [b[0]] + b[1..][..k];
        assert Lower(a, b, k + 1);
      }
      if k: nat :| Lower(a, b, k) {
        LowerTail(a, b, k);
      }
    }
  }

  lemma LowerTail(a: string, b: string, k: nat)
    requires a != "" && b != "" && a[0] == b[0] && Lower(a, b, k)
    ensures exists j: nat :: Lower(a[1..], b[1..], j)
  {
    var j := k - 1;
    assert a[1..][..j] == a[..k][1..] && b[1..][..j] == b[..k][1..];
    assert Lower(a[1..], b[1..], j);
  }

  lemma {:induction false} BeforeFacts(a: string, b: string)
    ensures !(Before(a, b) && Before(b, a)) && (Before(a, b) ==> a != b)
    ensures a != b ==> Before(a, b) || Before(b, a)
    decreases |a|
  {
    if a != "" && b != "" && a[0] == b[0] {
      BeforeFacts(a[1..], b[1..]);
      assert a == [a[0]] + a[1..] && b == [b[0]] + b[1..];
    }
  }

  lemma {:induction false} BeforeTransitive(a: string, b: string, c: string)
    requires Before(a, b) && Before(b, c)
    ensures Before(a, c)
    decreases |a|
  {
    if a != "" && a[0] == b[0] == c[0] {
      BeforeTransitive(a[1..], b[1..], c[1..]);
    }
  }

  predicate Ascends(ns: seq<string>) {
    forall i, j | 0 <= i < j < |ns| :: Before(ns[i], ns[j])
  }

  predicate NoneTwice(ns: seq<string>) {
    forall i, j | 0 <= i < j < |ns| :: ns[i] != ns[j]
  }

  /** Each name once, where it came first. */
  function Distinct(ns: seq<string>): (ds: seq<string>)
    ensures NoneTwice(ds) && forall n :: n in ds <==> n in ns
  {
    if ns == [] then []
    else
      var k := |ns| - 1;
      assert forall n :: n in ns <==> n in ns[..k] || n == ns[k];
      if ns[k] in Distinct(ns[..k]) then Distinct(ns[..k]) else Distinct(ns[..k]) + [ns[k]]
  }

  function Insert(ns: seq<string>, n: string): seq<string>
    decreases |ns|
  {
    var k := |ns| - 1;
    if ns == [] || !Before(n, ns[k]) then ns + [n] else Insert(ns[..k], n) + [ns[k]]
  }

  function Sorted(ns: seq<string>): seq<string>
    decreases |ns|
  {
    if ns == [] then [] else Insert(Sorted(ns[..|ns| - 1]), ns[|ns| - 1])
  }

  lemma {:induction false} InsertHas(ns: seq<string>, n: string, x: string)
    ensures x in Insert(ns, n) <==> x in ns || x == n
    decreases |ns|
  {
    hide Before;
    if ns != [] && Before(n, ns[|ns| - 1]) {
      InsertHas(ns[..|ns| - 1], n, x);
      assert ns == ns[..|ns| - 1] + [ns[|ns| - 1]];
    }
  }

  lemma {:induction false} InsertAscends(ns: seq<string>, n: string)
    requires Ascends(ns) && n !in ns
    ensures Ascends(Insert(ns, n))
    decreases |ns|
  {
    hide Before;
    if ns != [] {
      var init, last := ns[..|ns| - 1], ns[|ns| - 1];
      BeforeFacts(n, last);
      if Before(n, last) {
        InsertAscends(init, n);
        forall x | x in Insert(init, n) ensures Before(x, last) {
          InsertHas(init, n, x);
        }
      } else {
        forall i | 0 <= i < |ns| ensures Before(ns[i], n) {
          if i < |ns| - 1 {
            BeforeTransitive(ns[i], last, n);
          }
        }
      }
    }
  }

  lemma {:induction false} SortedHas(ns: seq<string>, x: string)
    ensures x in Sorted(ns) <==> x in ns
    decreases |ns|
  {
    if ns != [] {
      var k := |ns| - 1;
      SortedHas(ns[..k], x);
      InsertHas(Sorted(ns[..k]), ns[k], x);
      assert ns == ns[..k] + [ns[k]];
    }
  }

  lemma {:induction false} SortedAscends(ns: seq<string>)
    requires NoneTwice(ns)
    ensures Ascends(Sorted(ns))
    decreases |ns|
  {
    if ns != [] {
      var k := |ns| - 1;
      SortedAscends(ns[..k]);
      SortedHas(ns[..k], ns[k]);
      InsertAscends(Sorted(ns[..k]), ns[k]);
    }
  }

  lemma FirstIs(a: seq<string>, b: seq<string>)
    requires Ascends(a) && Ascends(b) && a != [] && b != [] && forall n :: n in a <==> n in b
    ensures a[0] == b[0]
  {
    hide Before;
    assert a[0] in b && b[0] in a;
    var i :| 0 <= i < |b| && b[i] == a[0];
    var j :| 0 <= j < |a| && a[j] == b[0];
    BeforeFacts(a[0], b[0]);
  }

  lemma Empty(a: seq<string>, b: seq<string>)
    requires forall n :: n in a <==> n in b
    ensures a == [] <==> b == []
  {
    assert a != [] ==> a[0] in a;
    assert b != [] ==> b[0] in b;
  }

  /** A set of names has one ascending list. */
  lemma {:induction false} AscendsUnique(a: seq<string>, b: seq<string>)
    requires Ascends(a) && Ascends(b) && forall n :: n in a <==> n in b
    ensures a == b
    decreases |a|
  {
    hide Before;
    if a == [] || b == [] {
      Empty(a, b);
    } else {
      FirstIs(a, b);
      forall n ensures n in a[1..] <==> n in b[1..] {
        RestHas(a, n);
        RestHas(b, n);
      }
      AscendsUnique(a[1..], b[1..]);
      assert a == [a[0]] + a[1..] && b == [b[0]] + b[1..];
    }
  }

  lemma RestHas(a: seq<string>, n: string)
    requires Ascends(a) && a != []
    ensures n in a[1..] <==> n in a && n != a[0]
  {
    hide Before;
    assert a == [a[0]] + a[1..];
    if n in a[1..] {
      var i :| 0 <= i < |a[1..]| && a[1..][i] == n;
      assert a[i + 1] == n;
      BeforeFacts(a[0], n);
    }
  }

  /** The sorted lists of two lists without repeats are equal exactly when the two hold
      the same names. */
  lemma SortedExact(a: seq<string>, b: seq<string>)
    requires NoneTwice(a) && NoneTwice(b)
    ensures Sorted(a) == Sorted(b) <==> forall n :: n in a <==> n in b
  {
    SortedAscends(a);
    SortedAscends(b);
    forall n ensures (n in Sorted(a) <==> n in a) && (n in Sorted(b) <==> n in b) {
      SortedHas(a, n);
      SortedHas(b, n);
    }
    if forall n :: n in a <==> n in b {
      AscendsUnique(Sorted(a), Sorted(b));
    }
  }
}
