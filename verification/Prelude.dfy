/** Small shared vocabulary: optional values, finite integer sets, and the spelling of
    a hash. */
module Prelude {

  datatype Option<+T> = None | Some(value: T)

  /** A hash of 256 bits in lower-case hexadecimal digits. */
  predicate HexHash(s: string) {
    |s| == 64 && forall i | 0 <= i < 64 :: '0' <= s[i] <= '9' || 'a' <= s[i] <= 'f'
  }

  /** A non-empty finite set of integers has a least element. */
  lemma {:induction false} MinExists(s: set<int>)
    requires s != {}
    ensures exists m :: m in s && forall x | x in s :: m <= x
    decreases |s|
  {
    assert (forall e :: e !in s) ==> s == {};
    var e :| e in s;
    if s == {e} {
    } else {
      var t := s - {e};
      assert s == t + {e};
      MinExists(t);
      var m :| m in t && forall x | x in t :: m <= x;
      assert forall x | x in s :: x == e || x in t;
      var k := if e <= m then e else m;
      assert k in s && forall x | x in s :: k <= x;
    }
  }

  function Min(s: set<int>): (m: int)
    requires s != {}
    ensures m in s && forall x | x in s :: m <= x
  {
    MinExists(s);
    var m :| m in s && forall x | x in s :: m <= x;
    m
  }

  /** The integers lo, lo+1, ..., lo+n-1. */
  function Range(lo: int, n: nat): (s: set<int>)
    ensures forall q :: q in s <==> lo <= q < lo + n
    ensures |s| == n
  {
    if n == 0 then {} else Range(lo, n - 1) + {lo + n - 1}
  }

  lemma SubsetSize<T>(a: set<T>, b: set<T>)
    requires a <= b
    ensures |a| <= |b|
    ensures |a| == |b| ==> a == b
  {
    assert b == a + (b - a);
    assert |b| == |a| + |b - a|;
  }
}
