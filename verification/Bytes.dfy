/** Byte strings and the key order shared by both B-tree back ends. */
module Bytes {

  type Byte = x: int | 0 <= x < 256
  type Blob = seq<Byte>

  function Min(a: nat, b: nat): nat {
    if a <= b then a else b
  }

  /** The C library's memcmp over the first n bytes: the sign is that of the first difference. */
  function MemCmp(a: Blob, b: Blob, n: nat): int
    requires n <= |a| && n <= |b|
    decreases n
  {
    if n == 0 then 0
    else if a[0] != b[0] then a[0] - b[0]
    else MemCmp(a[1..], b[1..], n - 1)
  }

  /** The red-black back end's key_compare: -1, 0 or 1; a proper prefix is the smaller key. */
  function KeyCompare(k1: Blob, k2: Blob): int {
    var mcmp := MemCmp(k1, k2, Min(|k1|, |k2|));
    if mcmp == 0 then
      if |k1| == |k2| then 0 else if |k1| < |k2| then -1 else 1
    else if mcmp > 0 then 1 else -1
  }

  ghost predicate Less(k1: Blob, k2: Blob) {
    KeyCompare(k1, k2) == -1
  }

  /** Reference definition of the lexicographic order, by the first position where the strings part. */
  ghost predicate LexLess(a: Blob, b: Blob) {
    exists i: nat :: PartAt(a, b, i)
  }

  ghost predicate PartAt(a: Blob, b: Blob, i: nat) {
    && i <= |a| && i < |b| && Agree(a, b, i)
    && (i == |a| || a[i] < b[i])
  }

  ghost predicate Agree(a: Blob, b: Blob, i: nat)
    requires i <= |a| && i <= |b|
  {
    forall k :: 0 <= k < i ==> a[k] == b[k]
  }

  /** memcmp reports the first differing position, or 0 when the prefixes agree. */
  lemma {:induction false} MemCmpFirstDifference(a: Blob, b: Blob, n: nat) returns (i: nat)
    requires n <= |a| && n <= |b|
    ensures i <= n && Agree(a, b, i)
    ensures MemCmp(a, b, n) == if i == n then 0 else a[i] as int - b[i] as int
    ensures i < n ==> a[i] != b[i]
    decreases n
  {
    if n == 0 || a[0] != b[0] {
      i := 0;
    } else {
      var j := MemCmpFirstDifference(a[1..], b[1..], n - 1);
      i := j + 1;
      forall k | 0 <= k < i ensures a[k] == b[k] {
        if k > 0 { assert a[1..][k - 1] == b[1..][k - 1]; }
      }
    }
  }

  lemma PartUnique(a: Blob, b: Blob, i: nat, j: nat)
    requires PartAt(a, b, i) || PartAt(b, a, i)
    requires PartAt(a, b, j) || PartAt(b, a, j)
    ensures i == j
  {}

  /** key_compare decides the lexicographic order: equal, smaller or larger, and nothing else. */
  lemma KeyCompareIsLexicographic(a: Blob, b: Blob)
    ensures KeyCompare(a, b) == 0 <==> a == b
    ensures KeyCompare(a, b) == -1 <==> LexLess(a, b)
    ensures KeyCompare(a, b) == 1 <==> LexLess(b, a)
  {
    var n := Min(|a|, |b|);
    var i := MemCmpFirstDifference(a, b, n);
    if a == b {
      assert !LexLess(a, b);
    } else if KeyCompare(a, b) == -1 {
      assert PartAt(a, b, i);
      forall j: nat ensures !PartAt(b, a, j) {
        if PartAt(b, a, j) { PartUnique(a, b, i, j); }
      }
    } else if KeyCompare(a, b) == 1 {
      assert PartAt(b, a, i);
      forall j: nat ensures !PartAt(a, b, j) {
        if PartAt(a, b, j) { PartUnique(a, b, i, j); }
      }
    }
  }

  lemma LessAsymmetric(a: Blob, b: Blob)
    ensures KeyCompare(a, b) == -KeyCompare(b, a)
    ensures KeyCompare(a, b) == 0 <==> a == b
  {
    KeyCompareIsLexicographic(a, b);
    KeyCompareIsLexicographic(b, a);
  }

  /** The key order is transitive, so sorted tables are well defined. */
  lemma LessTransitive(a: Blob, b: Blob, c: Blob)
    requires Less(a, b) && Less(b, c)
    ensures Less(a, c)
  {
    KeyCompareIsLexicographic(a, b);
    KeyCompareIsLexicographic(b, c);
    KeyCompareIsLexicographic(a, c);
    var i: nat :| PartAt(a, b, i);
    var j: nat :| PartAt(b, c, j);
    var k := Min(i, j);
    assert PartAt(a, c, k);
  }

  /** The file back end's comparison: memcmp, then the difference of the lengths. */
  function FileKeyCompare(a: Blob, b: Blob): int {
    var c := MemCmp(a, b, Min(|a|, |b|));
    if c != 0 then c else |a| - |b|
  }

  /** Both back ends order keys alike. */
  lemma FileKeyCompareSign(a: Blob, b: Blob)
    ensures FileKeyCompare(a, b) < 0 <==> Less(a, b)
    ensures FileKeyCompare(a, b) == 0 <==> a == b
    ensures FileKeyCompare(a, b) > 0 <==> Less(b, a)
  {
    LessAsymmetric(a, b);
  }

  /** memcmp looks at the first n bytes only. */
  lemma {:induction false} MemCmpSame(a: Blob, a2: Blob, b: Blob, b2: Blob, n: nat)
    requires n <= |a| && n <= |a2| && n <= |b| && n <= |b2|
    requires a[..n] == a2[..n] && b[..n] == b2[..n]
    ensures MemCmp(a, b, n) == MemCmp(a2, b2, n)
    decreases n
  {
    if n > 0 {
      assert a[0] == a[..n][0] && a2[0] == a2[..n][0] && b[0] == b[..n][0] && b2[0] == b2[..n][0];
      assert a[1..][..n - 1] == a[..n][1..] && a2[1..][..n - 1] == a2[..n][1..];
      assert b[1..][..n - 1] == b[..n][1..] && b2[1..][..n - 1] == b2[..n][1..];
      MemCmpSame(a[1..], a2[1..], b[1..], b2[1..], n - 1);
    }
  }

  /** Comparing piece by piece is comparing the whole. */
  lemma {:induction false} MemCmpPieces(a: Blob, b: Blob, n: nat, m: nat)
    requires n + m <= |a| && n + m <= |b|
    ensures MemCmp(a, b, n + m) == if MemCmp(a, b, n) != 0 then MemCmp(a, b, n) else MemCmp(a[n..], b[n..], m)
    decreases n
  {
    if n > 0 {
      MemCmpPieces(a[1..], b[1..], n - 1, m);
      assert a[1..][n - 1..] == a[n..] && b[1..][n - 1..] == b[n..];
    }
  }
}
