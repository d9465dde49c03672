/**
 * The text form of binary strings (encode.c): an offset byte, then each byte less the offset, with 0x00, 0x01 and 0x27
 * escaped. No 0x00 or 0x27 is left.
 */
module Encoding {

  import opened Bytes
  import opened Wrappers

  const QUOTE: Byte := 39
  /** The text of the empty string. */
  const EMPTY_TEXT: Byte := 120

  /** Unsigned 8-bit subtraction and addition. */
  function Minus(b: Byte, e: Byte): Byte {
    (b - e) % 256
  }

  function Plus(c: Byte, e: Byte): Byte {
    (c + e) % 256
  }

  predicate NeedsEscape(x: Byte) {
    x == 0 || x == 1 || x == QUOTE
  }

  function Escaped(x: Byte): Blob {
    if NeedsEscape(x) then [1, x + 1] else [x]
  }

  function Body(s: Blob, e: Byte): Blob {
    if s == [] then [] else Escaped(Minus(s[0], e)) + Body(s[1..], e)
  }

  /** How many bytes need an escape under offset e. */
  function Hit(b: Byte, e: Byte): nat {
    if NeedsEscape(Minus(b, e)) then 1 else 0
  }

  function Escapes(s: Blob, e: Byte): nat {
    if s == [] then 0 else Hit(s[0], e) + Escapes(s[1..], e)
  }

  /** An offset must itself be neither 0x00 nor 0x27. */
  predicate Offset(e: int) {
    1 <= e < 256 && e != QUOTE
  }

  /** The first of the offsets with the fewest escapes. */
  ghost predicate Best(s: Blob, e: Byte) {
    && Offset(e)
    && (forall i: Byte :: Offset(i) ==> Escapes(s, e) <= Escapes(s, i))
    && (forall i: Byte :: Offset(i) && i < e ==> Escapes(s, e) < Escapes(s, i))
  }

  /** z is the text of s, without its terminator. */
  ghost predicate IsText(s: Blob, z: Blob) {
    if s == [] then z == [EMPTY_TEXT] else exists e: Byte :: TextWith(s, z, e)
  }

  ghost predicate TextWith(s: Blob, z: Blob, e: Byte) {
    Best(s, e) && z == [e] + Body(s, e)
  }

  // ---- what the text looks like

  lemma {:induction false} BodyIsClean(s: Blob, e: Byte)
    ensures forall k :: 0 <= k < |Body(s, e)| ==> Body(s, e)[k] != 0 && Body(s, e)[k] != QUOTE
    ensures |Body(s, e)| == |s| + Escapes(s, e)
  {
    if s != [] { BodyIsClean(s[1..], e); }
  }

  /** No NUL and no quote in the text, which is its length away from its terminator. */
  lemma TextIsClean(s: Blob, z: Blob)
    requires IsText(s, z)
    ensures forall k :: 0 <= k < |z| ==> z[k] != 0 && z[k] != QUOTE
  {
    if s != [] {
      var e: Byte :| TextWith(s, z, e);
      BodyIsClean(s, e);
    }
  }

  // ---- the size of the text, by counting over all offsets

  /** Escapes of one byte over the offsets below k. */
  function HitsBelow(b: Byte, k: nat): nat
    requires k <= 256
  {
    if k == 0 then 0 else HitsBelow(b, k - 1) + if Offset(k - 1) then Hit(b, k - 1) else 0
  }

  function One(p: bool): nat {
    if p then 1 else 0
  }

  /** A byte needs an escape under at most three offsets. */
  lemma {:induction false} AtMostThree(b: Byte, k: nat)
    requires k <= 256
    ensures HitsBelow(b, k) <= One(b < k) + One(Minus(b, 1) < k) + One(Minus(b, QUOTE) < k) <= 3
    decreases k
  {
    if k > 0 {
      AtMostThree(b, k - 1);
      HitWhen(b, k - 1);
    }
  }

  lemma HitWhen(b: Byte, e: Byte)
    ensures Hit(b, e) == One(b == e) + One(Minus(b, 1) == e) + One(Minus(b, QUOTE) == e)
  {
  }

  function EscapesBelow(s: Blob, k: nat): nat
    requires k <= 256
  {
    if k == 0 then 0 else EscapesBelow(s, k - 1) + if Offset(k - 1) then Escapes(s, k - 1) else 0
  }

  lemma {:induction false} ByteByByte(b: Byte, s: Blob, k: nat)
    requires k <= 256
    ensures EscapesBelow([b] + s, k) == HitsBelow(b, k) + EscapesBelow(s, k)
    decreases k
  {
    if k > 0 {
      ByteByByte(b, s, k - 1);
      assert ([b] + s)[1..] == s;
    }
  }

  lemma {:induction false} TotalEscapes(s: Blob)
    ensures EscapesBelow(s, 256) <= 3 * |s|
  {
    if s == [] {
      NoEscapes(256);
    } else {
      assert s == [s[0]] + s[1..];
      ByteByByte(s[0], s[1..], 256);
      AtMostThree(s[0], 256);
      TotalEscapes(s[1..]);
    }
  }

  lemma {:induction false} NoEscapes(k: nat)
    requires k <= 256
    ensures EscapesBelow([], k) == 0
    decreases k
  {
    if k > 0 { NoEscapes(k - 1); }
  }

  /** Offsets below k. */
  function OffsetsBelow(k: nat): nat {
    if k == 0 then 0 else if k <= QUOTE then k - 1 else k - 2
  }

  /** If every offset has at least m escapes, the total is as many times m as there are offsets. */
  lemma {:induction false} AtLeast(s: Blob, m: nat, k: nat)
    requires k <= 256 && forall i: Byte :: Offset(i) && i < k ==> m <= Escapes(s, i)
    ensures m * OffsetsBelow(k) <= EscapesBelow(s, k)
    decreases k
  {
    if k > 0 {
      AtLeast(s, m, k - 1);
      if Offset(k - 1) {
        assert OffsetsBelow(k) == OffsetsBelow(k - 1) + 1;
        Distribute(m, OffsetsBelow(k - 1));
      } else {
        assert OffsetsBelow(k) == OffsetsBelow(k - 1);
      }
    }
  }

  lemma Distribute(m: nat, n: nat)
    ensures m * (n + 1) == m * n + m
  {
  }

  /** The fewest escapes are at most 3 in 254 bytes. */
  lemma FewEscapes(s: Blob, m: nat)
    requires forall i: Byte :: Offset(i) ==> m <= Escapes(s, i)
    ensures 254 * m <= 3 * |s|
  {
    AtLeast(s, m, 256);
    TotalEscapes(s);
  }

  /** With its terminator the text fits in 2 + 257 n / 254 bytes. */
  lemma TextSize(s: Blob, z: Blob)
    requires IsText(s, z)
    ensures |z| + 1 <= 2 + 257 * |s| / 254
  {
    if s != [] {
      var e: Byte :| TextWith(s, z, e);
      BodyIsClean(s, e);
      FewEscapes(s, Escapes(s, e));
    }
  }

  /** Some offset needs fewer escapes than there are bytes: the search always finds one. */
  lemma SomeOffset(s: Blob)
    requires s != []
    ensures exists i: Byte :: Offset(i) && Escapes(s, i) < |s|
  {
    if forall i: Byte :: Offset(i) ==> |s| <= Escapes(s, i) {
      FewEscapes(s, |s|);
    }
  }

  // ---- decoding

  /** The bytes that a reader with offset e takes from z, from position at up to a NUL; None if it runs off the end. */
  function Scan(z: Blob, at: nat, e: Byte): Option<Blob>
    decreases |z| - at
  {
    if at >= |z| then None
    else if z[at] == 0 then Some([])
    else if z[at] != 1 then
      var rest := Scan(z, at + 1, e);
      if rest.None? then None else Some([Plus(z[at], e)] + rest.value)
    else if at + 1 >= |z| then None
    else
      var rest := Scan(z, at + 2, e);
      if rest.None? then None else Some([Plus(Minus(z[at + 1], 1), e)] + rest.value)
  }

  lemma PlusMinus(b: Byte, e: Byte)
    ensures Plus(Minus(b, e), e) == b
  {
  }

  lemma UnescapeEscape(x: Byte)
    requires NeedsEscape(x)
    ensures Minus(Escaped(x)[1], 1) == x
  {
  }

  lemma ScanEscape(z: Blob, at: nat, e: Byte, x: Byte, rest: Blob)
    requires at + 2 <= |z| && z[at] == 1 && Minus(z[at + 1], 1) == x && Scan(z, at + 2, e) == Some(rest)
    ensures Scan(z, at, e) == Some([Plus(x, e)] + rest)
  {
  }

  lemma ScanPlain(z: Blob, at: nat, e: Byte, x: Byte, rest: Blob)
    requires at + 1 <= |z| && z[at] == x && x != 0 && x != 1 && Scan(z, at + 1, e) == Some(rest)
    ensures Scan(z, at, e) == Some([Plus(x, e)] + rest)
  {
  }

  /** Reads one byte that was escaped if need be. */
  lemma ScanOne(z: Blob, at: nat, e: Byte, x: Byte, rest: Blob)
    requires at + |Escaped(x)| <= |z| && forall k :: 0 <= k < |Escaped(x)| ==> z[at + k] == Escaped(x)[k]
    requires Scan(z, at + |Escaped(x)|, e) == Some(rest)
    ensures Scan(z, at, e) == Some([Plus(x, e)] + rest)
  {
    assert z[at + 0] == Escaped(x)[0];
    if NeedsEscape(x) {
      assert z[at + 1] == Escaped(x)[1];
      UnescapeEscape(x);
      ScanEscape(z, at, e, x, rest);
    } else {
      ScanPlain(z, at, e, x, rest);
    }
  }

  /** Reading the escaped bytes of s gives s back. */
  lemma {:induction false} ScanBody(s: Blob, e: Byte, z: Blob, at: nat)
    requires at + |Body(s, e)| < |z| && z[at..at + |Body(s, e)|] == Body(s, e) && z[at + |Body(s, e)|] == 0
    ensures Scan(z, at, e) == Some(s)
    decreases |s|
  {
    if s != [] {
      var x := Minus(s[0], e);
      BodyTail(z, at, Body(s, e), Escaped(x), Body(s[1..], e));
      ScanBody(s[1..], e, z, at + |Escaped(x)|);
      ScanOne(z, at, e, x, s[1..]);
      PlusMinus(s[0], e);
      assert s == [s[0]] + s[1..];
    }
  }

  lemma BodyTail(z: Blob, at: nat, body: Blob, x: Blob, tail: Blob)
    requires body == x + tail && at + |body| < |z| && z[at..at + |body|] == body
    ensures z[at + |x|..at + |x| + |tail|] == tail
    ensures forall k :: 0 <= k < |x| ==> z[at + k] == x[k]
  {
    ScanBodyStep(z, at, body, |x|);
    assert body[|x|..] == tail;
    forall k | 0 <= k < |x| ensures z[at + k] == x[k] { assert body[k] == x[k]; }
  }

  lemma ScanBodyStep(z: Blob, at: nat, body: Blob, n: nat)
    requires at + |body| < |z| && z[at..at + |body|] == body && n <= |body|
    ensures z[at..at + n] == body[..n] && z[at + n..at + |body|] == body[n..]
    ensures forall k :: 0 <= k < n ==> z[at + k] == body[k]
  {
    var w := z[at..at + |body|];
    assert z[at..at + n] == w[..n];
    assert z[at + n..at + |body|] == w[n..];
    forall k | 0 <= k < n ensures z[at + k] == body[k] { assert z[at + k] == w[k]; }
  }

  /** The escaped form of s under any offset, terminated, is read back, whatever follows the terminator. */
  lemma DecodeBody(s: Blob, e: Byte, after: Blob)
    ensures Scan([e] + Body(s, e) + [0] + after, 1, e) == Some(s)
  {
    var body := Body(s, e);
    var t := [e] + body + [0] + after;
    assert t[1..1 + |body|] == body && t[1 + |body|] == 0;
    ScanBody(s, e, t, 1);
  }

  /** Decoding a terminated text gives the string back, whatever follows the terminator. */
  lemma DecodeText(s: Blob, z: Blob, after: Blob)
    requires IsText(s, z)
    ensures |z| > 0 && Scan(z + [0] + after, 1, z[0]) == Some(s)
  {
    if s != [] {
      var e: Byte :| TextWith(s, z, e);
      DecodeBody(s, e, after);
    }
  }
}
