/**
 * What the decoder (encode.c) does with input that its encoder did not make: when it ends at the terminator, and when it
 * does what its comment says.
 */
module DecoderInput {

  import opened Bytes
  import opened Wrappers
  import opened Encoding

  /** Bytes in memory up to the first NUL. */
  predicate Terminated(z: Blob) {
    z != [] && z[|z| - 1] == 0 && forall k | 0 <= k < |z| - 1 :: z[k] != 0
  }

  /** What the decoder takes from memory that begins with z; None if it reads beyond. */
  function ScanAll(z: Blob): Option<Blob> {
    if z == [] then None else Scan(z, 1, z[0])
  }

  // ---- does it stay within its input?

  /** How many bytes 0x01 stand right before position n, the offset byte not counted. */
  function OnesBefore(z: Blob, n: nat): (r: nat)
    requires n <= |z|
    ensures r <= n
  {
    if n > 1 && z[n - 1] == 1 then 1 + OnesBefore(z, n - 1) else 0
  }

  lemma {:induction false} OnesAre(z: Blob, n: nat)
    requires 1 <= n <= |z|
    ensures var p := n - OnesBefore(z, n);
      1 <= p <= n && (forall k | p <= k < n :: z[k] == 1) && (p == 1 || z[p - 1] != 1)
    decreases n
  {
    if n > 1 && z[n - 1] == 1 { OnesAre(z, n - 1); }
  }

  /** From a place where the reader may stand, it reaches the terminator exactly if the 0x01s right before that pair up. */
  lemma {:induction false} ReachesEnd(z: Blob, at: nat, e: Byte, p: nat)
    requires Terminated(z) && 1 <= at < |z| && 1 <= p < |z|
    requires (forall k | p <= k < |z| - 1 :: z[k] == 1) && (p == 1 || z[p - 1] != 1)
    ensures Scan(z, at, e).Some? <==> (|z| - 1 - if at < p then p else at) % 2 == 0
    decreases |z| - at
  {
    if at < |z| - 1 {
      if z[at] != 1 {
        ReachesEnd(z, at + 1, e, p);
      } else if at + 1 < |z| - 1 {
        ReachesEnd(z, at + 2, e, p);
      } else {
        assert Scan(z, at + 2, e).None?;
      }
    }
  }

  /** The decoder stays within its input if and only if that has an offset byte and the 0x01s before the NUL pair up. */
  lemma StaysWithin(z: Blob)
    requires Terminated(z)
    ensures ScanAll(z).Some? <==> |z| >= 2 && OnesBefore(z, |z| - 1) % 2 == 0
  {
    if |z| >= 2 {
      OnesAre(z, |z| - 1);
      ReachesEnd(z, 1, z[0], |z| - 1 - OnesBefore(z, |z| - 1));
    }
  }

  /** Then what follows in memory is not looked at. */
  lemma {:induction false} WhateverFollows(z: Blob, at: nat, e: Byte, after: Blob)
    requires Scan(z, at, e).Some?
    ensures Scan(z + after, at, e) == Scan(z, at, e)
    decreases |z| - at
  {
    if z[at] == 0 {
    } else if z[at] != 1 {
      WhateverFollows(z, at + 1, e, after);
    } else {
      WhateverFollows(z, at + 2, e, after);
    }
  }

  lemma SwallowedOne(z: Blob)
    requires |z| >= 3 && z[..3] == [2, 1, 0]
    ensures Scan(z, 3, 2).Some? ==> ScanAll(z) == Some([1] + Scan(z, 3, 2).value)
    ensures Scan(z, 3, 2).None? ==> ScanAll(z) == None
  {
    assert z[0] == z[..3][0] && z[1] == z[..3][1] && z[2] == z[..3][2];
  }

  /** An unpaired 0x01 swallows the terminator: the result depends on what lies behind it. */
  lemma TerminatorSwallowed()
    ensures Terminated([2, 1, 0]) && ScanAll([2, 1, 0]) == None
    ensures ScanAll([2, 1, 0] + [5, 0]) == Some([1, 7])
    ensures ScanAll([2, 1, 0] + [0]) == Some([1])
  {
    var z: Blob := [2, 1, 0, 5, 0];
    assert [2, 1, 0] + [5, 0] == z;
    SwallowedOne(z);
    assert Scan(z, 4, 2) == Some([]);
    ScanPlain(z, 3, 2, 5, []);
    assert [1] + ([Plus(5, 2)] + []) == [1, 7];
    var y: Blob := [2, 1, 0, 0];
    assert [2, 1, 0] + [0] == y;
    SwallowedOne(y);
    assert Scan(y, 3, 2) == Some([]);
    assert [1] + [] == [1];
    SwallowedOne([2, 1, 0]);
  }

  // ---- does it do what its comment says?

  /** z is an encoding of s, under some offset, with its terminator. */
  ghost predicate Encodes(z: Blob, s: Blob) {
    z != [] && Offset(z[0]) && z == [z[0]] + Body(s, z[0]) + [0]
  }

  /** Units from position at on: plain bytes that needed no escape, and 0x01 only before an escaped byte plus one. */
  predicate Units(z: Blob, at: nat)
    decreases |z| - at
  {
    if at + 1 >= |z| then at + 1 == |z| && z[at] == 0
    else if z[at] == 1 then at + 2 < |z| && (z[at + 1] == 1 || z[at + 1] == 2 || z[at + 1] == QUOTE + 1) && Units(z, at + 2)
    else z[at] != 0 && z[at] != QUOTE && Units(z, at + 1)
  }

  /** What one look at z can tell: an offset, units, a terminator. */
  predicate WellFormedText(z: Blob) {
    |z| >= 2 && Offset(z[0]) && Units(z, 1)
  }

  lemma {:induction false} UnitsOf(z: Blob, at: nat, e: Byte) returns (s: Blob)
    requires Units(z, at)
    ensures at < |z| && z[at..] == Body(s, e) + [0]
    decreases |z| - at
  {
    if at + 1 == |z| {
      s := [];
    } else {
      var x := if z[at] == 1 then Minus(z[at + 1], 1) else z[at];
      var next := if z[at] == 1 then at + 2 else at + 1;
      var rest := UnitsOf(z, next, e);
      s := [Plus(x, e)] + rest;
      assert z[at..next] == Escaped(x);
      UnitInFront(z, at, next, x, rest, s, e);
    }
  }

  lemma UnitInFront(z: Blob, at: nat, next: nat, x: Byte, rest: Blob, s: Blob, e: Byte)
    requires at <= next <= |z| && z[at..next] == Escaped(x) && z[next..] == Body(rest, e) + [0] && s == [Plus(x, e)] + rest
    ensures z[at..] == Body(s, e) + [0]
  {
    MinusPlus(x, e);
    assert s[1..] == rest;
    assert z[at..] == z[at..next] + z[next..];
  }

  lemma MinusPlus(x: Byte, e: Byte)
    ensures Minus(Plus(x, e), e) == x
  {}

  lemma {:induction false} BodyIsUnits(z: Blob, at: nat, s: Blob, e: Byte)
    requires at < |z| && z[at..] == Body(s, e) + [0]
    ensures Units(z, at)
    decreases |s|
  {
    if s == [] {
      assert z[at..] == [0];
      assert |z| == at + 1 && z[at..][0] == 0;
    } else {
      var x := Escaped(Minus(s[0], e));
      var rest := Body(s[1..], e) + [0];
      assert z[at..] == x + rest;
      assert z[at..][..|x|] == x && z[at..][|x|..] == rest;
      assert z[at + |x|..] == z[at..][|x|..];
      BodyIsUnits(z, at + |x|, s[1..], e);
      assert z[at] == z[at..][0] && (|x| == 2 ==> z[at + 1] == z[at..][1]);
    }
  }

  /** The look at z is right: exactly the encodings of strings pass, under whatever offset. */
  lemma WellFormedIsEncoding(z: Blob)
    ensures WellFormedText(z) <==> exists s :: Encodes(z, s)
  {
    if WellFormedText(z) {
      var s := UnitsOf(z, 1, z[0]);
      assert z == [z[0]] + z[1..];
      assert Encodes(z, s);
    }
    if s :| Encodes(z, s) {
      assert z[1..] == Body(s, z[0]) + [0];
      BodyIsUnits(z, 1, s, z[0]);
    }
  }

  /** The comment's promise: the number of bytes of the string encoded, or -1 if the input is no encoding. */
  ghost predicate AsCommented(z: Blob, result: int, out: Blob) {
    if exists s :: Encodes(z, s) then result == |out| && Encodes(z, out) else result == -1
  }

  /** The decoder's result: the number of bytes it took. */
  function Returned(out: Blob): int {
    |out|
  }

  /** For every terminated input the decoder does what its comment says if and only if the input is well formed. */
  lemma CommentHoldsExactly(z: Blob, after: Blob)
    requires Terminated(z)
    ensures var r := ScanAll(z + after);
      r.Some? && AsCommented(z, Returned(r.value), r.value) <==> WellFormedText(z)
  {
    WellFormedIsEncoding(z);
    if s :| Encodes(z, s) {
      DecodeBody(s, z[0], after);
      assert z + after == [z[0]] + Body(s, z[0]) + [0] + after;
    }
  }

  /** A quote that the encoder never emits is taken for a byte: the result is 1, where the comment says -1. */
  lemma QuoteIsTaken()
    ensures Terminated([2, 39, 0]) && !WellFormedText([2, 39, 0])
    ensures ScanAll([2, 39, 0]) == Some([41]) && !AsCommented([2, 39, 0], Returned([41]), [41])
  {
    var z: Blob := [2, 39, 0];
    assert Scan(z, 2, 2) == Some([]);
    ScanPlain(z, 1, 2, QUOTE, []);
    assert [Plus(QUOTE, 2)] + [] == [41];
    assert !Units(z, 1);
    WellFormedIsEncoding(z);
  }

  /** What the encoder writes is well formed. */
  lemma TextIsWellFormed(s: Blob, z: Blob)
    requires IsText(s, z)
    ensures WellFormedText(z + [0])
  {
    if s == [] {
      assert z + [0] == [EMPTY_TEXT] + Body([], EMPTY_TEXT) + [0];
      assert Encodes(z + [0], []);
    } else {
      var e: Byte :| TextWith(s, z, e);
      assert Encodes(z + [0], s);
    }
    WellFormedIsEncoding(z + [0]);
  }

  // ---- where the decoder stands when it stops

  /** The bytes taken from position at on, up to a NUL or up to where the reader leaves z. */
  function Taken(z: Blob, at: nat, e: Byte): Blob
    decreases |z| - at
  {
    if at >= |z| || z[at] == 0 then []
    else if z[at] != 1 then [Plus(z[at], e)] + Taken(z, at + 1, e)
    else if at + 1 >= |z| then []
    else [Plus(Minus(z[at + 1], 1), e)] + Taken(z, at + 2, e)
  }

  function TakenAll(z: Blob): Blob {
    if z == [] then [] else Taken(z, 1, z[0])
  }

  lemma {:induction false} TakenIsScanned(z: Blob, at: nat, e: Byte)
    ensures Scan(z, at, e).Some? ==> Scan(z, at, e).value == Taken(z, at, e)
    ensures |Taken(z, at, e)| <= if at < |z| then |z| - at else 0
    decreases |z| - at
  {
    if at < |z| && z[at] != 0 {
      if z[at] != 1 {
        TakenIsScanned(z, at + 1, e);
      } else if at + 1 < |z| {
        TakenIsScanned(z, at + 2, e);
      }
    }
  }
}
