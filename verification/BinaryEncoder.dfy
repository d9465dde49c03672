/** sqlite_encode_binary and sqlite_decode_binary (encode.c). */
module BinaryEncoder {

  import opened Bytes
  import opened Encoding
  import opened DecoderInput

  function CountOf(s: Blob, b: Byte): nat {
    if s == [] then 0 else CountOf(s[1..], b) + if s[0] == b then 1 else 0
  }

  lemma HitIsOccurrence(b: Byte, e: Byte)
    ensures Hit(b, e) == One(b == e) + One(b == Plus(e, 1)) + One(b == Plus(e, QUOTE))
  {
  }

  /** The escapes of an offset are the occurrences of three byte values. */
  lemma {:induction false} EscapesAreCounts(s: Blob, e: Byte)
    ensures Escapes(s, e) == CountOf(s, e) + CountOf(s, Plus(e, 1)) + CountOf(s, Plus(e, QUOTE))
  {
    if s != [] {
      EscapesAreCounts(s[1..], e);
      HitIsOccurrence(s[0], e);
    }
  }

  ghost predicate Counted(cnt: seq<int>, s: Blob) {
    |cnt| == 256 && forall b: Byte :: cnt[b] == CountOf(s, b)
  }

  lemma CountOneMore(cnt: seq<int>, b: Byte, s: Blob)
    requires Counted(cnt, s)
    ensures Counted(cnt[b := cnt[b] + 1], [b] + s)
  {
    assert ([b] + s)[1..] == s;
  }

  /** Counts the bytes from the last to the first. */
  method CountBytes(input: array<Byte>, n: nat) returns (cnt: array<int>)
    requires n <= input.Length
    ensures fresh(cnt) && Counted(cnt[..], input[..n])
  {
    cnt := new int[256](_ => 0);
    var i := n - 1;
    assert input[n..n] == [];
    while i >= 0
      invariant -1 <= i < n && Counted(cnt[..], input[i + 1..n])
    {
      CountOneMore(cnt[..], input[i], input[i + 1..n]);
      assert input[i..n] == [input[i]] + input[i + 1..n];
      cnt[input[i]] := cnt[input[i]] + 1;
      i := i - 1;
    }
  }

  /** Up to i the search has met no offset with m escapes or fewer but e, or none at all with fewer than |s|. */
  ghost predicate Searched(s: Blob, i: nat, m: nat, e: Byte, found: bool) {
    && (forall j: Byte :: Offset(j) && j < i ==> m <= Escapes(s, j))
    && (found ==> Offset(e) && m == Escapes(s, e) && e < i && forall j: Byte :: Offset(j) && j < e ==> m < Escapes(s, j))
    && (!found ==> m == |s|)
  }

  lemma SearchDone(s: Blob, m: nat, e: Byte, found: bool, i: nat)
    requires s != [] && Searched(s, i, m, e, found) && (i == 256 || m == 0)
    ensures found && Best(s, e) && m == Escapes(s, e)
  {
    SomeOffset(s);
  }

  /** The first offset with the fewest escapes, and their number. The search always finds one. */
  method ChooseOffset(cnt: array<int>, n: nat, ghost s: Blob) returns (e: Byte, m: nat)
    requires cnt.Length == 256 && Counted(cnt[..], s) && n == |s| > 0
    ensures Best(s, e) && m == Escapes(s, e)
  {
    m := n;
    e := 0; // never read before an offset is found
    ghost var found := false;
    var i := 1;
    while i < 256
      invariant 1 <= i <= 256 && Searched(s, i, m, e, found) && (m == 0 ==> found)
    {
      if i != QUOTE {
        EscapesAreCounts(s, i);
        var sum := cnt[..][i] + cnt[..][(i + 1) % 256] + cnt[..][(i + QUOTE) % 256];
        if sum < m {
          m := sum;
          e := i;
          found := true;
          if m == 0 {
            i := i + 1;
            break;
          }
        }
      }
      i := i + 1;
    }
    SearchDone(s, m, e, found, i);
  }

  lemma BodyOneMore(s: Blob, e: Byte, i: nat)
    requires i < |s|
    ensures Body(s[..i + 1], e) == Body(s[..i], e) + Escaped(Minus(s[i], e))
  {
    BodyAppend(s[..i], s[i], e);
    assert s[..i + 1] == s[..i] + [s[i]];
  }

  lemma {:induction false} BodyAppend(s: Blob, b: Byte, e: Byte)
    ensures Body(s + [b], e) == Body(s, e) + Escaped(Minus(b, e))
  {
    if s == [] {
      assert s + [b] == [b];
      assert Body([b][1..], e) == [];
    } else {
      assert (s + [b])[1..] == s[1..] + [b];
      BodyAppend(s[1..], b, e);
    }
  }

  lemma {:induction false} EscapesOfPrefix(s: Blob, e: Byte, i: nat)
    requires i <= |s|
    ensures |Body(s[..i], e)| <= |s| + Escapes(s, e)
    ensures i < |s| ==> |Body(s[..i + 1], e)| <= |s| + Escapes(s, e)
  {
    assert s == s[..i] + s[i..];
    BodyConcat(s[..i], s[i..], e);
    BodyIsClean(s, e);
    if i < |s| {
      assert s == s[..i + 1] + s[i + 1..];
      BodyConcat(s[..i + 1], s[i + 1..], e);
    }
  }

  lemma {:induction false} BodyConcat(s: Blob, t: Blob, e: Byte)
    ensures Body(s + t, e) == Body(s, e) + Body(t, e)
  {
    if s == [] {
      assert s + t == t;
    } else {
      assert (s + t)[1..] == s[1..] + t;
      BodyConcat(s[1..], t, e);
    }
  }

  /**
   * Writes the text of the first n bytes and its terminator to out; without out only the length is computed. The
   * result is the length of the text.
   */
  method EncodeBinary(input: array<Byte>, n: int, out: array?<Byte>) returns (j: nat, ghost z: Blob)
    requires n <= input.Length
    requires out != null ==> out != input && out.Length >= if n <= 0 then 2 else 2 + 257 * n / 254
    modifies out
    ensures IsText(if n <= 0 then [] else input[..n], z) && j == |z|
    ensures out != null ==> j < out.Length && out[..j + 1] == z + [0]
  {
    if n <= 0 {
      z := [EMPTY_TEXT];
      if out != null {
        out[0] := EMPTY_TEXT;
        out[1] := 0;
      }
      return 1, z;
    }
    ghost var s := input[..n];
    var cnt := CountBytes(input, n);
    var e, m := ChooseOffset(cnt, n, s);
    z := [e] + Body(s, e);
    assert TextWith(s, z, e);
    BodyIsClean(s, e);
    if out == null {
      return n + m + 1, z;
    }
    TextSize(s, z);
    j := WriteText(input, n, e, out, m);
  }

  method WriteByte(shifted: Byte, out: array<Byte>, at: nat) returns (j: nat)
    requires at + |Escaped(shifted)| <= out.Length
    modifies out
    ensures j == at + |Escaped(shifted)| && out[..j] == old(out[..at]) + Escaped(shifted)
  {
    var x := shifted;
    j := at;
    if NeedsEscape(x) {
      out[j] := 1;
      j := j + 1;
      x := x + 1;
    }
    out[j] := x;
    j := j + 1;
  }

  method WriteText(input: array<Byte>, n: nat, e: Byte, out: array<Byte>, ghost m: nat) returns (j: nat)
    requires n <= input.Length && out != input && m == Escapes(input[..n], e) && n + m + 1 < out.Length
    modifies out
    ensures j == n + m + 1 && out[..j + 1] == [e] + Body(input[..n], e) + [0]
  {
    ghost var s := input[..n];
    out[0] := e;
    j := 1;
    var i := 0;
    while i < n
      invariant 0 <= i <= n && input[..n] == s && 1 <= j <= n + m + 1
      invariant j == 1 + |Body(s[..i], e)| && out[..j] == [e] + Body(s[..i], e)
    {
      BodyOneMore(s, e, i);
      EscapesOfPrefix(s, e, i);
      j := WriteByte(Minus(input[i], e), out, j);
      i := i + 1;
    }
    assert s[..i] == s;
    BodyIsClean(s, e);
    out[j] := 0;
  }

  /**
   * Decodes the text in input to out, which may be the same buffer: writing never overtakes reading. It stops where it
   * would read behind its input.
   */
  method DecodeBinary(input: array<Byte>, out: array<Byte>) returns (inside: bool, i: nat)
    requires |TakenAll(input[..])| <= out.Length
    modifies out
    ensures inside <==> old(ScanAll(input[..])).Some?
    ensures i <= out.Length && out[..i] == old(TakenAll(input[..]))
    ensures inside ==> out[..i] == old(ScanAll(input[..])).value
  {
    if input.Length == 0 { return false, 0; }
    ghost var z := input[..];
    var e := input[0];
    TakenIsScanned(z, 1, e);
    var r := 1;
    i := 0;
    inside := true;
    ghost var done, rest: Blob := [], TakenAll(z);
    while inside && (r == input.Length || input[r] != 0)
      invariant i < r <= input.Length && i <= out.Length && forall k | r <= k < input.Length :: input[k] == z[k]
      invariant out[..i] == done && TakenAll(z) == done + rest && rest == if inside then Taken(z, r, e) else []
      invariant ScanAll(z).Some? <==> inside && Scan(z, r, e).Some?
      decreases inside, input.Length - r
    {
      var c;
      inside, c, r := ReadUnit(input, r, z, e);
      if inside {
        Moved(TakenAll(z), done, Plus(c, e), Taken(z, r, e));
        i := Append(out, i, Plus(c, e));
        done, rest := done + [Plus(c, e)], Taken(z, r, e);
      }
    }
  }

  lemma Moved(whole: Blob, done: Blob, b: Byte, rest: Blob)
    requires whole == done + ([b] + rest)
    ensures whole == done + [b] + rest && |done| < |whole|
  {}

  /** The byte that the unit at r stands for, and the place behind it; not inside if the unit does not end within the input. */
  method ReadUnit(input: array<Byte>, r: nat, ghost z: Blob, ghost e: Byte) returns (inside: bool, c: Byte, r2: nat)
    requires 1 <= r <= input.Length == |z| && (forall k | r <= k < input.Length :: input[k] == z[k]) && (r < |z| ==> z[r] != 0)
    ensures if inside then r < r2 <= input.Length else r2 == input.Length && Taken(z, r, e) == [] && Scan(z, r, e).None?
    ensures inside ==> Taken(z, r, e) == [Plus(c, e)] + Taken(z, r2, e) && (Scan(z, r, e).Some? <==> Scan(z, r2, e).Some?)
  {
    if r == input.Length { return false, 0, r; }
    c, r2 := input[r], r + 1;
    if c == 1 {
      if r2 == input.Length { return false, 0, r2; }
      c, r2 := Minus(input[r2], 1), r2 + 1;
    }
    inside := true;
  }

  method Append(out: array<Byte>, i: nat, b: Byte) returns (j: nat)
    requires i < out.Length
    modifies out
    ensures j == i + 1 && out[..j] == old(out[..i]) + [b] && forall k | j <= k < out.Length :: out[k] == old(out[k])
  {
    out[i] := b;
    j := i + 1;
  }

  /** Decoding what was encoded, into another buffer or in place, gives the input back. */
  method RoundTrip(input: array<Byte>, n: int, text: array<Byte>, out: array<Byte>) returns (i: nat)
    requires n <= input.Length && text != input && out.Length >= (if n <= 0 then 0 else n)
    requires text.Length >= if n <= 0 then 2 else 2 + 257 * n / 254
    requires out != input
    modifies text, out
    ensures i <= out.Length && out[..i] == if n <= 0 then [] else old(input[..n])
  {
    var j; ghost var z;
    j, z := EncodeBinary(input, n, text);
    DecodeText(if n <= 0 then [] else input[..n], z, text[j + 1..]);
    assert text[..] == z + [0] + text[j + 1..];
    TakenIsScanned(text[..], 1, text[0]);
    var inside;
    inside, i := DecodeBinary(text, out);
  }
}
