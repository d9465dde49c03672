/** Keys of a hash table and the hash and comparison functions chosen by its key class (hash.c). */
module HashKeys {

  import opened Bytes

  datatype KeyClass = SQLITE_HASH_INT | SQLITE_HASH_STRING | SQLITE_HASH_BINARY

  /** An INT key is nKey alone; the other classes compare the nKey bytes of pKey. */
  datatype Key = Key(pKey: Blob, nKey: int)

  /**
   * What the caller may pass: nKey counts the bytes of pKey, and a string has no NUL before its last byte. A string key
   * of no bytes is the empty string.
   */
  predicate KeyOk(c: KeyClass, k: Key) {
    match c
    case SQLITE_HASH_INT => -0x8000_0000 <= k.nKey < 0x8000_0000
    case SQLITE_HASH_STRING => k.nKey == |k.pKey| && forall i :: 0 <= i < |k.pKey| - 1 ==> k.pKey[i] != 0
    case SQLITE_HASH_BINARY => k.nKey == |k.pKey|
  }

  function UpperToLower(b: Byte): Byte {
    if 65 <= b <= 90 then b + 32 else b
  }

  function Lower(z: Blob): (s: Blob)
    ensures |s| == |z| && forall i :: 0 <= i < |z| ==> s[i] == UpperToLower(z[i])
  {
    seq(|z|, i requires 0 <= i < |z| => UpperToLower(z[i]))
  }

  /** Keys of a class are the same key when this agrees: case does not matter in strings. */
  function Canon(c: KeyClass, k: Key): seq<int> {
    match c
    case SQLITE_HASH_INT => [k.nKey]
    case SQLITE_HASH_STRING => Lower(k.pKey)
    case SQLITE_HASH_BINARY => k.pKey
  }

  // ---- comparing

  /** sqliteStrNICmp over n bytes: the loop stops at a NUL of a. */
  function StrNICmp(a: Blob, b: Blob, n: nat): int
    requires n <= |a| && n <= |b|
    decreases n
  {
    if n == 0 then 0
    else if a[0] != 0 && UpperToLower(a[0]) == UpperToLower(b[0]) then StrNICmp(a[1..], b[1..], n - 1)
    else UpperToLower(a[0]) as int - UpperToLower(b[0]) as int
  }

  function Compare(c: KeyClass, k1: Key, k2: Key): int
    requires KeyOk(c, k1) && KeyOk(c, k2)
  {
    match c
    case SQLITE_HASH_INT => k2.nKey - k1.nKey
    case SQLITE_HASH_STRING => if k1.nKey != k2.nKey then k2.nKey - k1.nKey else StrNICmp(k1.pKey, k2.pKey, k1.nKey)
    case SQLITE_HASH_BINARY => if k1.nKey != k2.nKey then k2.nKey - k1.nKey else MemCmp(k1.pKey, k2.pKey, k1.nKey)
  }

  ghost predicate SameLetters(a: Blob, b: Blob) {
    |a| == |b| && forall i :: 0 <= i < |a| ==> UpperToLower(a[i]) == UpperToLower(b[i])
  }

  lemma {:induction false} StrNICmpMatches(a: Blob, b: Blob)
    requires |a| == |b| && NulOnlyLast(a)
    ensures StrNICmp(a, b, |a|) == 0 <==> SameLetters(a, b)
    decreases |a|
  {
    if |a| > 0 && a[0] != 0 && UpperToLower(a[0]) == UpperToLower(b[0]) {
      var s, t := a[1..], b[1..];
      assert forall i :: 0 <= i < |s| ==> s[i] == a[i + 1] && t[i] == b[i + 1];
      StrNICmpMatches(s, t);
      assert SameLetters(a, b) <==> SameLetters(s, t) by {
        assert forall i :: 0 < i < |a| ==> a[i] == s[i - 1] && b[i] == t[i - 1];
      }
    }
  }

  /** The comparison of a class tells the same keys. */
  lemma CompareMatches(c: KeyClass, k1: Key, k2: Key)
    requires KeyOk(c, k1) && KeyOk(c, k2)
    ensures Compare(c, k1, k2) == 0 <==> Canon(c, k1) == Canon(c, k2)
  {
    match c
    case SQLITE_HASH_INT =>
      assert Canon(c, k1)[0] == k1.nKey && Canon(c, k2)[0] == k2.nKey;
    case SQLITE_HASH_STRING =>
      if k1.nKey == k2.nKey {
        StrNICmpMatches(k1.pKey, k2.pKey);
        var s, t := Lower(k1.pKey), Lower(k2.pKey);
        assert s == t <==> forall i :: 0 <= i < |s| ==> s[i] == t[i];
      } else {
        assert |Canon(c, k1)| == k1.nKey && |Canon(c, k2)| == k2.nKey;
      }
    case SQLITE_HASH_BINARY =>
      if k1.nKey == k2.nKey {
        var i := MemCmpFirstDifference(k1.pKey, k2.pKey, k1.nKey);
      }
  }

  /** The comparison with a tells exactly the strings that differ from it by more than case. */
  ghost predicate TellsApart(a: Blob) {
    forall b: Blob {:trigger SameLetters(a, b)} :: |b| == |a| ==> (StrNICmp(a, b, |a|) == 0 <==> SameLetters(a, b))
  }

  ghost predicate NulOnlyLast(a: Blob) {
    forall i :: 0 <= i < |a| - 1 ==> a[i] != 0
  }

  /** The loop ends at a NUL that both strings have at the same place. */
  lemma {:induction false} StopsAtNul(a: Blob, b: Blob, i: nat)
    requires |a| == |b| && i < |a| && a[i] == 0 && a[..i + 1] == b[..i + 1]
    ensures StrNICmp(a, b, |a|) == 0
    decreases i
  {
    assert a[0] == a[..i + 1][0] == b[..i + 1][0] == b[0];
    if a[0] != 0 {
      assert a[1..][..i] == a[..i + 1][1..] && b[1..][..i] == b[..i + 1][1..];
      StopsAtNul(a[1..], b[1..], i - 1);
    }
  }

  /** An embedded NUL hides what follows it. The table's callers count a string's terminator, and only that. */
  lemma TellsApartUnlessNul(a: Blob)
    ensures TellsApart(a) <==> NulOnlyLast(a)
  {
    if NulOnlyLast(a) {
      forall b: Blob | |b| == |a| ensures StrNICmp(a, b, |a|) == 0 <==> SameLetters(a, b) { StrNICmpMatches(a, b); }
    } else {
      var i :| 0 <= i < |a| - 1 && a[i] == 0;
      var last: nat, other: Byte := |a| - 1, if a[|a| - 1] == 1 then 2 else 1;
      var b: Blob := a[last := other];
      StopsAtNul(a, b, i);
      assert UpperToLower(a[last]) != UpperToLower(b[last]);
      assert !SameLetters(a, b);
    }
  }

  // ---- hashing, in 32-bit arithmetic

  function IntHash(n: bv32): bv32 {
    n ^ (n << 8) ^ (if n & 0x8000_0000 != 0 then (n >> 8) | 0xff00_0000 else n >> 8)
  }

  function Mix(h: bv32, b: bv32): bv32 {
    (h << 3) ^ h ^ b
  }

  /** The loop of sqliteHashNoCase over the lower-case bytes. */
  function HashLetters(h: bv32, s: Blob): bv32
    decreases |s|
  {
    if s == [] then h & 0x7fff_ffff else HashLetters(Mix(h, s[0] as bv32), s[1..])
  }

  /** sqliteHashNoCase */
  function HashNoCase(z: Blob): bv32 {
    HashLetters(0, Lower(z))
  }

  /** A byte read as a signed char. */
  function SignedChar(b: Byte): bv32 {
    if b < 128 then b as bv32 else (b as bv32) | 0xffff_ff00
  }

  function BinHash(h: bv32, z: Blob): bv32
    decreases |z|
  {
    if z == [] then h & 0x7fff_ffff else BinHash(Mix(h, SignedChar(z[0])), z[1..])
  }

  /** The bits of a 32-bit integer. */
  function Bits(n: int): bv32 {
    (n % 0x1_0000_0000) as bv32
  }

  /** The hash as the unsigned number with the same bits: masking takes its remainder. */
  function HashOf(c: KeyClass, k: Key): nat {
    (match c
     case SQLITE_HASH_INT => IntHash(Bits(k.nKey))
     case SQLITE_HASH_STRING => HashNoCase(k.pKey)
     case SQLITE_HASH_BINARY => BinHash(0, k.pKey)) as int
  }

  /** Keys that match hash alike. */
  lemma MatchingKeysHashAlike(c: KeyClass, k1: Key, k2: Key)
    requires KeyOk(c, k1) && KeyOk(c, k2)
    ensures Compare(c, k1, k2) == 0 ==> HashOf(c, k1) == HashOf(c, k2)
  {
    CompareMatches(c, k1, k2);
    match c
    case SQLITE_HASH_INT =>
    case SQLITE_HASH_STRING =>
      assert Canon(c, k1) == Canon(c, k2) ==> Lower(k1.pKey) == Lower(k2.pKey);
    case SQLITE_HASH_BINARY =>
  }
}
