/** Sorted entry sequences as finite maps, and where a key sits among them. */
module RbEntries {
  import opened Bytes
  import opened RbShape

  ghost function IdSet<N>(s: seq<Entry<N>>): set<N> {
    set i | 0 <= i < |s| :: s[i].id
  }

  lemma IdSetConcat<N>(a: seq<Entry<N>>, b: seq<Entry<N>>)
    ensures IdSet(a + b) == IdSet(a) + IdSet(b)
  {
    forall x | x in IdSet(a) + IdSet(b) ensures x in IdSet(a + b) {
      if x in IdSet(a) {
        var i :| 0 <= i < |a| && a[i].id == x;
        assert (a + b)[i].id == x;
      } else {
        var i :| 0 <= i < |b| && b[i].id == x;
        assert (a + b)[|a| + i].id == x;
      }
    }
  }

  lemma {:induction false} IdsInOrder<N>(t: Tree<N>)
    ensures IdSet(InOrder(t)) == Ids(t)
  {
    if t.Node? {
      IdsInOrder(t.left);
      IdsInOrder(t.right);
      var e := [Entry(t.id, t.key, t.data)];
      assert IdSet(e) == {t.id} by { assert e[0].id == t.id; }
      IdSetConcat(InOrder(t.left) + e, InOrder(t.right));
      IdSetConcat(InOrder(t.left), e);
    }
  }

  /** The finite map a table's entries stand for. */
  ghost function Content<N>(s: seq<Entry<N>>): map<Blob, Blob> {
    if s == [] then map[]
    else Content(s[..|s| - 1])[s[|s| - 1].key := s[|s| - 1].data]
  }

  ghost predicate Holds<N>(s: seq<Entry<N>>, i: nat, k: Blob) {
    i < |s| && s[i].key == k
  }

  lemma {:induction false} ContentKeys<N>(s: seq<Entry<N>>, k: Blob)
    ensures k in Content(s) <==> exists i: nat :: Holds(s, i, k)
  {
    if s != [] {
      var p := s[..|s| - 1];
      ContentKeys(p, k);
      if k in Content(p) {
        var i: nat :| Holds(p, i, k);
        assert Holds(s, i, k);
      } else if k == s[|s| - 1].key {
        assert Holds(s, |s| - 1, k);
      } else if exists i: nat :: Holds(s, i, k) {
        var i: nat :| Holds(s, i, k);
        assert Holds(p, i, k);
      }
    }
  }

  /** In a sorted table each entry's data is what the map holds at its key. */
  lemma {:induction false} ContentAt<N>(s: seq<Entry<N>>, i: nat)
    requires Sorted(s) && i < |s|
    ensures s[i].key in Content(s) && Content(s)[s[i].key] == s[i].data
    decreases |s|
  {
    var p := s[..|s| - 1];
    if i < |s| - 1 {
      ContentAt(p, i);
      LessAsymmetric(s[i].key, s[|s| - 1].key);
      assert s[i].key != s[|s| - 1].key;
    }
  }

  /** Two sorted tables with the same keys and data at them are the same map. */
  lemma ContentIs<N>(s: seq<Entry<N>>, m: map<Blob, Blob>)
    requires Sorted(s)
    requires forall i | 0 <= i < |s| :: s[i].key in m && m[s[i].key] == s[i].data
    requires forall k | k in m :: exists i: nat :: Holds(s, i, k)
    ensures Content(s) == m
  {
    var c := Content(s);
    forall k | k in c ensures k in m && c[k] == m[k] {
      ContentKeys(s, k);
      var i: nat :| Holds(s, i, k);
      ContentAt(s, i);
    }
    forall k | k in m ensures k in c {
      ContentKeys(s, k);
    }
  }

  /** Keys strictly below k, then keys strictly above it. */
  ghost predicate Around<N>(a: seq<Entry<N>>, k: Blob, b: seq<Entry<N>>) {
    && (forall i | 0 <= i < |a| :: Less(a[i].key, k))
    && (forall i | 0 <= i < |b| :: Less(k, b[i].key))
  }

  lemma SortedParts<N>(a: seq<Entry<N>>, e: Entry<N>, b: seq<Entry<N>>)
    requires Sorted(a + [e] + b)
    ensures Sorted(a) && Sorted(b) && Around(a, e.key, b) && Sorted(a + b)
  {
    var s := a + [e] + b;
    assert forall i | 0 <= i < |a| :: s[i] == a[i];
    assert s[|a|] == e;
    assert forall i | 0 <= i < |b| :: s[|a| + 1 + i] == b[i];
  }

  lemma SortedJoin<N>(a: seq<Entry<N>>, e: Entry<N>, b: seq<Entry<N>>)
    requires Sorted(a + b) && Around(a, e.key, b)
    ensures Sorted(a + [e] + b)
  {
    var s, r := a + [e] + b, a + b;
    forall i, j | 0 <= i < j < |s| ensures Less(s[i].key, s[j].key) {
      var i' := if i < |a| then i else i - 1;
      var j' := if j < |a| then j else j - 1;
      if i == |a| {
        assert s[j] == b[j - |a| - 1];
      } else if j == |a| {
        assert s[i] == a[i];
      } else {
        assert s[i] == r[i'] && s[j] == r[j'];
      }
    }
  }

  /** Inserting an entry at its place is a map update with a new key. */
  lemma ContentInsert<N>(a: seq<Entry<N>>, e: Entry<N>, b: seq<Entry<N>>)
    requires Sorted(a + b) && Around(a, e.key, b)
    ensures Sorted(a + [e] + b)
    ensures e.key !in Content(a + b)
    ensures Content(a + [e] + b) == Content(a + b)[e.key := e.data]
  {
    SortedJoin(a, e, b);
    var s, r := a + [e] + b, a + b;
    NotAround(a, e.key, b);
    var m := Content(r)[e.key := e.data];
    forall i | 0 <= i < |s| ensures s[i].key in m && m[s[i].key] == s[i].data {
      if i != |a| {
        var i' := if i < |a| then i else i - 1;
        assert s[i] == r[i'];
        ContentAt(r, i');
        NotAround(a, e.key, b);
      }
    }
    forall k | k in m ensures exists i: nat :: Holds(s, i, k) {
      if k == e.key {
        assert Holds(s, |a|, k);
      } else {
        ContentKeys(r, k);
        var i: nat :| Holds(r, i, k);
        assert Holds(s, if i < |a| then i else i + 1, k);
      }
    }
    ContentIs(s, m);
  }

  lemma NotAround<N>(a: seq<Entry<N>>, k: Blob, b: seq<Entry<N>>)
    requires Around(a, k, b)
    ensures k !in Content(a + b)
  {
    ContentKeys(a + b, k);
    if exists i: nat :: Holds(a + b, i, k) {
      var i: nat :| Holds(a + b, i, k);
      LessAsymmetric(k, k);
      assert if i < |a| then Less(a[i].key, k) else Less(k, b[i - |a|].key);
    }
  }

  /** Removing an entry is removing its key from the map. */
  lemma ContentRemove<N>(a: seq<Entry<N>>, e: Entry<N>, b: seq<Entry<N>>)
    requires Sorted(a + [e] + b)
    ensures Sorted(a + b)
    ensures e.key in Content(a + [e] + b) && Content(a + [e] + b)[e.key] == e.data
    ensures Content(a + b) == Content(a + [e] + b) - {e.key}
  {
    SortedParts(a, e, b);
    ContentInsert(a, e, b);
  }

  /** Replacing an entry's data, or the node that holds it, is a map update at its key. */
  lemma ContentReplace<N>(a: seq<Entry<N>>, e: Entry<N>, e': Entry<N>, b: seq<Entry<N>>)
    requires Sorted(a + [e] + b) && e'.key == e.key
    ensures Sorted(a + [e'] + b)
    ensures Content(a + [e'] + b) == Content(a + [e] + b)[e.key := e'.data]
  {
    SortedParts(a, e, b);
    ContentInsert(a, e, b);
    ContentInsert(a, e', b);
  }

  /** The same keys and data in the same order, whichever nodes hold them. */
  ghost predicate SameRows<N>(s: seq<Entry<N>>, s': seq<Entry<N>>) {
    |s| == |s'| && forall i | 0 <= i < |s| :: s[i].key == s'[i].key && s[i].data == s'[i].data
  }

  lemma {:induction false} SameRowsContent<N>(s: seq<Entry<N>>, s': seq<Entry<N>>)
    requires SameRows(s, s')
    ensures Content(s) == Content(s')
    ensures Sorted(s) ==> Sorted(s')
  {
    if s != [] {
      SameRowsContent(s[..|s| - 1], s'[..|s'| - 1]);
    }
  }
}
