/**
 * The one doubly linked list of a hash table (hash.c): its pointers, and the buckets as consecutive stretches of it.
 */
module HashList {

  import opened Sequences
  import opened HashKeys

  /** Addresses; 0 is NULL. */
  type Ptr = nat

  datatype HashElem = HashElem(next: Ptr, prev: Ptr, data: Ptr, key: Key)

  type Elems = map<Ptr, HashElem>

  /** One slot of the table: how many elements have this hash, and the first of them in the list. */
  datatype Ht = Ht(count: int, chain: Ptr)

  function At(list: seq<Ptr>, i: int): Ptr {
    if 0 <= i < |list| then list[i] else 0
  }

  ghost predicate LinkedAt(m: Elems, list: seq<Ptr>, i: nat)
    requires i < |list|
  {
    && list[i] != 0 && list[i] in m
    && m[list[i]].next == At(list, i + 1) && m[list[i]].prev == At(list, i - 1)
  }

  /** From first on, next and prev run through list, which has no element twice. */
  ghost predicate Linked(m: Elems, first: Ptr, list: seq<Ptr>) {
    && first == At(list, 0) && Distinct(list)
    && forall i :: 0 <= i < |list| ==> LinkedAt(m, list, i)
  }

  /** Only links differ. */
  ghost predicate SameContent(m: Elems, m2: Elems) {
    && m.Keys == m2.Keys
    && forall p :: p in m && p in m2 ==> m2[p].key == m[p].key && m2[p].data == m[p].data
  }

  function InsertAt<T>(s: seq<T>, k: nat, x: T): seq<T>
    requires k <= |s|
  {
    s[..k] + [x] + s[k..]
  }

  function RemoveAt<T>(s: seq<T>, k: nat): seq<T>
    requires k < |s|
  {
    s[..k] + s[k + 1..]
  }

  function SetNext(m: Elems, p: Ptr, q: Ptr): Elems {
    if p != 0 && p in m then m[p := m[p].(next := q)] else m
  }

  function SetPrev(m: Elems, p: Ptr, q: Ptr): Elems {
    if p != 0 && p in m then m[p := m[p].(prev := q)] else m
  }

  /** The links after p has been put in before position k. */
  function LinkedIn(m: Elems, list: seq<Ptr>, k: nat, p: Ptr): Elems
    requires p in m && k <= |list|
  {
    var m1 := m[p := m[p].(next := At(list, k), prev := At(list, k - 1))];
    SetPrev(SetNext(m1, At(list, k - 1), p), At(list, k), p)
  }

  lemma InsertKeepsLinks(m: Elems, first: Ptr, list: seq<Ptr>, k: nat, p: Ptr)
    requires Linked(m, first, list) && k <= |list| && p != 0 && p in m && p !in list
    ensures Linked(LinkedIn(m, list, k, p), if k == 0 then p else first, InsertAt(list, k, p))
    ensures SameContent(m, LinkedIn(m, list, k, p))
    ensures forall q :: q in m && q !in list && q != p ==> LinkedIn(m, list, k, p)[q] == m[q]
  {
    var m2, l2 := LinkedIn(m, list, k, p), InsertAt(list, k, p);
    forall i | 0 <= i < |l2| ensures LinkedAt(m2, l2, i) {
      if i < k {
        assert LinkedAt(m, list, i);
      } else if i > k {
        assert LinkedAt(m, list, i - 1);
      }
    }
  }

  /** The links after element k has been taken out. */
  function LinkedOut(m: Elems, list: seq<Ptr>, k: nat): Elems
    requires k < |list|
  {
    SetPrev(SetNext(m, At(list, k - 1), At(list, k + 1)), At(list, k + 1), At(list, k - 1)) - {list[k]}
  }

  lemma RemoveKeepsLinks(m: Elems, first: Ptr, list: seq<Ptr>, k: nat)
    requires Linked(m, first, list) && k < |list|
    ensures Linked(LinkedOut(m, list, k), if k == 0 then At(list, 1) else first, RemoveAt(list, k))
    ensures SameContent(m - {list[k]}, LinkedOut(m, list, k))
  {
    var m2, l2 := LinkedOut(m, list, k), RemoveAt(list, k);
    forall i | 0 <= i < |l2| ensures LinkedAt(m2, l2, i) {
      assert LinkedAt(m, list, if i < k then i else i + 1);
    }
  }

  // ---- buckets

  /** Bucket numbers along the list: those equal to h stand at positions at to at + n - 1. */
  ghost predicate RunAt(bs: seq<nat>, h: nat, at: nat, n: int) {
    0 <= n && at + n <= |bs| && forall i :: 0 <= i < |bs| ==> (bs[i] == h <==> at <= i < at + n)
  }

  ghost predicate SlotAt(list: seq<Ptr>, bs: seq<nat>, e: Ht, h: nat, at: nat) {
    |bs| == |list| && RunAt(bs, h, at, e.count) && e.chain == if e.count > 0 then At(list, at) else 0
  }

  /** The slot counts the elements of its bucket, which follow each other in the list, and points to the first. */
  ghost predicate SlotOk(list: seq<Ptr>, bs: seq<nat>, e: Ht, h: nat) {
    exists at :: SlotAt(list, bs, e, h, at)
  }

  ghost predicate Grouped(list: seq<Ptr>, bs: seq<nat>, ht: seq<Ht>) {
    && |bs| == |list| && (forall i :: 0 <= i < |bs| ==> bs[i] < |ht|)
    && forall h :: 0 <= h < |ht| ==> SlotOk(list, bs, ht[h], h)
  }

  /** Where a new element of a bucket goes: before the bucket's first, or to the front of the list. */
  ghost predicate Entrance(bs: seq<nat>, h: nat, k: nat, n: int) {
    k <= |bs| && if n > 0 then RunAt(bs, h, k, n) else k == 0 && RunAt(bs, h, 0, 0)
  }

  lemma OtherSlotInserted(list: seq<Ptr>, bs: seq<nat>, e: Ht, h: nat, k: nat, p: Ptr, h2: nat, n: int)
    requires SlotOk(list, bs, e, h) && h != h2 && Entrance(bs, h2, k, n)
    ensures SlotOk(InsertAt(list, k, p), InsertAt(bs, k, h2), e, h)
  {
    var at: nat :| SlotAt(list, bs, e, h, at);
    var at2 := if k <= at then at + 1 else at;
    assert e.count > 0 ==> bs[at] == h;
    assert n > 0 ==> bs[k] == h2;
    var l2, b2 := InsertAt(list, k, p), InsertAt(bs, k, h2);
    if e.count > 0 {
      assert SlotAt(l2, b2, e, h, at2);
    } else {
      assert RunAt(b2, h, 0, 0);
      assert SlotAt(l2, b2, e, h, 0);
    }
  }

  lemma SlotGrown(list: seq<Ptr>, bs: seq<nat>, e: Ht, h: nat, k: nat, p: Ptr)
    requires |bs| == |list| && Entrance(bs, h, k, e.count) && e.count >= 0
    ensures SlotOk(InsertAt(list, k, p), InsertAt(bs, k, h), Ht(e.count + 1, p), h)
  {
    assert SlotAt(InsertAt(list, k, p), InsertAt(bs, k, h), Ht(e.count + 1, p), h, k);
  }

  /** A new element of bucket h. */
  lemma GroupedInserted(list: seq<Ptr>, bs: seq<nat>, ht: seq<Ht>, h: nat, k: nat, p: Ptr)
    requires Grouped(list, bs, ht) && h < |ht| && Entrance(bs, h, k, ht[h].count)
    ensures Grouped(InsertAt(list, k, p), InsertAt(bs, k, h), ht[h := Ht(ht[h].count + 1, p)])
  {
    var ht2 := ht[h := Ht(ht[h].count + 1, p)];
    assert SlotOk(list, bs, ht[h], h);
    forall g | 0 <= g < |ht2| ensures SlotOk(InsertAt(list, k, p), InsertAt(bs, k, h), ht2[g], g) {
      if g == h {
        SlotGrown(list, bs, ht[h], h, k, p);
      } else {
        assert SlotOk(list, bs, ht[g], g);
        OtherSlotInserted(list, bs, ht[g], g, k, p, h, ht[h].count);
      }
    }
  }

  lemma OtherSlotRemoved(list: seq<Ptr>, bs: seq<nat>, e: Ht, h: nat, k: nat)
    requires SlotOk(list, bs, e, h) && k < |list| && bs[k] != h
    ensures SlotOk(RemoveAt(list, k), RemoveAt(bs, k), e, h)
  {
    var at: nat :| SlotAt(list, bs, e, h, at);
    if e.count > 0 {
      assert bs[at] == h;
      assert SlotAt(RemoveAt(list, k), RemoveAt(bs, k), e, h, if k < at then at - 1 else at);
    } else {
      assert RunAt(RemoveAt(bs, k), h, 0, 0);
      assert SlotAt(RemoveAt(list, k), RemoveAt(bs, k), e, h, 0);
    }
  }

  /** The slot after element k has left: a first element hands over to the next, a last one leaves no chain. */
  function Shrunk(list: seq<Ptr>, e: Ht, k: nat): Ht
    requires k < |list|
  {
    Ht(e.count - 1, if e.count <= 1 then 0 else if e.chain == list[k] then At(list, k + 1) else e.chain)
  }

  lemma SlotShrunk(list: seq<Ptr>, bs: seq<nat>, e: Ht, h: nat, k: nat)
    requires SlotOk(list, bs, e, h) && Distinct(list) && k < |list| && bs[k] == h
    ensures SlotOk(RemoveAt(list, k), RemoveAt(bs, k), Shrunk(list, e, k), h)
  {
    var at: nat :| SlotAt(list, bs, e, h, at);
    assert at <= k < at + e.count;
    if e.count > 1 {
      assert SlotAt(RemoveAt(list, k), RemoveAt(bs, k), Shrunk(list, e, k), h, at);
    } else {
      assert RunAt(RemoveAt(bs, k), h, 0, 0);
      assert SlotAt(RemoveAt(list, k), RemoveAt(bs, k), Shrunk(list, e, k), h, 0);
    }
  }

  lemma GroupedRemoved(list: seq<Ptr>, bs: seq<nat>, ht: seq<Ht>, k: nat)
    requires Grouped(list, bs, ht) && Distinct(list) && k < |list|
    ensures Grouped(RemoveAt(list, k), RemoveAt(bs, k), ht[bs[k] := Shrunk(list, ht[bs[k]], k)])
  {
    var h := bs[k];
    var ht2 := ht[h := Shrunk(list, ht[h], k)];
    forall g | 0 <= g < |ht2| ensures SlotOk(RemoveAt(list, k), RemoveAt(bs, k), ht2[g], g) {
      assert SlotOk(list, bs, ht[g], g);
      if g == h {
        SlotShrunk(list, bs, ht[h], h, k);
      } else {
        OtherSlotRemoved(list, bs, ht[g], g, k);
      }
    }
  }
}
