/** What a hash table stores: its slots over the list, and its elements as the entries of a finite map. */
module HashEntries {

  import opened Sequences
  import opened HashKeys
  import opened HashList

  /** A hash function as the table's key class picks it. */
  type HashFn = Key -> nat

  ghost predicate InMemory(m: Elems, list: seq<Ptr>) {
    forall i :: 0 <= i < |list| ==> list[i] in m
  }

  function BucketOf(f: HashFn, key: Key, size: nat): nat
    requires size > 0
  {
    f(key) % size
  }

  ghost function Buckets(m: Elems, list: seq<Ptr>, f: HashFn, size: nat): (bs: seq<nat>)
    requires InMemory(m, list) && size > 0
    ensures |bs| == |list| && forall i :: 0 <= i < |list| ==> bs[i] == BucketOf(f, m[list[i]].key, size) < size
  {
    seq(|list|, i requires 0 <= i < |list| => BucketOf(f, m[list[i]].key, size))
  }

  /** The list is linked and the slots point to their buckets in it. */
  ghost predicate Tabled(m: Elems, first: Ptr, list: seq<Ptr>, f: HashFn, ht: seq<Ht>) {
    Linked(m, first, list) && InMemory(m, list) && |ht| > 0 && Grouped(list, Buckets(m, list, f, |ht|), ht)
  }

  ghost function Members(list: seq<Ptr>): set<Ptr> {
    set p | p in list
  }

  /** The elements of the list keep their links and keys. */
  ghost predicate SameLinks(m: Elems, m2: Elems, list: seq<Ptr>) {
    forall p :: p in list && p in m ==>
      p in m2 && m2[p].next == m[p].next && m2[p].prev == m[p].prev && m2[p].key == m[p].key
  }

  lemma LinkedFrame(m: Elems, m2: Elems, first: Ptr, list: seq<Ptr>)
    requires Linked(m, first, list) && SameLinks(m, m2, list)
    ensures Linked(m2, first, list)
  {
    forall i | 0 <= i < |list| ensures LinkedAt(m2, list, i) {
      assert LinkedAt(m, list, i);
    }
  }

  lemma TabledFrame(m: Elems, m2: Elems, first: Ptr, list: seq<Ptr>, f: HashFn, ht: seq<Ht>)
    requires Tabled(m, first, list, f, ht) && SameLinks(m, m2, list)
    ensures Tabled(m2, first, list, f, ht)
  {
    LinkedFrame(m, m2, first, list);
    assert InMemory(m2, list);
    assert Buckets(m2, list, f, |ht|) == Buckets(m, list, f, |ht|);
  }

  // ---- putting in

  lemma InsertedMembers(list: seq<Ptr>, k: nat, p: Ptr)
    requires k <= |list|
    ensures Members(InsertAt(list, k, p)) == Members(list) + {p}
  {
    var l2 := InsertAt(list, k, p);
    forall q | q in list ensures q in l2 {
      var i :| 0 <= i < |list| && list[i] == q;
      assert l2[if i < k then i else i + 1] == q;
    }
    assert l2[k] == p;
  }

  /** New links do not move an element to another bucket. */
  lemma BucketsInserted(m: Elems, m2: Elems, list: seq<Ptr>, f: HashFn, size: nat, k: nat, p: Ptr)
    requires InMemory(m, list) && size > 0 && SameContent(m, m2) && k <= |list| && p in m
    ensures InMemory(m2, InsertAt(list, k, p))
    ensures Buckets(m2, InsertAt(list, k, p), f, size)
         == InsertAt(Buckets(m, list, f, size), k, BucketOf(f, m[p].key, size))
  {
  }

  /** Where the chain of slot h says a new element goes. */
  lemma FindEntrance(m: Elems, first: Ptr, list: seq<Ptr>, f: HashFn, ht: seq<Ht>, h: nat) returns (k: nat)
    requires Tabled(m, first, list, f, ht) && h < |ht|
    ensures Entrance(Buckets(m, list, f, |ht|), h, k, ht[h].count)
    ensures k <= |list| && (ht[h].chain == 0 ==> k == 0)
    ensures ht[h].chain != 0 ==> k < |list| && ht[h].chain == list[k]
  {
    var bs := Buckets(m, list, f, |ht|);
    assert SlotOk(list, bs, ht[h], h);
    var at: nat :| SlotAt(list, bs, ht[h], h, at);
    k := if ht[h].count > 0 then at else 0;
    if ht[h].count > 0 { assert LinkedAt(m, list, at); }
  }

  lemma TabledInserted(m: Elems, first: Ptr, list: seq<Ptr>, f: HashFn, ht: seq<Ht>, h: nat, k: nat, p: Ptr)
    requires Tabled(m, first, list, f, ht) && h < |ht| && p != 0 && p in m && p !in list
    requires h == BucketOf(f, m[p].key, |ht|) && Entrance(Buckets(m, list, f, |ht|), h, k, ht[h].count)
    ensures Tabled(LinkedIn(m, list, k, p), if k == 0 then p else first, InsertAt(list, k, p), f,
                   ht[h := Ht(ht[h].count + 1, p)])
  {
    InsertKeepsLinks(m, first, list, k, p);
    BucketsInserted(m, LinkedIn(m, list, k, p), list, f, |ht|, k, p);
    GroupedInserted(list, Buckets(m, list, f, |ht|), ht, h, k, p);
  }

  // ---- taking out

  lemma RemovedMembers(list: seq<Ptr>, k: nat)
    requires k < |list| && Distinct(list)
    ensures Members(RemoveAt(list, k)) == Members(list) - {list[k]}
  {
    var l2 := RemoveAt(list, k);
    forall q | q in list && q != list[k] ensures q in l2 {
      var i :| 0 <= i < |list| && list[i] == q;
      assert l2[if i < k then i else i - 1] == q;
    }
  }

  lemma BucketsRemoved(m: Elems, m2: Elems, list: seq<Ptr>, f: HashFn, size: nat, k: nat)
    requires InMemory(m, list) && size > 0 && k < |list| && Distinct(list) && SameContent(m - {list[k]}, m2)
    ensures InMemory(m2, RemoveAt(list, k))
    ensures Buckets(m2, RemoveAt(list, k), f, size) == RemoveAt(Buckets(m, list, f, size), k)
  {
  }

  lemma TabledRemoved(m: Elems, first: Ptr, list: seq<Ptr>, f: HashFn, ht: seq<Ht>, h: nat, k: nat)
    requires Tabled(m, first, list, f, ht) && k < |list| && h == BucketOf(f, m[list[k]].key, |ht|)
    ensures ht[h].count > 0
    ensures Tabled(LinkedOut(m, list, k), if k == 0 then At(list, 1) else first, RemoveAt(list, k), f,
                   ht[h := Shrunk(list, ht[h], k)])
  {
    var bs := Buckets(m, list, f, |ht|);
    assert SlotOk(list, bs, ht[h], h) && bs[k] == h;
    RemoveKeepsLinks(m, first, list, k);
    GroupedRemoved(list, bs, ht, k);
    BucketsRemoved(m, LinkedOut(m, list, k), list, f, |ht|, k);
  }

  // ---- rehashing: the part of the list still to be dealt out

  ghost predicate RestAt(m: Elems, elem: Ptr, rest: seq<Ptr>) {
    && elem == At(rest, 0) && Distinct(rest)
    && forall i :: 0 <= i < |rest| ==> rest[i] != 0 && rest[i] in m && m[rest[i]].next == At(rest, i + 1)
  }

  ghost predicate Apart(list: seq<Ptr>, rest: seq<Ptr>) {
    forall p :: p in list ==> p !in rest
  }

  lemma RestOfAll(m: Elems, first: Ptr, list: seq<Ptr>)
    requires Linked(m, first, list)
    ensures RestAt(m, first, list)
  {
    forall i | 0 <= i < |list| ensures list[i] != 0 && list[i] in m && m[list[i]].next == At(list, i + 1) {
      assert LinkedAt(m, list, i);
    }
  }

  /** The links of the rest are untouched when its first element goes to the new list. */
  lemma RestGoesOn(m: Elems, m2: Elems, list: seq<Ptr>, list2: seq<Ptr>, rest: seq<Ptr>)
    requires rest != [] && RestAt(m, rest[0], rest) && Apart(list, rest)
    requires forall q :: q in m && q !in list && q != rest[0] ==> q in m2 && m2[q] == m[q]
    requires Members(list2) == Members(list) + {rest[0]}
    ensures RestAt(m2, m[rest[0]].next, rest[1..]) && Apart(list2, rest[1..])
    ensures Members(rest) == Members(rest[1..]) + {rest[0]}
  {
    var tail := rest[1..];
    assert rest == [rest[0]] + tail;
    forall i | 0 <= i < |tail| ensures tail[i] != 0 && tail[i] in m2 && m2[tail[i]].next == At(tail, i + 1) {
      assert tail[i] == rest[i + 1];
      assert rest[i + 1] in rest;
    }
    forall p | p in list2 ensures p !in tail {
      assert p in Members(list2);
    }
  }

  lemma NothingTabled(m: Elems, f: HashFn, size: nat)
    requires size > 0
    ensures Tabled(m, 0, [], f, seq(size, _ => Ht(0, 0)))
    ensures Members([]) == {}
  {
    var ht := seq(size, _ => Ht(0, 0));
    forall h | 0 <= h < size ensures SlotOk([], [], ht[h], h) {
      assert SlotAt([], [], ht[h], h, 0);
    }
  }

  // ---- entries

  /** Keys up to what their class takes for the same key. */
  type Name = seq<int>

  /** model is the map from names to data; home says which element holds a name. */
  ghost predicate Stores(m: Elems, c: KeyClass, p: Ptr, home: map<Name, Ptr>, model: map<Name, Ptr>) {
    && p in m && KeyOk(c, m[p].key) && m[p].data != 0
    && Canon(c, m[p].key) in home && home[Canon(c, m[p].key)] == p
    && Canon(c, m[p].key) in model && model[Canon(c, m[p].key)] == m[p].data
  }

  ghost predicate Found(m: Elems, s: set<Ptr>, c: KeyClass, k: Name, home: map<Name, Ptr>) {
    k in home && home[k] in s && home[k] in m && Canon(c, m[home[k]].key) == k
  }

  /** The elements of s are the entries of the map, one each. */
  ghost predicate Represents(m: Elems, s: set<Ptr>, c: KeyClass, home: map<Name, Ptr>, model: map<Name, Ptr>) {
    && home.Keys == model.Keys
    && (forall p {:trigger Stores(m, c, p, home, model)} :: p in s ==> Stores(m, c, p, home, model))
    && (forall k {:trigger Found(m, s, c, k, home)} :: k in home ==> Found(m, s, c, k, home))
  }

  /** The elements of s have the same keys and data. */
  ghost predicate SameEntries(m: Elems, m2: Elems, s: set<Ptr>) {
    forall p :: p in s ==> p in m && p in m2 && m2[p].key == m[p].key && m2[p].data == m[p].data
  }

  /** The map with one more entry, or with new data under an old name. */
  lemma RepresentsWith(m: Elems, m2: Elems, s: set<Ptr>, c: KeyClass, home: map<Name, Ptr>, model: map<Name, Ptr>,
                       p: Ptr, k: Name, data: Ptr)
    requires Represents(m, s, c, home, model) && SameEntries(m, m2, s - {p})
    requires p in m2 && KeyOk(c, m2[p].key) && Canon(c, m2[p].key) == k && m2[p].data == data != 0
    requires if p in s then p in m && m2[p].key == m[p].key else k !in model
    ensures Represents(m2, s + {p}, c, home[k := p], model[k := data])
    ensures p in s ==> |model[k := data]| == |model|
  {
    var home2, model2 := home[k := p], model[k := data];
    if p in s { assert Stores(m, c, p, home, model); assert model2.Keys == model.Keys; SameSize(model, model2); }
    forall q | q in s + {p} ensures Stores(m2, c, q, home2, model2) {
      if q != p { assert Stores(m, c, q, home, model); }
    }
    forall n | n in home2 ensures Found(m2, s + {p}, c, n, home2) {
      if n != k { assert Found(m, s, c, n, home); }
    }
  }

  lemma SameSize(a: map<Name, Ptr>, b: map<Name, Ptr>)
    requires a.Keys == b.Keys
    ensures |a| == |b|
  {
    assert |a| == |a.Keys| && |b| == |b.Keys|;
  }

  /** The map without one entry. */
  lemma RepresentsWithout(m: Elems, m2: Elems, s: set<Ptr>, c: KeyClass, home: map<Name, Ptr>, model: map<Name, Ptr>, p: Ptr)
    requires Represents(m, s, c, home, model) && p in s && SameEntries(m, m2, s - {p})
    ensures Stores(m, c, p, home, model)
    ensures var k := Canon(c, m[p].key);
      Represents(m2, s - {p}, c, home - {k}, model - {k}) && |model - {k}| == |model| - 1
  {
    assert Stores(m, c, p, home, model);
    var k := Canon(c, m[p].key);
    assert model == (model - {k})[k := model[k]];
    forall q | q in s - {p} ensures Stores(m2, c, q, home - {k}, model - {k}) {
      assert Stores(m, c, q, home, model);
    }
    forall n | n in home - {k} ensures Found(m2, s - {p}, c, n, home - {k}) {
      assert Found(m, s, c, n, home);
      assert Stores(m, c, home[n], home, model);
    }
  }

  // ---- looking up

  ghost predicate Matches(m: Elems, c: KeyClass, p: Ptr, key: Key) {
    p in m && Canon(c, m[p].key) == Canon(c, key)
  }

  /** No element of the stretch from at to at + i - 1 has this key. */
  ghost predicate NoneBefore(m: Elems, c: KeyClass, list: seq<Ptr>, at: nat, i: nat, key: Key) {
    forall j :: at <= j < at + i && j < |list| ==> !Matches(m, c, list[j], key)
  }

  /** f is a hash function of the class: matching keys hash alike. */
  ghost predicate HashesFor(f: HashFn, c: KeyClass) {
    forall k1, k2 {:trigger Compare(c, k1, k2)} ::
      KeyOk(c, k1) && KeyOk(c, k2) && Compare(c, k1, k2) == 0 ==> f(k1) == f(k2)
  }

  lemma NotThisOne(m: Elems, c: KeyClass, f: HashFn, list: seq<Ptr>, size: nat, e: Ht, at: nat, key: Key, j: nat)
    requires InMemory(m, list) && size > 0 && j < |list| && KeyOk(c, m[list[j]].key) && KeyOk(c, key) && HashesFor(f, c)
    requires SlotAt(list, Buckets(m, list, f, size), e, BucketOf(f, key, size), at)
    requires NoneBefore(m, c, list, at, e.count, key)
    ensures !Matches(m, c, list[j], key)
  {
    CompareMatches(c, m[list[j]].key, key);
    assert Buckets(m, list, f, size)[j] == BucketOf(f, m[list[j]].key, size);
  }

  /** A key that its bucket does not have is not in the map. */
  lemma NotInBucket(m: Elems, c: KeyClass, f: HashFn, list: seq<Ptr>, size: nat, e: Ht, at: nat, key: Key,
                    home: map<Name, Ptr>, model: map<Name, Ptr>)
    requires InMemory(m, list) && size > 0 && KeyOk(c, key) && HashesFor(f, c)
    requires Represents(m, Members(list), c, home, model)
    requires SlotAt(list, Buckets(m, list, f, size), e, BucketOf(f, key, size), at)
    requires NoneBefore(m, c, list, at, e.count, key)
    ensures Canon(c, key) !in model
  {
    var k := Canon(c, key);
    forall j | 0 <= j < |list| ensures !Matches(m, c, list[j], key) {
      assert list[j] in Members(list);
      assert Stores(m, c, list[j], home, model);
      NotThisOne(m, c, f, list, size, e, at, key, j);
    }
    assert k in home ==> Found(m, Members(list), c, k, home);
  }
}
