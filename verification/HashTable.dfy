/** The hash table (hash.c) refines a finite map from keys, as their class tells them apart, to data. */
module HashTable {

  import opened HashKeys
  import opened HashList
  import opened HashEntries

  /** A power of two. */
  predicate PowerOf2(n: nat) {
    n == 1 || (n > 1 && n % 2 == 0 && PowerOf2(n / 2))
  }

  /** hashFunction: the function for a key class. */
  function HashFunction(c: KeyClass): HashFn {
    k => HashOf(c, k)
  }

  lemma HashFunctionHashes(c: KeyClass)
    ensures HashesFor(HashFunction(c), c)
  {
    forall k1, k2 {:trigger Compare(c, k1, k2)} | KeyOk(c, k1) && KeyOk(c, k2) && Compare(c, k1, k2) == 0
      ensures HashFunction(c)(k1) == HashFunction(c)(k2)
    {
      MatchingKeysHashAlike(c, k1, k2);
    }
  }

  lemma RestShrinks(m: Elems, rest: seq<Ptr>)
    requires rest != [] && RestAt(m, rest[0], rest)
    ensures RestAt(m - {rest[0]}, m[rest[0]].next, rest[1..])
    ensures Members(rest[1..]) == Members(rest) - {rest[0]}
  {
    assert rest == [rest[0]] + rest[1..];
  }

  class Hash {
    const keyClass: KeyClass
    const xHash: HashFn
    var count: int
    var first: Ptr
    var htsize: nat
    var ht: seq<Ht>
    /** The allocated elements, by address. */
    var elems: Elems
    ghost var list: seq<Ptr>
    /** The abstract value: the map from names of keys to data, and which element holds each. */
    ghost var model: map<Name, Ptr>
    ghost var home: map<Name, Ptr>

    ghost predicate Valid()
      reads this
    {
      && HashesFor(xHash, keyClass) && htsize == |ht| && count == |list| == |model|
      && Represents(elems, Members(list), keyClass, home, model) && Slotted()
    }

    /** No slots before the first insertion; then a power of two, no fewer than there are elements. */
    ghost predicate Slotted()
      reads this
    {
      if htsize == 0 then list == [] && first == 0
      else PowerOf2(htsize) && |list| <= htsize && Tabled(elems, first, list, xHash, ht)
    }

    constructor (keyClass: KeyClass)
      ensures Valid() && model == map[] && this.keyClass == keyClass && xHash == HashFunction(keyClass)
    {
      this.keyClass, xHash := keyClass, HashFunction(keyClass);
      count, first, htsize, ht, elems := 0, 0, 0, [], map[];
      list, model, home := [], map[], map[];
      new;
      HashFunctionHashes(keyClass);
      assert Members(list) == {};
    }

    /** Frees all elements and the slots. */
    method Clear()
      requires Valid()
      modifies this
      ensures Valid() && model == map[] && elems == old(elems) - Members(old(list))
    {
      var elem := first;
      if htsize > 0 { RestOfAll(elems, elem, list); }
      first := 0;
      ht := [];
      htsize := 0;
      FreeElements(elem, list);
      count := 0;
      list, model, home := [], map[], map[];
      assert Members(list) == {};
    }

    method FreeElements(start: Ptr, ghost all: seq<Ptr>)
      requires RestAt(elems, start, all)
      modifies this`elems
      ensures elems == old(elems) - Members(all)
    {
      ghost var rest := all;
      var elem := start;
      assert elems == elems - (Members(all) - Members(rest));
      while elem != 0
        invariant RestAt(elems, elem, rest) && Members(rest) <= Members(all)
        invariant elems == old(elems) - (Members(all) - Members(rest))
        decreases |rest|
      {
        var nextElem := elems[elem].next;
        RestShrinks(elems, rest);
        elems := elems - {elem};
        rest := rest[1..];
        elem := nextElem;
      }
    }

    // ---- linking

    /** Puts element p into the list and into slot h. Insertion and rehashing both do this. */
    method LinkIn(p: Ptr, h: nat)
      requires Tabled(elems, first, list, xHash, ht) && p != 0 && p in elems && p !in list
      requires h == BucketOf(xHash, elems[p].key, |ht|)
      modifies this`elems, this`first, this`ht, this`list
      ensures Tabled(elems, first, list, xHash, ht) && |ht| == |old(ht)|
      ensures Members(list) == Members(old(list)) + {p} && |list| == |old(list)| + 1
      ensures SameContent(old(elems), elems)
      ensures forall q :: q in old(elems) && q !in old(list) && q != p ==> elems[q] == old(elems)[q]
    {
      ghost var l := list;
      ghost var k := FindEntrance(elems, first, l, xHash, ht, h);
      TabledInserted(elems, first, l, xHash, ht, h, k, p);
      InsertKeepsLinks(elems, first, l, k, p);
      InsertedMembers(l, k, p);
      PutIn(p, h, k);
      list := InsertAt(l, k, p);
    }

    method PutIn(p: Ptr, h: nat, ghost k: nat)
      requires Linked(elems, first, list) && k <= |list| && h < |ht| && p != 0 && p in elems && p !in list
      requires ht[h].chain == 0 ==> k == 0
      requires ht[h].chain != 0 ==> k < |list| && ht[h].chain == list[k]
      modifies this`elems, this`first, this`ht
      ensures elems == LinkedIn(old(elems), list, k, p) && first == (if k == 0 then p else old(first))
      ensures ht == old(ht)[h := Ht(old(ht)[h].count + 1, p)]
    {
      var x := ht[h].chain;
      if x != 0 {
        assert LinkedAt(elems, list, k);
        if k > 0 { assert LinkedAt(elems, list, k - 1); }
        elems := elems[p := elems[p].(next := x, prev := elems[x].prev)];
        if elems[x].prev != 0 {
          var q := elems[x].prev;
          elems := elems[q := elems[q].(next := p)];
        } else {
          first := p;
        }
        elems := elems[x := elems[x].(prev := p)];
      } else {
        if |list| > 0 { assert LinkedAt(elems, list, 0); }
        elems := elems[p := elems[p].(next := first, prev := 0)];
        if first != 0 {
          elems := elems[first := elems[first].(prev := p)];
        }
        first := p;
      }
      ht := ht[h := Ht(ht[h].count + 1, p)];
    }

    /** Deals all elements of the list out to new slots. */
    method Rehash(newSize: nat)
      requires Linked(elems, first, list) && InMemory(elems, list) && newSize > 0
      modifies this`elems, this`first, this`ht, this`htsize, this`list
      ensures Tabled(elems, first, list, xHash, ht) && htsize == |ht| == newSize
      ensures Members(list) == Members(old(list)) && |list| == |old(list)| && SameContent(old(elems), elems)
    {
      ghost var rest := list;
      var elem := first;
      RestOfAll(elems, first, list);
      ht := seq(newSize, _ => Ht(0, 0));
      htsize := newSize;
      first := 0;
      list := [];
      NothingTabled(elems, xHash, newSize);
      while elem != 0
        invariant |ht| == newSize == htsize && Tabled(elems, first, list, xHash, ht)
        invariant RestAt(elems, elem, rest) && Apart(list, rest) && SameContent(old(elems), elems)
        invariant Members(list) + Members(rest) == Members(old(list)) && |list| + |rest| == |old(list)|
        decreases |rest|
      {
        var nextElem := elems[elem].next;
        ghost var m, l := elems, list;
        assert elem == rest[0] && elem in rest;
        LinkIn(elem, xHash(elems[elem].key) % newSize);
        RestGoesOn(m, elems, l, list, rest);
        rest := rest[1..];
        elem := nextElem;
      }
      assert rest == [];
    }

    method Unlink(p: Ptr, h: nat, ghost k: nat)
      requires Linked(elems, first, list) && k < |list| && p == list[k] && h < |ht| && ht[h].count > 0
      modifies this`elems, this`first, this`ht
      ensures elems == LinkedOut(old(elems), list, k) && first == if k == 0 then At(list, 1) else old(first)
      ensures ht == old(ht)[h := Shrunk(list, old(ht)[h], k)]
    {
      assert LinkedAt(elems, list, k);
      if k > 0 { assert LinkedAt(elems, list, k - 1); }
      if k + 1 < |list| { assert LinkedAt(elems, list, k + 1); }
      var e := elems[p];
      if e.prev != 0 {
        elems := elems[e.prev := elems[e.prev].(next := e.next)];
      } else {
        first := e.next;
      }
      if e.next != 0 {
        elems := elems[e.next := elems[e.next].(prev := e.prev)];
      }
      if ht[h].chain == p {
        ht := ht[h := ht[h].(chain := e.next)];
      }
      ht := ht[h := ht[h].(count := ht[h].count - 1)];
      if ht[h].count <= 0 {
        ht := ht[h := ht[h].(chain := 0)];
      }
      elems := elems - {p};
    }

    method LinkOut(p: Ptr, h: nat, ghost k: nat)
      requires Tabled(elems, first, list, xHash, ht) && k < |list| && p == list[k]
      requires h == BucketOf(xHash, elems[p].key, |ht|)
      modifies this`elems, this`first, this`ht, this`list
      ensures Tabled(elems, first, list, xHash, ht) && |ht| == |old(ht)|
      ensures Members(list) == Members(old(list)) - {p} && |list| == |old(list)| - 1
      ensures SameContent(old(elems) - {p}, elems)
    {
      TabledRemoved(elems, first, list, xHash, ht, h, k);
      RemoveKeepsLinks(elems, first, list, k);
      RemovedMembers(list, k);
      Unlink(p, h, k);
      list := RemoveAt(list, k);
    }

    // ---- looking up

    /** The mask htsize - 1 takes the remainder; with no slots it is -1 and takes all bits. */
    method Masked(hraw: nat) returns (h: nat)
      ensures h == if htsize == 0 then hraw else hraw % htsize
    {
      h := if htsize == 0 then hraw else hraw % htsize;
    }

    method FindElementGivenHash(key: Key, h: nat) returns (elem: Ptr)
      requires Valid() && KeyOk(keyClass, key) && (htsize > 0 ==> h == BucketOf(xHash, key, htsize))
      ensures elem != 0 ==> elem in list && Matches(elems, keyClass, elem, key)
      ensures elem == 0 ==> Canon(keyClass, key) !in model
    {
      elem := 0;
      if htsize != 0 {
        ghost var e := ht[h];
        ghost var bs := Buckets(elems, list, xHash, htsize);
        assert SlotOk(list, bs, e, h);
        ghost var at: nat :| SlotAt(list, bs, e, h, at);
        elem := Walk(ht[h].chain, ht[h].count, key, at);
        if elem == 0 {
          NotInBucket(elems, keyClass, xHash, list, htsize, e, at, key, home, model);
        }
      } else {
        assert Members(list) == {};
        assert forall k :: k in home ==> Found(elems, Members(list), keyClass, k, home);
      }
    }

    /** Tests count elements from chain on. */
    method Walk(chain: Ptr, count: int, key: Key, ghost at: nat) returns (elem: Ptr)
      requires Linked(elems, first, list) && Represents(elems, Members(list), keyClass, home, model)
      requires KeyOk(keyClass, key) && count >= 0 && at + count <= |list| && (count > 0 ==> chain == At(list, at))
      ensures elem != 0 ==> elem in list && Matches(elems, keyClass, elem, key)
      ensures elem == 0 ==> NoneBefore(elems, keyClass, list, at, count, key)
    {
      ghost var i: nat := 0;
      elem := chain;
      var left := count;
      assert count > 0 ==> LinkedAt(elems, list, at);
      while left != 0 && elem != 0
        invariant i <= count && left == count - i
        invariant i < count ==> elem == At(list, at + i) != 0
        invariant NoneBefore(elems, keyClass, list, at, i, key)
        decreases left
      {
        left := left - 1;
        assert LinkedAt(elems, list, at + i);
        assert elem in Members(list) && Stores(elems, keyClass, elem, home, model);
        CompareMatches(keyClass, elems[elem].key, key);
        if Compare(keyClass, elems[elem].key, key) == 0 { return; }
        elem := elems[elem].next;
        i := i + 1;
        assert i < count ==> LinkedAt(elems, list, at + i);
      }
      elem := 0;
    }

    /** The data stored for a key, or NULL. */
    method Find(key: Key) returns (data: Ptr)
      requires Valid() && KeyOk(keyClass, key)
      ensures data == if Canon(keyClass, key) in model then model[Canon(keyClass, key)] else 0
    {
      var h := Masked(xHash(key));
      var elem := FindElementGivenHash(key, h);
      if elem == 0 { return 0; }
      assert elem in Members(list) && Stores(elems, keyClass, elem, home, model);
      data := elems[elem].data;
    }

    /** Walking from first along next meets every element once. */
    method Elements() returns (visited: seq<Ptr>)
      requires Valid()
      ensures visited == list && |visited| == |model|
    {
      visited := [];
      var p := first;
      if htsize == 0 { return; }
      while p != 0
        invariant |visited| <= |list| && visited == list[..|visited|] && p == At(list, |visited|)
        decreases |list| - |visited|
      {
        assert LinkedAt(elems, list, |visited|);
        visited := visited + [p];
        p := elems[p].next;
      }
      assert |visited| < |list| ==> LinkedAt(elems, list, |visited|);
    }

    // ---- changing

    /** Takes element p, at position k of the list, out of the table. */
    method RemoveElementGivenHash(p: Ptr, h: nat, ghost k: nat)
      requires Valid() && k < |list| && p == list[k] && p in elems
      requires htsize > 0 ==> h == BucketOf(xHash, elems[p].key, htsize)
      modifies this
      ensures Valid() && model == old(model) - {Canon(keyClass, old(elems)[p].key)}
    {
      ghost var m, name := elems, Canon(keyClass, elems[p].key);
      ghost var s := Members(list);
      assert p in s;
      LinkOut(p, h, k);
      RepresentsWithout(m, elems, s, keyClass, home, model, p);
      model, home := model - {name}, home - {name};
      count := count - 1;
    }

    /**
     * Stores data under key, or removes the key when data is NULL. Returns what was stored before. A table with as many
     * elements as slots gets twice the slots first.
     */
    method Insert(key: Key, data: Ptr) returns (oldData: Ptr)
      requires Valid() && KeyOk(keyClass, key)
      modifies this
      ensures Valid()
      ensures oldData == if Canon(keyClass, key) in old(model) then old(model)[Canon(keyClass, key)] else 0
      ensures model == if data == 0 then old(model) - {Canon(keyClass, key)} else old(model)[Canon(keyClass, key) := data]
    {
      var hraw := xHash(key);
      var h := Masked(hraw);
      var elem := FindElementGivenHash(key, h);
      if elem != 0 {
        oldData := ChangeElement(elem, key, h, data);
        return;
      }
      oldData := 0;
      if data == 0 {
        assert model == model - {Canon(keyClass, key)};
        return;
      }
      AddElement(key, hraw, data);
    }

    method ChangeElement(elem: Ptr, key: Key, h: nat, data: Ptr) returns (oldData: Ptr)
      requires Valid() && elem in list && KeyOk(keyClass, key) && Matches(elems, keyClass, elem, key)
      requires htsize > 0 ==> h == BucketOf(xHash, key, htsize)
      modifies this
      ensures Valid() && Canon(keyClass, key) in old(model) && oldData == old(model)[Canon(keyClass, key)]
      ensures model == if data == 0 then old(model) - {Canon(keyClass, key)} else old(model)[Canon(keyClass, key) := data]
    {
      ghost var k :| 0 <= k < |list| && list[k] == elem;
      assert elem in Members(list) && Stores(elems, keyClass, elem, home, model);
      oldData := elems[elem].data;
      if data == 0 {
        CompareMatches(keyClass, elems[elem].key, key);
        RemoveElementGivenHash(elem, h, k);
      } else {
        SetData(elem, data, Canon(keyClass, key));
      }
    }

    method SetData(elem: Ptr, data: Ptr, ghost name: Name)
      requires Valid() && elem in list && elem in elems && data != 0 && Canon(keyClass, elems[elem].key) == name
      modifies this
      ensures Valid() && model == old(model)[name := data]
    {
      ghost var m, s := elems, Members(list);
      assert elem in s && Stores(elems, keyClass, elem, home, model);
      elems := elems[elem := elems[elem].(data := data)];
      RepresentsWith(m, elems, s, keyClass, home, model, elem, name, data);
      assert s + {elem} == s;
      model, home := model[name := data], home[name := elem];
      if htsize > 0 { TabledFrame(m, elems, first, list, xHash, ht); }
    }

    method AddElement(key: Key, hraw: nat, data: Ptr)
      requires Valid() && KeyOk(keyClass, key) && hraw == xHash(key) && data != 0
      requires Canon(keyClass, key) !in model
      modifies this
      ensures Valid() && model == old(model)[Canon(keyClass, key) := data]
    {
      ghost var m, s, name := elems, Members(list), Canon(keyClass, key);
      var p := PlaceElement(key, hraw, data);
      RepresentsWith(m, elems, s, keyClass, home, model, p, name, data);
      model, home := model[name := data], home[name := p];
    }

    /** A new element in its bucket. */
    method PlaceElement(key: Key, hraw: nat, data: Ptr) returns (p: Ptr)
      requires Valid() && hraw == xHash(key)
      modifies this`elems, this`first, this`ht, this`htsize, this`list, this`count
      ensures p != 0 && p !in old(list) && p in elems && elems[p].key == key && elems[p].data == data
      ensures Slotted() && htsize == |ht| > 0 && count == |list| == |old(list)| + 1
      ensures Members(list) == Members(old(list)) + {p} && SameEntries(old(elems), elems, Members(old(list)))
    {
      p := Allocate(key);
      count := count + 1;
      MakeRoom(p);
      LinkIn(p, hraw % htsize);
      ghost var m2 := elems;
      elems := elems[p := elems[p].(data := data)];
      TabledFrame(m2, elems, first, list, xHash, ht);
    }

    method Allocate(key: Key) returns (p: Ptr)
      requires Valid()
      modifies this`elems
      ensures p != 0 && p !in old(elems) && elems == old(elems)[p := HashElem(0, 0, 0, key)] && p !in list
      ensures Linked(elems, first, list) && InMemory(elems, list) && Slotted() && InMemory(old(elems), list)
    {
      p := FreshAddress(elems.Keys);
      ghost var m := elems;
      if htsize > 0 { assert InMemory(m, list); }
      elems := elems[p := HashElem(0, 0, 0, key)];
      if htsize > 0 { TabledFrame(m, elems, first, list, xHash, ht); }
    }

    /** Slots for one more element, which is not in the list yet. */
    method MakeRoom(p: Ptr)
      requires Linked(elems, first, list) && InMemory(elems, list) && p in elems && p !in list && htsize == |ht|
      requires Slotted() && count == |list| + 1
      modifies this`elems, this`first, this`ht, this`htsize, this`list
      ensures htsize == |ht| > 0 && PowerOf2(htsize) && count <= htsize && p !in list
      ensures Tabled(elems, first, list, xHash, ht) && SameContent(old(elems), elems)
      ensures Members(list) == Members(old(list)) && |list| == |old(list)|
    {
      if htsize == 0 {
        Rehash(8);
        assert PowerOf2(8) by { assert PowerOf2(4); }
      }
      if count > htsize {
        Rehash(htsize * 2);
      }
      assert p in list <==> p in Members(list);
    }
  }

  method FreshAddress(used: set<Ptr>) returns (p: Ptr)
    ensures p != 0 && p !in used
  {
    p := 1;
    var rest := used;
    while rest != {}
      invariant p > 0 && rest <= used && forall q :: q in used && q !in rest ==> q < p
      decreases |rest|
    {
      var q :| q in rest;
      rest := rest - {q};
      if q >= p { p := q + 1; }
    }
  }
}
