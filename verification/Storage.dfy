/**
  The item store of the example memcached server: a circular doubly linked list in insertion order,
  a pointer to its most recent entry, and a 64-bit counter that numbers every stored item.
 */
module Storage {

  import opened ByteOrder

  /** What a key is mapped to. */
  datatype Item = Item(cas: nat, data: Bytes, flags: nat, exp: nat)

  /** struct list_entry */
  class Entry {
    const key: Bytes
    var cas: nat
    var data: Bytes
    const flags: nat
    const exp: nat
    var next: Entry?
    var prev: Entry?

    constructor (key: Bytes, data: Bytes, flags: nat, exp: nat)
      ensures this.key == key && this.data == data && this.flags == flags && this.exp == exp && cas == 0
      ensures next == null && prev == null
    {
      this.key, this.data, this.flags, this.exp, this.cas := key, data, flags, exp, 0;
      next, prev := null, null;
    }

    function Value(): Item
      reads this`cas, this`data
    {
      Item(cas, data, flags, exp)
    }
  }

  /** The entries of a list by their keys, each key once. */
  ghost predicate Indexed(ring: seq<Entry>, index: map<Bytes, Entry>) {
    && (forall i :: 0 <= i < |ring| ==> ring[i].key in index && index[ring[i].key] == ring[i])
    && (forall k :: k in index ==> index[k].key == k)
    && (forall k {:trigger Wanted(k)} :: Wanted(k) && k in index ==> index[k] in ring)
  }

  /** Always true; names the keys for which the verifier has to look for an entry. */
  ghost predicate Wanted(k: Bytes) { true }

  lemma IndexedPut(ring: seq<Entry>, index: map<Bytes, Entry>, entry: Entry)
    requires Indexed(ring, index) && entry.key !in index
    ensures Indexed([entry] + ring, index[entry.key := entry])
  {
  }

  lemma IndexedDelete(ring: seq<Entry>, index: map<Bytes, Entry>, i: nat)
    requires Indexed(ring, index) && i < |ring| && forall j :: 0 <= j < |ring| && j != i ==> ring[j] != ring[i]
    ensures Indexed(ring[i + 1..] + ring[..i], index - {ring[i].key})
  {
    var ring' := ring[i + 1..] + ring[..i];
    assert forall e :: e in ring' ==> e in ring && e != ring[i];
    forall e | e in ring && e != ring[i]
      ensures e in ring'
    {
      var j :| 0 <= j < |ring| && ring[j] == e;
      assert e == ring'[if j < i then j + (|ring| - i - 1) else j - i - 1];
    }
  }

  /** create_item: an entry outside the list, or null when memory runs out. */
  method CreateItem(key: Bytes, data: Bytes, flags: nat, exp: nat, memory: bool) returns (entry: Entry?)
    ensures entry == null <==> !memory
    ensures entry != null ==>
      && fresh(entry) && entry.key == key && entry.data == data && entry.flags == flags && entry.exp == exp
  {
    if memory {
      entry := new Entry(key, data, flags, exp);
    } else {
      entry := null;
    }
  }

  class Store {
    var root: Entry?
    var cas: nat
    /** The entries, from the root along `next`. */
    ghost var ring: seq<Entry>
    /** Every entry that was ever linked. */
    ghost var nodes: set<Entry>
    /** The entries by their keys. */
    ghost var index: map<Bytes, Entry>
    /** The finite map the list stands for. */
    ghost var model: map<Bytes, Item>

    /** `next` and `prev` form one ring through all entries, starting at the root. */
    ghost predicate Linked()
      reads this`root, this`ring, this`nodes, nodes`next, nodes`prev
    {
      && (forall i :: 0 <= i < |ring| ==> ring[i] in nodes)
      && (root == null <==> ring == [])
      && (ring != [] ==> root == ring[0])
      && (forall i, j :: 0 <= i < j < |ring| ==> ring[i] != ring[j])
      && (forall i {:trigger ring[i].next} :: 0 <= i < |ring| ==> ring[i].next == (if i + 1 < |ring| then ring[i + 1] else ring[0]))
      && (forall i {:trigger ring[i].prev} :: 0 <= i < |ring| ==> ring[i].prev == (if i > 0 then ring[i - 1] else ring[|ring| - 1]))
    }

    /** The map is what the entries hold. */
    ghost predicate Recorded()
      reads this`index, this`model, this`nodes, nodes`cas, nodes`data
    {
      && model.Keys == index.Keys
      && forall k :: k in index ==> index[k] in nodes && model[k] == index[k].Value()
    }

    ghost predicate Valid()
      reads this, nodes
    {
      Linked() && Indexed(ring, index) && Recorded() && cas < TWO_64
    }

    /** No key is stored twice. */
    lemma NoDuplicateKeys(i: nat, j: nat)
      requires Valid() && i < j < |ring|
      ensures ring[i].key != ring[j].key
    {
    }

    constructor ()
      ensures Valid() && model == map[] && cas == 0 && nodes == {}
    {
      root, cas, ring, nodes, index, model := null, 0, [], {}, map[], map[];
    }

    /** The pointer changes of put_item. */
    method Link(entry: Entry)
      requires Linked() && entry !in nodes
      modifies this`root, this`ring, this`nodes, nodes`next, nodes`prev, entry`next, entry`prev
      ensures Linked() && ring == [entry] + old(ring) && nodes == old(nodes) + {entry}
    {
      if root == null {
        entry.next, entry.prev := entry, entry;
      } else {
        assert ring[0] == root && ring[|ring| - 1] == root.prev;
        entry.prev := root.prev;
        entry.next := root;
        entry.prev.next := entry;
        entry.next.prev := entry;
      }
      root := entry;
      ring, nodes := [entry] + ring, nodes + {entry};
      assert forall i {:trigger ring[i]} :: 0 < i < |ring| ==> ring[i] == old(ring)[i - 1];
    }

    /** Add an entry, to the list and to the map. */
    method Insert(entry: Entry)
      requires Valid() && entry !in nodes && entry.key !in model
      modifies this`root, this`ring, this`nodes, this`index, this`model
      modifies nodes`next, nodes`prev, entry`next, entry`prev
      ensures Valid() && ring == [entry] + old(ring) && nodes == old(nodes) + {entry}
      ensures model == old(model)[entry.key := entry.Value()]
    {
      IndexedPut(ring, index, entry);
      index, model := index[entry.key := entry], model[entry.key := entry.Value()];
      Link(entry);
    }

    /** update_cas */
    method UpdateCas(entry: Entry)
      requires Valid() && entry !in nodes
      modifies this`cas, entry`cas
      ensures Valid() && cas == (old(cas) + 1) % TWO_64 && entry.cas == cas
    {
      cas := (cas + 1) % TWO_64;
      entry.cas := cas;
    }

    /** put_item, including update_cas. */
    method PutItem(entry: Entry)
      requires Valid() && entry !in nodes && entry.key !in model
      modifies this, nodes`next, nodes`prev, entry
      ensures Valid()
      ensures cas == (old(cas) + 1) % TWO_64 && entry.cas == cas && entry.data == old(entry.data)
      ensures ring == [entry] + old(ring) && nodes == old(nodes) + {entry}
      ensures model == old(model)[entry.key := Item(cas, entry.data, entry.flags, entry.exp)]
    {
      UpdateCas(entry);
      Insert(entry);
    }

    /** get_item */
    method GetItem(key: Bytes) returns (entry: Entry?, ghost at: nat)
      requires Valid()
      ensures entry == null <==> key !in model
      ensures entry != null ==> at < |ring| && ring[at] == entry && entry.key == key && entry.Value() == model[key]
    {
      assert Wanted(key);
      entry, at := root, 0;
      if root == null {
        return;
      }
      while true
        invariant at < |ring| && entry == ring[at]
        invariant forall j :: 0 <= j < at ==> ring[j].key != key
        decreases |ring| - at
      {
        if entry.key == key {
          return;
        }
        assert ring[at].next == if at + 1 < |ring| then ring[at + 1] else ring[0];
        entry, at := entry.next, at + 1;
        if entry == root {
          break;
        }
      }
      entry := null;
    }

    /** The pointer changes of delete_item, on the i-th entry. */
    method Unlink(entry: Entry, ghost i: nat)
      requires Linked() && i < |ring| && ring[i] == entry
      modifies this`root, this`ring, nodes`next, nodes`prev
      ensures Linked() && ring == old(ring)[i + 1..] + old(ring)[..i]
    {
      ghost var n := |ring|;
      assert entry.next == if i + 1 < n then ring[i + 1] else ring[0];
      assert entry.prev == if i > 0 then ring[i - 1] else ring[n - 1];
      if entry.next == entry {
        root := null;
      } else {
        root := entry.next;
        entry.prev.next := entry.next;
        entry.next.prev := entry.prev;
      }
      ring := ring[i + 1..] + ring[..i];
    }

    /** Remove the entry found at an index, from the list and from the map. */
    method Remove(entry: Entry, ghost at: nat)
      requires Valid() && at < |ring| && ring[at] == entry
      modifies this`root, this`ring, this`index, this`model, nodes`next, nodes`prev
      ensures Valid() && model == old(model) - {entry.key}
    {
      IndexedDelete(ring, index, at);
      index, model := index - {entry.key}, model - {entry.key};
      Unlink(entry, at);
    }

    /** delete_item; the search for the next key starts at the entry after the deleted one. */
    method DeleteItem(key: Bytes) returns (deleted: bool)
      requires Valid()
      modifies this, nodes`next, nodes`prev
      ensures Valid() && cas == old(cas)
      ensures deleted <==> key in old(model)
      ensures model == old(model) - {key} && nodes == old(nodes)
    {
      var entry, at := GetItem(key);
      deleted := entry != null;
      if deleted {
        Remove(entry, at);
      } else {
        assert model - {key} == model;
      }
    }

    /** flush */
    method Flush()
      requires Valid()
      modifies this, nodes`next
      ensures Valid() && model == map[] && ring == [] && cas == old(cas) && nodes == old(nodes)
    {
      if root == null {
        assert forall k :: k in model ==> Wanted(k);
        assert model == map[];
        return;
      }
      assert ring[0] == root && ring[|ring| - 1] == root.prev;
      root.prev.next := null;
      ghost var i := 0;
      while root != null
        invariant 0 <= i <= |ring| == |old(ring)| && ring == old(ring)
        invariant root == if i < |ring| then ring[i] else null
        invariant forall j {:trigger ring[j].next} :: 0 <= j < |ring| ==> ring[j].next == if j + 1 < |ring| then ring[j + 1] else null
        invariant cas == old(cas) && nodes == old(nodes)
        decreases |ring| - i
      {
        root, i := root.next, i + 1;
      }
      ring, index, model := [], map[], map[];
    }
  }
}
