/** The sequences of store operations that both handler levels are made of. */
module StoreSteps {
  import opened ByteOrder
  import opened Storage
  import opened Database

  /** The database a store stands for. */
  ghost function Of(store: Store): Db
    reads store
  {
    Db(store.model, store.cas)
  }

  /** Creating depends on the counter, not on what else the database holds. */
  lemma CreateCounts(model: map<Bytes, Item>, db: Db, other: Db, key: Bytes, data: Bytes, flags: nat, exp: nat, memory: bool)
    requires db.cas == other.cas
    ensures Create(model, db, key, data, flags, exp, memory) == Create(model, other, key, data, flags, exp, memory)
  {
  }

  /** Create an entry and put it, or report that there is no memory. */
  method CreateAndPut(store: Store, key: Bytes, data: Bytes, flags: nat, exp: nat, memory: bool)
    returns (status: Status, cas: nat)
    requires store.Valid() && key !in store.model
    modifies store, store.nodes
    ensures store.Valid() && fresh(store.nodes - old(store.nodes))
    ensures Outcome(Of(store), status, cas) == Create(old(store.model), old(Of(store)), key, data, flags, exp, memory)
  {
    var item := CreateItem(key, data, flags, exp, memory);
    if item == null {
      return Enomem, 0;
    }
    store.PutItem(item);
    return Success, item.cas;
  }

  /** Delete the key, then create and put; when there is no memory the old item is gone all the same. */
  method Overwrite(store: Store, key: Bytes, data: Bytes, flags: nat, exp: nat, memory: bool)
    returns (status: Status, cas: nat)
    requires store.Valid()
    modifies store, store.nodes
    ensures store.Valid() && fresh(store.nodes - old(store.nodes))
    ensures Outcome(Of(store), status, cas)
         == Create(old(store.model) - {key}, old(Of(store)), key, data, flags, exp, memory)
  {
    hide Create;
    var _ := store.DeleteItem(key);
    ghost var model := store.model;
    assert key !in model && model == old(store.model) - {key} && store.cas == old(store.cas);
    CreateCounts(model, Of(store), old(Of(store)), key, data, flags, exp, memory);
    status, cas := CreateAndPut(store, key, data, flags, exp, memory);
  }

  /** Delete the key, then put an entry that was made before. */
  method Exchange(store: Store, nitem: Entry)
    requires store.Valid() && nitem !in store.nodes
    modifies store, store.nodes, nitem
    ensures store.Valid() && store.nodes == old(store.nodes) + {nitem} && nitem.cas == Next(old(Of(store)))
    ensures Outcome(Of(store), Success, nitem.cas)
         == Create(old(store.model) - {nitem.key}, old(Of(store)), nitem.key, old(nitem.data), nitem.flags, nitem.exp, true)
  {
    var _ := store.DeleteItem(nitem.key);
    ghost var model := store.model;
    assert model == old(store.model) - {nitem.key};
    store.PutItem(nitem);
  }

  /** Make the new entry, fill in its data, and only then delete the old one. */
  method CreateAndExchange(store: Store, key: Bytes, data: Bytes, flags: nat, exp: nat, memory: bool)
    returns (status: Status, cas: nat)
    requires store.Valid()
    modifies store, store.nodes
    ensures store.Valid() && fresh(store.nodes - old(store.nodes))
    ensures Outcome(Of(store), status, cas)
         == if memory then Create(old(store.model) - {key}, old(Of(store)), key, data, flags, exp, true)
            else Outcome(old(Of(store)), Enomem, 0)
  {
    var nitem := CreateItem(key, [], flags, exp, memory);
    if nitem == null {
      return Enomem, 0;
    }
    nitem.data := data;
    Exchange(store, nitem);
    return Success, nitem.cas;
  }
}
