/** The level-1 handlers of the example server, on the linked list. */
module InterfaceV1 {
  import opened ByteOrder
  import opened Storage
  import opened Database
  import opened StoreSteps

  method AddHandler(store: Store, key: Bytes, data: Bytes, flags: nat, exp: nat, memory: bool)
    returns (status: Status, cas: nat)
    requires store.Valid()
    modifies store, store.nodes
    ensures store.Valid() && fresh(store.nodes - old(store.nodes))
    ensures Outcome(Of(store), status, cas) == Add(old(Of(store)), key, data, flags, exp, memory)
  {
    var item, _ := store.GetItem(key);
    if item == null {
      status, cas := CreateAndPut(store, key, data, flags, exp, memory);
    } else {
      status, cas := Eexists, 0;
    }
  }

  method SetHandler(store: Store, key: Bytes, data: Bytes, flags: nat, exp: nat, given: nat, memory: bool)
    returns (status: Status, cas: nat)
    requires store.Valid()
    modifies store, store.nodes
    ensures store.Valid() && fresh(store.nodes - old(store.nodes))
    ensures Outcome(Of(store), status, cas) == Set(old(Of(store)), key, data, flags, exp, given, memory)
  {
    if given != 0 {
      var item, _ := store.GetItem(key);
      if item != null && given != item.cas {
        return Eexists, 0;
      }
    }
    status, cas := Overwrite(store, key, data, flags, exp, memory);
  }

  method ReplaceHandler(store: Store, key: Bytes, data: Bytes, flags: nat, exp: nat, given: nat, memory: bool)
    returns (status: Status, cas: nat)
    requires store.Valid()
    modifies store, store.nodes
    ensures store.Valid() && fresh(store.nodes - old(store.nodes))
    ensures Outcome(Of(store), status, cas) == Replace(old(Of(store)), key, data, flags, exp, given, memory)
  {
    var item, _ := store.GetItem(key);
    if item == null {
      status, cas := Enoent, 0;
    } else if given == 0 || given == item.cas {
      status, cas := Overwrite(store, key, data, flags, exp, memory);
    } else {
      status, cas := Eexists, 0;
    }
  }

  /** append_handler and prepend_handler: the new entry exists before the old one is deleted. */
  method ConcatHandler(store: Store, key: Bytes, val: Bytes, given: nat, append: bool, memory: bool)
    returns (status: Status, cas: nat)
    requires store.Valid()
    modifies store, store.nodes
    ensures store.Valid() && fresh(store.nodes - old(store.nodes))
    ensures Outcome(Of(store), status, cas) == Concat(old(Of(store)), key, val, given, append, memory)
  {
    var item, _ := store.GetItem(key);
    if item == null {
      status, cas := Enoent, 0;
    } else if given != 0 && given != item.cas {
      status, cas := Eexists, 0;
    } else {
      var data := if append then item.data + val else val + item.data;
      status, cas := CreateAndExchange(store, key, data, item.flags, item.exp, memory);
    }
  }

  method DeleteHandler(store: Store, key: Bytes, given: nat) returns (status: Status)
    requires store.Valid()
    modifies store, store.nodes
    ensures store.Valid() && store.nodes == old(store.nodes)
    ensures Outcome(Of(store), status, 0) == Delete(old(Of(store)), key, given)
  {
    if given != 0 {
      var item, _ := store.GetItem(key);
      if item != null && item.cas != given {
        return Eexists;
      }
    }
    var deleted := store.DeleteItem(key);
    status := if deleted then Success else Enoent;
  }

  method FlushHandler(store: Store) returns (status: Status)
    requires store.Valid()
    modifies store, store.nodes
    ensures store.Valid() && store.nodes == old(store.nodes)
    ensures Outcome(Of(store), status, 0) == Flush(old(Of(store)))
  {
    store.Flush();
    status := Success;
  }

  /** increment_handler and decrement_handler; `beyond` is what lies in memory after the item's data. */
  method ArithmeticHandler(store: Store, key: Bytes, delta: nat, initial: nat, expiration: nat, increment: bool,
                           beyond: Bytes, memory: bool)
    returns (status: Status, result: nat, cas: nat)
    requires store.Valid()
    modifies store, store.nodes
    ensures store.Valid() && fresh(store.nodes - old(store.nodes))
    ensures Outcome(Of(store), status, cas)
         == Arithmetic(old(Of(store)), key, delta, initial, expiration, increment, beyond, memory)
    ensures result == CountResult(old(Of(store)), key, delta, initial, increment, beyond)
  {
    var val, exp := initial, expiration;
    var item, _ := store.GetItem(key);
    if item != null {
      val := Counted(Load64(item.data, beyond), delta, increment);
      exp := item.exp;
    }
    result := val;
    status, cas := Overwrite(store, key, Digits(val, 8), 0, exp, memory);
  }
}
