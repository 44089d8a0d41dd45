/** The level-0 handlers of the example server: raw packets in, raw responses out. */
module InterfaceV0 {
  import opened ByteOrder
  import opened Storage
  import opened Database
  import opened StoreSteps

  /** The response a store ends with, if any. */
  method RespondStored(p: Packet, loud: bool, cas: nat) returns (reply: Reply)
    requires cas < TWO_64
    ensures reply == StoredReply(p, loud, cas)
  {
    if loud {
      var raw := Swap64(cas);
      reply := Message(Response(p.opcode, Swap(Success.Code(), 2), p.tag, raw));
    } else {
      reply := Returned(Success);
    }
  }

  /** Delete the key if told to, then create, put and respond. */
  method StoreAndRespond(store: Store, p: Packet, overwrite: bool, loud: bool, memory: bool) returns (reply: Reply)
    requires store.Valid() && 8 + Keylen(p) <= Bodylen(p) <= |p.body|
    requires !overwrite ==> Key(p, 8) !in store.model
    modifies store, store.nodes
    ensures store.Valid() && fresh(store.nodes - old(store.nodes))
    ensures Raw(Of(store), reply)
         == RawStore(if overwrite then old(store.model) - {Key(p, 8)} else old(store.model), old(Of(store)), p, loud, memory)
  {
    hide Swap, Value, Digits, Keylen, Bodylen, Key, Data, Field, StatusReply, StoredReply, Store.Valid;
    var status, cas;
    if overwrite {
      status, cas := Overwrite(store, Key(p, 8), Data(p, 8), Field(p, 0), Field(p, 4), memory);
    } else {
      status, cas := CreateAndPut(store, Key(p, 8), Data(p, 8), Field(p, 0), Field(p, 4), memory);
    }
    if status.Enomem? {
      reply := StatusReply(p, Enomem);
    } else {
      reply := RespondStored(p, loud, cas);
    }
  }

  method SetCommand(store: Store, p: Packet, memory: bool) returns (reply: Reply)
    requires store.Valid() && WellFormed(p, 8)
    modifies store, store.nodes
    ensures store.Valid() && fresh(store.nodes - old(store.nodes))
    ensures Raw(Of(store), reply) == RawSet(old(Of(store)), p, memory)
  {
    hide RawStore, Key, Keylen, Bodylen;
    if p.cas != 0 {
      var item, _ := store.GetItem(Key(p, 8));
      if item != null {
        Widths();
        var cas := Swap64(p.cas);
        if item.cas != cas {
          return StatusReply(p, Eexists);
        }
      }
    }
    reply := StoreAndRespond(store, p, true, p.opcode.SetOp?, memory);
  }

  method AddCommand(store: Store, p: Packet, memory: bool) returns (reply: Reply)
    requires store.Valid() && WellFormed(p, 8)
    modifies store, store.nodes
    ensures store.Valid() && fresh(store.nodes - old(store.nodes))
    ensures Raw(Of(store), reply) == RawAdd(old(Of(store)), p, memory)
  {
    var item, _ := store.GetItem(Key(p, 8));
    if item == null {
      reply := StoreAndRespond(store, p, false, p.opcode.AddOp?, memory);
    } else {
      reply := StatusReply(p, Eexists);
    }
  }

  method ReplaceCommand(store: Store, p: Packet, memory: bool) returns (reply: Reply)
    requires store.Valid() && WellFormed(p, 8)
    modifies store, store.nodes
    ensures store.Valid() && fresh(store.nodes - old(store.nodes))
    ensures Raw(Of(store), reply) == RawReplace(old(Of(store)), p, memory)
  {
    hide RawStore, Key, Keylen, Bodylen;
    var item, _ := store.GetItem(Key(p, 8));
    if item == null {
      return StatusReply(p, Enoent);
    }
    Widths();
    var cas := Swap64(p.cas);
    if p.cas == 0 || cas == item.cas {
      reply := StoreAndRespond(store, p, true, p.opcode.ReplaceOp?, memory);
    } else {
      reply := StatusReply(p, Eexists);
    }
  }

  /** The branches of concat_command_handler that try to store the joined value. */
  method JoinAndRespond(store: Store, p: Packet, data: Bytes, flags: nat, exp: nat, memory: bool) returns (reply: Reply)
    requires store.Valid() && Keylen(p) <= Bodylen(p) <= |p.body|
    modifies store, store.nodes
    ensures store.Valid() && fresh(store.nodes - old(store.nodes))
    ensures memory ==> Raw(Of(store), reply) == RawExchange(old(Of(store)), p, RawJoined(p, data), flags, exp)
    ensures !memory ==> Of(store) == old(Of(store)) && reply == Returned(Enomem)
  {
    var status, cas := CreateAndExchange(store, Key(p, 0), RawJoined(p, data), flags, exp, memory);
    if status.Enomem? {
      reply := Returned(Enomem);
    } else {
      reply := RespondStored(p, p.opcode.AppendOp? || p.opcode.PrependOp?, cas);
    }
  }

  method ConcatCommand(store: Store, p: Packet, memory: bool) returns (reply: Reply)
    requires store.Valid() && WellFormed(p, 0)
    modifies store, store.nodes
    ensures store.Valid() && fresh(store.nodes - old(store.nodes))
    ensures Raw(Of(store), reply) == RawConcat(old(Of(store)), p, memory)
  {
    hide RawExchange, RawJoined, Key, Keylen, Bodylen;
    Widths();
    var cas := Swap64(p.cas);
    var item, _ := store.GetItem(Key(p, 0));
    if item == null {
      reply := Returned(Enoent);
    } else if cas != 0 && cas != item.cas {
      reply := Returned(Eexists);
    } else {
      reply := JoinAndRespond(store, p, item.data, item.flags, item.exp, memory);
    }
  }

  method DeleteCommand(store: Store, p: Packet) returns (reply: Reply)
    requires store.Valid() && WellFormed(p, 0)
    modifies store, store.nodes
    ensures store.Valid() && store.nodes == old(store.nodes)
    ensures Raw(Of(store), reply) == RawDelete(old(Of(store)), p)
  {
    var deleted := store.DeleteItem(Key(p, 0));
    if !deleted {
      assert old(store.model) - {Key(p, 0)} == old(store.model);
      reply := StatusReply(p, Enoent);
    } else if p.opcode.DeleteOp? {
      reply := StatusReply(p, Success);
    } else {
      reply := Returned(Success);
    }
  }

  method FlushCommand(store: Store, p: Packet) returns (reply: Reply)
    requires store.Valid()
    modifies store, store.nodes
    ensures store.Valid() && store.nodes == old(store.nodes)
    ensures Raw(Of(store), reply) == RawFlush(old(Of(store)), p)
  {
    store.Flush();
    if p.opcode.FlushOp? {
      reply := StatusReply(p, Success);
    } else {
      reply := Returned(Success);
    }
  }

  /** The response an increment or decrement ends with, if any. */
  method RespondCounted(p: Packet, status: Status, value: nat, cas: nat) returns (reply: Reply)
    requires status in {Success, Enomem} && cas < TWO_64 && value < TWO_64
    ensures reply == CountReply(p, status, value, cas)
  {
    hide Swap, Digits, Value;
    if status.Enomem? {
      return CountMessage(Response(p.opcode, Swap(status.Code(), 2), p.tag, 0), 0, 0);
    }
    CountWidth(value);
    var raw := Swap64(Value(Digits(value, 8)));
    var rawCas := Swap64(cas);
    if p.opcode.IncrementQ? || p.opcode.DecrementQ? {
      return Returned(Success);
    }
    reply := CountMessage(Response(p.opcode, Swap(status.Code(), 2), p.tag, rawCas), Swap(8, 4), raw);
  }

  lemma CountWidth(value: nat)
    requires value < TWO_64
    ensures Value(Digits(value, 8)) == value
  {
    Widths();
    ValueOfDigits(value, 8);
  }

  /** The first half of arithmetic_command_handler: the new value, and what the new item keeps of the old one. */
  method NewCount(store: Store, p: Packet, beyond: Bytes, ghost memory: bool) returns (value: nat, flags: nat, exp: nat)
    requires store.Valid() && WellFormed(p, 20)
    ensures value < TWO_64
    ensures RawArithmetic(Of(store), p, beyond, memory)
         == RawCount(store.model - {Key(p, 20)}, Of(store), p, value, flags, exp, memory)
  {
    hide Swap, Value, Digits, Load64, Keylen, Bodylen, RawCount;
    Field64Raw(p, 0);
    Field64Raw(p, 8);
    ResultBound(Of(store), p, beyond);
    var delta := Swap64(Value(p.body[0..8]));
    value := Swap64(Value(p.body[8..16]));
    flags, exp := 0, Field(p, 16);
    var item, _ := store.GetItem(Key(p, 20));
    if item != null {
      var before := Load64(item.data, beyond);
      if p.opcode.IncrementOp? || p.opcode.IncrementQ? {
        value := (before + delta) % TWO_64;
      } else if delta > before {
        value := 0;
      } else {
        value := before - delta;
      }
      flags, exp := item.flags, item.exp;
    } else {
      assert store.model - {Key(p, 20)} == store.model;
    }
  }

  /** arithmetic_command_handler; `beyond` is what lies in memory after the item's data. */
  method ArithmeticCommand(store: Store, p: Packet, beyond: Bytes, memory: bool) returns (reply: Reply)
    requires store.Valid() && WellFormed(p, 20)
    modifies store, store.nodes
    ensures store.Valid() && fresh(store.nodes - old(store.nodes))
    ensures Raw(Of(store), reply) == RawArithmetic(old(Of(store)), p, beyond, memory)
  {
    hide Swap, Value, Digits, Load64, Keylen, Bodylen, RawArithmetic;
    var value, flags, exp := NewCount(store, p, beyond, memory);
    var status, cas := Overwrite(store, Key(p, 20), Digits(value, 8), flags, exp, memory);
    reply := RespondCounted(p, status, value, cas);
  }

  lemma Field64Raw(p: Packet, at: nat)
    requires at + 8 <= |p.body|
    ensures Value(p.body[at..at + 8]) < TWO_64
  {
    Widths();
    ValueBound(p.body[at..at + 8]);
  }
}
