/**
  What the commands of the example server mean, on the finite map the store stands for: the
  level-1 handlers on decoded arguments, and the level-0 handlers on raw packets.
 */
module Database {
  import opened ByteOrder
  import opened Storage

  datatype Db = Db(model: map<Bytes, Item>, cas: nat)

  datatype Status = Success | Enoent | Eexists | Enomem {
    /** protocol_binary_response_status */
    function Code(): nat {
      match this
      case Success => 0x00
      case Enoent => 0x01
      case Eexists => 0x02
      case Enomem => 0x82
    }
  }

  /** The next database, the reported status and, after a store, the new item's CAS value. */
  datatype Outcome = Outcome(db: Db, status: Status, cas: nat)

  function Next(db: Db): nat { (db.cas + 1) % TWO_64 }

  /** Try to create an item under a key that is not there, once the map holds `model`. */
  function Create(model: map<Bytes, Item>, db: Db, key: Bytes, data: Bytes, flags: nat, exp: nat, memory: bool): Outcome {
    Outcome(
      Db(if memory then model[key := Item(Next(db), data, flags, exp)] else model, if memory then Next(db) else db.cas),
      if memory then Success else Enomem,
      if memory then Next(db) else 0)
  }

  // ---------------------------------------------------------------------------------------------
  // Level 1
  // ---------------------------------------------------------------------------------------------

  function Set(db: Db, key: Bytes, data: Bytes, flags: nat, exp: nat, cas: nat, memory: bool): Outcome {
    if cas != 0 && key in db.model && cas != db.model[key].cas then Outcome(db, Eexists, 0)
    else Create(db.model - {key}, db, key, data, flags, exp, memory)
  }

  function Add(db: Db, key: Bytes, data: Bytes, flags: nat, exp: nat, memory: bool): Outcome {
    if key in db.model then Outcome(db, Eexists, 0) else Create(db.model, db, key, data, flags, exp, memory)
  }

  function Replace(db: Db, key: Bytes, data: Bytes, flags: nat, exp: nat, cas: nat, memory: bool): Outcome {
    if key !in db.model then Outcome(db, Enoent, 0)
    else if cas != 0 && cas != db.model[key].cas then Outcome(db, Eexists, 0)
    else Create(db.model - {key}, db, key, data, flags, exp, memory)
  }

  /** Append or prepend: the new item is made before the old one is deleted. */
  function Concat(db: Db, key: Bytes, val: Bytes, cas: nat, append: bool, memory: bool): Outcome {
    if key !in db.model then Outcome(db, Enoent, 0)
    else if cas != 0 && cas != db.model[key].cas then Outcome(db, Eexists, 0)
    else if !memory then Outcome(db, Enomem, 0)
    else
      var item := db.model[key];
      Create(db.model - {key}, db, key, if append then item.data + val else val + item.data, item.flags, item.exp, true)
  }

  function Delete(db: Db, key: Bytes, cas: nat): Outcome {
    if key !in db.model then Outcome(db, Enoent, 0)
    else if cas != 0 && cas != db.model[key].cas then Outcome(db, Eexists, 0)
    else Outcome(Db(db.model - {key}, db.cas), Success, 0)
  }

  function Flush(db: Db): Outcome { Outcome(Db(map[], db.cas), Success, 0) }

  /** *(uint64_t*)item->data; `beyond` is what lies in memory after the data. */
  function Load64(data: Bytes, beyond: Bytes): nat { Value((data + beyond + Digits(0, 8))[..8]) }

  /** The counter after an increment (with wrap-around) or a decrement (which stops at zero). */
  function Counted(before: nat, delta: nat, increment: bool): nat {
    if increment then (before + delta) % TWO_64 else if delta > before then 0 else before - delta
  }

  /** The value an increment or decrement reports. */
  function CountResult(db: Db, key: Bytes, delta: nat, initial: nat, increment: bool, beyond: Bytes): nat {
    if key in db.model then Counted(Load64(db.model[key].data, beyond), delta, increment) else initial
  }

  /** Increment and decrement: the new item has no flags. */
  function Arithmetic(db: Db, key: Bytes, delta: nat, initial: nat, exp: nat, increment: bool, beyond: Bytes, memory: bool): Outcome {
    Create(db.model - {key}, db, key, Digits(CountResult(db, key, delta, initial, increment, beyond), 8),
           0, if key in db.model then db.model[key].exp else exp, memory)
  }

  /** The same with the old item's flags kept, as level 0 does it. */
  function ArithmeticKeeping(db: Db, key: Bytes, delta: nat, initial: nat, exp: nat, increment: bool, beyond: Bytes, memory: bool): Outcome {
    Create(db.model - {key}, db, key, Digits(CountResult(db, key, delta, initial, increment, beyond), 8),
           if key in db.model then db.model[key].flags else 0, if key in db.model then db.model[key].exp else exp, memory)
  }

  // ---------------------------------------------------------------------------------------------
  // Level 0: raw packets on a little-endian machine
  // ---------------------------------------------------------------------------------------------

  datatype Opcode =
    | SetOp | SetQ | AddOp | AddQ | ReplaceOp | ReplaceQ
    | AppendOp | AppendQ | PrependOp | PrependQ | DeleteOp | DeleteQ
    | IncrementOp | IncrementQ | DecrementOp | DecrementQ | FlushOp | FlushQ

  /** A request: the header fields as they sit in memory, then the bytes after the header. */
  datatype Packet = Packet(opcode: Opcode, keylen: nat, bodylen: nat, tag: nat, cas: nat, body: Bytes)

  function Keylen(p: Packet): nat { Swap(p.keylen, 2) }
  function Bodylen(p: Packet): nat { Swap(p.bodylen, 4) }
  function Cas(p: Packet): nat { Swap(p.cas, 8) }

  /** The fields fit their widths, the body is all there, and it holds the extras and the key. */
  ghost predicate WellFormed(p: Packet, extras: nat) {
    && p.keylen < Pow256(2) && p.bodylen < Pow256(4) && p.cas < Pow256(8)
    && extras + Keylen(p) <= Bodylen(p) <= |p.body|
  }

  /** A 32-bit field of the body, in host order. */
  function Field(p: Packet, at: nat): nat
    requires at + 4 <= |p.body|
  {
    Swap(Value(p.body[at..at + 4]), 4)
  }

  /** A 64-bit field of the body, in host order. */
  function Field64(p: Packet, at: nat): nat
    requires at + 8 <= |p.body|
  {
    Swap(Value(p.body[at..at + 8]), 8)
  }

  function Key(p: Packet, extras: nat): Bytes
    requires extras + Keylen(p) <= |p.body|
  {
    p.body[extras..extras + Keylen(p)]
  }

  /** keylen and bodylen are turned into host order, and the rest of the body is the data. */
  function Data(p: Packet, extras: nat): Bytes
    requires extras + Keylen(p) <= Bodylen(p) <= |p.body|
  {
    p.body[extras + Keylen(p)..][..Bodylen(p) - Keylen(p) - extras]
  }

  /** protocol_binary_response_no_extras, in network order. */
  datatype Response = Response(opcode: Opcode, status: nat, tag: nat, cas: nat)

  /**
    What a level-0 handler does: at most one message, otherwise a returned status. The message of an
    increment or decrement has a body of `bodylen` bytes, the value, in network order both.
   */
  datatype Reply =
    | Message(response: Response)
    | CountMessage(response: Response, bodylen: nat, value: nat)
    | Returned(status: Status)

  function StatusReply(p: Packet, s: Status): Reply { Message(Response(p.opcode, Swap(s.Code(), 2), p.tag, 0)) }

  function StoredReply(p: Packet, loud: bool, cas: nat): Reply {
    if loud then Message(Response(p.opcode, Swap(Success.Code(), 2), p.tag, Swap(cas, 8))) else Returned(Success)
  }

  datatype Raw = Raw(db: Db, reply: Reply)

  /** What the client is told: the status in the message, or the one the handler returned. */
  function Reported(r: Reply): nat {
    if r.Returned? then r.status.Code() else Swap(r.response.status, 2)
  }

  function RawStore(model: map<Bytes, Item>, db: Db, p: Packet, loud: bool, memory: bool): Raw
    requires 8 + Keylen(p) <= Bodylen(p) <= |p.body|
  {
    var cas := (db.cas + 1) % TWO_64;
    if memory then
      Raw(Db(model[Key(p, 8) := Item(cas, Data(p, 8), Field(p, 0), Field(p, 4))], cas), StoredReply(p, loud, cas))
    else Raw(Db(model, db.cas), StatusReply(p, Enomem))
  }

  function RawSet(db: Db, p: Packet, memory: bool): Raw
    requires 8 + Keylen(p) <= Bodylen(p) <= |p.body|
  {
    var key := Key(p, 8);
    if p.cas != 0 && key in db.model && db.model[key].cas != Cas(p) then Raw(db, StatusReply(p, Eexists))
    else RawStore(db.model - {key}, db, p, p.opcode.SetOp?, memory)
  }

  function RawAdd(db: Db, p: Packet, memory: bool): Raw
    requires 8 + Keylen(p) <= Bodylen(p) <= |p.body|
  {
    if Key(p, 8) in db.model then Raw(db, StatusReply(p, Eexists))
    else RawStore(db.model, db, p, p.opcode.AddOp?, memory)
  }

  function RawReplace(db: Db, p: Packet, memory: bool): Raw
    requires 8 + Keylen(p) <= Bodylen(p) <= |p.body|
  {
    var key := Key(p, 8);
    if key !in db.model then Raw(db, StatusReply(p, Enoent))
    else if p.cas == 0 || Cas(p) == db.model[key].cas then
      RawStore(db.model - {key}, db, p, p.opcode.ReplaceOp?, memory)
    else Raw(db, StatusReply(p, Eexists))
  }

  function RawJoined(p: Packet, data: Bytes): Bytes
    requires Keylen(p) <= Bodylen(p) <= |p.body|
  {
    if p.opcode.AppendOp? || p.opcode.AppendQ? then data + Data(p, 0) else Data(p, 0) + data
  }

  function RawExchange(db: Db, p: Packet, data: Bytes, flags: nat, exp: nat): Raw
    requires Keylen(p) <= |p.body|
  {
    var cas := (db.cas + 1) % TWO_64;
    Raw(Db((db.model - {Key(p, 0)})[Key(p, 0) := Item(cas, data, flags, exp)], cas),
        StoredReply(p, p.opcode.AppendOp? || p.opcode.PrependOp?, cas))
  }

  function RawConcat(db: Db, p: Packet, memory: bool): Raw
    requires Keylen(p) <= Bodylen(p) <= |p.body|
  {
    var key := Key(p, 0);
    if key !in db.model then Raw(db, Returned(Enoent))
    else if Cas(p) != 0 && Cas(p) != db.model[key].cas then Raw(db, Returned(Eexists))
    else if !memory then Raw(db, Returned(Enomem))
    else RawExchange(db, p, RawJoined(p, db.model[key].data), db.model[key].flags, db.model[key].exp)
  }

  /** The level-0 delete never looks at the CAS field. */
  function RawDelete(db: Db, p: Packet): Raw
    requires Keylen(p) <= |p.body|
  {
    if Key(p, 0) !in db.model then Raw(db, StatusReply(p, Enoent))
    else Raw(Db(db.model - {Key(p, 0)}, db.cas), if p.opcode.DeleteOp? then StatusReply(p, Success) else Returned(Success))
  }

  function RawFlush(db: Db, p: Packet): Raw {
    Raw(Db(map[], db.cas), if p.opcode.FlushOp? then StatusReply(p, Success) else Returned(Success))
  }

  /** A quiet increment or decrement that succeeds sends nothing; one that fails sends its message all the same. */
  function CountReply(p: Packet, status: Status, value: nat, cas: nat): Reply {
    if !status.Success? then CountMessage(Response(p.opcode, Swap(status.Code(), 2), p.tag, 0), 0, 0)
    else if p.opcode.IncrementQ? || p.opcode.DecrementQ? then Returned(Success)
    else CountMessage(Response(p.opcode, Swap(Success.Code(), 2), p.tag, Swap(cas, 8)), Swap(8, 4), Swap(Value(Digits(value, 8)), 8))
  }

  function RawCount(model: map<Bytes, Item>, db: Db, p: Packet, value: nat, flags: nat, exp: nat, memory: bool): Raw
    requires 20 + Keylen(p) <= |p.body|
  {
    var cas := (db.cas + 1) % TWO_64;
    if memory then
      Raw(Db(model[Key(p, 20) := Item(cas, Digits(value, 8), flags, exp)], cas), CountReply(p, Success, value, cas))
    else Raw(Db(model, db.cas), CountReply(p, Enomem, 0, 0))
  }

  /** Delta, initial value and expiration are the extras, and the old item's flags are kept. */
  function RawArithmetic(db: Db, p: Packet, beyond: Bytes, memory: bool): Raw
    requires 20 + Keylen(p) <= |p.body|
  {
    var key, delta := Key(p, 20), Field64(p, 0);
    if key !in db.model then RawCount(db.model, db, p, Field64(p, 8), 0, Field(p, 16), memory)
    else
      var item := db.model[key];
      var before := Load64(item.data, beyond);
      var value :=
        if p.opcode.IncrementOp? || p.opcode.IncrementQ? then (before + delta) % TWO_64
        else if delta > before then 0
        else before - delta;
      RawCount(db.model - {key}, db, p, value, item.flags, item.exp, memory)
  }

  // ---------------------------------------------------------------------------------------------
  // The two levels agree
  // ---------------------------------------------------------------------------------------------

  /** Same next database, same status; a message after a store carries the new CAS value; quiet stores send none. */
  ghost predicate Agree(r: Raw, o: Outcome, loud: bool) {
    && r.db == o.db
    && Reported(r.reply) == o.status.Code()
    && !r.reply.CountMessage? && (o.status.Success? ==> (r.reply.Message? <==> loud))
    && (o.status.Success? && r.reply.Message? ==> Swap(r.reply.response.cas, 8) == o.cas)
  }

  lemma Widths()
    ensures Pow256(2) == 0x1_0000 && Pow256(8) == TWO_64
  {
    assert Pow256(4) == 256 * Pow256(3) == 256 * 256 * Pow256(2) == 256 * 256 * 256 * Pow256(1);
    assert Pow256(8) == 256 * Pow256(7) == 256 * 256 * Pow256(6) == 256 * 256 * 256 * Pow256(5)
                     == 256 * 256 * 256 * 256 * Pow256(4);
  }

  lemma StatusSurvives(p: Packet, s: Status)
    ensures Reported(StatusReply(p, s)) == s.Code()
  {
    Widths();
    SwapIsInvolution(s.Code(), 2);
  }

  lemma StoreSurvives(p: Packet, loud: bool, cas: nat)
    requires cas < TWO_64
    ensures Reported(StoredReply(p, loud, cas)) == Success.Code()
    ensures loud ==> Swap(StoredReply(p, loud, cas).response.cas, 8) == cas
  {
    Widths();
    SwapIsInvolution(Success.Code(), 2);
    SwapIsInvolution(cas, 8);
  }

  lemma RawStoreAgrees(model: map<Bytes, Item>, db: Db, p: Packet, loud: bool, memory: bool)
    requires WellFormed(p, 8)
    ensures Agree(RawStore(model, db, p, loud, memory),
                  Create(model, db, Key(p, 8), Data(p, 8), Field(p, 0), Field(p, 4), memory), loud)
  {
    StatusSurvives(p, Enomem);
    StoreSurvives(p, loud, Next(db));
  }

  lemma SetLayersAgree(db: Db, p: Packet, memory: bool)
    requires WellFormed(p, 8) && (p.opcode.SetOp? || p.opcode.SetQ?)
    ensures Agree(RawSet(db, p, memory), Set(db, Key(p, 8), Data(p, 8), Field(p, 0), Field(p, 4), Cas(p), memory), p.opcode.SetOp?)
  {
    SwapIsInvolution(p.cas, 8);
    StatusSurvives(p, Eexists);
    RawStoreAgrees(db.model - {Key(p, 8)}, db, p, p.opcode.SetOp?, memory);
  }

  lemma AddLayersAgree(db: Db, p: Packet, memory: bool)
    requires WellFormed(p, 8) && (p.opcode.AddOp? || p.opcode.AddQ?)
    ensures Agree(RawAdd(db, p, memory), Add(db, Key(p, 8), Data(p, 8), Field(p, 0), Field(p, 4), memory), p.opcode.AddOp?)
  {
    StatusSurvives(p, Eexists);
    RawStoreAgrees(db.model, db, p, p.opcode.AddOp?, memory);
  }

  lemma ReplaceLayersAgree(db: Db, p: Packet, memory: bool)
    requires WellFormed(p, 8) && (p.opcode.ReplaceOp? || p.opcode.ReplaceQ?)
    ensures Agree(RawReplace(db, p, memory), Replace(db, Key(p, 8), Data(p, 8), Field(p, 0), Field(p, 4), Cas(p), memory), p.opcode.ReplaceOp?)
  {
    hide Swap, Value, Digits;
    SwapZero(8);
    SwapIsInvolution(p.cas, 8);
    StatusSurvives(p, Eexists);
    StatusSurvives(p, Enoent);
    RawStoreAgrees(db.model - {Key(p, 8)}, db, p, p.opcode.ReplaceOp?, memory);
  }

  lemma ConcatLayersAgree(db: Db, p: Packet, memory: bool)
    requires WellFormed(p, 0)
    requires p.opcode.AppendOp? || p.opcode.AppendQ? || p.opcode.PrependOp? || p.opcode.PrependQ?
    ensures Agree(RawConcat(db, p, memory),
                  Concat(db, Key(p, 0), Data(p, 0), Cas(p), p.opcode.AppendOp? || p.opcode.AppendQ?, memory),
                  p.opcode.AppendOp? || p.opcode.PrependOp?)
  {
    hide Swap, Value, Digits;
    StatusSurvives(p, Eexists);
    StatusSurvives(p, Enoent);
    StatusSurvives(p, Enomem);
    StoreSurvives(p, p.opcode.AppendOp? || p.opcode.PrependOp?, Next(db));
  }

  /** Deletion is where the levels differ: they agree exactly when the CAS given is zero, right or for a missing key. */
  lemma DeleteLayersAgreeIff(db: Db, p: Packet)
    requires WellFormed(p, 0) && (p.opcode.DeleteOp? || p.opcode.DeleteQ?)
    ensures Agree(RawDelete(db, p), Delete(db, Key(p, 0), Cas(p)), p.opcode.DeleteOp?)
       <==> (Cas(p) == 0 || Key(p, 0) !in db.model || Cas(p) == db.model[Key(p, 0)].cas)
  {
    hide Value, Digits;
    StatusSurvives(p, Enoent);
    StatusSurvives(p, Success);
    SwapZero(8);
  }

  /** Same next database, status, CAS value and counter value; the message is there when it should be. */
  ghost predicate AgreeOnCount(r: Raw, o: Outcome, result: nat, loud: bool) {
    && r.db == o.db
    && Reported(r.reply) == o.status.Code()
    && !r.reply.Message? && (r.reply.CountMessage? <==> loud || !o.status.Success?)
    && (r.reply.CountMessage? && o.status.Success? ==>
          && Swap(r.reply.response.cas, 8) == o.cas
          && Swap(r.reply.bodylen, 4) == 8 && Swap(r.reply.value, 8) == result)
  }

  /** An increment or decrement packet, decoded, as level 1 takes it. */
  function DecodedCount(db: Db, p: Packet, beyond: Bytes, memory: bool): Outcome
    requires 20 + Keylen(p) <= |p.body|
  {
    Arithmetic(db, Key(p, 20), Field64(p, 0), Field64(p, 8), Field(p, 16), p.opcode.IncrementOp? || p.opcode.IncrementQ?, beyond, memory)
  }

  function DecodedResult(db: Db, p: Packet, beyond: Bytes): nat
    requires 20 + Keylen(p) <= |p.body|
  {
    CountResult(db, Key(p, 20), Field64(p, 0), Field64(p, 8), p.opcode.IncrementOp? || p.opcode.IncrementQ?, beyond)
  }

  lemma Field64Bound(p: Packet, at: nat)
    requires at + 8 <= |p.body|
    ensures Field64(p, at) < TWO_64
  {
    Widths();
    ValueBound(p.body[at..at + 8]);
    SwapIsInvolution(Value(p.body[at..at + 8]), 8);
  }

  lemma ResultBound(db: Db, p: Packet, beyond: Bytes)
    requires 20 + Keylen(p) <= |p.body|
    ensures DecodedResult(db, p, beyond) < TWO_64
  {
    hide Swap, Value, Digits;
    Field64Bound(p, 8);
    if Key(p, 20) in db.model {
      LoadBound(db.model[Key(p, 20)].data, beyond);
    }
  }

  /** A counter is read as it was stored, whatever lies behind it. */
  lemma LoadBack(v: nat, beyond: Bytes)
    requires v < TWO_64
    ensures Load64(Digits(v, 8), beyond) == v
  {
    hide Digits, Value;
    Widths();
    ValueOfDigits(v, 8);
    assert (Digits(v, 8) + beyond + Digits(0, 8))[..8] == Digits(v, 8);
  }

  lemma LoadBound(data: Bytes, beyond: Bytes)
    ensures Load64(data, beyond) < TWO_64
  {
    Widths();
    ValueBound((data + beyond + Digits(0, 8))[..8]);
  }

  /** The message of a counter survives the way to the client. */
  lemma CountSurvives(value: nat, cas: nat)
    requires value < TWO_64 && cas < TWO_64
    ensures Swap(Swap(cas, 8), 8) == cas && Swap(Swap(8, 4), 4) == 8 && Swap(Swap(Value(Digits(value, 8)), 8), 8) == value
    ensures Swap(Swap(Success.Code(), 2), 2) == Success.Code() && Swap(Swap(Enomem.Code(), 2), 2) == Enomem.Code()
  {
    Widths();
    hide Swap, Value, Digits;
    SwapIsInvolution(cas, 8);
    SwapIsInvolution(8, 4);
    ValueOfDigits(value, 8);
    SwapIsInvolution(value, 8);
    SwapIsInvolution(Success.Code(), 2);
    SwapIsInvolution(Enomem.Code(), 2);
  }

  /** What the level-0 handler stores: the level-1 item, except that it keeps the flags. */
  lemma RawArithmeticStores(db: Db, p: Packet, beyond: Bytes, memory: bool)
    requires WellFormed(p, 20)
    ensures RawArithmetic(db, p, beyond, memory).db
         == ArithmeticKeeping(db, Key(p, 20), Field64(p, 0), Field64(p, 8), Field(p, 16),
                              p.opcode.IncrementOp? || p.opcode.IncrementQ?, beyond, memory).db
  {
    hide Swap, Value, Digits, Load64, Keylen, Bodylen;
    if Key(p, 20) !in db.model {
      assert db.model - {Key(p, 20)} == db.model;
    }
  }

  /** Whatever the flags, the client is told the same: status, CAS value, and the counter's value. */
  lemma RawArithmeticReports(db: Db, p: Packet, beyond: Bytes, memory: bool)
    requires WellFormed(p, 20)
    requires p.opcode.IncrementOp? || p.opcode.IncrementQ? || p.opcode.DecrementOp? || p.opcode.DecrementQ?
    ensures var r, o := RawArithmetic(db, p, beyond, memory), DecodedCount(db, p, beyond, memory);
      AgreeOnCount(r.(db := o.db), o, DecodedResult(db, p, beyond), p.opcode.IncrementOp? || p.opcode.DecrementOp?)
  {
    hide Swap, Value, Digits, Load64, Keylen, Bodylen;
    ResultBound(db, p, beyond);
    CountSurvives(DecodedResult(db, p, beyond), Next(db));
  }

  /**
    Increment and decrement differ too: a packet run through level 0 and, decoded, through level 1
    gives the same store, status, CAS value and counter value exactly when the store that would lose
    its flags is not made, is of a new key, or has none to lose.
   */
  lemma ArithmeticLayersAgreeIff(db: Db, p: Packet, beyond: Bytes, memory: bool)
    requires WellFormed(p, 20)
    requires p.opcode.IncrementOp? || p.opcode.IncrementQ? || p.opcode.DecrementOp? || p.opcode.DecrementQ?
    ensures AgreeOnCount(RawArithmetic(db, p, beyond, memory), DecodedCount(db, p, beyond, memory),
                         DecodedResult(db, p, beyond), p.opcode.IncrementOp? || p.opcode.DecrementOp?)
       <==> (!memory || Key(p, 20) !in db.model || db.model[Key(p, 20)].flags == 0)
  {
    hide Swap, Value, Digits, Load64, Keylen, Bodylen, RawArithmetic, CountResult;
    RawArithmeticStores(db, p, beyond, memory);
    RawArithmeticReports(db, p, beyond, memory);
    var r, o, key := RawArithmetic(db, p, beyond, memory), DecodedCount(db, p, beyond, memory), Key(p, 20);
    assert r.db.model.Keys == o.db.model.Keys && r.db.cas == o.db.cas;
    if memory {
      assert r.db.model[key].flags == if key in db.model then db.model[key].flags else 0;
      assert o.db.model[key].flags == 0;
    }
  }
}
