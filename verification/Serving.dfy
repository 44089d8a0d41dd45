/** The example server at work: a sequence of commands on the linked list. */
module Serving {
  import opened ByteOrder
  import opened Storage
  import opened Database
  import opened StoreSteps
  import opened CasRuns
  import opened PacketRuns
  import opened PacketCodec
  import InterfaceV0
  import InterfaceV1

  /** One command, by its level-1 handler. */
  method Serve(store: Store, c: Command) returns (status: Status, cas: nat)
    requires store.Valid() && c.LevelOne()
    modifies store, store.nodes
    ensures store.Valid() && fresh(store.nodes - old(store.nodes))
    ensures Outcome(Of(store), status, cas) == Exec(old(Of(store)), c)
  {
    hide Set, Add, Replace, Concat, Delete, Arithmetic, Create, Store.Valid;
    cas := 0;
    match c {
      case CSet(key, data, flags, exp, given, memory) =>
        status, cas := InterfaceV1.SetHandler(store, key, data, flags, exp, given, memory);
      case CAdd(key, data, flags, exp, memory) =>
        status, cas := InterfaceV1.AddHandler(store, key, data, flags, exp, memory);
      case CReplace(key, data, flags, exp, given, memory) =>
        status, cas := InterfaceV1.ReplaceHandler(store, key, data, flags, exp, given, memory);
      case CConcat(key, val, given, append, memory) =>
        status, cas := InterfaceV1.ConcatHandler(store, key, val, given, append, memory);
      case CDelete(key, given) =>
        status := InterfaceV1.DeleteHandler(store, key, given);
      case CArithmetic(key, delta, initial, exp, increment, beyond, keepFlags, memory) =>
        var result;
        status, result, cas := InterfaceV1.ArithmeticHandler(store, key, delta, initial, exp, increment, beyond, memory);
      case CFlush =>
        status := InterfaceV1.FlushHandler(store);
    }
  }

  /** From the empty store, the list goes through the databases of a run, and every answer is that of the run. */
  method ServeAll(cmds: seq<Command>) returns (store: Store, answers: seq<(Status, nat)>, ghost dbs: seq<Db>)
    requires forall i :: 0 <= i < |cmds| ==> cmds[i].LevelOne()
    ensures fresh(store) && store.Valid() && IsRun(dbs, cmds) && dbs[|cmds|] == Of(store)
    ensures |answers| == |cmds|
    ensures forall i {:trigger cmds[i]} :: 0 <= i < |cmds| ==>
      answers[i] == (Exec(dbs[i], cmds[i]).status, Exec(dbs[i], cmds[i]).cas)
  {
    hide Exec, Store.Valid;
    store := new Store();
    answers, dbs := [], [Of(store)];
    for i := 0 to |cmds|
      invariant store.Valid() && fresh(store) && fresh(store.nodes)
      invariant |answers| == i && |dbs| == i + 1 && dbs[0] == Db(map[], 0) && dbs[i] == Of(store)
      invariant forall j {:trigger cmds[j]} :: 0 <= j < i ==>
        dbs[j + 1] == Exec(dbs[j], cmds[j]).db && answers[j] == (Exec(dbs[j], cmds[j]).status, Exec(dbs[j], cmds[j]).cas)
    {
      var status, cas := Serve(store, cmds[i]);
      answers, dbs := answers + [(status, cas)], dbs + [Of(store)];
    }
  }

  /** Over every sequence of commands served: a CAS value is spent at most once while fewer than 2^64 stores are made. */
  method ServeSpendsOnce(cmds: seq<Command>, ghost c: nat) returns (answers: seq<(Status, nat)>, ghost dbs: seq<Db>)
    requires c != 0 && forall i :: 0 <= i < |cmds| ==> cmds[i].LevelOne()
    ensures |answers| == |cmds| && IsRun(dbs, cmds)
    ensures forall i, j {:trigger cmds[i], cmds[j]} ::
      0 <= i < j < |cmds| && cmds[i].Carries(c) && cmds[j].Carries(c) && Stored(dbs, cmds, j) < TWO_64 ==>
        !(answers[i].0.Success? && answers[j].0.Success?)
  {
    hide Exec, Stored;
    var store;
    store, answers, dbs := ServeAll(cmds);
    forall i, j {:trigger cmds[i], cmds[j]} |
      0 <= i < j < |cmds| && cmds[i].Carries(c) && cmds[j].Carries(c) && Stored(dbs, cmds, j) < TWO_64
      ensures !(answers[i].0.Success? && answers[j].0.Success?)
    {
      CasIsSpentOnce(dbs, cmds, c, i, j);
    }
  }

  // ---------------------------------------------------------------------------------------------
  // Level 0
  // ---------------------------------------------------------------------------------------------

  /** One packet, by the level-0 handler of its opcode. */
  method ServePacket(store: Store, r: Request) returns (reply: Reply)
    requires store.Valid() && r.Proper()
    modifies store, store.nodes
    ensures store.Valid() && fresh(store.nodes - old(store.nodes))
    ensures Raw(Of(store), reply) == RawExec(old(Of(store)), r)
  {
    hide RawSet, RawAdd, RawReplace, RawConcat, RawDelete, RawArithmetic, RawFlush, Keylen, Bodylen, Store.Valid;
    match r.p.opcode {
      case SetOp | SetQ => reply := InterfaceV0.SetCommand(store, r.p, r.memory);
      case AddOp | AddQ => reply := InterfaceV0.AddCommand(store, r.p, r.memory);
      case ReplaceOp | ReplaceQ => reply := InterfaceV0.ReplaceCommand(store, r.p, r.memory);
      case AppendOp | AppendQ | PrependOp | PrependQ => reply := InterfaceV0.ConcatCommand(store, r.p, r.memory);
      case DeleteOp | DeleteQ => reply := InterfaceV0.DeleteCommand(store, r.p);
      case IncrementOp | IncrementQ | DecrementOp | DecrementQ =>
        reply := InterfaceV0.ArithmeticCommand(store, r.p, r.beyond, r.memory);
      case FlushOp | FlushQ => reply := InterfaceV0.FlushCommand(store, r.p);
    }
  }

  /** From the empty store, the list goes through the databases of a run of packets, and every reply is that of the run. */
  method ServePackets(reqs: seq<Request>) returns (store: Store, replies: seq<Reply>, ghost dbs: seq<Db>)
    requires AllProper(reqs)
    ensures fresh(store) && store.Valid() && IsPacketRun(dbs, reqs) && dbs[|reqs|] == Of(store)
    ensures |replies| == |reqs|
    ensures forall i {:trigger reqs[i]} :: 0 <= i < |reqs| ==> replies[i] == RawExec(dbs[i], reqs[i]).reply
  {
    hide RawExec, Store.Valid;
    store := new Store();
    replies, dbs := [], [Of(store)];
    for i := 0 to |reqs|
      invariant store.Valid() && fresh(store) && fresh(store.nodes)
      invariant |replies| == i && |dbs| == i + 1 && dbs[0] == Db(map[], 0) && dbs[i] == Of(store)
      invariant forall j {:trigger reqs[j]} :: 0 <= j < i ==>
        dbs[j + 1] == RawExec(dbs[j], reqs[j]).db && replies[j] == RawExec(dbs[j], reqs[j]).reply
    {
      var reply := ServePacket(store, reqs[i]);
      replies, dbs := replies + [reply], dbs + [Of(store)];
    }
  }

  /** Over every sequence of packets served: a CAS value is spent at most once while fewer than 2^64 stores are made. */
  method ServePacketsSpendsOnce(reqs: seq<Request>, ghost c: nat) returns (replies: seq<Reply>, ghost dbs: seq<Db>)
    requires c != 0 && AllProper(reqs)
    ensures |replies| == |reqs| && IsPacketRun(dbs, reqs)
    ensures forall i, j {:trigger reqs[i], reqs[j]} ::
      0 <= i < j < |reqs| && reqs[i].Carries(c) && reqs[j].Carries(c) && PacketsStored(dbs, reqs, j) < TWO_64 ==>
        !(Reported(replies[i]) == Success.Code() && Reported(replies[j]) == Success.Code())
  {
    hide RawExec, PacketsStored, Reported;
    var store;
    store, replies, dbs := ServePackets(reqs);
    forall i, j {:trigger reqs[i], reqs[j]} |
      0 <= i < j < |reqs| && reqs[i].Carries(c) && reqs[j].Carries(c) && PacketsStored(dbs, reqs, j) < TWO_64
      ensures !(Reported(replies[i]) == Success.Code() && Reported(replies[j]) == Success.Code())
    {
      PacketSpendsOnce(dbs, reqs, c, i, j);
    }
  }

  // ---------------------------------------------------------------------------------------------
  // From the wire to the store
  // ---------------------------------------------------------------------------------------------

  /** A command, whether it is sent in its quiet form, and the tag that marks its response. */
  datatype Order = Order(c: Command, quiet: bool, tag: nat)

  ghost predicate AllFit(orders: seq<Order>) { forall i :: 0 <= i < |orders| ==> Fits(orders[i].c) }

  /** The commands that level 0 makes of the orders. */
  function Asked(orders: seq<Order>): (cmds: seq<Command>)
    ensures |cmds| == |orders| && forall i :: 0 <= i < |orders| ==> cmds[i] == AtLevelZero(orders[i].c)
  {
    seq(|orders|, i requires 0 <= i < |orders| => AtLevelZero(orders[i].c))
  }

  /** Their requests, written by the client and read by the server. */
  function Requests(orders: seq<Order>): (reqs: seq<Request>)
    ensures |reqs| == |orders| && forall i :: 0 <= i < |orders| ==> reqs[i] == Received(orders[i].c, orders[i].quiet, orders[i].tag)
  {
    seq(|orders|, i requires 0 <= i < |orders| => Received(orders[i].c, orders[i].quiet, orders[i].tag))
  }

  lemma OrdersReadBack(orders: seq<Order>)
    requires AllFit(orders)
    ensures AllProper(Requests(orders)) && Commands(Requests(orders)) == Asked(orders)
  {
    hide Requests, Asked, Received, Decoded, AtLevelZero, Request.Proper, Fits;
    forall i | 0 <= i < |orders|
      ensures Requests(orders)[i].Proper() && Decoded(Requests(orders)[i]) == AtLevelZero(orders[i].c)
    {
      CommandReadBack(orders[i].c, orders[i].quiet, orders[i].tag);
    }
  }

  lemma AnswerTells(db: Db, r: Request)
    requires r.Proper()
    ensures Reported(RawExec(db, r).reply) == Exec(db, Decoded(r)).status.Code() && RawExec(db, r).db == Exec(db, Decoded(r)).db
    ensures Reported(RawExec(db, r).reply) == Success.Code() ==> DoneAsAsked(db, Decoded(r), RawExec(db, r).db)
  {
    hide Exec, RawExec, Decoded, Swap, DoneAsAsked;
    PacketIsCommand(db, r);
    CodesTell(Exec(db, Decoded(r)).status, Success);
    if Exec(db, Decoded(r)).status.Success? {
      SuccessMeansDone(db, Decoded(r));
    }
  }

  /**
    Any sequence of commands, written as packets, read and served on the linked list from empty: the list
    goes through the run of exactly these commands, and whoever is told success finds in the store what was
    asked for.
   */
  method ServeOrders(orders: seq<Order>) returns (store: Store, replies: seq<Reply>, ghost dbs: seq<Db>)
    requires AllFit(orders)
    ensures fresh(store) && store.Valid() && IsRun(dbs, Asked(orders)) && dbs[|orders|] == Of(store)
    ensures |replies| == |orders|
    ensures forall i {:trigger orders[i]} :: 0 <= i < |orders| ==>
      && Reported(replies[i]) == Exec(dbs[i], AtLevelZero(orders[i].c)).status.Code()
      && (Reported(replies[i]) == Success.Code() ==> DoneAsAsked(dbs[i], AtLevelZero(orders[i].c), dbs[i + 1]))
  {
    hide RawExec, Exec, Decoded, Received, AtLevelZero, DoneAsAsked, Reported, Request.Proper, Store.Valid, IsRun, Requests, Asked, Commands;
    OrdersReadBack(orders);
    ghost var reqs := Requests(orders);
    store, replies, dbs := ServePackets(Requests(orders));
    PacketRunIsRun(dbs, reqs);
    forall i {:trigger orders[i]} | 0 <= i < |orders|
      ensures Reported(replies[i]) == Exec(dbs[i], AtLevelZero(orders[i].c)).status.Code()
      ensures Reported(replies[i]) == Success.Code() ==> DoneAsAsked(dbs[i], AtLevelZero(orders[i].c), dbs[i + 1])
    {
      assert Commands(reqs)[i] == Decoded(reqs[i]) == AtLevelZero(orders[i].c);
      AnswerTells(dbs[i], reqs[i]);
    }
  }
}
