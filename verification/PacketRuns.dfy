/** The same for level 0: runs of raw packets, from the empty store. */
module PacketRuns {
  import opened ByteOrder
  import opened Storage
  import opened Database
  import opened CasRuns

  /** A packet, what lies in memory behind the data of the item it meets, and the memory luck. */
  datatype Request = Request(p: Packet, beyond: Bytes, memory: bool) {
    function Extras(): nat {
      match p.opcode
      case SetOp | SetQ | AddOp | AddQ | ReplaceOp | ReplaceQ => 8
      case IncrementOp | IncrementQ | DecrementOp | DecrementQ => 20
      case _ => 0
    }

    ghost predicate Proper() { WellFormed(p, Extras()) }

    /** A replace, append or prepend that carries this CAS value. */
    predicate Carries(c: nat) {
      && (p.opcode.ReplaceOp? || p.opcode.ReplaceQ? || p.opcode.AppendOp? || p.opcode.AppendQ? || p.opcode.PrependOp? || p.opcode.PrependQ?)
      && Cas(p) == c
    }

    predicate Writes() { !p.opcode.DeleteOp? && !p.opcode.DeleteQ? && !p.opcode.FlushOp? && !p.opcode.FlushQ? }
  }

  /** What the level-0 handler of the opcode does. */
  function RawExec(db: Db, r: Request): Raw
    requires r.Proper()
  {
    match r.p.opcode
    case SetOp | SetQ => RawSet(db, r.p, r.memory)
    case AddOp | AddQ => RawAdd(db, r.p, r.memory)
    case ReplaceOp | ReplaceQ => RawReplace(db, r.p, r.memory)
    case AppendOp | AppendQ | PrependOp | PrependQ => RawConcat(db, r.p, r.memory)
    case DeleteOp | DeleteQ => RawDelete(db, r.p)
    case IncrementOp | IncrementQ | DecrementOp | DecrementQ => RawArithmetic(db, r.p, r.beyond, r.memory)
    case FlushOp | FlushQ => RawFlush(db, r.p)
  }

  /** The command it amounts to: the delete does not look at the CAS field, and a counter keeps its flags. */
  function Decoded(r: Request): Command
    requires r.Proper()
  {
    var p := r.p;
    match p.opcode
    case SetOp | SetQ => CSet(Key(p, 8), Data(p, 8), Field(p, 0), Field(p, 4), Cas(p), r.memory)
    case AddOp | AddQ => CAdd(Key(p, 8), Data(p, 8), Field(p, 0), Field(p, 4), r.memory)
    case ReplaceOp | ReplaceQ => CReplace(Key(p, 8), Data(p, 8), Field(p, 0), Field(p, 4), Cas(p), r.memory)
    case AppendOp | AppendQ | PrependOp | PrependQ =>
      CConcat(Key(p, 0), Data(p, 0), Cas(p), p.opcode.AppendOp? || p.opcode.AppendQ?, r.memory)
    case DeleteOp | DeleteQ => CDelete(Key(p, 0), 0)
    case IncrementOp | IncrementQ | DecrementOp | DecrementQ =>
      CArithmetic(Key(p, 20), Field64(p, 0), Field64(p, 8), Field(p, 16),
                  p.opcode.IncrementOp? || p.opcode.IncrementQ?, r.beyond, true, r.memory)
    case FlushOp | FlushQ => CFlush
  }

  // ---------------------------------------------------------------------------------------------
  // One packet
  // ---------------------------------------------------------------------------------------------

  /** Same next database and reported status; a message after a store carries the CAS value of the new item. */
  ghost predicate Matches(raw: Raw, o: Outcome, writes: bool) {
    && raw.db == o.db
    && Reported(raw.reply) == o.status.Code()
    && (writes && o.status.Success? && !raw.reply.Returned? ==> Swap(raw.reply.response.cas, 8) == o.cas)
  }

  lemma CountMatches(db: Db, r: Request)
    requires r.Proper() && r.Extras() == 20
    ensures Matches(RawExec(db, r), Exec(db, Decoded(r)), true)
  {
    hide Swap, Value, Digits, Load64, Keylen, Bodylen, Key, Field, Field64, RawArithmetic, CountResult;
    RawArithmeticStores(db, r.p, r.beyond, r.memory);
    RawArithmeticReports(db, r.p, r.beyond, r.memory);
  }

  lemma DeleteMatches(db: Db, r: Request)
    requires r.Proper() && (r.p.opcode.DeleteOp? || r.p.opcode.DeleteQ?)
    ensures Matches(RawExec(db, r), Exec(db, Decoded(r)), false)
  {
    hide Swap, Value, Digits;
    StatusSurvives(r.p, Enoent);
    StatusSurvives(r.p, Success);
  }

  lemma StoreMatches(db: Db, r: Request)
    requires r.Proper() && r.Writes() && r.Extras() != 20
    ensures Matches(RawExec(db, r), Exec(db, Decoded(r)), true)
  {
    hide Swap, Value, Digits, Keylen, Bodylen, Key, Data, Field, Cas,
         RawSet, RawAdd, RawReplace, RawConcat, Set, Add, Replace, Concat;
    match r.p.opcode {
      case SetOp | SetQ => SetLayersAgree(db, r.p, r.memory);
      case AddOp | AddQ => AddLayersAgree(db, r.p, r.memory);
      case ReplaceOp | ReplaceQ => ReplaceLayersAgree(db, r.p, r.memory);
      case _ => ConcatLayersAgree(db, r.p, r.memory);
    }
  }

  /** Every packet does what the command it decodes to does, and is answered accordingly. */
  lemma PacketIsCommand(db: Db, r: Request)
    requires r.Proper()
    ensures Matches(RawExec(db, r), Exec(db, Decoded(r)), r.Writes())
  {
    hide Swap, Value, Digits, Exec, RawExec, Decoded, Keylen, Bodylen;
    if r.Extras() == 20 {
      CountMatches(db, r);
    } else if r.Writes() {
      StoreMatches(db, r);
    } else if r.p.opcode.DeleteOp? || r.p.opcode.DeleteQ? {
      DeleteMatches(db, r);
    } else {
      FlushMatches(db, r);
    }
  }

  lemma FlushMatches(db: Db, r: Request)
    requires r.Proper() && (r.p.opcode.FlushOp? || r.p.opcode.FlushQ?)
    ensures Matches(RawExec(db, r), Exec(db, Decoded(r)), false)
  {
    hide Swap, Value, Digits;
    StatusSurvives(r.p, Success);
  }

  lemma DecodedKeeps(r: Request, c: nat)
    requires r.Proper()
    ensures r.Writes() == Decoded(r).Writes() && r.Carries(c) == Decoded(r).Carries(c)
  {
    hide Swap, Value, Digits, Keylen, Bodylen;
  }

  // ---------------------------------------------------------------------------------------------
  // Runs of any length
  // ---------------------------------------------------------------------------------------------

  ghost predicate AllProper(reqs: seq<Request>) { forall i :: 0 <= i < |reqs| ==> reqs[i].Proper() }

  ghost predicate IsPacketRun(dbs: seq<Db>, reqs: seq<Request>) {
    && AllProper(reqs) && |dbs| == |reqs| + 1
    && dbs[0] == Db(map[], 0)
    && forall i :: 0 <= i < |reqs| ==> dbs[i + 1] == RawExec(dbs[i], reqs[i]).db
  }

  /** The packet was answered with success, in a message or by what the handler returned. */
  predicate Succeeds(db: Db, r: Request)
    requires r.Proper()
  {
    Reported(RawExec(db, r).reply) == Success.Code()
  }

  predicate PacketStores(db: Db, r: Request)
    requires r.Proper()
  {
    r.Writes() && Succeeds(db, r)
  }

  /** How many of the first n packets stored an item. */
  ghost function PacketsStored(dbs: seq<Db>, reqs: seq<Request>, n: nat): nat
    requires n <= |reqs| <= |dbs| && AllProper(reqs)
  {
    if n == 0 then 0 else PacketsStored(dbs, reqs, n - 1) + if PacketStores(dbs[n - 1], reqs[n - 1]) then 1 else 0
  }

  ghost function Commands(reqs: seq<Request>): (cmds: seq<Command>)
    requires AllProper(reqs)
    ensures |cmds| == |reqs| && forall i :: 0 <= i < |reqs| ==> cmds[i] == Decoded(reqs[i])
  {
    seq(|reqs|, i requires 0 <= i < |reqs| => Decoded(reqs[i]))
  }

  lemma CodesTell(s: Status, t: Status)
    ensures s.Code() == t.Code() ==> s == t
  {
  }

  lemma StoresAlike(db: Db, r: Request)
    requires r.Proper()
    ensures Succeeds(db, r) <==> Exec(db, Decoded(r)).status.Success?
    ensures PacketStores(db, r) <==> Stores(db, Decoded(r))
  {
    hide Exec, RawExec, Decoded, Swap;
    PacketIsCommand(db, r);
    CodesTell(Exec(db, Decoded(r)).status, Success);
    DecodedKeeps(r, 0);
  }

  /** A run of packets is a run of the commands they decode to. */
  lemma PacketRunIsRun(dbs: seq<Db>, reqs: seq<Request>)
    requires IsPacketRun(dbs, reqs)
    ensures IsRun(dbs, Commands(reqs))
  {
    hide Exec, RawExec, Decoded, Commands;
    forall i | 0 <= i < |reqs|
      ensures dbs[i + 1] == Exec(dbs[i], Commands(reqs)[i]).db
    {
      PacketIsCommand(dbs[i], reqs[i]);
    }
  }

  lemma {:induction false} StoredAlike(dbs: seq<Db>, reqs: seq<Request>, n: nat)
    requires n <= |reqs| <= |dbs| && AllProper(reqs)
    ensures PacketsStored(dbs, reqs, n) == Stored(dbs, Commands(reqs), n)
  {
    hide PacketStores, Stores, Decoded, Commands, Exec, RawExec, Request.Proper;
    if n > 0 {
      StoredAlike(dbs, reqs, n - 1);
      StoresAlike(dbs[n - 1], reqs[n - 1]);
    }
  }

  /** With fewer than 2^64 stores, stored CAS values are non-zero and pairwise distinct. */
  lemma PacketRunIsValid(dbs: seq<Db>, reqs: seq<Request>, i: nat)
    requires IsPacketRun(dbs, reqs) && i <= |reqs| && PacketsStored(dbs, reqs, i) < TWO_64
    ensures CasValid(dbs[i]) && dbs[i].cas == PacketsStored(dbs, reqs, i)
  {
    hide IsRun, PacketsStored, Stored, CasValid, Commands;
    PacketRunIsRun(dbs, reqs);
    StoredAlike(dbs, reqs, i);
    RunIsValid(dbs, Commands(reqs), i);
  }

  /** For each non-zero CAS value, at most one replace, append or prepend packet that carries it succeeds. */
  lemma PacketSpendsOnce(dbs: seq<Db>, reqs: seq<Request>, c: nat, i: nat, j: nat)
    requires IsPacketRun(dbs, reqs) && i < j < |reqs| && c != 0 && PacketsStored(dbs, reqs, j) < TWO_64
    requires reqs[i].Carries(c) && reqs[j].Carries(c)
    ensures !(Succeeds(dbs[i], reqs[i]) && Succeeds(dbs[j], reqs[j]))
  {
    hide IsRun, PacketsStored, Stored, Commands, Exec, Decoded, Succeeds, PacketStores, Stores;
    PacketRunIsRun(dbs, reqs);
    StoredAlike(dbs, reqs, j);
    DecodedKeeps(reqs[i], c);
    DecodedKeeps(reqs[j], c);
    StoresAlike(dbs[i], reqs[i]);
    StoresAlike(dbs[j], reqs[j]);
    CasIsSpentOnce(dbs, Commands(reqs), c, i, j);
  }

  /** The CAS value that the packet gave to the item it stored. */
  ghost function Given(dbs: seq<Db>, reqs: seq<Request>, j: nat): nat
    requires IsPacketRun(dbs, reqs) && j < |reqs| && PacketStores(dbs[j], reqs[j])
  {
    StoredItem(dbs[j], reqs[j]);
    dbs[j + 1].model[Key(reqs[j].p, reqs[j].Extras())].cas
  }

  /** A packet that stores leaves its item under its key, and a message tells the item's CAS value. */
  lemma StoredItem(db: Db, r: Request)
    requires r.Proper() && PacketStores(db, r)
    ensures var key, raw := Key(r.p, r.Extras()), RawExec(db, r);
      && key in raw.db.model
      && raw.db.model[key].cas == Exec(db, Decoded(r)).cas == Next(db)
      && (!raw.reply.Returned? ==> Swap(raw.reply.response.cas, 8) == raw.db.model[key].cas)
  {
    hide Exec, RawExec, Swap, Keylen, Bodylen, PacketStores, Stores;
    PacketIsCommand(db, r);
    StoresAlike(db, r);
    StepHasShape(db, Decoded(r));
    Successful(db, r);
    KeyOfCommand(r);
  }

  lemma Successful(db: Db, r: Request)
    requires r.Proper() && PacketStores(db, r)
    ensures r.Writes() && Exec(db, Decoded(r)).status.Success?
  {
    hide Exec, RawExec, Decoded, Swap;
    StoresAlike(db, r);
  }

  lemma KeyOfCommand(r: Request)
    requires r.Proper() && r.Writes()
    ensures !Decoded(r).CFlush? && Decoded(r).key == Key(r.p, r.Extras())
  {
    hide Swap, Value, Digits, Keylen, Bodylen;
  }

  /** The first n packets gave non-zero and pairwise distinct CAS values to the items they stored. */
  ghost predicate GivenWell(dbs: seq<Db>, reqs: seq<Request>, n: nat)
    requires IsPacketRun(dbs, reqs) && n <= |reqs|
  {
    && (forall j {:trigger reqs[j]} :: 0 <= j < n && PacketStores(dbs[j], reqs[j]) ==> Given(dbs, reqs, j) != 0)
    && forall i, j {:trigger reqs[i], reqs[j]} ::
         0 <= i < j < n && PacketStores(dbs[i], reqs[i]) && PacketStores(dbs[j], reqs[j]) ==>
           Given(dbs, reqs, i) != Given(dbs, reqs, j)
  }

  lemma GivenIsIssued(dbs: seq<Db>, reqs: seq<Request>, j: nat)
    requires IsPacketRun(dbs, reqs) && j < |reqs|
    ensures PacketStores(dbs[j], reqs[j]) <==> Stores(dbs[j], Commands(reqs)[j])
    ensures PacketStores(dbs[j], reqs[j]) ==> Given(dbs, reqs, j) == Exec(dbs[j], Commands(reqs)[j]).cas
  {
    hide Exec, RawExec, Decoded, Swap, PacketStores, Stores, Keylen, Commands;
    StoresAlike(dbs[j], reqs[j]);
    if PacketStores(dbs[j], reqs[j]) {
      StoredItem(dbs[j], reqs[j]);
    }
  }

  /** They are so if and only if fewer than 2^64 items were stored. */
  lemma PacketCasHoldsIff(dbs: seq<Db>, reqs: seq<Request>, n: nat)
    requires IsPacketRun(dbs, reqs) && n <= |reqs|
    ensures GivenWell(dbs, reqs, n) <==> PacketsStored(dbs, reqs, n) < TWO_64
  {
    hide IsRun, PacketsStored, Stored, Commands, Exec, Given, PacketStores, Stores;
    PacketRunIsRun(dbs, reqs);
    StoredAlike(dbs, reqs, n);
    CasHoldsIff(dbs, Commands(reqs), n);
    ghost var cmds := Commands(reqs);
    forall j {:trigger reqs[j]} {:trigger cmds[j]} | 0 <= j < n
      ensures PacketStores(dbs[j], reqs[j]) <==> Stores(dbs[j], cmds[j])
      ensures PacketStores(dbs[j], reqs[j]) ==> Given(dbs, reqs, j) == Exec(dbs[j], cmds[j]).cas
    {
      GivenIsIssued(dbs, reqs, j);
    }
  }

  /** EEXISTS and ENOENT leave the store as it was. */
  lemma PacketRefusalsChangeNothing(db: Db, r: Request)
    requires r.Proper()
    requires Reported(RawExec(db, r).reply) in {Eexists.Code(), Enoent.Code()}
    ensures RawExec(db, r).db == db
  {
    hide Exec, RawExec, Decoded, Swap;
    PacketIsCommand(db, r);
    CodesTell(Exec(db, Decoded(r)).status, Eexists);
    CodesTell(Exec(db, Decoded(r)).status, Enoent);
    RefusalsChangeNothing(db, Decoded(r));
  }
}
