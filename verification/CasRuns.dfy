/** CAS values over whole runs of the example server, from the empty store. */
module CasRuns {
  import opened ByteOrder
  import opened Storage
  import opened Database

  /** A command of either level, with the memory luck it meets. */
  datatype Command =
    | CSet(key: Bytes, data: Bytes, flags: nat, exp: nat, cas: nat, memory: bool)
    | CAdd(key: Bytes, data: Bytes, flags: nat, exp: nat, memory: bool)
    | CReplace(key: Bytes, data: Bytes, flags: nat, exp: nat, cas: nat, memory: bool)
    | CConcat(key: Bytes, val: Bytes, cas: nat, append: bool, memory: bool)
    | CDelete(key: Bytes, cas: nat)
    | CArithmetic(key: Bytes, delta: nat, initial: nat, exp: nat, increment: bool, beyond: Bytes, keepFlags: bool, memory: bool)
    | CFlush
  {
    /** A replace, append or prepend that carries this CAS value. */
    predicate Carries(c: nat) { (CReplace? || CConcat?) && this.cas == c }

    /** A command as the level-1 handlers take it; level 0 keeps the flags of a counter. */
    predicate LevelOne() { CArithmetic? ==> !keepFlags }

    /** A command that stores an item when it succeeds. */
    predicate Writes() { !CDelete? && !CFlush? }
  }

  function Exec(db: Db, c: Command): Outcome {
    match c
    case CSet(key, data, flags, exp, cas, memory) => Set(db, key, data, flags, exp, cas, memory)
    case CAdd(key, data, flags, exp, memory) => Add(db, key, data, flags, exp, memory)
    case CReplace(key, data, flags, exp, cas, memory) => Replace(db, key, data, flags, exp, cas, memory)
    case CConcat(key, val, cas, append, memory) => Concat(db, key, val, cas, append, memory)
    case CDelete(key, cas) => Delete(db, key, cas)
    case CArithmetic(key, delta, initial, exp, increment, beyond, keepFlags, memory) =>
      if keepFlags then ArithmeticKeeping(db, key, delta, initial, exp, increment, beyond, memory)
      else Arithmetic(db, key, delta, initial, exp, increment, beyond, memory)
    case CFlush => Flush(db)
  }

  /** A run of any length from the empty store. */
  ghost predicate IsRun(dbs: seq<Db>, cmds: seq<Command>) {
    && |dbs| == |cmds| + 1
    && dbs[0] == Db(map[], 0)
    && forall i :: 0 <= i < |cmds| ==> dbs[i + 1] == Exec(dbs[i], cmds[i]).db
  }

  /** The command stored an item, and a CAS value was handed out. */
  predicate Stores(db: Db, c: Command) { c.Writes() && Exec(db, c).status.Success? }

  /** How many of the first n commands did. */
  ghost function Stored(dbs: seq<Db>, cmds: seq<Command>, n: nat): nat
    requires n <= |cmds| <= |dbs|
  {
    if n == 0 then 0 else Stored(dbs, cmds, n - 1) + if Stores(dbs[n - 1], cmds[n - 1]) then 1 else 0
  }

  /** Stored CAS values are non-zero, issued by the counter, and pairwise distinct. */
  ghost predicate CasValid(db: Db) {
    && (forall k :: k in db.model ==> 0 < db.model[k].cas <= db.cas)
    && forall k, l :: k in db.model && l in db.model && k != l ==> db.model[k].cas != db.model[l].cas
  }

  // ---------------------------------------------------------------------------------------------
  // One command
  // ---------------------------------------------------------------------------------------------

  /**
    What every command does to the CAS values: a store hands out the next one, to an item under the
    command's key; every other key keeps its item or loses it; a refusal changes nothing.
   */
  ghost predicate StepShape(db: Db, c: Command, o: Outcome, stores: bool) {
    && o.db.cas == (if stores then Next(db) else db.cas)
    && o.cas == (if stores then Next(db) else 0)
    && (stores ==> !c.CFlush? && c.key in o.db.model && o.db.model[c.key].cas == Next(db))
    && (forall k :: k in o.db.model ==>
          || (k in db.model && o.db.model[k] == db.model[k])
          || (stores && !c.CFlush? && k == c.key))
    && (o.status.Eexists? || o.status.Enoent? ==> o.db == db)
  }

  lemma StepHasShape(db: Db, c: Command)
    ensures StepShape(db, c, Exec(db, c), Stores(db, c))
  {
    hide CountResult;
  }

  /** Before the counter overflows, the item of a key is the old one or has the next CAS value. */
  lemma ItemAfter(db: Db, c: Command, o: Outcome, stores: bool, k: Bytes)
    requires CasValid(db) && StepShape(db, c, o, stores) && (stores ==> db.cas + 1 < TWO_64) && k in o.db.model
    ensures 0 < o.db.model[k].cas <= o.db.cas
    ensures || (k in db.model && o.db.model[k] == db.model[k] && o.db.model[k].cas <= db.cas)
            || (!c.CFlush? && k == c.key && o.db.model[k].cas == db.cas + 1)
  {
  }

  /** Before the counter overflows, a command keeps the CAS values valid. */
  lemma ShapeKeepsValid(db: Db, c: Command, o: Outcome, stores: bool)
    requires CasValid(db) && StepShape(db, c, o, stores) && (stores ==> db.cas + 1 < TWO_64)
    ensures CasValid(o.db)
  {
    hide StepShape;
    forall k, l | k in o.db.model && l in o.db.model
      ensures 0 < o.db.model[k].cas <= o.db.cas && (k != l ==> o.db.model[k].cas != o.db.model[l].cas)
    {
      ItemAfter(db, c, o, stores, k);
      ItemAfter(db, c, o, stores, l);
    }
  }

  /** A value that was issued and is stored nowhere: it can never come back. */
  ghost predicate Spent(db: Db, c: nat) {
    c <= db.cas && forall k :: k in db.model ==> db.model[k].cas != c
  }

  lemma ShapeKeepsSpent(db: Db, c: Command, o: Outcome, stores: bool, cas: nat)
    requires Spent(db, cas) && StepShape(db, c, o, stores) && (stores ==> db.cas + 1 < TWO_64)
    ensures Spent(o.db, cas)
  {
  }

  /** Success of a command that carries a CAS value means that the value carried was the one stored. */
  lemma SuccessMeansCurrent(db: Db, cmd: Command, c: nat)
    requires cmd.Carries(c) && c != 0 && Exec(db, cmd).status.Success?
    ensures cmd.key in db.model && db.model[cmd.key].cas == c
  {
  }

  lemma SuccessSpends(db: Db, cmd: Command, c: nat)
    requires CasValid(db) && db.cas + 1 < TWO_64
    requires cmd.Carries(c) && c != 0 && Exec(db, cmd).status.Success?
    ensures Spent(Exec(db, cmd).db, c)
  {
    SuccessMeansCurrent(db, cmd, c);
    hide Exec;
    StepHasShape(db, cmd);
  }

  /** EEXISTS and ENOENT leave the store as it was. */
  lemma RefusalsChangeNothing(db: Db, c: Command)
    ensures Exec(db, c).status.Eexists? || Exec(db, c).status.Enoent? ==> Exec(db, c).db == db
  {
    StepHasShape(db, c);
  }

  // ---------------------------------------------------------------------------------------------
  // What a client may rely on
  // ---------------------------------------------------------------------------------------------

  ghost predicate HasItem(db: Db, key: Bytes, data: Bytes, flags: nat, exp: nat) {
    key in db.model && db.model[key].data == data && db.model[key].flags == flags && db.model[key].exp == exp
  }

  /** A counter that holds v. */
  ghost predicate HasCounter(db: Db, key: Bytes, v: nat) { v < TWO_64 && key in db.model && db.model[key].data == Digits(v, 8) }

  /** All other keys are as before. */
  ghost predicate OthersKept(before: Db, after: Db, key: Bytes) {
    forall k :: k != key ==> (k in before.model <==> k in after.model) && (k in before.model ==> before.model[k] == after.model[k])
  }

  /** The contents of the store after a command that was answered with success, in terms of those before. */
  ghost predicate DoneAsAsked(before: Db, c: Command, after: Db) {
    && (c.CFlush? || OthersKept(before, after, c.key))
    && match c
       case CSet(key, data, flags, exp, _, _) => HasItem(after, key, data, flags, exp)
       case CAdd(key, data, flags, exp, _) => key !in before.model && HasItem(after, key, data, flags, exp)
       case CReplace(key, data, flags, exp, _, _) => key in before.model && HasItem(after, key, data, flags, exp)
       case CConcat(key, val, _, append, _) =>
         && key in before.model
         && var item := before.model[key];
            HasItem(after, key, if append then item.data + val else val + item.data, item.flags, item.exp)
       case CDelete(key, _) => key in before.model && key !in after.model
       case CArithmetic(key, delta, initial, exp, increment, _, keepFlags, _) =>
         && key in after.model
         && after.model[key].flags == (if keepFlags && key in before.model then before.model[key].flags else 0)
         && (key !in before.model && initial < TWO_64 ==> HasCounter(after, key, initial) && after.model[key].exp == exp)
         && (forall v: nat :: HasCounter(before, key, v) && increment ==> HasCounter(after, key, (v + delta) % TWO_64))
         && (forall v: nat :: HasCounter(before, key, v) && !increment ==> HasCounter(after, key, if delta <= v then v - delta else 0))
       case CFlush => after.model == map[]
  }

  /** The CAS value given, if any, is that of the item stored. */
  predicate Current(db: Db, key: Bytes, cas: nat) { cas == 0 || (key in db.model && db.model[key].cas == cas) }

  /** The number that answers a command: by whether the key is there, the CAS value is right, and there is memory. */
  function Answer(db: Db, c: Command): nat {
    match c
    case CSet(key, _, _, _, cas, memory) => if key in db.model && !Current(db, key, cas) then 0x02 else if memory then 0x00 else 0x82
    case CAdd(key, _, _, _, memory) => if key in db.model then 0x02 else if memory then 0x00 else 0x82
    case CReplace(key, _, _, _, cas, memory) =>
      if key !in db.model then 0x01 else if !Current(db, key, cas) then 0x02 else if memory then 0x00 else 0x82
    case CConcat(key, _, cas, _, memory) =>
      if key !in db.model then 0x01 else if !Current(db, key, cas) then 0x02 else if memory then 0x00 else 0x82
    case CDelete(key, cas) => if key !in db.model then 0x01 else if !Current(db, key, cas) then 0x02 else 0x00
    case CArithmetic(_, _, _, _, _, _, _, memory) => if memory then 0x00 else 0x82
    case CFlush => 0x00
  }

  /** The status of every command in every store; without memory, set, replace and arithmetic lose the old item all the same. */
  lemma AnswersAre(db: Db, c: Command)
    ensures Exec(db, c).status.Code() == Answer(db, c)
    ensures Exec(db, c).status.Enomem? ==>
      Exec(db, c).db == if c.CSet? || c.CReplace? || c.CArithmetic? then Db(db.model - {c.key}, db.cas) else db
  {
    hide CountResult, Digits;
  }

  lemma CountDone(db: Db, c: Command, v: nat)
    requires c.CArithmetic? && HasCounter(db, c.key, v) && Exec(db, c).status.Success?
    ensures c.increment ==> HasCounter(Exec(db, c).db, c.key, (v + c.delta) % TWO_64)
    ensures !c.increment ==> HasCounter(Exec(db, c).db, c.key, if c.delta <= v then v - c.delta else 0)
  {
    hide Digits, Value, Load64;
    LoadBack(v, c.beyond);
  }

  /** Success means that what was asked for is in the store, and nothing else has changed. */
  lemma SuccessMeansDone(db: Db, c: Command)
    requires Exec(db, c).status.Success?
    ensures DoneAsAsked(db, c, Exec(db, c).db)
  {
    hide Digits, Value, Load64;
    if c.CArithmetic? {
      forall v: nat | HasCounter(db, c.key, v)
        ensures c.increment ==> HasCounter(Exec(db, c).db, c.key, (v + c.delta) % TWO_64)
        ensures !c.increment ==> HasCounter(Exec(db, c).db, c.key, if c.delta <= v then v - c.delta else 0)
      {
        CountDone(db, c, v);
      }
    }
  }

  // ---------------------------------------------------------------------------------------------
  // Runs of any length
  // ---------------------------------------------------------------------------------------------

  lemma {:induction false} StoredGrows(dbs: seq<Db>, cmds: seq<Command>, i: nat, j: nat)
    requires i <= j <= |cmds| <= |dbs|
    ensures Stored(dbs, cmds, i) <= Stored(dbs, cmds, j)
  {
    hide Stores;
    if i < j {
      StoredGrows(dbs, cmds, i, j - 1);
    }
  }

  /** In every run the counter is the number of stores modulo 2^64. */
  lemma {:induction false} CounterCountsStores(dbs: seq<Db>, cmds: seq<Command>, i: nat)
    requires IsRun(dbs, cmds) && i <= |cmds|
    ensures dbs[i].cas == Stored(dbs, cmds, i) % TWO_64
  {
    hide Exec, Stores;
    if i > 0 {
      CounterCountsStores(dbs, cmds, i - 1);
      StepHasShape(dbs[i - 1], cmds[i - 1]);
      AddModulo(Stored(dbs, cmds, i - 1));
    }
  }

  lemma AddModulo(n: nat)
    ensures (n % TWO_64 + 1) % TWO_64 == (n + 1) % TWO_64
  {
  }

  /** The CAS value a store hands out is its number among the stores, modulo 2^64. */
  lemma IssuedIsNumber(dbs: seq<Db>, cmds: seq<Command>, j: nat)
    requires IsRun(dbs, cmds) && j < |cmds| && Stores(dbs[j], cmds[j])
    ensures Exec(dbs[j], cmds[j]).cas == Stored(dbs, cmds, j + 1) % TWO_64
    ensures Stored(dbs, cmds, j + 1) == Stored(dbs, cmds, j) + 1
  {
    hide Exec, Stores;
    CounterCountsStores(dbs, cmds, j);
    StepHasShape(dbs[j], cmds[j]);
    AddModulo(Stored(dbs, cmds, j));
  }

  /** With fewer than 2^64 stores, stored CAS values are non-zero and pairwise distinct. */
  lemma {:induction false} RunIsValid(dbs: seq<Db>, cmds: seq<Command>, i: nat)
    requires IsRun(dbs, cmds) && i <= |cmds| && Stored(dbs, cmds, i) < TWO_64
    ensures CasValid(dbs[i]) && dbs[i].cas == Stored(dbs, cmds, i)
  {
    hide Exec, Stores;
    if i > 0 {
      StoredGrows(dbs, cmds, i - 1, i);
      RunIsValid(dbs, cmds, i - 1);
      StepHasShape(dbs[i - 1], cmds[i - 1]);
      ShapeKeepsValid(dbs[i - 1], cmds[i - 1], Exec(dbs[i - 1], cmds[i - 1]), Stores(dbs[i - 1], cmds[i - 1]));
    }
  }

  lemma {:induction false} StaysSpent(dbs: seq<Db>, cmds: seq<Command>, c: nat, i: nat, j: nat)
    requires IsRun(dbs, cmds) && i <= j <= |cmds| && Spent(dbs[i], c) && Stored(dbs, cmds, j) < TWO_64
    ensures Spent(dbs[j], c)
  {
    hide Exec, Stores, Spent;
    if i < j {
      StoredGrows(dbs, cmds, j - 1, j);
      StaysSpent(dbs, cmds, c, i, j - 1);
      RunIsValid(dbs, cmds, j - 1);
      StepHasShape(dbs[j - 1], cmds[j - 1]);
      ShapeKeepsSpent(dbs[j - 1], cmds[j - 1], Exec(dbs[j - 1], cmds[j - 1]), Stores(dbs[j - 1], cmds[j - 1]), c);
    }
  }

  /** For each non-zero CAS value, at most one replace, append or prepend that carries it succeeds. */
  lemma CasIsSpentOnce(dbs: seq<Db>, cmds: seq<Command>, c: nat, i: nat, j: nat)
    requires IsRun(dbs, cmds) && i < j < |cmds| && c != 0 && Stored(dbs, cmds, j) < TWO_64
    requires cmds[i].Carries(c) && cmds[j].Carries(c)
    ensures !(Exec(dbs[i], cmds[i]).status.Success? && Exec(dbs[j], cmds[j]).status.Success?)
  {
    hide Exec;
    if Exec(dbs[i], cmds[i]).status.Success? && Exec(dbs[j], cmds[j]).status.Success? {
      StoredGrows(dbs, cmds, i + 1, j);
      RunIsValid(dbs, cmds, i);
      SuccessSpends(dbs[i], cmds[i], c);
      StaysSpent(dbs, cmds, c, i + 1, j);
      SuccessMeansCurrent(dbs[j], cmds[j], c);
    }
  }

  /** With fewer than 2^64 stores, later stores are given greater values. */
  lemma CasIsNeverReused(dbs: seq<Db>, cmds: seq<Command>, i: nat, j: nat)
    requires IsRun(dbs, cmds) && i < j < |cmds| && Stored(dbs, cmds, j + 1) < TWO_64
    requires Stores(dbs[i], cmds[i]) && Stores(dbs[j], cmds[j])
    ensures 0 < Exec(dbs[i], cmds[i]).cas < Exec(dbs[j], cmds[j]).cas
  {
    hide Exec, Stores;
    StoredGrows(dbs, cmds, i + 1, j);
    IssuedIsNumber(dbs, cmds, i);
    IssuedIsNumber(dbs, cmds, j);
  }

  // ---------------------------------------------------------------------------------------------
  // Exactly when
  // ---------------------------------------------------------------------------------------------

  /** The first n commands were handed non-zero and pairwise distinct CAS values. */
  ghost predicate IssuedWell(dbs: seq<Db>, cmds: seq<Command>, n: nat)
    requires n <= |cmds| <= |dbs|
  {
    && (forall j {:trigger cmds[j]} :: 0 <= j < n && Stores(dbs[j], cmds[j]) ==> Exec(dbs[j], cmds[j]).cas != 0)
    && forall i, j {:trigger cmds[i], cmds[j]} :: 0 <= i < j < n && Stores(dbs[i], cmds[i]) && Stores(dbs[j], cmds[j]) ==>
         Exec(dbs[i], cmds[i]).cas != Exec(dbs[j], cmds[j]).cas
  }

  /** The command that made the v-th store. */
  lemma {:induction false} StoreNumber(dbs: seq<Db>, cmds: seq<Command>, n: nat, v: nat) returns (j: nat)
    requires n <= |cmds| <= |dbs| && 0 < v <= Stored(dbs, cmds, n)
    ensures j < n && Stores(dbs[j], cmds[j]) && Stored(dbs, cmds, j + 1) == v
  {
    hide Stores;
    if Stored(dbs, cmds, n - 1) >= v {
      j := StoreNumber(dbs, cmds, n - 1, v);
    } else {
      j := n - 1;
    }
  }

  /** A run that makes 2^64 stores is handed zero. */
  lemma OverflowIssuesZero(dbs: seq<Db>, cmds: seq<Command>, n: nat) returns (j: nat)
    requires IsRun(dbs, cmds) && n <= |cmds| && Stored(dbs, cmds, n) >= TWO_64
    ensures j < n && Stores(dbs[j], cmds[j]) && Exec(dbs[j], cmds[j]).cas == 0
  {
    hide Exec, Stores, Stored;
    j := StoreNumber(dbs, cmds, n, TWO_64);
    IssuedIsNumber(dbs, cmds, j);
  }

  /** The databases after n times the same command. */
  ghost function Repeated(db: Db, c: Command, n: nat): (dbs: seq<Db>)
    ensures |dbs| == n + 1 && dbs[0] == db
  {
    if n == 0 then [db] else var front := Repeated(db, c, n - 1); front + [Exec(front[n - 1], c).db]
  }

  lemma {:induction false} RepeatedRuns(c: Command, n: nat)
    ensures IsRun(Repeated(Db(map[], 0), c, n), seq(n, i => c))
  {
    hide Exec;
    if n > 0 {
      RepeatedRuns(c, n - 1);
    }
  }

  lemma {:induction false} SetsAreStored(dbs: seq<Db>, cmds: seq<Command>, n: nat)
    requires n <= |cmds| <= |dbs| && forall i :: 0 <= i < |cmds| ==> cmds[i] == CSet([], [], 0, 0, 0, true)
    ensures Stored(dbs, cmds, n) == n
  {
    if n > 0 {
      SetsAreStored(dbs, cmds, n - 1);
    }
  }

  /** There is such a run: 2^64 times the same set. */
  lemma OverflowIsReached() returns (dbs: seq<Db>, cmds: seq<Command>, j: nat)
    ensures IsRun(dbs, cmds) && Stored(dbs, cmds, |cmds|) == TWO_64
    ensures j < |cmds| && Stores(dbs[j], cmds[j]) && Exec(dbs[j], cmds[j]).cas == 0
  {
    hide Exec, Stored, Stores, IsRun;
    var c := CSet([], [], 0, 0, 0, true);
    dbs, cmds := Repeated(Db(map[], 0), c, TWO_64), seq(TWO_64, i => c);
    RepeatedRuns(c, TWO_64);
    SetsAreStored(dbs, cmds, TWO_64);
    j := OverflowIssuesZero(dbs, cmds, TWO_64);
  }

  /** The CAS values handed out are non-zero and pairwise distinct if and only if fewer than 2^64 stores were made. */
  lemma CasHoldsIff(dbs: seq<Db>, cmds: seq<Command>, n: nat)
    requires IsRun(dbs, cmds) && n <= |cmds|
    ensures IssuedWell(dbs, cmds, n) <==> Stored(dbs, cmds, n) < TWO_64
  {
    hide Exec, Stores, Stored;
    if Stored(dbs, cmds, n) < TWO_64 {
      forall j {:trigger cmds[j]} | 0 <= j < n && Stores(dbs[j], cmds[j])
        ensures Exec(dbs[j], cmds[j]).cas != 0
      {
        StoredGrows(dbs, cmds, j + 1, n);
        IssuedIsNumber(dbs, cmds, j);
      }
      forall i, j {:trigger cmds[i], cmds[j]} | 0 <= i < j < n && Stores(dbs[i], cmds[i]) && Stores(dbs[j], cmds[j])
        ensures Exec(dbs[i], cmds[i]).cas != Exec(dbs[j], cmds[j]).cas
      {
        StoredGrows(dbs, cmds, j + 1, n);
        CasIsNeverReused(dbs, cmds, i, j);
      }
    } else {
      var j := OverflowIssuesZero(dbs, cmds, n);
    }
  }
}
