/**
  Writing out the send list of a memaslap connection. The kernel takes as much of the current message
  as it likes; what it took is removed from the list in place, and the rest waits for the next call.
 */
module Transmit {
  import opened ByteOrder
  import opened Slices
  import opened SendList

  /**
    What the kernel does with a sendmsg: it takes up to `room` bytes when `room` is positive and fails
    otherwise, with EAGAIN or EWOULDBLOCK when `again`. `armed` is the result of re-registering for the
    write event after such a failure.
   */
  datatype Kernel = Kernel(room: int, again: bool, armed: bool)

  ghost predicate Taking(kernels: seq<Kernel>) { forall i :: 0 <= i < |kernels| ==> kernels[i].room > 0 }

  datatype Outcome = Complete | Incomplete | SoftError | HardError

  // ---------------------------------------------------------------------------------------------
  // What is still to be written
  // ---------------------------------------------------------------------------------------------

  /** The bytes of a run of pieces, first piece first. */
  ghost function Wire(b: seq<Iov>): Bytes {
    if b == [] then [] else b[0].Content() + Wire(b[1..])
  }

  /** The pieces of a message once `n` of its bytes are gone. */
  ghost function Drop(b: seq<Iov>, n: nat): seq<Iov> {
    if b == [] then []
    else if b[0].len <= n then Drop(b[1..], n - b[0].len)
    else [Advance(b[0], n)] + b[1..]
  }

  function Advance(e: Iov, n: nat): Iov
    requires n <= e.len
  {
    if e.Slot? then e else Part(e.src, e.off + n, e.len - n)
  }

  /** A header slot has been filled in, so every piece is a part of some buffer. */
  ghost predicate Parts(b: seq<Iov>) { forall i :: 0 <= i < |b| ==> b[i].Part? && b[i].Valid() }

  ghost predicate Laid(es: seq<Iov>, ms: seq<Msg>) {
    && (forall i :: 0 <= i < |ms| ==> ms[i].at + ms[i].len <= |es|)
    && (forall i, j :: 0 <= i < j < |ms| ==> ms[i].at + ms[i].len <= ms[j].at)
  }

  ghost function Pieces(es: seq<Iov>, m: Msg): seq<Iov>
    requires m.at + m.len <= |es|
  {
    es[m.at..m.at + m.len]
  }

  /** All bytes of the messages from the k-th on. */
  ghost function Pending(es: seq<Iov>, ms: seq<Msg>, k: nat): Bytes
    requires Laid(es, ms)
    decreases |ms| - k
  {
    if k >= |ms| then [] else Wire(Pieces(es, ms[k])) + Pending(es, ms, k + 1)
  }

  /** Dropping n bytes of the pieces drops n bytes of what they stand for, and leaves no empty piece in front. */
  lemma {:induction false} DropIsSuffix(b: seq<Iov>, n: nat)
    requires Parts(b) && n <= |Wire(b)|
    ensures Parts(Drop(b, n)) && Wire(Drop(b, n)) == Wire(b)[n..]
    ensures Drop(b, n) != [] ==> Drop(b, n)[0].len > 0
    ensures |Drop(b, n)| <= |b|
  {
    hide *;
    if b == [] {
      DropNothing(n);
    } else if b[0].len <= n {
      DropWhole(b, n);
      DropIsSuffix(b[1..], n - b[0].len);
      SliceOfSlice(Wire(b), b[0].len, |Wire(b)|, n, |Wire(b)|);
    } else {
      DropPart(b, n);
      DropInside(b, n);
    }
  }

  lemma DropInside(b: seq<Iov>, n: nat)
    requires Parts(b) && b != [] && n < b[0].len
    ensures Wire(b[0 := Advance(b[0], n)]) == Wire(b)[n..]
  {
    var e, tail := b[0], b[1..];
    var c := e.Content();
    assert Advance(e, n).Content() == c[n..];
    hide *;
    assert b == [e] + tail && b[0 := Advance(e, n)] == [Advance(e, n)] + tail;
    WireCons(e, tail);
    WireCons(Advance(e, n), tail);
    assert (c + Wire(tail))[n..] == c[n..] + Wire(tail);
  }

  /** Messages behind a change do not see it. */
  lemma {:induction false} PendingKept(es: seq<Iov>, ms: seq<Msg>, es': seq<Iov>, ms': seq<Msg>, k: nat)
    requires Laid(es, ms) && Laid(es', ms') && |ms| == |ms'| && |es| == |es'|
    requires forall i :: k <= i < |ms| ==> ms[i] == ms'[i]
    requires forall i :: k <= i < |ms| ==> Pieces(es, ms[i]) == Pieces(es', ms[i])
    ensures Pending(es, ms, k) == Pending(es', ms', k)
    decreases |ms| - k
  {
    hide Wire, Laid;
    if k < |ms| {
      PendingKept(es, ms, es', ms', k + 1);
    }
  }

  lemma InArray(es: seq<Iov>, ms: seq<Msg>, k: nat)
    requires Laid(es, ms) && k < |ms|
    ensures ms[k].at + ms[k].len <= |es|
  {
  }

  lemma PieceAt(es: seq<Iov>, m: Msg)
    requires m.at + m.len <= |es|
    ensures |Pieces(es, m)| == m.len && forall i :: 0 <= i < m.len ==> Pieces(es, m)[i] == es[m.at + i]
  {
  }

  lemma PiecesBehind(es: seq<Iov>, m: Msg, p: nat)
    requires m.at + m.len <= |es| && p <= m.len
    ensures |Pieces(es, m)| == m.len && Pieces(es, m)[p..] == Pieces(es, Msg(m.at + p, m.len - p))
  {
    SliceOfSlice(es, m.at, m.at + m.len, m.at + p, m.at + m.len);
  }

  lemma PartsOfParts(es: seq<Iov>, m: Msg)
    requires Parts(es) && m.at + m.len <= |es|
    ensures Parts(Pieces(es, m))
  {
  }

  /** One turn of the loop that removes the pieces written whole. */
  lemma DropWhole(b: seq<Iov>, n: nat)
    requires Parts(b) && b != [] && b[0].len <= n <= |Wire(b)|
    ensures Parts(b[1..]) && Drop(b, n) == Drop(b[1..], n - b[0].len) && n - b[0].len <= |Wire(b[1..])|
    ensures Wire(b)[b[0].len..] == Wire(b[1..])
  {
  }

  lemma DropNothing(n: nat)
    requires n <= |Wire([])|
    ensures Drop([], n) == [] && Parts([]) && Wire([]) == [] && n == 0
  {
  }

  /** The loop has stopped in front of a piece that was not written whole. */
  lemma DropPart(b: seq<Iov>, n: nat)
    requires Parts(b) && b != [] && n < b[0].len
    ensures Drop(b, n) == b[0 := Advance(b[0], n)] && Parts(Drop(b, n)) && Drop(b, n)[0].len == b[0].len - n
  {
  }

  /** The array once the first piece that is left has been adjusted. */
  ghost function Adjusted(es: seq<Iov>, at: nat, res: nat): seq<Iov>
    requires res > 0 ==> at < |es| && res <= es[at].len
  {
    if res > 0 then es[at := Advance(es[at], res)] else es
  }

  lemma AdjustedIsDrop(b: seq<Iov>, n: nat)
    requires Parts(b) && if b == [] then n == 0 else n < b[0].len
    ensures Drop(b, n) == Adjusted(b, 0, n)
  {
    if b != [] {
      DropPart(b, n);
    }
  }

  lemma AdjustedPieces(es: seq<Iov>, m: Msg, n: nat)
    requires Parts(es) && m.at + m.len <= |es|
    requires if m.len == 0 then n == 0 else n < es[m.at].len
    ensures Parts(Adjusted(es, m.at, n)) && Pieces(Adjusted(es, m.at, n), m) == Adjusted(Pieces(es, m), 0, n)
  {
    var es' := Adjusted(es, m.at, n);
    assert n > 0 ==> Pieces(es', m) == Pieces(es, m)[0 := es'[m.at]];
  }

  /** A change confined to one message leaves the others where and as they were. */
  lemma OneMessageChanges(es: seq<Iov>, ms: seq<Msg>, k: nat, es': seq<Iov>, m: Msg)
    requires Laid(es, ms) && k < |ms| && |es'| == |es|
    requires ms[k].at <= m.at && m.at + m.len == ms[k].at + ms[k].len
    requires forall i :: 0 <= i < |es| && !(m.at <= i < m.at + m.len) ==> es'[i] == es[i]
    ensures Laid(es', ms[k := m]) && Pending(es', ms[k := m], k + 1) == Pending(es, ms, k + 1)
    ensures forall i :: 0 <= i < |ms| && i != k ==> Pieces(es', ms[i]) == Pieces(es, ms[i])
  {
    var ms' := ms[k := m];
    forall i | 0 <= i < |ms| && i != k
      ensures Pieces(es', ms[i]) == Pieces(es, ms[i])
    {
    }
    PendingKept(es, ms, es', ms', k + 1);
  }

  /** How many bytes a message holds, as sendmsg adds them up. */
  function Total(b: seq<Iov>): nat {
    if b == [] then 0 else b[0].len + Total(b[1..])
  }

  lemma {:induction false} TotalIsWire(b: seq<Iov>)
    requires Parts(b)
    ensures Total(b) == |Wire(b)|
  {
    if b != [] {
      TotalIsWire(b[1..]);
    }
  }

  /** The result of sendmsg on a message. */
  function Sendmsg(kernel: Kernel, b: seq<Iov>): int {
    if kernel.room < 0 then -1 else if kernel.room < Total(b) then kernel.room else Total(b)
  }

  /** No message behind the current one is empty, and the current one is used up or has bytes. */
  ghost predicate Loaded(es: seq<Iov>, ms: seq<Msg>, k: nat)
    requires Laid(es, ms)
  {
    && (k < |ms| && ms[k].len > 0 ==> Wire(Pieces(es, ms[k])) != [])
    && forall i :: k < i < |ms| ==> Wire(Pieces(es, ms[i])) != []
  }

  lemma FrontHasBytes(b: seq<Iov>)
    requires Parts(b) && (b != [] ==> b[0].len > 0)
    ensures b != [] ==> Wire(b) != []
  {
  }

  lemma PrefixOfFirst(first: Bytes, rest: Bytes, n: nat)
    requires n <= |first|
    ensures first + rest == first[..n] + (first + rest)[n..]
  {
  }

  lemma NothingPending(es: seq<Iov>, ms: seq<Msg>)
    requires Laid(es, ms)
    ensures Pending(es, ms, |ms|) == []
  {
  }

  lemma CurrentHasBytes(es: seq<Iov>, ms: seq<Msg>, k: nat)
    requires Laid(es, ms) && k < |ms|
    ensures Pending(es, ms, k) == Wire(Pieces(es, ms[k])) + Pending(es, ms, k + 1)
    ensures Loaded(es, ms, k) && ms[k].len > 0 ==> |Wire(Pieces(es, ms[k]))| > 0
  {
  }

  lemma StillLoaded(es: seq<Iov>, ms: seq<Msg>, es': seq<Iov>, ms': seq<Msg>, k: nat)
    requires Laid(es, ms) && Laid(es', ms') && k < |ms| == |ms'|
    requires forall i :: k < i < |ms| ==> ms'[i] == ms[i] && Pieces(es', ms'[i]) == Pieces(es, ms[i])
    requires ms'[k].len > 0 ==> Wire(Pieces(es', ms'[k])) != []
    ensures Loaded(es, ms, k) ==> Loaded(es', ms', k)
  {
  }

  // ---------------------------------------------------------------------------------------------
  // The list that was built is what gets written
  // ---------------------------------------------------------------------------------------------

  lemma {:induction false} WireConcat(a: seq<Iov>, b: seq<Iov>)
    ensures Wire(a + b) == Wire(a) + Wire(b)
  {
    if a == [] {
      assert a + b == b;
    } else {
      WireConcat(a[1..], b);
      WireStep(a, b);
    }
  }

  lemma EmptyWire()
    ensures Wire([]) == [] && Payload([]) == []
  {
  }

  lemma WireCons(e: Iov, b: seq<Iov>)
    ensures Wire([e] + b) == e.Content() + Wire(b)
  {
    assert ([e] + b)[1..] == b;
  }

  lemma WireStep(a: seq<Iov>, b: seq<Iov>)
    requires a != [] && Wire(a[1..] + b) == Wire(a[1..]) + Wire(b)
    ensures Wire(a + b) == Wire(a) + Wire(b)
  {
    hide *;
    var e, tail := a[0], a[1..];
    assert a == [e] + tail && a + b == [e] + (tail + b);
    WireCons(e, tail);
    WireCons(e, tail + b);
    ConcatAssoc(e.Content(), Wire(tail), Wire(b));
  }

  /** The wire order is the order in which the pieces were added. */
  lemma {:induction false} WireIsPayload(es: seq<Iov>)
    ensures Wire(es) == Payload(es)
  {
    hide *;
    EmptyWire();
    if es != [] {
      var front, e := es[..|es| - 1], es[|es| - 1];
      WireIsPayload(front);
      assert es == front + [e];
      WireAppend(front, e);
      PayloadAppend(front, e);
    }
  }

  lemma WireAppend(front: seq<Iov>, e: Iov)
    ensures Wire(front + [e]) == Wire(front) + e.Content()
  {
    hide *;
    WireConcat(front, [e]);
    assert [e] == [e] + [];
    WireCons(e, []);
    EmptyWire();
  }

  /** The messages cover the array without gaps. */
  ghost predicate Chained(es: seq<Iov>, ms: seq<Msg>) {
    && (if ms == [] then es == [] else ms[0].at == 0)
    && forall i {:trigger ms[i].len} :: 0 <= i < |ms| ==> ms[i].at + ms[i].len == (if i + 1 < |ms| then ms[i + 1].at else |es|)
  }

  lemma BuiltListIsChained(blocks: seq<seq<Iov>>, es: seq<Iov>, ms: seq<Msg>)
    requires LaidOut(blocks, es, ms)
    ensures Chained(es, ms)
  {
    forall i | 0 <= i < |ms|
      ensures ms[i].at + ms[i].len == |Flatten(blocks[..i + 1])|
    {
      FlattenStep(blocks, i);
    }
    assert blocks[..|ms|] == blocks;
  }

  lemma {:induction false} ChainIsPending(es: seq<Iov>, ms: seq<Msg>, k: nat)
    requires Chained(es, ms) && Laid(es, ms) && k < |ms|
    ensures Pending(es, ms, k) == Wire(es[ms[k].at..])
    decreases |ms| - k
  {
    hide Wire;
    var m := ms[k];
    var end := m.at + m.len;
    if k + 1 < |ms| {
      assert ms[k].at + ms[k].len == ms[k + 1].at;
      ChainIsPending(es, ms, k + 1);
    } else {
      assert ms[k].at + ms[k].len == |es|;
      assert es[end..] == [];
      EmptyWire();
    }
    assert Pending(es, ms, k + 1) == Wire(es[end..]);
    hide Laid, Chained;
    assert es[m.at..] == Pieces(es, m) + es[end..];
    WireConcat(Pieces(es, m), es[end..]);
  }

  lemma {:induction false} FlattenGrowsWith(blocks: seq<seq<Iov>>, i: nat, j: nat)
    requires i <= j <= |blocks|
    ensures |Flatten(blocks[..i])| <= |Flatten(blocks[..j])|
  {
    if i < j {
      FlattenGrowsWith(blocks, i, j - 1);
      FlattenStep(blocks, j - 1);
    }
  }

  lemma BuiltListIsLaid(blocks: seq<seq<Iov>>, es: seq<Iov>, ms: seq<Msg>)
    requires LaidOut(blocks, es, ms)
    ensures Laid(es, ms)
  {
    hide Flatten;
    forall i, j | 0 <= i < j <= |ms|
      ensures ms[i].at + ms[i].len <= |Flatten(blocks[..j])|
    {
      FlattenStep(blocks, i);
      FlattenGrowsWith(blocks, i + 1, j);
    }
    assert blocks[..|ms|] == blocks;
  }

  /** A list built by ms_add_iov is to be written from its first byte to its last. */
  lemma BuiltListIsPending(blocks: seq<seq<Iov>>, es: seq<Iov>, ms: seq<Msg>)
    requires LaidOut(blocks, es, ms)
    ensures Laid(es, ms) && Pending(es, ms, 0) == Payload(es)
  {
    hide Flatten, LaidOut, Laid, Payload, Wire;
    BuiltListIsLaid(blocks, es, ms);
    BuiltListIsChained(blocks, es, ms);
    WireIsPayload(es);
    if ms != [] {
      ChainIsPending(es, ms, 0);
      assert es[0..] == es;
    } else {
      EmptyWire();
    }
  }

  // ---------------------------------------------------------------------------------------------
  // The code
  // ---------------------------------------------------------------------------------------------

  class Sender {
    const iov: array<Iov>
    const msglist: array<Msg>
    const msgused: nat
    var msgcurr: nat

    ghost predicate Valid()
      reads this, iov, msglist
    {
      && msgcurr <= msgused == msglist.Length
      && Parts(iov[..]) && Laid(iov[..], msglist[..])
    }

    /** Everything that has not been handed to the kernel. */
    ghost function Left(): Bytes
      requires Valid()
      reads this, iov, msglist
    {
      Pending(iov[..], msglist[..], msgcurr)
    }

    constructor (blocks: seq<seq<Iov>>, es: seq<Iov>, ms: seq<Msg>)
      requires LaidOut(blocks, es, ms) && Parts(es)
      ensures Valid() && msgcurr == 0 && Left() == Payload(es)
      ensures fresh(iov) && fresh(msglist)
    {
      iov := new Iov[|es|](i requires 0 <= i < |es| => es[i]);
      msglist := new Msg[|ms|](i requires 0 <= i < |ms| => ms[i]);
      msgused, msgcurr := |ms|, 0;
      new;
      assert iov[..] == es && msglist[..] == ms;
      BuiltListIsPending(blocks, es, ms);
    }

    /** The loop of ms_transmit: takes the pieces that were written whole off the current message. */
    method PopWhole(n: nat) returns (res: nat, ghost p: nat)
      requires Valid() && msgcurr < msgused && n <= |Wire(Pieces(iov[..], msglist[msgcurr]))|
      modifies msglist
      ensures var m, m' := old(msglist[msgcurr]), msglist[msgcurr];
        && p <= m.len && m' == Msg(m.at + p, m.len - p) && msglist[..] == old(msglist[..])[msgcurr := m']
        && Drop(Pieces(iov[..], m'), res) == Drop(Pieces(iov[..], m), n)
        && (if m'.len == 0 then res == 0 else res < iov[m'.at].len)
    {
      hide Drop, Laid, Parts, Wire, Iov.Valid, Iov.Content;
      ghost var es, m0, ms := iov[..], msglist[msgcurr], msglist[..];
      InArray(es, ms, msgcurr);
      ghost var b := Pieces(es, m0);
      PartsOfParts(es, m0);
      PieceAt(es, m0);
      hide *;
      res, p := n, 0;
      assert b[0..] == b;
      while msglist[msgcurr].len > 0 && res >= iov[msglist[msgcurr].at].len
        invariant p <= m0.len && msglist[..] == ms[msgcurr := Msg(m0.at + p, m0.len - p)]
        invariant msglist[msgcurr] == Msg(m0.at + p, m0.len - p)
        invariant Parts(b[p..]) && res <= |Wire(b[p..])| && Drop(b[p..], res) == Drop(b, n)
        modifies msglist
        decreases msglist[msgcurr].len
      {
        var m := msglist[msgcurr];
        assert b[p..][0] == b[p] == es[m.at] && b[p..][1..] == b[p + 1..];
        DropWhole(b[p..], res);
        res := res - iov[m.at].len;
        msglist[msgcurr] := Msg(m.at + 1, m.len - 1);
        p := p + 1;
      }
      if p == m0.len {
        EmptyWire();
        assert b[p..] == [];
      }
      PiecesBehind(es, m0, p);
    }

    /** The loop and the adjustment behind it: `n` bytes of the current message are gone. */
    method Consume(n: nat)
      requires Valid() && msgcurr < msgused && n <= |Wire(Pieces(iov[..], msglist[msgcurr]))|
      modifies iov, msglist
      ensures Valid() && Pieces(iov[..], msglist[msgcurr]) == Drop(old(Pieces(iov[..], msglist[msgcurr])), n)
      ensures Pending(iov[..], msglist[..], msgcurr + 1) == old(Pending(iov[..], msglist[..], msgcurr + 1))
      ensures forall i :: 0 <= i < msgused && i != msgcurr ==>
        msglist[i] == old(msglist[i]) && Pieces(iov[..], msglist[i]) == old(Pieces(iov[..], msglist[i]))
    {
      hide Drop, Wire, Pending, Laid, Parts, Advance, Pieces;
      ghost var es, ms := iov[..], msglist[..];
      InArray(es, ms, msgcurr);
      var res, p := PopWhole(n);
      var m := msglist[msgcurr];
      if res > 0 {
        iov[m.at] := Advance(iov[m.at], res);
      }
      PartsOfParts(es, m);
      PieceAt(es, m);
      AdjustedIsDrop(Pieces(es, m), res);
      AdjustedPieces(es, m, res);
      assert iov[..] == Adjusted(es, m.at, res);
      OneMessageChanges(es, ms, msgcurr, iov[..], m);
    }

    /** The effect of a sendmsg that took `n` bytes: they are exactly the first bytes that were left. */
    method Written(n: nat)
      requires Valid() && msgcurr < msgused && 0 < n <= |Wire(Pieces(iov[..], msglist[msgcurr]))|
      modifies iov, msglist
      ensures Valid() && n <= |old(Left())| && Left() == old(Left())[n..]
      ensures old(Loaded(iov[..], msglist[..], msgcurr)) ==> Loaded(iov[..], msglist[..], msgcurr)
    {
      hide Drop, Wire, Parts, Laid, Pending, Loaded, Pieces;
      InArray(iov[..], msglist[..], msgcurr);
      ghost var es, ms := iov[..], msglist[..];
      ghost var b, rest := Pieces(es, ms[msgcurr]), Pending(es, ms, msgcurr + 1);
      PartsOfParts(es, ms[msgcurr]);
      DropIsSuffix(b, n);
      FrontHasBytes(Drop(b, n));
      CurrentHasBytes(es, ms, msgcurr);
      Consume(n);
      InArray(iov[..], msglist[..], msgcurr);
      CurrentHasBytes(iov[..], msglist[..], msgcurr);
      assert (Wire(b) + rest)[n..] == Wire(b)[n..] + rest;
      PieceAt(iov[..], msglist[msgcurr]);
      StillLoaded(es, ms, iov[..], msglist[..], msgcurr);
    }

    /** The first test of ms_transmit: a finished message is left behind. */
    method SkipFinished()
      requires Valid()
      modifies this`msgcurr
      ensures Valid() && Left() == old(Left())
      ensures old(Loaded(iov[..], msglist[..], msgcurr)) ==>
        Loaded(iov[..], msglist[..], msgcurr) && (msgcurr < msgused ==> msglist[msgcurr].len > 0)
      ensures msgcurr == old(if msgcurr < msgused && msglist[msgcurr].len == 0 then msgcurr + 1 else msgcurr)
    {
      EmptyWire();
      if msgcurr < msgused && msglist[msgcurr].len == 0 {
        assert Pieces(iov[..], msglist[msgcurr]) == [];
        msgcurr := msgcurr + 1;
      }
    }

    /**
      ms_transmit. What the kernel took of the entries and what is left are together what was left before; the list is
      reported complete only when nothing is left; an error changes nothing but the current message.
     */
    method Transmit(kernel: Kernel) returns (r: Outcome, ghost wrote: Bytes)
      requires Valid()
      modifies this`msgcurr, iov, msglist
      ensures Valid() && old(Left()) == wrote + Left()
      ensures r.Complete? <==> msgcurr == msgused
      ensures r.Complete? ==> Left() == []
      ensures if r.Incomplete? then 0 < |wrote| <= kernel.room else wrote == []
      ensures r.SoftError? <==> !r.Complete? && kernel.room < 0 && kernel.again && kernel.armed
      ensures old(Loaded(iov[..], msglist[..], msgcurr)) ==> Loaded(iov[..], msglist[..], msgcurr)
      ensures old(Loaded(iov[..], msglist[..], msgcurr)) && r.HardError? ==>
        kernel.room == 0 || (kernel.room < 0 && !(kernel.again && kernel.armed))
    {
      hide Drop, Wire, Parts, Laid, Pending, Loaded;
      SkipFinished();
      wrote := [];
      if msgcurr == msgused {
        NothingPending(iov[..], msglist[..]);
        return Complete, wrote;
      }
      InArray(iov[..], msglist[..], msgcurr);
      PartsOfParts(iov[..], msglist[msgcurr]);
      var b := iov[msglist[msgcurr].at..msglist[msgcurr].at + msglist[msgcurr].len];
      assert b == Pieces(iov[..], msglist[msgcurr]);
      TotalIsWire(b);
      CurrentHasBytes(iov[..], msglist[..], msgcurr);
      var res := Sendmsg(kernel, b);
      if res > 0 {
        wrote := Wire(b)[..res];
        ghost var rest := Pending(iov[..], msglist[..], msgcurr + 1);
        PrefixOfFirst(Wire(b), rest, res);
        Written(res);
        return Incomplete, wrote;
      }
      r := if res == -1 && kernel.again && kernel.armed then SoftError else HardError;
    }

    /**
      The calls of ms_transmit while a request is written, soft errors included. Whatever the kernel does,
      the wire carries the list in order, without loss or repetition. If it always takes something, the
      list is written, in no more calls than it has bytes and one more.
     */
    method Drain(kernels: seq<Kernel>) returns (r: Outcome, ghost wire: Bytes)
      requires Valid()
      modifies this`msgcurr, iov, msglist
      ensures Valid() && old(Left()) == wire + Left()
      ensures r.Complete? ==> wire == old(Left())
      ensures old(Loaded(iov[..], msglist[..], msgcurr)) && |kernels| > |old(Left())| && Taking(kernels) ==> r.Complete?
    {
      hide Loaded, Sender.Left;
      r, wire := Incomplete, [];
      var i := 0;
      while i < |kernels| && (r.Incomplete? || r.SoftError?)
        invariant 0 <= i <= |kernels| && Valid() && old(Left()) == wire + Left()
        invariant r.Complete? ==> Left() == []
        invariant old(Loaded(iov[..], msglist[..], msgcurr)) ==> Loaded(iov[..], msglist[..], msgcurr)
        invariant old(Loaded(iov[..], msglist[..], msgcurr)) && Taking(kernels) ==> r.Complete? || (r.Incomplete? && i <= |wire|)
      {
        ghost var w;
        r, w := Transmit(kernels[i]);
        ConcatAssoc(wire, w, Left());
        wire, i := wire + w, i + 1;
      }
    }
  }
}
