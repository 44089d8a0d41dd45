/**
  The scatter/gather send list of a memaslap connection: one growing array of pieces, and messages
  that each cover a run of it. Over UDP a message is one datagram: it starts with room for a header
  and is limited in size, so a piece that does not fit is split.
 */
module SendList {
  import opened ByteOrder
  import opened UdpLimits

  const UDP_MAX_SEND_PAYLOAD_SIZE := 1400
  const IOV_MAX := 1024

  /** How much k datagrams can carry: each its limit of 1400 less its header of 8. */
  ghost function Room(k: nat): nat { 1392 * k }

  /** struct iovec: the room left for a header (a null base), or a part of a caller's buffer. */
  datatype Iov = Slot(len: nat) | Part(src: Bytes, off: nat, len: nat) {
    ghost predicate Valid() { Part? ==> off + len <= |src| }

    /** The caller's bytes this piece stands for. */
    ghost function Content(): Bytes {
      if Part? && off + len <= |src| then src[off..off + len] else []
    }
  }

  /** struct msghdr: msg_iov as an index into the array, and msg_iovlen. */
  datatype Msg = Msg(at: nat, len: nat)

  // ---------------------------------------------------------------------------------------------
  // What a send list should be
  // ---------------------------------------------------------------------------------------------

  ghost predicate AllValid(es: seq<Iov>) { forall i :: 0 <= i < |es| ==> es[i].Valid() }

  /** The bytes to be delivered, without the header slots. */
  ghost function Payload(es: seq<Iov>): Bytes {
    if es == [] then [] else Payload(es[..|es| - 1]) + es[|es| - 1].Content()
  }

  /** The size of a message on the wire, with its header. */
  ghost function Size(es: seq<Iov>): nat {
    if es == [] then 0 else Size(es[..|es| - 1]) + es[|es| - 1].len
  }

  /** One message: not too many pieces; over UDP one header slot in front, and not too many bytes. */
  ghost predicate Block(udp: bool, b: seq<Iov>) {
    && |b| <= IOV_MAX
    && (udp ==> Size(b) <= UDP_MAX_SEND_PAYLOAD_SIZE && b != [] && b[0] == Slot(UDP_HEADER_SIZE))
    && forall j :: (if udp then 1 else 0) <= j < |b| ==> b[j].Part?
  }

  /** A message that can take no more. */
  ghost predicate Full(udp: bool, b: seq<Iov>) {
    |b| == IOV_MAX || (udp && Size(b) == UDP_MAX_SEND_PAYLOAD_SIZE)
  }

  /** Every message is well formed, and all but the last are full: no datagram is wasted. */
  ghost predicate Packed(udp: bool, blocks: seq<seq<Iov>>) {
    && (forall i :: 0 <= i < |blocks| ==> Block(udp, blocks[i]))
    && (forall i :: 0 <= i < |blocks| - 1 ==> Full(udp, blocks[i]))
  }

  /** All is well with the messages before the last. */
  ghost predicate Ready(udp: bool, blocks: seq<seq<Iov>>) {
    && blocks != []
    && Packed(udp, blocks[..|blocks| - 1])
    && forall i :: 0 <= i < |blocks| - 1 ==> Full(udp, blocks[i])
  }

  ghost function Flatten(blocks: seq<seq<Iov>>): seq<Iov> {
    if blocks == [] then [] else Flatten(blocks[..|blocks| - 1]) + blocks[|blocks| - 1]
  }

  /** The array holds the messages one after the other; msg_iov is the sum of the lengths before it. */
  ghost predicate LaidOut(blocks: seq<seq<Iov>>, es: seq<Iov>, msgs: seq<Msg>) {
    && es == Flatten(blocks)
    && |msgs| == |blocks|
    && forall i :: 0 <= i < |msgs| ==> msgs[i] == Msg(|Flatten(blocks[..i])|, |blocks[i]|)
  }

  /** One more piece in the last message. */
  ghost function Grow(blocks: seq<seq<Iov>>, e: Iov): seq<seq<Iov>>
    requires blocks != []
  {
    blocks[..|blocks| - 1] + [blocks[|blocks| - 1] + [e]]
  }

  ghost function Last(blocks: seq<seq<Iov>>): seq<Iov>
    requires blocks != []
  {
    blocks[|blocks| - 1]
  }

  // ---------------------------------------------------------------------------------------------
  // Facts
  // ---------------------------------------------------------------------------------------------

  lemma PayloadAppend(es: seq<Iov>, e: Iov)
    ensures Payload(es + [e]) == Payload(es) + e.Content()
  {
    assert (es + [e])[..|es|] == es;
  }

  lemma SizeAppend(es: seq<Iov>, e: Iov)
    ensures Size(es + [e]) == Size(es) + e.len
  {
    assert (es + [e])[..|es|] == es;
  }

  /** Adding a piece that fits the last message keeps the list packed. */
  lemma PackedGrows(udp: bool, blocks: seq<seq<Iov>>, e: Iov)
    requires Ready(udp, blocks) && Block(udp, Last(blocks) + [e])
    ensures Packed(udp, Grow(blocks, e)) && Last(Grow(blocks, e)) == Last(blocks) + [e]
  {
    var blocks', k := Grow(blocks, e), |blocks| - 1;
    forall i | 0 <= i < |blocks'|
      ensures Block(udp, blocks'[i])
    {
      assert i < k ==> blocks'[i] == blocks[..k][i];
    }
  }

  lemma ReadyOpens(udp: bool, blocks: seq<seq<Iov>>)
    requires Packed(udp, blocks) && (blocks == [] || Full(udp, Last(blocks)))
    ensures Ready(udp, blocks + [[]]) && Last(blocks + [[]]) == []
  {
    assert (blocks + [[]])[..|blocks|] == blocks;
  }

  lemma PackedIsReady(udp: bool, blocks: seq<seq<Iov>>)
    requires blocks != [] && Packed(udp, blocks)
    ensures Ready(udp, blocks) && Block(udp, Last(blocks))
  {
  }

  /** A part goes into a message that is not full, and over UDP does not exceed the limit. */
  ghost predicate Fits(udp: bool, b: seq<Iov>, e: Iov) {
    Block(udp, b) && |b| < IOV_MAX && (udp ==> Size(b) + e.len <= UDP_MAX_SEND_PAYLOAD_SIZE)
  }

  /** What is put into the list when `leftover` bytes of the piece have to wait. */
  function Taken(piece: Iov, leftover: nat): (r: Iov)
    requires leftover <= piece.len
  {
    if piece.Slot? then piece else piece.(len := piece.len - leftover)
  }

  lemma TakenAgain(piece: Iov, leftover: nat, left: nat)
    requires piece.Valid() && piece.Part? && left <= leftover <= piece.len
    ensures var rest := Rest(piece, leftover);
      Taken(piece, leftover).Content() + Taken(rest, left).Content() == Taken(piece, left).Content()
  {
  }

  /** What of the piece is in the list: when a round failed, `left` bytes were still to come, and no header slot. */
  ghost function Added(piece: Iov, ok: bool, left: nat): Bytes
    requires left <= piece.len
  {
    if piece.Slot? && !ok then [] else Taken(piece, left).Content()
  }

  lemma AddedAgain(piece: Iov, ok: bool, leftover: nat, left: nat)
    requires piece.Valid() && piece.Part? && left <= leftover <= piece.len
    ensures var rest := Rest(piece, leftover);
      Added(piece, true, leftover) + Added(rest, ok, left) == Added(piece, ok, left) && Rest(rest, left) == Rest(piece, left)
  {
    hide Iov.Content;
    TakenAgain(piece, leftover, left);
  }

  lemma AddedWhole(piece: Iov)
    ensures Added(piece, true, 0) == piece.Content()
  {
    assert Taken(piece, 0) == piece;
  }

  /** Whether the allocation of a round succeeds; one that is not listed does. */
  predicate MemoryAt(memory: seq<bool>, round: nat) { round < |memory| ==> memory[round] }

  lemma FitsMakesBlock(udp: bool, b: seq<Iov>, e: Iov)
    requires if e.Slot? then b == [] && udp && e.len == UDP_HEADER_SIZE else Fits(udp, b, e)
    ensures Block(udp, b + [e]) && Size(b + [e]) == Size(b) + e.len
  {
    SizeAppend(b, e);
  }

  lemma EmptyMessageIsEmpty()
    ensures Size([]) == 0 && Payload([]) == []
  {
  }

  /** Without UDP an empty message is well formed as it is. */
  lemma EmptyMessage(blocks: seq<seq<Iov>>)
    requires Ready(false, blocks) && Last(blocks) == []
    ensures Packed(false, blocks)
  {
    var k := |blocks| - 1;
    forall i | 0 <= i < k
      ensures Block(false, blocks[i])
    {
      assert blocks[i] == blocks[..k][i];
    }
  }

  lemma GrowOpened(blocks: seq<seq<Iov>>, e: Iov)
    ensures Grow(blocks + [[]], e) == blocks + [[e]]
  {
    assert (blocks + [[]])[..|blocks|] == blocks && [] + [e] == [e];
  }

  lemma GrowPrefix(blocks: seq<seq<Iov>>, e: Iov, i: nat)
    requires i < |blocks|
    ensures Grow(blocks, e)[..i] == blocks[..i]
  {
  }

  lemma FlattenGrows(blocks: seq<seq<Iov>>, e: Iov)
    requires blocks != []
    ensures Flatten(Grow(blocks, e)) == Flatten(blocks) + [e]
  {
    var k := |blocks| - 1;
    var front := Flatten(blocks[..k]);
    GrowPrefix(blocks, e, k);
    assert Grow(blocks, e)[k] == blocks[k] + [e];
    assert front + (blocks[k] + [e]) == (front + blocks[k]) + [e];
  }

  lemma FlattenStep(blocks: seq<seq<Iov>>, i: nat)
    requires i < |blocks|
    ensures Flatten(blocks[..i + 1]) == Flatten(blocks[..i]) + blocks[i]
  {
    assert blocks[..i + 1][..i] == blocks[..i];
  }

  lemma LayoutGrows(blocks: seq<seq<Iov>>, es: seq<Iov>, msgs: seq<Msg>, e: Iov)
    requires blocks != [] && LaidOut(blocks, es, msgs)
    ensures LaidOut(Grow(blocks, e), es + [e], msgs[|msgs| - 1 := Msg(msgs[|msgs| - 1].at, msgs[|msgs| - 1].len + 1)])
  {
    FlattenGrows(blocks, e);
    forall i | 0 <= i < |blocks|
      ensures Grow(blocks, e)[..i] == blocks[..i]
    {
      GrowPrefix(blocks, e, i);
    }
  }

  /** The last message ends where the array's used part ends. */
  lemma LastEnds(blocks: seq<seq<Iov>>, es: seq<Iov>, ms: seq<Msg>)
    requires blocks != [] && LaidOut(blocks, es, ms)
    ensures ms[|ms| - 1].at + ms[|ms| - 1].len == |es|
  {
  }

  lemma LayoutOpens(blocks: seq<seq<Iov>>, es: seq<Iov>, msgs: seq<Msg>)
    requires LaidOut(blocks, es, msgs)
    ensures LaidOut(blocks + [[]], es, msgs + [Msg(|es|, 0)])
  {
    var blocks' := blocks + [[]];
    assert blocks'[..|blocks|] == blocks;
    forall i | 0 <= i < |blocks|
      ensures blocks'[..i] == blocks[..i]
    {
    }
  }

  lemma {:induction false} SizeIsPayload(b: seq<Iov>)
    requires AllValid(b) && forall j :: 0 <= j < |b| ==> b[j].Part?
    ensures Size(b) == |Payload(b)|
  {
    if b != [] {
      SizeIsPayload(b[..|b| - 1]);
    }
  }

  lemma {:induction false} PayloadConcat(a: seq<Iov>, b: seq<Iov>)
    ensures Payload(a + b) == Payload(a) + Payload(b)
  {
    hide *;
    if b == [] {
      EmptyMessageIsEmpty();
      assert a + b == a && Payload(a) + [] == Payload(a);
    } else {
      var front, e := b[..|b| - 1], b[|b| - 1];
      PayloadConcat(a, front);
      PayloadConcatStep(a, front, e);
      assert b == front + [e];
    }
  }

  lemma PayloadConcatStep(a: seq<Iov>, front: seq<Iov>, e: Iov)
    requires Payload(a + front) == Payload(a) + Payload(front)
    ensures Payload(a + (front + [e])) == Payload(a) + Payload(front + [e])
  {
    hide *;
    assert a + (front + [e]) == (a + front) + [e];
    PayloadAppend(a + front, e);
    PayloadAppend(front, e);
  }

  lemma {:induction false} SizeConcat(a: seq<Iov>, b: seq<Iov>)
    ensures Size(a + b) == Size(a) + Size(b)
  {
    if b == [] {
      assert a + b == a;
    } else {
      var front, e := b[..|b| - 1], b[|b| - 1];
      SizeConcat(a, front);
      assert a + b == (a + front) + [e];
      SizeAppend(a + front, e);
    }
  }

  /** A datagram carries its size less the header. */
  lemma DatagramCarries(b: seq<Iov>)
    requires Block(true, b) && AllValid(b)
    ensures |Payload(b)| + UDP_HEADER_SIZE == Size(b)
  {
    var head, tail := b[..1], b[1..];
    assert b == head + tail;
    PayloadConcat(head, tail);
    SizeConcat(head, tail);
    assert head == [] + [Slot(UDP_HEADER_SIZE)];
    SizeAppend([], Slot(UDP_HEADER_SIZE));
    PayloadAppend([], Slot(UDP_HEADER_SIZE));
    SizeIsPayload(tail);
  }

  lemma {:induction false} PartsAreValid(blocks: seq<seq<Iov>>, i: nat)
    requires AllValid(Flatten(blocks)) && i < |blocks|
    ensures AllValid(blocks[i])
  {
    var k := |blocks| - 1;
    var front := Flatten(blocks[..k]);
    if i == k {
      assert forall j :: 0 <= j < |blocks[k]| ==> blocks[k][j] == (front + blocks[k])[|front| + j];
    } else {
      assert forall j :: 0 <= j < |front| ==> front[j] == (front + blocks[k])[j];
      PartsAreValid(blocks[..k], i);
    }
  }

  /** What the first k datagrams carry, when they are full. */
  lemma {:induction false} FullDatagrams(blocks: seq<seq<Iov>>, k: nat)
    requires k <= |blocks| && forall i :: 0 <= i < k ==> Size(blocks[i]) == UDP_MAX_SEND_PAYLOAD_SIZE
    requires forall i :: 0 <= i < k ==> Block(true, blocks[i]) && AllValid(blocks[i])
    ensures |Payload(Flatten(blocks[..k]))| == Room(k)
  {
    if k > 0 {
      hide Flatten, Payload, Size, Block, AllValid;
      FullDatagrams(blocks, k - 1);
      FlattenStep(blocks, k - 1);
      PayloadConcat(Flatten(blocks[..k - 1]), blocks[k - 1]);
      DatagramCarries(blocks[k - 1]);
    }
  }

  /**
    All datagrams but the last carry the maximum, unless one reached the limit on pieces. So their number
    is the smallest that can carry the data if and only if the last one carries a byte of it.
   */
  lemma NoDatagramIsWasted(blocks: seq<seq<Iov>>)
    requires blocks != [] && Packed(true, blocks) && AllValid(Flatten(blocks))
    requires BelowLimit(blocks)
    ensures Room(|blocks| - 1) <= |Payload(Flatten(blocks))| <= Room(|blocks|)
    ensures Room(|blocks| - 1) < |Payload(Flatten(blocks))| <==> Payload(Last(blocks)) != []
  {
    hide Size, Payload, Flatten, Block, Packed, AllValid, Full;
    LastCarries(blocks);
  }

  // ---------------------------------------------------------------------------------------------
  // The list as a function of the buffers
  // ---------------------------------------------------------------------------------------------

  /** A message before its first part. */
  ghost function Fresh(udp: bool): seq<Iov> { if udp then [Slot(UDP_HEADER_SIZE)] else [] }

  /** A full message is followed by a new one. */
  ghost function WithRoom(udp: bool, blocks: seq<seq<Iov>>): (r: seq<seq<Iov>>)
    requires blocks != []
    ensures r != []
  {
    if Full(udp, Last(blocks)) then blocks + [Fresh(udp)] else blocks
  }

  /** How much of the piece the message cannot take. */
  ghost function Leftover(udp: bool, b: seq<Iov>, piece: Iov): nat {
    if udp && piece.len + Size(b) > UDP_MAX_SEND_PAYLOAD_SIZE then piece.len + Size(b) - UDP_MAX_SEND_PAYLOAD_SIZE else 0
  }

  /** The last bytes of the piece. */
  function Rest(piece: Iov, leftover: nat): Iov
    requires piece.Part? && leftover <= piece.len
  {
    Part(piece.src, piece.off + piece.len - leftover, leftover)
  }

  /** What ms_add_iov makes of the list; the last case does not happen to a list that is packed. */
  ghost function Fill(udp: bool, blocks: seq<seq<Iov>>, piece: Iov): (r: seq<seq<Iov>>)
    requires blocks != [] && piece.Part?
    ensures r != []
    decreases piece.len
  {
    var base := WithRoom(udp, blocks);
    var left := Leftover(udp, Last(base), piece);
    if left == 0 then Grow(base, piece)
    else if left < piece.len then Fill(udp, Grow(base, Taken(piece, left)), Rest(piece, left))
    else base
  }

  /** One round more of the loop: the list it makes goes on from the list of the round. */
  lemma FillStep(udp: bool, blocks: seq<seq<Iov>>, piece: Iov, left: nat)
    requires blocks != [] && piece.Part?
    requires left == Leftover(udp, Last(WithRoom(udp, blocks)), piece) && (left == 0 || left < piece.len)
    ensures var grown := Grow(WithRoom(udp, blocks), Taken(piece, left));
      Fill(udp, blocks, piece) == if left == 0 then grown else Fill(udp, grown, Rest(piece, left))
  {
  }

  /** The list for a sequence of buffers, after the first ms_add_msghdr. */
  ghost function FillAll(udp: bool, pieces: seq<Iov>): (r: seq<seq<Iov>>)
    requires AllParts(pieces)
    ensures r != []
  {
    if pieces == [] then [Fresh(udp)]
    else Fill(udp, FillAll(udp, pieces[..|pieces| - 1]), pieces[|pieces| - 1])
  }

  ghost predicate AllParts(pieces: seq<Iov>) { forall i :: 0 <= i < |pieces| ==> pieces[i].Part? && pieces[i].Valid() }

  /** A list as it should be. */
  ghost predicate Sound(udp: bool, blocks: seq<seq<Iov>>) {
    blocks != [] && Packed(udp, blocks) && AllValid(Flatten(blocks))
  }

  lemma FlattenAppend(blocks: seq<seq<Iov>>, b: seq<Iov>)
    ensures Flatten(blocks + [b]) == Flatten(blocks) + b
  {
    assert (blocks + [b])[..|blocks|] == blocks;
  }

  lemma FreshMessage(udp: bool)
    ensures Block(udp, Fresh(udp)) && !Full(udp, Fresh(udp)) && AllValid(Fresh(udp)) && Payload(Fresh(udp)) == []
    ensures Size(Fresh(udp)) == if udp then UDP_HEADER_SIZE else 0
  {
    EmptyMessageIsEmpty();
    if udp {
      assert Fresh(udp) == [] + [Slot(UDP_HEADER_SIZE)];
      SizeAppend([], Slot(UDP_HEADER_SIZE));
      PayloadAppend([], Slot(UDP_HEADER_SIZE));
    }
  }

  /** A new message changes no data. */
  lemma RoomKeeps(udp: bool, blocks: seq<seq<Iov>>)
    requires Sound(udp, blocks)
    ensures Sound(udp, WithRoom(udp, blocks)) && !Full(udp, Last(WithRoom(udp, blocks)))
    ensures Payload(Flatten(WithRoom(udp, blocks))) == Payload(Flatten(blocks))
  {
    hide Size, Payload, Flatten, Block, Fresh;
    FreshMessage(udp);
    FlattenAppend(blocks, Fresh(udp));
    PayloadConcat(Flatten(blocks), Fresh(udp));
    assert Payload(Flatten(blocks)) + [] == Payload(Flatten(blocks));
  }

  lemma PartFits(udp: bool, b: seq<Iov>, piece: Iov)
    requires Block(udp, b) && !Full(udp, b) && piece.Part? && piece.Valid()
    ensures var left := Leftover(udp, b, piece);
      && (left == 0 || left < piece.len)
      && Block(udp, b + [Taken(piece, left)]) && (left > 0 ==> Full(udp, b + [Taken(piece, left)]))
  {
    FitsMakesBlock(udp, b, Taken(piece, Leftover(udp, b, piece)));
  }

  /** One round of the loop. */
  lemma RoundKeeps(udp: bool, base: seq<seq<Iov>>, piece: Iov)
    requires Sound(udp, base) && !Full(udp, Last(base)) && piece.Part? && piece.Valid()
    ensures var left := Leftover(udp, Last(base), piece);
      && (left == 0 || left < piece.len)
      && var grown := Grow(base, Taken(piece, left));
         && Sound(udp, grown) && (left > 0 ==> Full(udp, Last(grown)))
         && |Payload(Flatten(grown))| == |Payload(Flatten(base))| + piece.len - left
  {
    hide Size, Payload, Flatten, Block, Full, Packed;
    PackedIsReady(udp, base);
    PartFits(udp, Last(base), piece);
    var e := Taken(piece, Leftover(udp, Last(base), piece));
    PackedGrows(udp, base, e);
    FlattenGrows(base, e);
    PayloadAppend(Flatten(base), e);
  }

  lemma {:induction false} FillKeeps(udp: bool, blocks: seq<seq<Iov>>, piece: Iov)
    requires Sound(udp, blocks) && piece.Part? && piece.Valid()
    ensures Sound(udp, Fill(udp, blocks, piece))
    ensures |Payload(Flatten(Fill(udp, blocks, piece)))| == |Payload(Flatten(blocks))| + piece.len
    decreases piece.len
  {
    hide Packed, AllValid, Size, Payload, Flatten, Full, Grow, WithRoom, Leftover;
    var base := WithRoom(udp, blocks);
    var left := Leftover(udp, Last(base), piece);
    RoomKeeps(udp, blocks);
    RoundKeeps(udp, base, piece);
    if left > 0 {
      FillKeeps(udp, Grow(base, Taken(piece, left)), Rest(piece, left));
    }
  }

  /** A buffer with bytes leaves one of them in the last message. */
  lemma {:induction false} FillEnds(udp: bool, blocks: seq<seq<Iov>>, piece: Iov)
    requires Sound(udp, blocks) && piece.Part? && piece.Valid() && piece.len > 0
    ensures Payload(Last(Fill(udp, blocks, piece))) != []
    decreases piece.len
  {
    hide Packed, AllValid, Size, Payload, Flatten, Full, WithRoom, Leftover;
    var base := WithRoom(udp, blocks);
    var left := Leftover(udp, Last(base), piece);
    RoomKeeps(udp, blocks);
    RoundKeeps(udp, base, piece);
    if left > 0 {
      FillEnds(udp, Grow(base, Taken(piece, left)), Rest(piece, left));
    } else {
      PayloadAppend(Last(base), piece);
    }
  }

  /** A buffer without bytes adds an entry to the last message, or to a new one when the last is full. */
  lemma FillEmpty(udp: bool, blocks: seq<seq<Iov>>, piece: Iov)
    requires Sound(udp, blocks) && piece.Part? && piece.Valid() && piece.len == 0
    ensures Fill(udp, blocks, piece) == Grow(WithRoom(udp, blocks), piece)
    ensures Payload(Last(Fill(udp, blocks, piece))) == Payload(Last(WithRoom(udp, blocks)))
  {
    hide Packed, AllValid, Size, Payload, Flatten, Full, WithRoom;
    var base := WithRoom(udp, blocks);
    RoomKeeps(udp, blocks);
    RoundKeeps(udp, base, piece);
    PayloadAppend(Last(base), piece);
    assert Payload(Last(base)) + [] == Payload(Last(base));
  }

  /** No message has more than m entries, and the last one is full or has fewer. */
  ghost predicate AtMostEntries(udp: bool, blocks: seq<seq<Iov>>, m: nat) {
    && blocks != [] && (forall i :: 0 <= i < |blocks| ==> |blocks[i]| <= m)
    && (|Last(blocks)| < m || Full(udp, Last(blocks)))
  }

  /** A buffer adds at most one entry to a message. */
  lemma {:induction false} FillEntries(udp: bool, blocks: seq<seq<Iov>>, piece: Iov, m: nat)
    requires Sound(udp, blocks) && piece.Part? && piece.Valid() && AtMostEntries(udp, blocks, m) && m >= 2
    ensures forall i :: 0 <= i < |Fill(udp, blocks, piece)| ==> |Fill(udp, blocks, piece)[i]| <= m
    decreases piece.len
  {
    hide Packed, AllValid, Size, Payload, Flatten, Full, Leftover;
    var base := WithRoom(udp, blocks);
    var left := Leftover(udp, Last(base), piece);
    RoomKeeps(udp, blocks);
    RoundKeeps(udp, base, piece);
    if left > 0 {
      FillEntries(udp, Grow(base, Taken(piece, left)), Rest(piece, left), m);
    }
  }

  lemma {:induction false} ListIsSound(udp: bool, pieces: seq<Iov>)
    requires AllParts(pieces)
    ensures Sound(udp, FillAll(udp, pieces)) && |Payload(Flatten(FillAll(udp, pieces)))| == Total(pieces)
  {
    hide Payload, Size, Flatten, Block, Full, Fresh, Fill;
    if pieces == [] {
      FreshMessage(udp);
      OneMessage(Fresh(udp));
    } else {
      ListIsSound(udp, pieces[..|pieces| - 1]);
      FillKeeps(udp, FillAll(udp, pieces[..|pieces| - 1]), pieces[|pieces| - 1]);
    }
  }

  lemma OneMessage(b: seq<Iov>)
    ensures Flatten([b]) == b
  {
    assert [b][..0] == [] && Flatten([b]) == [] + b;
  }

  /** The bytes of all buffers. */
  function Total(pieces: seq<Iov>): nat {
    if pieces == [] then 0 else Total(pieces[..|pieces| - 1]) + pieces[|pieces| - 1].len
  }

  /** With fewer buffers than the limit on entries, no message reaches it. */
  lemma {:induction false} EntriesBound(udp: bool, pieces: seq<Iov>)
    requires AllParts(pieces)
    ensures forall i :: 0 <= i < |FillAll(udp, pieces)| ==> |FillAll(udp, pieces)[i]| <= |pieces| + 1
  {
    hide Sound, Fill, Full;
    if pieces != [] {
      var front := pieces[..|pieces| - 1];
      EntriesBound(udp, front);
      ListIsSound(udp, front);
      FillEntries(udp, FillAll(udp, front), pieces[|pieces| - 1], |pieces| + 1);
    }
  }

  /** No datagram has reached the limit on entries. */
  ghost predicate BelowLimit(blocks: seq<seq<Iov>>) { forall i :: 0 <= i < |blocks| ==> |blocks[i]| < IOV_MAX }

  /** How full the last datagram is, by the number of bytes alone. */
  lemma LastCarries(blocks: seq<seq<Iov>>)
    requires Sound(true, blocks) && BelowLimit(blocks)
    ensures |Payload(Flatten(blocks))| == Room(|blocks| - 1) + |Payload(Last(blocks))|
    ensures |Payload(Last(blocks))| <= 1392 && (Full(true, Last(blocks)) <==> |Payload(Last(blocks))| == 1392)
  {
    hide Size, Payload, AllValid;
    var k := |blocks| - 1;
    forall i | 0 <= i < |blocks|
      ensures AllValid(blocks[i])
    {
      PartsAreValid(blocks, i);
    }
    FullDatagrams(blocks, k);
    PayloadConcat(Flatten(blocks[..k]), blocks[k]);
    DatagramCarries(blocks[k]);
  }

  lemma EmptyAfter(blocks: seq<seq<Iov>>, piece: Iov)
    requires Sound(true, blocks) && piece.Part? && piece.Valid() && piece.len == 0 && BelowLimit(Fill(true, blocks, piece))
    ensures BelowLimit(blocks)
    ensures if |Payload(Flatten(blocks))| > 0 && |Payload(Flatten(blocks))| % 1392 == 0
            then Payload(Last(Fill(true, blocks, piece))) == []
            else Payload(Last(Fill(true, blocks, piece))) == [] <==> |Payload(Flatten(blocks))| == 0
  {
    hide Size, Payload, Flatten, Block, Packed, AllValid, Fill;
    FillEmpty(true, blocks, piece);
    var grown := Fill(true, blocks, piece);
    forall i | 0 <= i < |blocks|
      ensures |blocks[i]| < IOV_MAX
    {
      assert |blocks[i]| <= |grown[i]|;
    }
    LastCarries(blocks);
    FreshMessage(true);
    RoomModulo(|blocks| - 1, |Payload(Last(blocks))|);
  }

  lemma RoomModulo(k: nat, last: nat)
    requires last <= 1392
    ensures (Room(k) + last > 0 && (Room(k) + last) % 1392 == 0) <==> (last == 1392 || (last == 0 && k > 0))
  {
  }

  /**
    The number of datagrams is the smallest that can carry the data if and only if there is data, and no
    empty buffer comes last when the data fills its datagrams to the last byte.
   */
  lemma FewestDatagramsIff(pieces: seq<Iov>)
    requires AllParts(pieces) && BelowLimit(FillAll(true, pieces))
    ensures Total(pieces) <= Room(|FillAll(true, pieces)|)
    ensures Room(|FillAll(true, pieces)| - 1) < Total(pieces)
       <==> Total(pieces) > 0 && !(Total(pieces) % 1392 == 0 && pieces[|pieces| - 1].len == 0)
  {
    hide Size, Payload, Flatten, Block, Packed, AllValid, Fill, Full;
    var blocks := FillAll(true, pieces);
    ListIsSound(true, pieces);
    LastCarries(blocks);
    if pieces != [] {
      var front, piece := pieces[..|pieces| - 1], pieces[|pieces| - 1];
      ListIsSound(true, front);
      if piece.len > 0 {
        FillEnds(true, FillAll(true, front), piece);
      } else {
        EmptyAfter(FillAll(true, front), piece);
      }
    }
  }

  // ---------------------------------------------------------------------------------------------
  // The code
  // ---------------------------------------------------------------------------------------------

  class Conn {
    const udp: bool
    var iov: array<Iov>
    var iovused: nat
    var msglist: array<Msg>
    var msgused: nat
    var msgbytes: nat
    /** The used parts of the two arrays, and the messages as the pieces they hold. */
    ghost var es: seq<Iov>
    ghost var ms: seq<Msg>
    ghost var blocks: seq<seq<Iov>>

    ghost predicate Mirrored()
      reads this`iov, this`iovused, this`msglist, this`msgused, this`es, this`ms, iov, msglist
    {
      && 0 < iov.Length && iovused <= iov.Length && 0 < msglist.Length && msgused <= msglist.Length
      && iov[..iovused] == es && msglist[..msgused] == ms
    }

    /** The arrays hold the messages in `blocks`. */
    ghost predicate Stored()
      reads this, iov, msglist
    {
      Mirrored() && AllValid(es) && LaidOut(blocks, es, ms)
    }

    ghost predicate Valid()
      reads this, iov, msglist
    {
      Stored() && Packed(udp, blocks) && (blocks != [] ==> msgbytes == Size(Last(blocks)))
    }

    /** ms_add_msghdr has added a message and not yet made room for its header. */
    ghost predicate Opened()
      reads this, iov, msglist
    {
      Stored() && Ready(udp, blocks) && Last(blocks) == [] && msgbytes == 0
    }

    constructor (udp: bool)
      ensures Valid() && blocks == [] && es == [] && this.udp == udp && fresh(iov) && fresh(msglist)
    {
      this.udp := udp;
      iov, iovused := new Iov[400](i => Slot(0)), 0;
      msglist, msgused := new Msg[10](i => Msg(0, 0)), 0;
      msgbytes, es, ms, blocks := 0, [], [], [];
    }

    /** ms_ensure_iov_space */
    method EnsureIovSpace(memory: bool) returns (ok: bool)
      requires Stored()
      modifies this`iov, msglist
      ensures Stored() && (iov == old(iov) || fresh(iov))
      ensures ok <==> old(iovused < iov.Length) || memory
      ensures if ok then iovused < iov.Length else iov == old(iov) && unchanged(msglist)
    {
      hide Flatten, LaidOut, AllValid;
      ok := iovused < iov.Length || memory;
      if iovused >= iov.Length && memory {
        var wide := new Iov[2 * iov.Length](i => Slot(0));
        for i := 0 to iov.Length
          invariant wide[..i] == iov[..i]
          modifies wide
        {
          wide[i] := iov[i];
        }
        iov := wide;
        PointAtList();
      }
    }

    /** The loop that points every message at the new array: the sums of the lengths are where they began. */
    method PointAtList()
      requires Stored()
      modifies msglist
      ensures Stored()
    {
      hide AllValid;
      var iovnum := 0;
      for i := 0 to msgused
        invariant iovnum == |Flatten(blocks[..i])| && msglist[..msgused] == ms
        modifies msglist
      {
        assert msglist[i] == ms[i] == Msg(iovnum, |blocks[i]|);
        FlattenStep(blocks, i);
        msglist[i] := Msg(iovnum, msglist[i].len);
        iovnum := iovnum + msglist[i].len;
      }
    }

    /** The new entry goes behind the last message's entries, which is the first free place. */
    method AppendPiece(e: Iov)
      requires Stored() && blocks != [] && iovused < iov.Length && e.Valid()
      modifies this`iovused, this`msgbytes, this`es, this`ms, this`blocks, iov, msglist
      ensures Stored() && blocks == Grow(old(blocks), e) && msgbytes == old(msgbytes) + e.len
      ensures es == old(es) + [e]
    {
      hide Flatten;
      var k := msgused - 1;
      var m := msglist[k];
      assert m == ms[k];
      LastEnds(blocks, es, ms);
      iov[m.at + m.len] := e;
      msglist[k] := Msg(m.at, m.len + 1);
      msgbytes, iovused := msgbytes + e.len, iovused + 1;
      LayoutGrows(blocks, es, ms, e);
      es, ms, blocks := es + [e], ms[k := Msg(m.at, m.len + 1)], Grow(blocks, e);
    }

    /** The part of ms_add_msghdr that doubles the message list when it is full. */
    method EnsureMsgSpace(memory: bool) returns (ok: bool)
      requires Mirrored()
      modifies this`msglist
      ensures Mirrored() && (msglist == old(msglist) || fresh(msglist))
      ensures ok <==> old(msgused < msglist.Length) || memory
      ensures if ok then msgused < msglist.Length else msglist == old(msglist)
    {
      ok := msgused < msglist.Length || memory;
      if msglist.Length == msgused && memory {
        var wide := new Msg[2 * msgused](i => Msg(0, 0));
        for i := 0 to msgused
          invariant wide[..i] == msglist[..i]
          modifies wide
        {
          wide[i] := msglist[i];
        }
        msglist := wide;
      }
    }

    method PushMsg()
      requires Mirrored() && msgused < msglist.Length
      modifies this`msgused, this`ms, msglist
      ensures Mirrored() && ms == old(ms) + [Msg(|es|, 0)]
    {
      msglist[msgused] := Msg(iovused, 0);
      msgused, ms := msgused + 1, ms + [Msg(iovused, 0)];
    }

    /** A new message behind all entries. */
    method NewMsg(memory: bool) returns (ok: bool)
      requires Mirrored()
      modifies this`msglist, this`msgused, this`ms, msglist
      ensures Mirrored() && (msglist == old(msglist) || fresh(msglist))
      ensures ok <==> old(msgused < msglist.Length) || memory
      ensures if ok then ms == old(ms) + [Msg(|es|, 0)] else unchanged(this) && unchanged(msglist)
    {
      hide Conn.Mirrored;
      ok := EnsureMsgSpace(memory);
      if ok {
        PushMsg();
      }
    }

    /** The part of ms_add_msghdr that adds an empty message. */
    method OpenMessage(memory: bool) returns (ok: bool)
      requires Valid() && (blocks == [] || Full(udp, Last(blocks)))
      modifies this`msglist, this`msgused, this`msgbytes, this`ms, this`blocks, msglist
      ensures ok <==> old(msgused < msglist.Length) || memory
      ensures if ok then Opened() && blocks == old(blocks) + [[]] else unchanged(this) && unchanged(msglist)
      ensures msglist == old(msglist) || fresh(msglist)
    {
      hide Flatten, LaidOut, Block, Full, Packed, Ready, AllValid, Size, Conn.Mirrored;
      LayoutOpens(blocks, es, ms);
      ReadyOpens(udp, blocks);
      ok := NewMsg(memory);
      if ok {
        msgbytes, blocks := 0, blocks + [[]];
      }
    }

    /** Room for one more entry, and the entry in it. */
    method Place(e: Iov, memory: bool) returns (ok: bool)
      requires e.Valid() && blocks != []
      requires if e.Slot? then Opened() && udp && e.len == UDP_HEADER_SIZE else Valid() && Fits(udp, Last(blocks), e)
      modifies this`iov, this`iovused, this`msgbytes, this`es, this`ms, this`blocks, iov, msglist
      ensures memory ==> ok
      ensures if ok then Valid() && blocks == Grow(old(blocks), e) && es == old(es) + [e]
        else unchanged(this) && unchanged(iov) && unchanged(msglist)
      ensures iov == old(iov) || fresh(iov)
    {
      hide Packed, Flatten, LaidOut, Block, Full, Ready, AllValid, Conn.Mirrored, Size;
      EmptyMessageIsEmpty();
      ok := EnsureIovSpace(memory);
      if !ok {
        return;
      }
      ghost var was := blocks;
      if Packed(udp, blocks) {
        PackedIsReady(udp, blocks);
      }
      FitsMakesBlock(udp, Last(blocks), e);
      AppendPiece(e);
      PackedGrows(udp, was, e);
    }

    /**
      ms_add_msghdr: called for the first message, and when the last one is full. Either allocation can fail:
      nothing has changed then, or the new message lacks its header slot.
     */
    method AddMsghdr(msgMemory: bool, iovMemory: bool) returns (ok: bool)
      requires Valid() && (blocks == [] || Full(udp, Last(blocks)))
      modifies this, iov, msglist
      ensures msgMemory && iovMemory ==> ok
      ensures (iov == old(iov) || fresh(iov)) && (msglist == old(msglist) || fresh(msglist))
      ensures ok ==> Valid() && blocks == old(blocks) + [Fresh(udp)]
      ensures !ok ==> || (Valid() && blocks == old(blocks) && !msgMemory)
                      || (Opened() && udp && blocks == old(blocks) + [[]] && !iovMemory)
      ensures Payload(es) == old(Payload(es))
      decreases 1, 0
    {
      hide Packed, Flatten, LaidOut, Block, Full, Ready, AllValid, Conn.Mirrored, Size, Payload;
      EmptyMessageIsEmpty();
      ghost var was := Payload(es);
      ok := OpenMessage(msgMemory);
      if !ok {
        return;
      }
      if udp {
        ok := AddHeaderSlot(iovMemory);
        GrowOpened(old(blocks), Slot(UDP_HEADER_SIZE));
      } else {
        EmptyMessage(blocks);
      }
    }

    /** The call of ms_add_iov without data that leaves room for the header. */
    method AddHeaderSlot(memory: bool) returns (ok: bool)
      requires Opened() && udp && blocks != []
      modifies this, iov, msglist
      ensures memory ==> ok
      ensures (iov == old(iov) || fresh(iov)) && (msglist == old(msglist) || fresh(msglist))
      ensures if ok then Valid() && blocks == Grow(old(blocks), Slot(UDP_HEADER_SIZE)) else Opened() && blocks == old(blocks)
      ensures Payload(es) == old(Payload(es))
      decreases 0, 4
    {
      hide Conn.Valid, Conn.Opened, Payload, Grow;
      ghost var left;
      ok, left := AddIov(Slot(UDP_HEADER_SIZE), [memory]);
      assert Payload(es) == old(Payload(es)) + [] == old(Payload(es));
    }

    /** The first test in the loop of ms_add_iov: a full message is followed by a new one. */
    method EnsureRoom(ghost header: bool)
      requires blocks != [] && if header then Opened() && udp else Valid()
      modifies this, iov, msglist
      ensures blocks != [] && if header then Opened() && blocks == old(blocks) else Valid() && Fits(udp, Last(blocks), Slot(0))
      ensures !header ==> blocks == WithRoom(udp, old(blocks))
      ensures (iov == old(iov) || fresh(iov)) && (msglist == old(msglist) || fresh(msglist))
      ensures msgbytes == Size(Last(blocks)) && (udp ==> msgbytes < UDP_MAX_SEND_PAYLOAD_SIZE)
      ensures Payload(es) == old(Payload(es))
      decreases if header then 0 else 1, 1
    {
      hide Flatten, Payload;
      var m := msglist[msgused - 1];
      assert m == ms[|blocks| - 1];
      if m.len == IOV_MAX || (udp && msgbytes >= UDP_MAX_SEND_PAYLOAD_SIZE) {
        var _ := AddMsghdr(true, true);
      }
    }

    /** One round of the loop of ms_add_iov: as much of the data as the last message can take. */
    method AddFragment(piece: Iov, memory: bool) returns (ok: bool, leftover: nat)
      requires piece.Valid() && blocks != []
      requires if piece.Slot? then Opened() && udp && piece.len == UDP_HEADER_SIZE else Valid()
      modifies this, iov, msglist
      ensures memory ==> ok
      ensures blocks != [] && (if piece.Slot? && !ok then Opened() else Valid())
      ensures (iov == old(iov) || fresh(iov)) && (msglist == old(msglist) || fresh(msglist))
      ensures ok ==> leftover == 0 || (piece.Part? && leftover < piece.len)
      ensures leftover <= piece.len && Payload(es) == old(Payload(es)) + Added(piece, ok, leftover)
      ensures piece.Slot? ==> blocks == if ok then Grow(old(blocks), piece) else old(blocks)
      ensures piece.Part? ==>
        && blocks == (var base := WithRoom(udp, old(blocks)); if ok then Grow(base, Taken(piece, leftover)) else base)
        && (ok ==> leftover == Leftover(udp, Last(WithRoom(udp, old(blocks))), piece))
      decreases if piece.Slot? then 0 else 1, 2
    {
      hide Flatten, Payload, LaidOut, Packed, Ready, Size, Block, AllValid, Conn.Valid, Conn.Mirrored, Conn.Stored, WithRoom;
      EnsureRoom(piece.Slot?);
      assert piece.Slot? ==> msgbytes == 0;
      leftover := if udp && piece.len + msgbytes > UDP_MAX_SEND_PAYLOAD_SIZE
        then piece.len + msgbytes - UDP_MAX_SEND_PAYLOAD_SIZE else 0;
      PayloadAppend(es, Taken(piece, leftover));
      ok := Place(Taken(piece, leftover), memory);
      if !ok {
        leftover := piece.len;
        assert Payload(es) + [] == Payload(es);
      }
    }

    /**
      ms_add_iov: every byte of the data goes into the list, once and in order. `memory` tells for every round
      whether the array of entries can grow; when it cannot, the data is in the list up to that round.
     */
    method AddIov(piece: Iov, memory: seq<bool>) returns (ok: bool, ghost left: nat)
      requires piece.Valid() && blocks != []
      requires if piece.Slot? then Opened() && udp && piece.len == UDP_HEADER_SIZE else Valid()
      modifies this, iov, msglist
      ensures false !in memory ==> ok
      ensures blocks != [] && (if piece.Slot? && !ok then Opened() else Valid())
      ensures (iov == old(iov) || fresh(iov)) && (msglist == old(msglist) || fresh(msglist))
      ensures left <= piece.len && Payload(es) == old(Payload(es)) + Added(piece, ok, left)
      ensures ok ==> left == 0 && Payload(es) == old(Payload(es)) + piece.Content()
      ensures piece.Slot? ==> blocks == if ok then Grow(old(blocks), piece) else old(blocks)
      ensures piece.Part? && ok ==> blocks == Fill(udp, old(blocks), piece)
      decreases if piece.Slot? then 0 else 1, 3
    {
      hide Conn.Valid, Conn.Opened, Payload, Grow, Iov.Content, Fill, WithRoom, Leftover, Added, Taken;
      var leftover: nat;
      ok, leftover := AddFragment(piece, MemoryAt(memory, 0));
      if ok && piece.Part? {
        FillStep(udp, old(blocks), piece, leftover);
      }
      var round := 1;
      while ok && leftover > 0
        invariant blocks != [] && leftover <= piece.len
        invariant if piece.Slot? && !ok then Opened() else Valid()
        invariant (iov == old(iov) || fresh(iov)) && (msglist == old(msglist) || fresh(msglist))
        invariant Payload(es) == old(Payload(es)) + Added(piece, ok, leftover)
        invariant piece.Slot? ==> (ok ==> leftover == 0) && blocks == if ok then Grow(old(blocks), piece) else old(blocks)
        invariant piece.Part? && ok ==>
          Fill(udp, old(blocks), piece) == if leftover == 0 then blocks else Fill(udp, blocks, Rest(piece, leftover))
        invariant false !in memory ==> ok
        decreases if ok then 1 else 0, leftover
      {
        var rest := Rest(piece, leftover);
        ghost var was := blocks;
        var left';
        ok, left' := AddFragment(rest, MemoryAt(memory, round));
        if ok {
          FillStep(udp, was, rest, left');
        }
        AddedAgain(piece, ok, leftover, left');
        leftover, round := left', round + 1;
      }
      left := leftover;
      AddedWhole(piece);
    }
  }

  /** A new connection's list for a sequence of buffers. */
  method BuildList(udp: bool, pieces: seq<Iov>) returns (c: Conn)
    requires AllParts(pieces)
    ensures fresh(c) && c.udp == udp && c.Valid() && c.blocks == FillAll(udp, pieces)
  {
    hide Fill, Conn.Valid, Conn.Opened, Iov.Content;
    c := new Conn(udp);
    var ok := c.AddMsghdr(true, true);
    for i := 0 to |pieces|
      invariant fresh(c) && fresh(c.iov) && fresh(c.msglist) && c.udp == udp && c.Valid() && c.blocks == FillAll(udp, pieces[..i])
    {
      ghost var left;
      ok, left := c.AddIov(pieces[i], []);
      assert pieces[..i + 1][..i] == pieces[..i];
    }
    assert pieces[..|pieces|] == pieces;
  }

  /** The failing case: a buffer that fills a datagram, and one without bytes. */
  method EmptyBufferWastesDatagram(src: Bytes) returns (c: Conn)
    requires |src| == 1392
    ensures c.udp && c.Valid() && c.blocks == FillAll(true, [Part(src, 0, 1392), Part([], 0, 0)])
    ensures |c.blocks| == 2 && |Payload(Flatten(c.blocks))| == Room(1)
  {
    hide FillAll, Conn.Valid, Flatten, Payload;
    var pieces := [Part(src, 0, 1392), Part([], 0, 0)];
    c := BuildList(true, pieces);
    assert Total(pieces) == Total(pieces[..1]) + 0 == Total(pieces[..1][..0]) + 1392 == 1392;
    EntriesBound(true, pieces);
    FewestDatagramsIff(pieces);
    ListIsSound(true, pieces);
    LastCarries(c.blocks);
  }
}
