/**
  Requests of the binary protocol as bytes: a client writes them in network order, and the example server
  reads them as a struct on a little-endian machine. What is read is what was written.
 */
module PacketCodec {
  import opened ByteOrder
  import opened Storage
  import opened Database
  import opened CasRuns
  import opened PacketRuns

  const PROTOCOL_BINARY_REQ: Byte := 0x80
  const HEADER_SIZE := 24

  // ---------------------------------------------------------------------------------------------
  // Writing
  // ---------------------------------------------------------------------------------------------

  /** The n bytes of a number in network order: the last one is the least significant. */
  function BigEndian(x: nat, n: nat): (b: Bytes)
    ensures |b| == n
  {
    if n == 0 then [] else BigEndian(x / 256, n - 1) + [x % 256]
  }

  /** protocol_binary_command */
  function CodeOf(o: Opcode): Byte {
    match o
    case SetOp => 0x01
    case AddOp => 0x02
    case ReplaceOp => 0x03
    case DeleteOp => 0x04
    case IncrementOp => 0x05
    case DecrementOp => 0x06
    case FlushOp => 0x08
    case AppendOp => 0x0e
    case PrependOp => 0x0f
    case SetQ => 0x11
    case AddQ => 0x12
    case ReplaceQ => 0x13
    case DeleteQ => 0x14
    case IncrementQ => 0x15
    case DecrementQ => 0x16
    case FlushQ => 0x18
    case AppendQ => 0x19
    case PrependQ => 0x1a
  }

  function OpcodeFor(c: Command, quiet: bool): Opcode {
    match c
    case CSet(_, _, _, _, _, _) => if quiet then SetQ else SetOp
    case CAdd(_, _, _, _, _) => if quiet then AddQ else AddOp
    case CReplace(_, _, _, _, _, _) => if quiet then ReplaceQ else ReplaceOp
    case CConcat(_, _, _, append, _) =>
      if append then (if quiet then AppendQ else AppendOp) else if quiet then PrependQ else PrependOp
    case CDelete(_, _) => if quiet then DeleteQ else DeleteOp
    case CArithmetic(_, _, _, _, increment, _, _, _) =>
      if increment then (if quiet then IncrementQ else IncrementOp) else if quiet then DecrementQ else DecrementOp
    case CFlush => if quiet then FlushQ else FlushOp
  }

  /** The fields in front of the key. */
  function ExtrasOf(c: Command): Bytes {
    match c
    case CSet(_, _, flags, exp, _, _) => BigEndian(flags, 4) + BigEndian(exp, 4)
    case CAdd(_, _, flags, exp, _) => BigEndian(flags, 4) + BigEndian(exp, 4)
    case CReplace(_, _, flags, exp, _, _) => BigEndian(flags, 4) + BigEndian(exp, 4)
    case CArithmetic(_, delta, initial, exp, _, _, _, _) => BigEndian(delta, 8) + BigEndian(initial, 8) + BigEndian(exp, 4)
    case _ => []
  }

  function KeyOf(c: Command): Bytes { if c.CFlush? then [] else c.key }

  function DataOf(c: Command): Bytes {
    match c
    case CSet(_, data, _, _, _, _) => data
    case CAdd(_, data, _, _, _) => data
    case CReplace(_, data, _, _, _, _) => data
    case CConcat(_, val, _, _, _) => val
    case _ => []
  }

  function CasOf(c: Command): nat { if c.CSet? || c.CReplace? || c.CConcat? || c.CDelete? then c.cas else 0 }

  function BodyOf(c: Command): Bytes { ExtrasOf(c) + KeyOf(c) + DataOf(c) }

  function HeaderOf(o: Opcode, keylen: nat, extlen: Byte, bodylen: nat, tag: nat, cas: nat): (b: Bytes)
    ensures |b| == HEADER_SIZE
  {
    [PROTOCOL_BINARY_REQ, CodeOf(o)] + BigEndian(keylen, 2) + [extlen, 0, 0, 0]
    + BigEndian(bodylen, 4) + BigEndian(tag, 4) + BigEndian(cas, 8)
  }

  /** A command as a client sends it. */
  function Encode(c: Command, quiet: bool, tag: nat): Bytes {
    HeaderOf(OpcodeFor(c, quiet), |KeyOf(c)|, |ExtrasOf(c)|, |BodyOf(c)|, tag, CasOf(c)) + BodyOf(c)
  }

  /** Its fields fit their widths. */
  predicate Fits(c: Command) {
    && |KeyOf(c)| < 0x1_0000 && |BodyOf(c)| < 0x1_0000_0000 && CasOf(c) < TWO_64
    && (c.CSet? || c.CAdd? || c.CReplace? ==> c.flags < 0x1_0000_0000 && c.exp < 0x1_0000_0000)
    && (c.CArithmetic? ==> c.delta < TWO_64 && c.initial < TWO_64 && c.exp < 0x1_0000_0000)
  }

  // ---------------------------------------------------------------------------------------------
  // Reading
  // ---------------------------------------------------------------------------------------------

  /** The struct of a request: its numbers as the machine finds them. */
  function Load(o: Opcode, bytes: Bytes): Packet
    requires |bytes| >= HEADER_SIZE
  {
    Packet(o, Value(bytes[2..4]), Value(bytes[8..12]), Value(bytes[12..16]), Value(bytes[16..24]), bytes[24..])
  }

  /** The opcode in the header tells the handler that is called. */
  predicate Names(bytes: Bytes, o: Opcode) { |bytes| >= HEADER_SIZE && bytes[1] == CodeOf(o) }

  /** The command that level 0 makes of one: its delete has no CAS value, and its counters keep their flags. */
  function AtLevelZero(c: Command): Command {
    match c
    case CDelete(key, _) => CDelete(key, 0)
    case CArithmetic(_, _, _, _, _, _, _, _) => c.(keepFlags := true)
    case _ => c
  }

  /** The request as it reaches the handler. */
  function Received(c: Command, quiet: bool, tag: nat): Request {
    Request(Load(OpcodeFor(c, quiet), Encode(c, quiet, tag)), if c.CArithmetic? then c.beyond else [],
            if c.Writes() then c.memory else true)
  }

  // ---------------------------------------------------------------------------------------------
  // Reading gives back what was written
  // ---------------------------------------------------------------------------------------------

  lemma {:induction false} BigEndianIsReversed(x: nat, n: nat)
    ensures BigEndian(x, n) == Reversed(Digits(x, n))
  {
    if n > 0 {
      BigEndianIsReversed(x / 256, n - 1);
    }
  }

  /** A number that was written in network order, read and swapped. */
  lemma NumberReadBack(x: nat, n: nat)
    requires x < Pow256(n)
    ensures Value(BigEndian(x, n)) < Pow256(n) && Swap(Value(BigEndian(x, n)), n) == x
  {
    hide BigEndian;
    BigEndianIsReversed(x, n);
    ValueBound(BigEndian(x, n));
    SwapIsInvolution(x, n);
  }

  lemma MoreWidths()
    ensures Pow256(2) == 0x1_0000 && Pow256(4) == 0x1_0000_0000 && Pow256(8) == TWO_64
  {
    Widths();
    assert Pow256(4) == 256 * Pow256(3) == 256 * 256 * Pow256(2);
  }

  /** No two commands share a code. */
  lemma CodesDiffer(o: Opcode, other: Opcode)
    requires CodeOf(o) == CodeOf(other)
    ensures o == other
  {
  }

  /** The header as its parts lie. */
  lemma HeaderParts(o: Opcode, keylen: nat, extlen: Byte, bodylen: nat, tag: nat, cas: nat, body: Bytes)
    ensures var b := HeaderOf(o, keylen, extlen, bodylen, tag, cas) + body;
      && b[0] == PROTOCOL_BINARY_REQ && b[1] == CodeOf(o)
      && b[2..4] == BigEndian(keylen, 2) && b[8..12] == BigEndian(bodylen, 4) && b[12..16] == BigEndian(tag, 4)
      && b[16..24] == BigEndian(cas, 8) && b[24..] == body
  {
    hide BigEndian, CodeOf;
  }

  /** The numbers of the header. */
  lemma HeaderReadBack(c: Command, quiet: bool, tag: nat)
    requires Fits(c)
    ensures var p := Received(c, quiet, tag).p;
      && p.opcode == OpcodeFor(c, quiet) && p.body == BodyOf(c) && p.tag == Value(BigEndian(tag, 4))
      && p.keylen < Pow256(2) && p.bodylen < Pow256(4) && p.cas < Pow256(8)
      && Keylen(p) == |KeyOf(c)| && Bodylen(p) == |BodyOf(c)| && Cas(p) == CasOf(c)
  {
    hide BigEndian, Value, Swap, HeaderOf, BodyOf, OpcodeFor, Pow256;
    MoreWidths();
    HeaderParts(OpcodeFor(c, quiet), |KeyOf(c)|, |ExtrasOf(c)|, |BodyOf(c)|, tag, CasOf(c), BodyOf(c));
    NumberReadBack(|KeyOf(c)|, 2);
    NumberReadBack(|BodyOf(c)|, 4);
    NumberReadBack(CasOf(c), 8);
  }

  /** The key and the data behind the extras. */
  lemma BodyReadBack(p: Packet, extras: Bytes, key: Bytes, data: Bytes)
    requires p.body == extras + key + data && Keylen(p) == |key| && Bodylen(p) == |p.body|
    ensures Key(p, |extras|) == key && Data(p, |extras|) == data
  {
    hide Swap;
  }

  lemma FieldsReadBack(p: Packet, flags: nat, exp: nat, rest: Bytes)
    requires p.body == BigEndian(flags, 4) + BigEndian(exp, 4) + rest && flags < 0x1_0000_0000 && exp < 0x1_0000_0000
    ensures Field(p, 0) == flags && Field(p, 4) == exp
  {
    hide BigEndian, Value, Swap, Pow256;
    MoreWidths();
    NumberReadBack(flags, 4);
    NumberReadBack(exp, 4);
    assert p.body[0..4] == BigEndian(flags, 4) && p.body[4..8] == BigEndian(exp, 4);
  }

  lemma CountFieldsReadBack(p: Packet, delta: nat, initial: nat, exp: nat, rest: Bytes)
    requires p.body == BigEndian(delta, 8) + BigEndian(initial, 8) + BigEndian(exp, 4) + rest
    requires delta < TWO_64 && initial < TWO_64 && exp < 0x1_0000_0000
    ensures Field64(p, 0) == delta && Field64(p, 8) == initial && Field(p, 16) == exp
  {
    hide BigEndian, Value, Swap, Pow256;
    MoreWidths();
    NumberReadBack(delta, 8);
    NumberReadBack(initial, 8);
    NumberReadBack(exp, 4);
    assert p.body[0..8] == BigEndian(delta, 8) && p.body[8..16] == BigEndian(initial, 8) && p.body[16..20] == BigEndian(exp, 4);
  }

  /** The opcode of a command names the handler of that command. */
  lemma OpcodeTells(c: Command, quiet: bool, tag: nat)
    ensures var r := Received(c, quiet, tag); r.p.opcode == OpcodeFor(c, quiet) && r.Extras() == |ExtrasOf(c)|
    ensures forall o :: Names(Encode(c, quiet, tag), o) <==> o == OpcodeFor(c, quiet)
  {
    hide BigEndian, Value, HeaderOf, BodyOf;
    HeaderParts(OpcodeFor(c, quiet), |KeyOf(c)|, |ExtrasOf(c)|, |BodyOf(c)|, tag, CasOf(c), BodyOf(c));
    forall o | CodeOf(o) == CodeOf(OpcodeFor(c, quiet))
      ensures o == OpcodeFor(c, quiet)
    {
      CodesDiffer(o, OpcodeFor(c, quiet));
    }
  }

  /** What the handler reads is the command that was written. */
  lemma CommandReadBack(c: Command, quiet: bool, tag: nat)
    requires Fits(c)
    ensures var r := Received(c, quiet, tag); r.Proper() && Decoded(r) == AtLevelZero(c)
  {
    var r := Received(c, quiet, tag);
    hide BigEndian, Value, Swap, HeaderOf, Encode, Load, Keylen, Bodylen, Key, Data, Field, Field64, Pow256;
    HeaderReadBack(c, quiet, tag);
    OpcodeTells(c, quiet, tag);
    BodyReadBack(r.p, ExtrasOf(c), KeyOf(c), DataOf(c));
    assert BodyOf(c) == ExtrasOf(c) + (KeyOf(c) + DataOf(c));
    if c.CSet? || c.CAdd? || c.CReplace? {
      FieldsReadBack(r.p, c.flags, c.exp, KeyOf(c) + DataOf(c));
    } else if c.CArithmetic? {
      CountFieldsReadBack(r.p, c.delta, c.initial, c.exp, KeyOf(c) + DataOf(c));
    }
  }

  // ---------------------------------------------------------------------------------------------
  // The response, as the client reads it
  // ---------------------------------------------------------------------------------------------

  const PROTOCOL_BINARY_RES: Byte := 0x81

  /** The number that bytes stand for in network order. */
  function FromBigEndian(b: Bytes): nat {
    if b == [] then 0 else 256 * FromBigEndian(b[..|b| - 1]) + b[|b| - 1]
  }

  /** The struct of a response in the server's memory, and so on the wire. */
  function Laid(response: Response, bodylen: nat, body: Bytes): (b: Bytes)
    ensures |b| == HEADER_SIZE + |body|
  {
    [PROTOCOL_BINARY_RES, CodeOf(response.opcode), 0, 0, 0, 0] + Digits(response.status, 2)
    + Digits(bodylen, 4) + Digits(response.tag, 4) + Digits(response.cas, 8) + body
  }

  /** What is sent, if anything; only a counter's message that reports success has a body. */
  function OnWire(reply: Reply): Bytes
    requires !reply.Returned?
  {
    match reply
    case Message(response) => Laid(response, 0, [])
    case CountMessage(response, bodylen, value) => Laid(response, bodylen, if bodylen == 0 then [] else Digits(value, 8))
  }

  lemma {:induction false} FromBigEndianIs(b: Bytes)
    ensures FromBigEndian(b) == Value(Reversed(b))
  {
    if b != [] {
      var front, d := b[..|b| - 1], b[|b| - 1];
      FromBigEndianIs(front);
      assert Reversed(b) == [d] + Reversed(front);
    }
  }

  /** A raw number on the wire stands for the swapped one. */
  lemma WireIsSwapped(x: nat, n: nat)
    ensures FromBigEndian(Digits(x, n)) == Swap(x, n)
  {
    hide FromBigEndian, Reversed;
    FromBigEndianIs(Digits(x, n));
  }

  lemma LaidParts(response: Response, bodylen: nat, body: Bytes)
    ensures var b := Laid(response, bodylen, body);
      && b[0] == PROTOCOL_BINARY_RES && b[1] == CodeOf(response.opcode)
      && b[6..8] == Digits(response.status, 2) && b[8..12] == Digits(bodylen, 4) && b[12..16] == Digits(response.tag, 4)
      && b[16..24] == Digits(response.cas, 8) && b[24..] == body
  {
    hide Digits, CodeOf;
  }

  /** What a client finds in the bytes of a response. */
  ghost predicate Reads(b: Bytes, o: Opcode, status: nat, tag: Bytes) {
    && |b| >= HEADER_SIZE && b[0] == PROTOCOL_BINARY_RES && Names(b, o)
    && FromBigEndian(b[6..8]) == status && b[12..16] == tag && FromBigEndian(b[8..12]) == |b| - HEADER_SIZE
  }

  lemma MessageRead(response: Response)
    ensures Reads(OnWire(Message(response)), response.opcode, Swap(response.status, 2), Digits(response.tag, 4))
    ensures FromBigEndian(OnWire(Message(response))[16..24]) == Swap(response.cas, 8)
  {
    hide Digits, FromBigEndian, Swap, Laid, CodeOf;
    LaidParts(response, 0, []);
    WireIsSwapped(response.status, 2);
    WireIsSwapped(response.cas, 8);
    WireIsSwapped(0, 4);
    SwapZero(4);
  }

  lemma CountRead(response: Response, bodylen: nat, value: nat)
    requires bodylen == 0 || Swap(bodylen, 4) == 8
    ensures var b := OnWire(CountMessage(response, bodylen, value));
      && Reads(b, response.opcode, Swap(response.status, 2), Digits(response.tag, 4))
      && FromBigEndian(b[16..24]) == Swap(response.cas, 8)
      && (bodylen != 0 ==> |b| == 32 && FromBigEndian(b[24..]) == Swap(value, 8))
  {
    hide Digits, FromBigEndian, Swap, Laid, CodeOf;
    LaidParts(response, bodylen, if bodylen == 0 then [] else Digits(value, 8));
    WireIsSwapped(response.status, 2);
    WireIsSwapped(response.cas, 8);
    WireIsSwapped(bodylen, 4);
    WireIsSwapped(value, 8);
    SwapZero(4);
  }

  /** The tag comes back as it was sent. */
  lemma TagComesBack(tag: nat)
    ensures Digits(Value(BigEndian(tag, 4)), 4) == BigEndian(tag, 4)
  {
    hide BigEndian;
    DigitsOfValue(BigEndian(tag, 4));
  }

  /** A message answers the packet it came with, and has a body of eight bytes or none. */
  lemma ReplyEchoes(db: Db, r: Request)
    requires r.Proper() && !RawExec(db, r).reply.Returned?
    ensures var reply := RawExec(db, r).reply;
      && reply.response.opcode == r.p.opcode && reply.response.tag == r.p.tag
      && (reply.CountMessage? ==> reply.bodylen in {0, Swap(8, 4)})
      && (reply.CountMessage? <==> !reply.Message?)
  {
    hide Swap, Value, Digits, Keylen, Bodylen, Key, Data, Field, Field64, Load64;
  }

  lemma EightSurvives()
    ensures Swap(Swap(8, 4), 4) == 8
  {
    CountSurvives(0, 0);
  }

  lemma ReplyRead(reply: Reply)
    requires !reply.Returned? && (reply.CountMessage? ==> reply.bodylen in {0, Swap(8, 4)})
    ensures var b := OnWire(reply);
      && Reads(b, reply.response.opcode, Reported(reply), Digits(reply.response.tag, 4))
      && FromBigEndian(b[16..24]) == Swap(reply.response.cas, 8)
      && (reply.CountMessage? && reply.bodylen != 0 ==> |b| == 32 && FromBigEndian(b[24..]) == Swap(reply.value, 8))
  {
    hide Digits, FromBigEndian, Swap, Laid, CodeOf, OnWire, Reads;
    EightSurvives();
    if reply.Message? {
      MessageRead(reply.response);
    } else {
      CountRead(reply.response, reply.bodylen, reply.value);
    }
  }

  /**
    Every response that is sent answers its command: the client reads its own tag, the number of the answer
    and, when an item was stored, the CAS value of that item.
   */
  lemma ResponseReadBack(db: Db, c: Command, quiet: bool, tag: nat)
    requires Fits(c)
    ensures var r := Received(c, quiet, tag);
      && r.Proper()
      && var raw := RawExec(db, r);
         && Reported(raw.reply) == Answer(db, AtLevelZero(c))
         && (!raw.reply.Returned? ==>
               var b := OnWire(raw.reply);
               && Reads(b, OpcodeFor(c, quiet), Answer(db, AtLevelZero(c)), BigEndian(tag, 4))
               && (c.Writes() && Answer(db, AtLevelZero(c)) == 0 ==>
                     c.key in raw.db.model && FromBigEndian(b[16..24]) == raw.db.model[c.key].cas))
  {
    hide Exec, RawExec, Received, Decoded, Digits, FromBigEndian, Swap, OnWire, Reads, Answer, BigEndian, Value, OpcodeFor, Request.Proper;
    var r := Received(c, quiet, tag);
    CommandReadBack(c, quiet, tag);
    HeaderReadBack(c, quiet, tag);
    TagComesBack(tag);
    var raw, o := RawExec(db, r), Exec(db, Decoded(r));
    PacketIsCommand(db, r);
    AnswersAre(db, Decoded(r));
    StepHasShape(db, Decoded(r));
    DecodedKeeps(r, 0);
    if !raw.reply.Returned? {
      ReplyEchoes(db, r);
      ReplyRead(raw.reply);
    }
  }

  lemma CountStored(db: Db, r: Request)
    requires r.Proper() && r.Extras() == 20 && r.memory
    ensures var raw, key := RawExec(db, r), Key(r.p, 20);
      && HasCounter(raw.db, key, DecodedResult(db, r.p, r.beyond))
      && (!raw.reply.Returned? ==>
            raw.reply.CountMessage? && raw.reply.bodylen != 0 && Swap(raw.reply.value, 8) == DecodedResult(db, r.p, r.beyond))
  {
    hide Swap, Value, Digits, Load64, Keylen, Bodylen, Key, Field, Field64, RawArithmetic, CountResult;
    RawArithmeticStores(db, r.p, r.beyond, r.memory);
    RawArithmeticReports(db, r.p, r.beyond, r.memory);
    ResultBound(db, r.p, r.beyond);
    SwapZero(4);
  }

  /** The response to an increment or decrement carries the counter as it is stored. */
  lemma CounterReadBack(db: Db, c: Command, tag: nat)
    requires Fits(c) && c.CArithmetic? && c.memory
    ensures var r := Received(c, false, tag);
      && r.Proper()
      && var raw := RawExec(db, r);
         !raw.reply.Returned? ==>
           |OnWire(raw.reply)| == 32 && HasCounter(raw.db, c.key, FromBigEndian(OnWire(raw.reply)[24..]))
  {
    hide RawExec, Decoded, Digits, FromBigEndian, Swap, OnWire, Reads, BigEndian, Value, Encode, Load, Key, HasCounter, DecodedResult, Keylen;
    var r := Received(c, false, tag);
    CommandReadBack(c, false, tag);
    OpcodeTells(c, false, tag);
    HeaderReadBack(c, false, tag);
    BodyReadBack(r.p, ExtrasOf(c), KeyOf(c), DataOf(c));
    CountStored(db, r);
    if !RawExec(db, r).reply.Returned? {
      ReplyEchoes(db, r);
      ReplyRead(RawExec(db, r).reply);
    }
  }
}
