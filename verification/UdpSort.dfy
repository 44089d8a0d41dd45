/**
  Putting the datagrams of a UDP response back in order. They lie in the receive buffer in the order of
  arrival, 1400 bytes apart; a table indexed by sequence number says where each one is and how much of
  it has been copied out. When the buffer has to grow it may move, and the table is not adjusted.
 */
module UdpSort {
  import opened ByteOrder
  import opened UdpLimits
  import opened Slices

  const UDP_MAX_PAYLOAD_SIZE := 1400
  const MAX_UDP_PACKET := 65536

  const UDP_DATA_BUFFER_SIZE := 1048576

  /**
    ms_udppkt_t. The pointer into the receive buffer is an offset, meaningful when `seen`, and the number of
    the buffer it points into: a reallocation that moves the buffer leaves the old pointers behind.
   */
  datatype Packet = Packet(seen: bool, buffer: nat, data: nat, rbytes: nat, copybytes: nat)

  /** What a read through such a pointer yields: a byte, or nothing that can be relied upon. */
  datatype Cell = Known(b: Byte) | Freed

  /** A two-byte field of a header, as the HEADER_TO macros read it. */
  function Field(buf: Bytes, at: nat): nat
    requires at + 1 < |buf|
  {
    var high: nat := buf[at];
    var low: nat := buf[at + 1];
    high * 256 + low
  }

  // ---------------------------------------------------------------------------------------------
  // A response and its datagrams
  // ---------------------------------------------------------------------------------------------

  ghost predicate LiesAt(buf: Bytes, at: nat, d: Bytes) { at + |d| <= |buf| && buf[at..at + |d|] == d }

  /** A response of n datagrams: all but the last carry 1392 bytes. */
  datatype Response = Response(payload: Bytes, n: nat, id: nat) {
    predicate Valid() {
      1 <= n < MAX_UDP_PACKET && 1392 * (n - 1) <= |payload| <= 1392 * n && id < MAX_UDP_PACKET
    }

    function End(s: nat): nat { if 1392 * (s + 1) <= |payload| then 1392 * (s + 1) else |payload| }

    /** What datagram s carries. */
    function Chunk(s: nat): (r: Bytes)
      requires Valid() && s < n
    {
      payload[1392 * s..End(s)]
    }

    function Datagram(s: nat): (r: Bytes)
      requires Valid() && s < n
    {
      [id / 256, id % 256, s / 256, s % 256, n / 256, n % 256, 1, 0] + Chunk(s)
    }

    ghost predicate LastIsShort() { |payload| < 1392 * n }

    /** Distinct datagrams of this response; a short one can only come when all others are there. */
    ghost predicate Arrivals(order: seq<nat>) {
      && (forall i :: 0 <= i < |order| ==> order[i] < n)
      && (forall i, j :: 0 <= i < j < |order| ==> order[i] != order[j])
      && |order| <= n
      && (LastIsShort() ==> forall i :: 0 <= i < |order| && order[i] == n - 1 ==> i == n - 1)
    }

    /** The buffer holds the datagrams in the order of arrival. */
    ghost predicate Holds(buf: Bytes, order: seq<nat>)
      requires Valid() && Arrivals(order)
    {
      && |buf| == (if order == [] then 0 else 1400 * (|order| - 1) + |Datagram(order[|order| - 1])|)
      && forall i {:trigger order[i]} :: 0 <= i < |order| ==> LiesAt(buf, 1400 * i, Datagram(order[i]))
    }
  }

  /** The first number from s on that has not arrived. */
  ghost function Gap(order: seq<nat>, n: nat, s: nat): (k: nat)
    ensures s <= k && (s <= n ==> k <= n)
    ensures forall t :: s <= t < k ==> t in order
    ensures k >= n || k !in order
    decreases n - s
  {
    if s < n && s in order then Gap(order, n, s + 1) else s
  }

  /** How much of the payload can be given out: what lies before the first gap. */
  ghost function Ready(r: Response, order: seq<nat>): nat
  {
    var k := Gap(order, r.n, 0);
    if 1392 * k <= |r.payload| then 1392 * k else |r.payload|
  }

  function Min(a: nat, b: nat): nat { if a <= b then a else b }

  lemma NothingGiven(r: Response, stale: set<nat>, p: nat)
    ensures Given(r, stale, p, p) == []
  {
  }

  /** The datagram that carries the byte of the payload at place p. */
  function Bearer(p: nat): nat { p / 1392 }

  /** The byte of the payload at place p, as it is read when these datagrams lie in a buffer that was freed. */
  ghost function CellAt(r: Response, stale: set<nat>, p: nat): Cell {
    if p < |r.payload| && Bearer(p) !in stale then Known(r.payload[p]) else Freed
  }

  ghost function Given(r: Response, stale: set<nat>, from: nat, end: nat): (cells: seq<Cell>)
    requires from <= end
    ensures |cells| == end - from
  {
    seq(end - from, j requires 0 <= j < end - from => CellAt(r, stale, from + j))
  }

  lemma GivenSplits(r: Response, stale: set<nat>, a: nat, b: nat, c: nat)
    requires a <= b <= c
    ensures Given(r, stale, a, b) + Given(r, stale, b, c) == Given(r, stale, a, c)
  {
    var x, y := Given(r, stale, a, b) + Given(r, stale, b, c), Given(r, stale, a, c);
    forall j | 0 <= j < |y|
      ensures x[j] == y[j]
    {
      assert j >= b - a ==> x[j] == Given(r, stale, b, c)[j - (b - a)] == CellAt(r, stale, b + (j - (b - a)));
    }
  }

  /** What was given out is a prefix of the payload, every byte of it read from memory that was there. */
  ghost predicate IsPrefix(r: Response, out: seq<Cell>) {
    |out| <= |r.payload| && forall p :: 0 <= p < |out| ==> out[p] == Known(r.payload[p])
  }

  /** It stays one exactly when none of the next bytes lies in a freed buffer. */
  lemma PrefixGrowsIff(r: Response, out: seq<Cell>, stale: set<nat>, end: nat)
    requires |out| <= end <= |r.payload|
    ensures IsPrefix(r, out + Given(r, stale, |out|, end)) <==>
      IsPrefix(r, out) && forall p :: |out| <= p < end ==> Bearer(p) !in stale
  {
    var more := Given(r, stale, |out|, end);
    var out' := out + more;
    if IsPrefix(r, out') {
      forall p | 0 <= p < |out|
        ensures out[p] == Known(r.payload[p])
      {
        assert out'[p] == out[p];
      }
      forall p | |out| <= p < end
        ensures Bearer(p) !in stale
      {
        assert out'[p] == more[p - |out|] == CellAt(r, stale, p);
      }
    } else {
      var p :| 0 <= p < |out'| && out'[p] != Known(r.payload[p]);
      assert p >= |out| ==> out'[p] == more[p - |out|] == CellAt(r, stale, p);
    }
  }

  /** The next bytes of datagram s, all in one buffer. */
  lemma ChunkIsGiven(r: Response, stale: set<nat>, s: nat, c: nat, bytes: Bytes, cells: seq<Cell>)
    requires c + |bytes| <= 1392 && 1392 * s + c + |bytes| <= |r.payload|
    requires bytes == r.payload[1392 * s + c..1392 * s + c + |bytes|] && |cells| == |bytes|
    requires forall j :: 0 <= j < |bytes| ==> cells[j] == if s in stale then Freed else Known(bytes[j])
    ensures cells == Given(r, stale, 1392 * s + c, 1392 * s + c + |bytes|)
  {
    var given := Given(r, stale, 1392 * s + c, 1392 * s + c + |bytes|);
    forall j | 0 <= j < |bytes|
      ensures cells[j] == given[j]
    {
      assert Bearer(1392 * s + c + j) == s;
      assert given[j] == CellAt(r, stale, 1392 * s + c + j);
    }
  }

  /** As many distinct numbers as are below k need as many places. */
  lemma {:induction false} Pigeonhole(order: seq<nat>, k: nat)
    requires forall s :: 0 <= s < k ==> s in order
    ensures k <= |order|
  {
    if k > 0 {
      assert k - 1 in order;
      var i :| 0 <= i < |order| && order[i] == k - 1;
      var rest := order[..i] + order[i + 1..];
      forall s | 0 <= s < k - 1
        ensures s in rest
      {
        assert s in order;
        var j :| 0 <= j < |order| && order[j] == s;
        assert j < i ==> rest[j] == s;
        assert j > i ==> rest[j - 1] == s;
      }
      Pigeonhole(rest, k - 1);
    }
  }

  lemma {:induction false} AtMost(order: seq<nat>, n: nat)
    requires forall i :: 0 <= i < |order| ==> order[i] < n
    requires forall i, j :: 0 <= i < j < |order| ==> order[i] != order[j]
    ensures |order| <= n
  {
    if order != [] {
      assert order[0] < n;
      var i := if n - 1 in order then IndexOf(order, n - 1) else 0;
      var rest := order[..i] + order[i + 1..];
      if n - 1 in order {
        AtMost(rest, n - 1);
      } else {
        AtMost(order, n - 1);
      }
    }
  }

  ghost function IndexOf(order: seq<nat>, s: nat): (i: nat)
    requires s in order
    ensures i < |order| && order[i] == s
  {
    var i :| 0 <= i < |order| && order[i] == s; i
  }

  /** Once as many have arrived as there are, none is missing. */
  lemma AllHaveArrived(r: Response, order: seq<nat>, s: nat)
    requires r.Arrivals(order) && |order| == r.n && s < r.n
    ensures s in order
  {
    if s !in order {
      AtMost(order + [s], r.n);
    }
  }

  lemma AllIsReady(r: Response, order: seq<nat>)
    requires r.Valid() && r.Arrivals(order) && |order| == r.n
    ensures Ready(r, order) == |r.payload|
  {
    forall s: nat | s < r.n
      ensures s in order
    {
      AllHaveArrived(r, order, s);
    }
    ReadyAll(r, order);
  }

  /** The first gap is the only number with everything before it there and itself missing. */
  lemma GapIs(order: seq<nat>, n: nat, k: nat)
    requires k <= n && (forall s :: 0 <= s < k ==> s in order) && (k == n || k !in order)
    ensures Gap(order, n, 0) == k
  {
  }

  /** What has been given out lies before the first gap. */
  lemma ReadyCovers(r: Response, order: seq<nat>, k: nat, c: nat)
    requires r.Valid() && k <= r.n && (forall s :: 0 <= s < k ==> s in order) && (c > 0 ==> k in order && k < r.n)
    requires c <= 1392 && 1392 * k + c <= |r.payload|
    ensures 1392 * k + c <= Ready(r, order)
  {
    var g := Gap(order, r.n, 0);
    assert g >= k && (c > 0 ==> g > k);
  }

  /** Nothing more is ready when the next datagram is missing. */
  lemma ReadyAtGap(r: Response, order: seq<nat>, k: nat)
    requires r.Valid() && k <= r.n && (forall s :: 0 <= s < k ==> s in order) && (k == r.n || k !in order)
    requires 1392 * k <= |r.payload|
    ensures Ready(r, order) == 1392 * k
  {
    GapIs(order, r.n, k);
  }

  lemma ReadyAll(r: Response, order: seq<nat>)
    requires r.Valid() && forall s :: 0 <= s < r.n ==> s in order
    ensures Ready(r, order) == |r.payload|
  {
    GapIs(order, r.n, r.n);
  }

  /** The next bytes of a chunk are the next bytes of the payload. */
  lemma ChunkContinues(r: Response, s: nat, c: nat, len: nat)
    requires r.Valid() && s < r.n && c + len <= |r.Chunk(s)|
    ensures 1392 * s + c + len <= |r.payload|
    ensures r.payload[..1392 * s + c] + r.Chunk(s)[c..c + len] == r.payload[..1392 * s + c + len]
  {
    SliceOfSlice(r.payload, 1392 * s, r.End(s), 1392 * s + c, 1392 * s + c + len);
    SplitSlice(r.payload, 0, 1392 * s + c, 1392 * s + c + len);
  }

  /** So are the bytes at the place the table gives. */
  lemma NextBytes(r: Response, s: nat, buf: Bytes, p: Packet, len: nat)
    requires r.Valid() && s < r.n && p.rbytes == |r.Chunk(s)| && p.copybytes + len <= p.rbytes
    requires LiesAt(buf, p.data, r.Chunk(s))
    ensures 1392 * s + p.copybytes + len <= |r.payload| && p.data + p.rbytes <= |buf|
    ensures r.payload[..1392 * s + p.copybytes] + buf[p.data + p.copybytes..p.data + p.copybytes + len]
         == r.payload[..1392 * s + p.copybytes + len]
  {
    hide Response.Chunk, Response.Valid;
    SliceOfSlice(buf, p.data, p.data + p.rbytes, p.data + p.copybytes, p.data + p.copybytes + len);
    ChunkContinues(r, s, p.copybytes, len);
  }

  lemma DatagramSize(r: Response, s: nat)
    requires r.Valid() && s < r.n
    ensures |r.Datagram(s)| == 8 + |r.Chunk(s)| && r.Datagram(s)[8..] == r.Chunk(s)
    ensures |r.Chunk(s)| == r.End(s) - 1392 * s <= 1392
    ensures |r.Chunk(s)| < 1392 <==> r.LastIsShort() && s == r.n - 1
    ensures s == r.n - 1 ==> r.End(s) == |r.payload|
  {
  }

  /** The header names the datagram: what the header macros read back is what the server put in. */
  lemma HeaderNames(r: Response, s: nat)
    requires r.Valid() && s < r.n
    ensures var d := r.Datagram(s);
      Field(d, 0) == r.id && Field(d, 2) == s && Field(d, 4) == r.n
  {
  }

  /** Only the last to arrive can be short, and then all have arrived. */
  lemma ShortComesLast(r: Response, order: seq<nat>, i: nat)
    requires r.Valid() && r.Arrivals(order) && i < |order|
    ensures order[i] < r.n && |r.Chunk(order[i])| <= 1392
    ensures |r.Chunk(order[i])| < 1392 ==> i == |order| - 1 == r.n - 1 == order[i]
  {
    DatagramSize(r, order[i]);
  }

  lemma FullUnlessLast(r: Response, order: seq<nat>, i: nat)
    requires r.Valid() && r.Arrivals(order) && i < |order| - 1
    ensures |r.Chunk(order[i])| == 1392
  {
    DatagramSize(r, order[i]);
  }

  /** The first k arrivals. */
  ghost function Members(order: seq<nat>, k: nat): (m: set<nat>)
    requires k <= |order|
    ensures forall i :: 0 <= i < k ==> order[i] in m
    ensures forall s :: s in m ==> exists i :: 0 <= i < k && order[i] == s
  {
    set i | 0 <= i < k :: order[i]
  }

  /** Later arrivals are others. */
  lemma Separate(r: Response, order: seq<nat>, k: nat)
    requires r.Arrivals(order) && k <= |order|
    ensures forall i :: k <= i < |order| ==> order[i] !in Members(order, k)
  {
  }

  lemma Distinct(r: Response, order: seq<nat>, i: nat)
    requires r.Arrivals(order) && i < |order|
    ensures forall j :: 0 <= j < |order| && j != i ==> order[j] != order[i]
    ensures order[i] in order && order[i] < r.n
  {
  }

  /** The buffer length tells how many datagrams have arrived, and how long the last one is. */
  lemma CountArrivals(r: Response, buf: Bytes, order: seq<nat>)
    requires r.Valid() && r.Arrivals(order) && r.Holds(buf, order) && order != []
    ensures |order| == (if |buf| % 1400 >= 8 then |buf| / 1400 + 1 else |buf| / 1400)
    ensures var last := |r.Chunk(order[|order| - 1])|;
      if |buf| % 1400 == 0 then last == 1392 else last == |buf| % 1400 - 8 < 1392
  {
    DatagramSize(r, order[|order| - 1]);
  }

  lemma DatagramAt(r: Response, buf: Bytes, order: seq<nat>, i: nat)
    requires r.Valid() && r.Arrivals(order) && r.Holds(buf, order) && i < |order|
    ensures 1400 * i + 8 + |r.Chunk(order[i])| <= |buf|
    ensures buf[1400 * i + 8..1400 * i + 8 + |r.Chunk(order[i])|] == r.Chunk(order[i])
    ensures Field(buf, 1400 * i + 2) == order[i] && Field(buf, 1400 * i + 4) == r.n
  {
    hide Response.Chunk, Response.End, Response.Datagram, Field, LiesAt;
    var d, at := r.Datagram(order[i]), 1400 * i;
    assert LiesAt(buf, at, d);
    DatagramSize(r, order[i]);
    HeaderNames(r, order[i]);
    HeaderAt(buf, at, d);
    DataAt(buf, at, d);
  }

  lemma DataAt(buf: Bytes, at: nat, d: Bytes)
    requires LiesAt(buf, at, d) && |d| >= 8
    ensures at + |d| <= |buf| && buf[at + 8..at + |d|] == d[8..]
  {
    SliceOfSlice(buf, at, at + |d|, at + 8, at + |d|);
    assert d[8..|d|] == d[8..];
  }

  lemma HeaderAt(buf: Bytes, at: nat, d: Bytes)
    requires LiesAt(buf, at, d) && |d| >= 8
    ensures Field(buf, at + 2) == Field(d, 2) && Field(buf, at + 4) == Field(d, 4)
  {
    assert d[2] == buf[at + 2] && d[3] == buf[at + 3] && d[4] == buf[at + 4] && d[5] == buf[at + 5];
  }

  /** One more datagram at the end of the buffer. */
  lemma HoldsMore(r: Response, buf: Bytes, order: seq<nat>, s: nat)
    requires r.Valid() && s < r.n && r.Arrivals(order) && r.Holds(buf, order) && r.Arrivals(order + [s])
    ensures r.Holds(buf + r.Datagram(s), order + [s])
  {
    AllFullSoFar(r, buf, order, s);
    var buf', order' := buf + r.Datagram(s), order + [s];
    hide Response.Chunk, Response.End, Response.Datagram, Response.Arrivals;
    forall i {:trigger order'[i]} | 0 <= i < |order'|
      ensures LiesAt(buf', 1400 * i, r.Datagram(order'[i]))
    {
      if i < |order| {
        assert order'[i] == order[i] && LiesAt(buf, 1400 * i, r.Datagram(order[i]));
        StillLies(buf, 1400 * i, r.Datagram(order[i]), r.Datagram(s));
      } else {
        LiesBehind(buf, r.Datagram(s));
      }
    }
  }

  lemma StillLies(buf: Bytes, at: nat, d: Bytes, more: Bytes)
    requires LiesAt(buf, at, d)
    ensures LiesAt(buf + more, at, d)
  {
  }

  lemma LiesBehind(buf: Bytes, d: Bytes)
    ensures LiesAt(buf + d, |buf|, d)
  {
  }

  lemma AllFullSoFar(r: Response, buf: Bytes, order: seq<nat>, s: nat)
    requires r.Valid() && s < r.n && r.Arrivals(order) && r.Holds(buf, order) && r.Arrivals(order + [s])
    ensures |buf| == 1400 * |order|
  {
    var k := |order|;
    if k > 0 {
      DatagramSize(r, order[k - 1]);
    }
  }

  /** A datagram arrives, and a reallocation would move the buffer or not; or the caller reads with room for `cap` bytes. */
  datatype Event = Arrive(s: nat, datagram: Bytes, moves: bool) | Read(cap: nat)

  /** The arrivals are datagrams of this response; the caller reads only when something has come. */
  ghost predicate Legal(r: Response, order: seq<nat>, events: seq<Event>)
    requires r.Valid()
    decreases events
  {
    events == [] ||
    match events[0] {
      case Arrive(s, d, _) =>
        s < r.n && r.Arrivals(order + [s]) && d == r.Datagram(s) && Legal(r, order + [s], events[1..])
      case Read(cap) =>
        order != [] && Legal(r, order, events[1..])
    }
  }

  ghost function Cap(e: Event): nat { if e.Read? then e.cap else 0 }

  /** The room all reads have together. */
  ghost function Room(events: seq<Event>): nat {
    if events == [] then 0 else Cap(events[0]) + Room(events[1..])
  }

  /**
    What the arrivals and reads so far come to: the datagrams there, how much was given out, whose pointers
    were left behind, how many datagrams the last read entered, and the size of the buffer.
   */
  datatype Trace = Trace(order: seq<nat>, given: nat, stale: set<nat>, entered: nat, size: nat)

  /** A reallocation that moves the buffer leaves all pointers entered so far behind. */
  ghost function After(r: Response, t: Trace, e: Event): Trace {
    match e
    case Arrive(s, _, moves) =>
      var grows := 1400 * (|t.order| + 1) > t.size;
      Trace(t.order + [s], t.given, if grows && moves then Members(t.order, Min(t.entered, |t.order|)) else t.stale,
            t.entered, if grows then 2 * t.size else t.size)
    case Read(cap) => Trace(t.order, Min(t.given + cap, Ready(r, t.order)), t.stale, |t.order|, t.size)
  }

  /** The event gives out no byte of a datagram whose pointer was left behind. */
  ghost predicate CleanStep(r: Response, t: Trace, e: Event) {
    forall p :: t.given <= p < After(r, t, e).given ==> Bearer(p) !in t.stale
  }

  ghost predicate Clean(r: Response, t: Trace, events: seq<Event>)
    decreases events
  {
    events == [] || (CleanStep(r, t, events[0]) && Clean(r, After(r, t, events[0]), events[1..]))
  }

  /** It is enough that the whole response fits the buffer. */
  lemma {:induction false} FittingIsClean(r: Response, t: Trace, events: seq<Event>)
    requires r.Valid() && Legal(r, t.order, events) && t.stale == {} && 1400 * r.n <= t.size
    ensures Clean(r, t, events)
    decreases events
  {
    hide Response.Valid, Ready;
    if events != [] {
      FittingIsClean(r, After(r, t, events[0]), events[1..]);
    }
  }

  // ---------------------------------------------------------------------------------------------
  // The code
  // ---------------------------------------------------------------------------------------------

  class UdpConn {
    var rudpbuf: Bytes
    var rudpsize: nat
    /** How often the buffer has moved. */
    var buffer: nat
    const udppkt: array<Packet>
    var packets: nat
    var recvpkt: nat
    var pktcurr: nat
    var ordcurr: nat

    /** The response being received, what has arrived of it, and what has been given out so far. */
    ghost const response: Response
    ghost var order: seq<nat>
    ghost var out: seq<Cell>
    /** The datagrams whose pointers were left behind. */
    ghost var stale: set<nat>

    ghost predicate Received()
      reads this`rudpbuf, this`order
    {
      && response.Valid() && response.Arrivals(order) && response.Holds(rudpbuf, order)
      && udppkt.Length == MAX_UDP_PACKET
    }

    /** The table says where the first k arrivals are, and knows nothing that has not arrived. */
    ghost predicate Tabled(k: nat)
      reads this`rudpbuf, this`order, udppkt
      requires Received()
    {
      && k <= |order|
      && (forall i {:trigger order[i]} :: 0 <= i < k ==>
        var p := udppkt[order[i]];
        p.seen && p.data == 1400 * i + 8 && p.rbytes == |response.Chunk(order[i])|)
      && (forall s :: 0 <= s < MAX_UDP_PACKET && s !in order ==> !udppkt[s].seen)
    }

    /** Of the first k arrivals the stale ones, and no others, point into another buffer than the current one. */
    ghost predicate Buffered(k: nat)
      reads this`rudpbuf, this`order, this`buffer, this`stale, udppkt
      requires Received()
    {
      && k <= |order|
      && (forall i {:trigger order[i]} :: 0 <= i < k ==>
            udppkt[order[i]].buffer <= buffer && (order[i] in stale <==> udppkt[order[i]].buffer != buffer))
      && (forall i {:trigger order[i]} :: k <= i < |order| ==> order[i] !in stale)
      && forall s :: s in stale ==> s in order
    }

    /** Everything before `ordcurr` has been given out, some of it too, and nothing behind it. */
    ghost predicate Copied()
      reads this`rudpbuf, this`order, this`ordcurr, this`out, udppkt
      requires Received()
    {
      && ordcurr <= response.n < MAX_UDP_PACKET
      && (forall s :: 0 <= s < ordcurr ==> s in order)
      && (forall s :: ordcurr < s < MAX_UDP_PACKET ==> udppkt[s].copybytes == 0)
      && var c := udppkt[ordcurr].copybytes;
      && (c > 0 ==> ordcurr in order && c < 1392)
      && |out| == 1392 * ordcurr + c <= |response.payload|
    }

    ghost predicate Valid()
      reads this, udppkt
    {
      && Received() && Tabled(pktcurr) && Buffered(pktcurr) && Copied() && packets in {0, response.n}
      && |rudpbuf| <= rudpsize && 1400 <= rudpsize
    }

    constructor (ghost response: Response)
      requires response.Valid()
      ensures Valid() && this.response == response && order == [] && out == [] && stale == {} && fresh(udppkt)
      ensures rudpsize == UDP_DATA_BUFFER_SIZE && buffer == 0 && pktcurr == 0
    {
      this.response := response;
      rudpbuf, rudpsize, buffer, packets, recvpkt, pktcurr, ordcurr := [], UDP_DATA_BUFFER_SIZE, 0, 0, 0, 0, 0;
      udppkt := new Packet[MAX_UDP_PACKET](i => Packet(false, 0, 0, 0, 0));
      order, out, stale := [], [], {};
    }

    /** One turn of the loop that builds the table. */
    method EnterPacket(i: nat)
      requires Received() && Tabled(i) && Buffered(i) && Copied() && i < |order| == recvpkt && pktcurr == i
      modifies this`pktcurr, udppkt
      ensures Received() && Tabled(i + 1) && Buffered(i + 1) && Copied() && order[i] !in stale
      ensures pktcurr == i + 1 || (i + 1 == recvpkt && pktcurr == i && |rudpbuf| % UDP_MAX_PAYLOAD_SIZE != 0)
    {
      hide Response.Chunk, Response.End, Response.Datagram, Response.Holds, Response.Arrivals, Field;
      CountArrivals(response, rudpbuf, order);
      DatagramAt(response, rudpbuf, order, i);
      if i < |order| - 1 {
        FullUnlessLast(response, order, i);
      }
      assert order[i] !in stale;
      hide UdpConn.Tabled, UdpConn.Buffered, UdpConn.Copied;
      var header := i * UDP_MAX_PAYLOAD_SIZE;
      var seqNum := Field(rudpbuf, header + 2);
      var rbytes := UDP_MAX_PAYLOAD_SIZE - UDP_HEADER_SIZE;
      if i == recvpkt - 1 && |rudpbuf| % UDP_MAX_PAYLOAD_SIZE != 0 {
        rbytes := |rudpbuf| % UDP_MAX_PAYLOAD_SIZE - UDP_HEADER_SIZE;
      } else {
        pktcurr := pktcurr + 1;
      }
      SetPacket(i, seqNum, header + UDP_HEADER_SIZE, rbytes);
    }

    method SetPacket(ghost i: nat, seqNum: nat, data: nat, rbytes: nat)
      requires Received() && Tabled(i) && Buffered(i) && Copied() && i < |order|
      requires seqNum == order[i] && data == 1400 * i + 8 && rbytes == |response.Chunk(order[i])|
      modifies udppkt
      ensures Received() && Tabled(i + 1) && Buffered(i + 1) && Copied()
    {
      hide Response.Chunk, Response.End, Response.Datagram, Response.Holds, Response.Arrivals;
      Distinct(response, order, i);
      udppkt[seqNum] := Packet(true, buffer, data, rbytes, udppkt[seqNum].copybytes);
    }

    /** The buffer moves: every pointer into it is left behind. */
    method Move()
      requires Received() && Tabled(pktcurr) && Buffered(pktcurr)
      modifies this`buffer, this`stale
      ensures Buffered(pktcurr) && buffer == old(buffer) + 1 && pktcurr <= |order| && stale == Members(order, pktcurr)
      ensures forall i :: 0 <= i < pktcurr ==> order[i] in stale
    {
      Separate(response, order, pktcurr);
      hide Response.Chunk, Response.End, Response.Datagram, Response.Holds, Response.Valid, Response.Arrivals;
      assert pktcurr <= |order|;
      buffer := buffer + 1;
      stale := Members(order, pktcurr);
    }

    lemma EnteredHaveArrived()
      requires Valid()
      ensures pktcurr <= |order|
    {
      hide UdpConn.Received, UdpConn.Copied;
    }

    /** The buffer is reallocated when a whole datagram might not fit. */
    method MakeRoom(moves: bool)
      requires Valid()
      modifies this`rudpsize, this`buffer, this`stale
      ensures Valid() && |rudpbuf| + 1400 <= rudpsize
      ensures |rudpbuf| + 1400 <= old(rudpsize) ==> buffer == old(buffer) && stale == old(stale) && rudpsize == old(rudpsize)
      ensures |rudpbuf| + 1400 > old(rudpsize) ==>
        rudpsize == 2 * old(rudpsize) && pktcurr <= |order| && stale == if moves then Members(order, pktcurr) else old(stale)
      ensures |rudpbuf| + 1400 > old(rudpsize) && moves ==>
        buffer == old(buffer) + 1 && forall i :: 0 <= i < pktcurr ==> order[i] in stale
    {
      hide UdpConn.Received, UdpConn.Tabled, UdpConn.Buffered, UdpConn.Copied;
      EnteredHaveArrived();
      if |rudpbuf| + UDP_MAX_PAYLOAD_SIZE > rudpsize {
        rudpsize := rudpsize * 2;
        if moves {
          Move();
        }
      }
    }

    /** The datagram goes behind what is there. */
    method Append(ghost s: nat, datagram: Bytes)
      requires Valid() && s < response.n && response.Arrivals(order + [s]) && datagram == response.Datagram(s)
      requires |rudpbuf| + |datagram| <= rudpsize
      modifies this`rudpbuf, this`order
      ensures Valid() && order == old(order) + [s]
    {
      hide Response.Chunk, Response.End, Response.Datagram, Response.Arrivals, Response.Holds, Response.Valid;
      HoldsMore(response, rudpbuf, order, s);
      NewcomerIsNotStale(s);
      ghost var was := order;
      rudpbuf := rudpbuf + datagram;
      order := order + [s];
      assert forall i :: 0 <= i < |was| ==> order[i] == was[i];
    }

    /** A datagram that may still come has at most 1400 bytes, as all before it had. */
    lemma Fits(s: nat)
      requires Valid() && s < response.n && response.Arrivals(order + [s])
      ensures response.Valid() && |rudpbuf| == 1400 * |order| && |response.Datagram(s)| <= 1400 && pktcurr <= |order|
    {
      hide Response.Chunk, Response.End, Response.Datagram, Response.Arrivals, Response.Holds, Response.Valid;
      AllFullSoFar(response, rudpbuf, order, s);
      DatagramSize(response, s);
    }

    /** When every datagram is full, the buffer holds whole ones. */
    lemma WholeDatagrams()
      requires Valid() && !response.LastIsShort()
      ensures |rudpbuf| == 1400 * |order|
    {
      hide Response.Chunk, Response.End, Response.Datagram, Response.Valid;
      if order != [] {
        CountArrivals(response, rudpbuf, order);
        DatagramSize(response, order[|order| - 1]);
      }
    }

    lemma AllReady()
      requires Valid() && |order| == response.n
      ensures Ready(response, order) == |response.payload|
    {
      AllIsReady(response, order);
    }

    lemma WithinPayload()
      requires Valid()
      ensures |out| <= |response.payload|
    {
    }

    /** A read that got datagram s. */
    method Receive(ghost s: nat, datagram: Bytes, moves: bool)
      requires Valid() && s < response.n && response.Arrivals(order + [s]) && datagram == response.Datagram(s)
      modifies this`rudpbuf, this`order, this`rudpsize, this`buffer, this`stale
      ensures Valid() && order == old(order) + [s]
      ensures 1400 * |order| <= old(rudpsize) ==> buffer == old(buffer) && stale == old(stale) && rudpsize == old(rudpsize)
      ensures 1400 * |order| > old(rudpsize) ==>
        rudpsize == 2 * old(rudpsize) && pktcurr <= |old(order)| && stale == if moves then Members(old(order), pktcurr) else old(stale)
      ensures 1400 * |order| > old(rudpsize) && moves ==>
        buffer == old(buffer) + 1 && forall i :: 0 <= i < pktcurr ==> order[i] in stale
      ensures old(|rudpbuf|) == 1400 * |old(order)|
    {
      hide UdpConn.Valid, UdpConn.Received, UdpConn.Tabled, UdpConn.Buffered, UdpConn.Copied;
      hide Response.Chunk, Response.End, Response.Datagram, Response.Arrivals, Response.Holds, Response.Valid;
      Fits(s);
      MakeRoom(moves);
      Append(s, datagram);
    }

    lemma NewcomerIsNotStale(s: nat)
      requires Valid() && response.Arrivals(order + [s])
      ensures s !in stale && s !in order
    {
      assert (order + [s])[|order|] == s && forall i :: 0 <= i < |order| ==> (order + [s])[i] == order[i];
    }

    /** The first part of ms_sort_udp_packet: enters the arrivals that are new, and a short last one again. */
    method IndexPackets()
      requires Valid() && order != []
      modifies this`recvpkt, this`packets, this`pktcurr, udppkt
      ensures Sorted() && (|rudpbuf| % UDP_MAX_PAYLOAD_SIZE == 0 ==> pktcurr == |order|)
    {
      hide Response.Valid, Response.Chunk, Response.End, Response.Datagram, Response.Arrivals, Response.Holds, Field;
      CountArrivals(response, rudpbuf, order);
      DatagramAt(response, rudpbuf, order, 0);
      recvpkt := if |rudpbuf| % UDP_MAX_PAYLOAD_SIZE >= UDP_HEADER_SIZE
        then |rudpbuf| / UDP_MAX_PAYLOAD_SIZE + 1 else |rudpbuf| / UDP_MAX_PAYLOAD_SIZE;
      if packets == 0 {
        packets := Field(rudpbuf, 4);
      }
      assert recvpkt == |order|;
      EnterPackets();
    }

    /** The loop over the arrivals that are not entered for good. */
    method EnterPackets()
      requires Valid() && order != [] && recvpkt == |order| && packets == response.n
      modifies this`pktcurr, udppkt
      ensures Sorted() && (|rudpbuf| % UDP_MAX_PAYLOAD_SIZE == 0 ==> pktcurr == |order|)
    {
      hide Response.Valid, Response.Chunk, Response.End, Response.Datagram, Response.Arrivals, Response.Holds;
      assert pktcurr <= |order|;
      hide UdpConn.Tabled, UdpConn.Copied, UdpConn.Received, UdpConn.Buffered;
      for i := pktcurr to recvpkt
        invariant Received() && Tabled(i) && Buffered(i) && Copied()
        invariant pktcurr == i || (i == recvpkt && pktcurr == i - 1 && |rudpbuf| % UDP_MAX_PAYLOAD_SIZE != 0 && order[pktcurr] !in stale)
        modifies this`pktcurr, udppkt
      {
        EnterPacket(i);
      }
      if pktcurr < recvpkt {
        Shorter(pktcurr);
      }
    }

    /** What holds of all arrivals holds of all but the last. */
    lemma Shorter(k: nat)
      requires Received() && k + 1 == |order| && Tabled(k + 1) && Buffered(k + 1) && order[k] !in stale
      ensures Tabled(k) && Buffered(k)
    {
    }

    ghost predicate Sorted()
      reads this, udppkt
    {
      Valid() && Tabled(|order|) && Buffered(|order|) && recvpkt == |order| && packets == response.n
    }

    /** What the table says about a datagram that is there. */
    lemma Entry(s: nat)
      requires Sorted() && s < MAX_UDP_PACKET && udppkt[s].seen
      ensures s in order && s < response.n && udppkt[s].rbytes == |response.Chunk(s)|
      ensures LiesAt(rudpbuf, udppkt[s].data, response.Chunk(s))
      ensures udppkt[s].rbytes <= 1392 && (udppkt[s].rbytes < 1392 ==> recvpkt == packets && s == recvpkt - 1)
      ensures s in stale <==> udppkt[s].buffer != buffer
    {
      hide Response.Chunk, Response.End, Response.Datagram, Response.Holds, Response.Arrivals, Response.Valid;
      assert s in order;
      var i :| 0 <= i < |order| && order[i] == s;
      DatagramAt(response, rudpbuf, order, i);
      ShortComesLast(response, order, i);
      hide LiesAt;
    }

    /** The bytes of the next datagram that still have to be copied, up to `room` of them, as they are read. */
    method Pick(room: nat) returns (chunk: seq<Cell>)
      requires Sorted() && udppkt[ordcurr].seen && udppkt[ordcurr].copybytes < udppkt[ordcurr].rbytes
      ensures var rest := udppkt[ordcurr].rbytes - udppkt[ordcurr].copybytes; |chunk| == if rest > room then room else rest
      ensures |out| + |chunk| <= |response.payload| && chunk == Given(response, stale, |out|, |out| + |chunk|)
      ensures ordcurr in order && ordcurr < response.n
    {
      hide Response.Valid, Response.Chunk, Response.End, Response.Datagram, Response.Holds, Response.Arrivals;
      hide UdpConn.Tabled, UdpConn.Buffered, Given;
      Entry(ordcurr);
      var p := udppkt[ordcurr];
      assert |out| == 1392 * ordcurr + p.copybytes && |response.Chunk(ordcurr)| <= 1392;
      hide UdpConn.Sorted, UdpConn.Valid, UdpConn.Received, UdpConn.Copied;
      var len := p.rbytes - p.copybytes;
      if len > room {
        len := room;
      }
      NextBytes(response, ordcurr, rudpbuf, p, len);
      var bytes := rudpbuf[p.data + p.copybytes..p.data + p.copybytes + len];
      if p.buffer == buffer {
        chunk := seq(len, j requires 0 <= j < len => Known(bytes[j]));
      } else {
        chunk := seq(len, j => Freed);
      }
      ChunkIsGiven(response, stale, ordcurr, p.copybytes, bytes, chunk);
    }

    /** The table and the current datagram, once these bytes of it have been copied. */
    method Advance(ghost chunk: seq<Cell>, len: nat)
      requires Sorted() && ordcurr in order && ordcurr < response.n && len == |chunk|
      requires udppkt[ordcurr].copybytes + len <= udppkt[ordcurr].rbytes == |response.Chunk(ordcurr)| <= 1392
      requires |out| + len <= |response.payload|
      modifies this`ordcurr, this`out, udppkt
      ensures Sorted() && out == old(out) + chunk
      ensures var i := old(ordcurr);
        && udppkt[i].rbytes == old(udppkt[ordcurr].rbytes) && udppkt[i].copybytes == old(udppkt[ordcurr].copybytes) + len
        && ordcurr == (if udppkt[i].copybytes == 1392 then i + 1 else i)
    {
      hide Response.Chunk, Response.End, Response.Datagram, Response.Holds, Response.Arrivals, Response.Valid;
      var i := ordcurr;
      udppkt[i] := udppkt[i].(copybytes := udppkt[i].copybytes + len);
      if udppkt[i].copybytes == udppkt[i].rbytes && udppkt[i].rbytes == UDP_MAX_PAYLOAD_SIZE - UDP_HEADER_SIZE {
        ordcurr := ordcurr + 1;
      }
      out := out + chunk;
    }

    /** Copies from the datagram that is next, up to `room` bytes. */
    method CopyPacket(room: nat) returns (chunk: seq<Cell>)
      requires Sorted() && udppkt[ordcurr].seen && udppkt[ordcurr].copybytes < udppkt[ordcurr].rbytes
      modifies this`ordcurr, this`out, udppkt
      ensures Sorted() && out == old(out) + chunk && chunk == Given(response, stale, |old(out)|, |out|)
      ensures var i, rest := old(ordcurr), old(udppkt[ordcurr].rbytes - udppkt[ordcurr].copybytes);
        && |chunk| == (if rest > room then room else rest)
        && udppkt[i].rbytes == old(udppkt[ordcurr].rbytes) && udppkt[i].copybytes == old(udppkt[ordcurr].copybytes) + |chunk|
        && ordcurr == (if udppkt[i].copybytes == 1392 then i + 1 else i)
    {
      hide Response.Chunk, Response.End, Response.Datagram, Response.Holds, Response.Arrivals, Given;
      hide UdpConn.Tabled, UdpConn.Buffered;
      chunk := Pick(room);
      Entry(ordcurr);
      Advance(chunk, |chunk|);
    }

    /** The loop has nothing more to give out: it met a gap, the end of a short datagram, or the last arrival. */
    lemma Exhausted()
      requires Sorted()
      requires ordcurr < recvpkt && udppkt[ordcurr].seen ==> udppkt[ordcurr].copybytes >= udppkt[ordcurr].rbytes
      ensures |out| == Ready(response, order)
    {
      hide Response.Chunk, Response.End, Response.Datagram, Response.Holds, Response.Arrivals, Ready, Gap, UdpConn.Buffered;
      if ordcurr !in order || ordcurr == response.n {
        ReadyAtGap(response, order, ordcurr);
      } else if ordcurr >= recvpkt {
        Pigeonhole(order, ordcurr + 1);
      } else {
        assert udppkt[ordcurr].seen;
        Entry(ordcurr);
        DatagramSize(response, ordcurr);
        ReadyAll(response, order);
      }
    }

    /** What has been given out was ready. */
    lemma WithinReady()
      requires Valid()
      ensures |out| <= Ready(response, order) <= |response.payload|
    {
      hide Response.Chunk, Response.End, Response.Datagram, Response.Holds, Response.Arrivals, Gap, UdpConn.Tabled, UdpConn.Buffered;
      ReadyCovers(response, order, ordcurr, udppkt[ordcurr].copybytes);
    }

    /** The second part of ms_sort_udp_packet: copies in the order of the sequence numbers. */
    method CopyOut(cap: nat) returns (buf: seq<Cell>)
      requires Sorted()
      modifies this`ordcurr, this`out, udppkt
      ensures Sorted() && out == old(out) + buf && buf == Given(response, stale, |old(out)|, |out|)
      ensures |out| == Min(|old(out)| + cap, Ready(response, order))
    {
      hide Response.Valid, Response.Chunk, Response.End, Response.Datagram, Response.Holds, Response.Arrivals, Ready, Gap;
      hide UdpConn.Tabled, UdpConn.Buffered, Given;
      buf := [];
      NothingGiven(response, stale, |out|);
      var i := ordcurr;
      while i < recvpkt
        invariant Sorted() && i == ordcurr && out == old(out) + buf && |buf| <= cap
        invariant buf == Given(response, stale, |old(out)|, |out|)
        modifies this`ordcurr, this`out, udppkt
      {
        if !udppkt[i].seen || udppkt[i].copybytes >= udppkt[i].rbytes {
          break;
        }
        Entry(i);
        ghost var from := |out|;
        var chunk := CopyPacket(cap - |buf|);
        GivenSplits(response, stale, |old(out)|, from, |out|);
        buf := buf + chunk;
        if recvpkt == packets && i == recvpkt - 1 && udppkt[i].copybytes == udppkt[i].rbytes {
          break;
        }
        if |buf| >= cap {
          break;
        }
        if i != recvpkt - 1 && udppkt[i].rbytes < UDP_MAX_PAYLOAD_SIZE - UDP_HEADER_SIZE {
          break;
        }
        i := i + 1;
      }
      WithinReady();
      if |buf| < cap {
        Exhausted();
      }
    }

    /**
      ms_sort_udp_packet. It gives out the next bytes of the payload: as many as there is room for and as
      lie before the first gap. It reports -1 when that is none. What was given out stays a prefix of the
      payload if and only if none of these bytes belongs to a datagram whose pointer was left behind.
     */
    method Sort(cap: nat) returns (r: int, buf: seq<Cell>)
      requires Valid() && order != []
      modifies this`recvpkt, this`packets, this`pktcurr, this`ordcurr, this`out, udppkt
      ensures Valid() && out == old(out) + buf && r == (if buf == [] then -1 else |buf|)
      ensures |out| == Min(|old(out)| + cap, Ready(response, order)) <= |response.payload|
      ensures IsPrefix(response, out) <==>
        IsPrefix(response, old(out)) && forall p :: |old(out)| <= p < |out| ==> Bearer(p) !in stale
      ensures |rudpbuf| % UDP_MAX_PAYLOAD_SIZE == 0 ==> pktcurr == |order|
    {
      hide Response.Valid, Response.Chunk, Response.End, Response.Datagram, Response.Holds, Response.Arrivals, Ready, Gap;
      hide UdpConn.Tabled, UdpConn.Buffered, Given, IsPrefix;
      IndexPackets();
      buf := CopyOut(cap);
      WithinReady();
      PrefixGrowsIff(response, old(out), stale, |out|);
      r := if |buf| == 0 then -1 else |buf|;
    }

    /** The connection is where the trace says. */
    ghost predicate At(t: Trace)
      reads this`order, this`out, this`stale, this`rudpsize, this`rudpbuf, this`pktcurr
    {
      && t.order == order && t.given == |out| && t.stale == stale && t.size == rudpsize && t.entered <= |order|
      && (|rudpbuf| % UDP_MAX_PAYLOAD_SIZE == 0 ==> pktcurr == t.entered)
    }

    /** A datagram arrives. */
    method HandleArrival(ghost s: nat, datagram: Bytes, moves: bool, ghost t: Trace)
      requires Valid() && At(t) && s < response.n && response.Arrivals(order + [s]) && datagram == response.Datagram(s)
      modifies this`rudpbuf, this`order, this`rudpsize, this`buffer, this`stale
      ensures Valid() && order == old(order) + [s] && At(After(response, t, Arrive(s, datagram, moves)))
    {
      hide UdpConn.Valid, Response.Chunk, Response.End, Response.Datagram, Response.Arrivals, Response.Valid, Ready;
      Receive(s, datagram, moves);
    }

    /** One event. */
    method Handle(e: Event, ghost rest: seq<Event>, ghost t: Trace) returns (buf: seq<Cell>)
      requires Valid() && Legal(response, order, [e] + rest) && At(t)
      modifies this, udppkt
      ensures Valid() && Legal(response, order, rest) && out == old(out) + buf && At(After(response, t, e))
      ensures IsPrefix(response, out) <==> IsPrefix(response, old(out)) && CleanStep(response, t, e)
      ensures |old(order)| == response.n ==>
        |order| == response.n && |out| == Min(|old(out)| + Cap(e), |response.payload|)
    {
      hide Response.Chunk, Response.End, Response.Datagram, Response.Holds, Ready, Gap, IsPrefix;
      hide UdpConn.Tabled, UdpConn.Buffered, UdpConn.Copied;
      assert ([e] + rest)[1..] == rest;
      match e {
        case Arrive(s, d, moves) =>
          HandleArrival(s, d, moves, t);
          buf := [];
          assert old(out) + [] == old(out);
        case Read(cap) =>
          var r;
          if |order| == response.n {
            AllIsReady(response, order);
          }
          r, buf := Sort(cap);
      }
    }

    /** Where the connection is. */
    ghost function Here(): Trace
      reads this
    {
      Trace(order, |out|, stale, pktcurr, rudpsize)
    }

    lemma StartsHere()
      requires Valid()
      ensures At(Here())
    {
      hide UdpConn.Received, UdpConn.Tabled, UdpConn.Copied;
    }

    /**
      Any interleaving of arrivals and reads. What the reads returned is a prefix of the payload, without gaps
      and repeats, if and only if no read gave out a byte of a datagram whose pointer had been left behind;
      it is enough that the whole response fits the buffer. When everything has arrived, reads with enough
      room for what is left complete it.
     */
    method Session(events: seq<Event>) returns (read: seq<Cell>)
      requires Valid() && Legal(response, order, events)
      modifies this, udppkt
      ensures Valid() && out == old(out) + read
      ensures IsPrefix(response, out) <==> IsPrefix(response, old(out)) && Clean(response, old(Here()), events)
      ensures 1400 * response.n <= old(rudpsize) && old(stale) == {} ==> Clean(response, old(Here()), events)
      ensures |old(order)| == response.n ==> |out| == Min(|old(out)| + Room(events), |response.payload|)
    {
      hide Response.Chunk, Response.End, Response.Datagram, Response.Holds, Ready, Gap, Response.Arrivals, Legal;
      hide UdpConn.Tabled, UdpConn.Buffered, UdpConn.Copied, IsPrefix, Response.Valid, After, CleanStep, UdpConn.At;
      read := [];
      var i := 0;
      assert events[0..] == events;
      ghost var start, t := Here(), Here();
      StartsHere();
      if 1400 * response.n <= rudpsize && stale == {} {
        FittingIsClean(response, start, events);
      }
      while i < |events|
        invariant 0 <= i <= |events| && Valid() && Legal(response, order, events[i..]) && At(t)
        invariant out == old(out) + read
        invariant IsPrefix(response, out) && Clean(response, t, events[i..])
             <==> IsPrefix(response, old(out)) && Clean(response, start, events)
        invariant |old(order)| == response.n ==> |order| == response.n
        invariant |old(order)| == response.n ==>
          Min(|out| + Room(events[i..]), |response.payload|) == Min(|old(out)| + Room(events), |response.payload|)
      {
        assert events[i..] == [events[i]] + events[i + 1..];
        var buf := Handle(events[i], events[i + 1..], t);
        t := After(response, t, events[i]);
        read := read + buf;
        i := i + 1;
      }
      WithinPayload();
    }
  }

  // ---------------------------------------------------------------------------------------------
  // A run that reads freed memory
  // ---------------------------------------------------------------------------------------------

  /** The datagrams from 1 to k, in order. */
  function Upto(k: nat): (order: seq<nat>)
    ensures |order| == k && forall i :: 0 <= i < k ==> order[i] == i + 1
  {
    seq(k, i => i + 1)
  }

  lemma NextArrival(r: Response, k: nat)
    requires r.Valid() && !r.LastIsShort() && k < r.n
    ensures k + 1 < r.n ==> r.Arrivals(Upto(k) + [k + 1]) && Upto(k) + [k + 1] == Upto(k + 1)
    ensures r.Arrivals(Upto(k) + [0])
  {
  }

  lemma NothingReady(r: Response, order: seq<nat>)
    requires r.Valid() && 0 !in order
    ensures Ready(r, order) == 0
  {
    GapIs(order, r.n, 0);
  }

  /**
    The condition is needed: 749 full datagrams do not fit the buffer. Number 0 comes last, the buffer is
    reallocated for it and moves, and the bytes of number 1 are read through a pointer into the old one.
   */
  method ReadsFreedMemory(payload: Bytes) returns (conn: UdpConn)
    requires |payload| == 1392 * 749
    ensures fresh(conn) && conn.Valid() && conn.response == Response(payload, 749, 0) && |conn.order| == 749
    ensures |conn.out| > 1392 && !IsPrefix(conn.response, conn.out)
  {
    hide Response.Chunk, Response.End, Response.Datagram, Response.Arrivals, Response.Holds, Ready, Gap, IsPrefix;
    hide UdpConn.Tabled, UdpConn.Buffered, UdpConn.Copied, UdpConn.Received, UdpConn.Valid;
    var r := Response(payload, 749, 0);
    conn := new UdpConn(r);
    for k := 0 to 748
      invariant fresh(conn) && fresh(conn.udppkt) && conn.Valid() && conn.response == r
      invariant conn.order == Upto(k) && conn.out == [] && conn.pktcurr == k
      invariant conn.stale == {} && conn.rudpsize == UDP_DATA_BUFFER_SIZE
    {
      NextArrival(r, k);
      conn.Receive(k + 1, r.Datagram(k + 1), true);
      NothingReady(r, conn.order);
      conn.WholeDatagrams();
      var _, _ := conn.Sort(UDP_MAX_PAYLOAD_SIZE);
    }
    NextArrival(r, 748);
    conn.Receive(0, r.Datagram(0), true);
    assert conn.order[0] == 1 && 1 in conn.stale && Bearer(1392) == 1;
    conn.AllReady();
    var _, _ := conn.Sort(2 * 1392);
  }
}
