/**
  The read buffer of a memaslap connection: a window of unread bytes that moves through the buffer as
  lines and values are taken from its front and the network adds to its end.
 */
module ReadWindow {
  import opened ByteOrder
  import opened Slices

  const DATA_BUFFER_SIZE := 1024 * 1024 + 2048
  const READ_BUFFER_HIGHWAT := 2 * DATA_BUFFER_SIZE
  const NEWLINE: Byte := 10
  const RETURN: Byte := 13

  /** What one read from the network brings. */
  datatype Got = Data(bytes: Bytes) | Closed | Again | Failed

  /** One turn of the reading loop: whether an allocation would succeed, and what the read brings. */
  datatype Turn = Turn(memory: bool, got: Got)

  /** What a line of the response says: the operation is over, there is more, or a value follows. */
  datatype Verdict = Over | More | Value(length: nat)

  // ---------------------------------------------------------------------------------------------
  // Lines
  // ---------------------------------------------------------------------------------------------

  /** The place of the first newline. */
  ghost function LineEnd(w: Bytes): (k: nat)
    ensures k <= |w| && (k < |w| ==> w[k] == NEWLINE) && NEWLINE !in w[..k]
  {
    if w == [] || w[0] == NEWLINE then 0 else 1 + LineEnd(w[1..])
  }

  /** A line without its end; a carriage return goes too, unless it is all there is. */
  ghost function LineText(w: Bytes): Bytes
    requires LineEnd(w) < |w|
  {
    var k := LineEnd(w);
    if k > 1 && w[k - 1] == RETURN then w[..k - 1] else w[..k]
  }

  lemma LineEndIs(w: Bytes, k: nat)
    requires k <= |w| && NEWLINE !in w[..k] && (k < |w| ==> w[k] == NEWLINE)
    ensures LineEnd(w) == k
  {
  }

  // ---------------------------------------------------------------------------------------------
  // What a response is, whatever the pieces it arrives in
  // ---------------------------------------------------------------------------------------------

  datatype Item = Line(text: Bytes) | Block(value: Bytes)

  /** Expecting a line, or a value of n bytes with its line end, or nothing more. */
  datatype Mode = AtLine | InValue(n: nat) | Finished

  datatype Parsed = Stuck | Found(item: Item, mode: Mode, used: nat)

  function After(v: Verdict): Mode {
    match v
    case Over => Finished
    case More => AtLine
    case Value(length) => InValue(length + 2)
  }

  /** The next item of a response, if all of it is there. */
  ghost function Step(m: Mode, s: Bytes, meaning: Bytes -> Verdict): Parsed {
    match m
    case Finished => Stuck
    case InValue(n) => if n < 2 || |s| < n then Stuck else Found(Block(s[..n - 2]), AtLine, n)
    case AtLine =>
      if LineEnd(s) == |s| then Stuck else Found(Line(LineText(s)), After(meaning(LineText(s))), LineEnd(s) + 1)
  }

  /** All items that are complete in s. */
  ghost function Parse(m: Mode, s: Bytes, meaning: Bytes -> Verdict): seq<Item>
    decreases |s|
  {
    match Step(m, s, meaning)
    case Stuck => []
    case Found(item, m', used) => [item] + Parse(m', s[used..], meaning)
  }

  /** Taking these items, one after the other, leads to mode m at place pos. */
  ghost predicate Reached(m0: Mode, s: Bytes, meaning: Bytes -> Verdict, items: seq<Item>, m: Mode, pos: nat)
    decreases items
  {
    if items == [] then m == m0 && pos == 0
    else
      var p := Step(m0, s, meaning);
      && p.Found? && p.item == items[0] && p.used <= pos && p.used <= |s|
      && Reached(p.mode, s[p.used..], meaning, items[1..], m, pos - p.used)
  }

  /** More input does not change an item that is complete. */
  lemma StepKept(m: Mode, s: Bytes, t: Bytes, meaning: Bytes -> Verdict)
    requires Step(m, s, meaning).Found?
    ensures Step(m, s + t, meaning) == Step(m, s, meaning) && Step(m, s, meaning).used <= |s|
  {
    match m
    case Finished =>
    case InValue(n) =>
      assert (s + t)[..n - 2] == s[..n - 2];
    case AtLine =>
      var k := LineEnd(s);
      assert (s + t)[..k] == s[..k];
      LineEndIs(s + t, k);
      assert k > 0 ==> (s + t)[..k - 1] == s[..k - 1];
  }

  lemma {:induction false} ReachedKept(m0: Mode, s: Bytes, t: Bytes, meaning: Bytes -> Verdict, items: seq<Item>, m: Mode, pos: nat)
    requires Reached(m0, s, meaning, items, m, pos)
    ensures Reached(m0, s + t, meaning, items, m, pos)
    decreases items
  {
    hide Step;
    if items != [] {
      var p := Step(m0, s, meaning);
      StepKept(m0, s, t, meaning);
      ReachedKept(p.mode, s[p.used..], t, meaning, items[1..], m, pos - p.used);
      assert (s + t)[p.used..] == s[p.used..] + t;
    }
  }

  lemma {:induction false} ReachedNext(m0: Mode, s: Bytes, meaning: Bytes -> Verdict, items: seq<Item>, m: Mode, pos: nat)
    requires Reached(m0, s, meaning, items, m, pos) && pos <= |s| && Step(m, s[pos..], meaning).Found?
    ensures var p := Step(m, s[pos..], meaning);
      p.used <= |s| - pos && Reached(m0, s, meaning, items + [p.item], p.mode, pos + p.used)
    decreases items
  {
    hide *;
    var last := Step(m, s[pos..], meaning);
    StepKept(m, s[pos..], [], meaning);
    ReachedUnfolds(m0, s, meaning, items, m, pos);
    if items == [] {
      assert s[0..] == s && [] + [last.item] == [last.item] + [];
      StartReached(last.mode, s[last.used..], meaning);
      ReachedCons(m0, s, meaning, [], last.mode, last.used);
    } else {
      var p := Step(m0, s, meaning);
      SliceOfSlice(s, p.used, |s|, pos, |s|);
      ReachedNext(p.mode, s[p.used..], meaning, items[1..], m, pos - p.used);
      assert items + [last.item] == [p.item] + (items[1..] + [last.item]);
      ReachedCons(m0, s, meaning, items[1..] + [last.item], last.mode, pos + last.used);
    }
  }

  lemma StartReached(m: Mode, s: Bytes, meaning: Bytes -> Verdict)
    ensures Reached(m, s, meaning, [], m, 0)
  {
  }

  lemma ReachedCons(m0: Mode, s: Bytes, meaning: Bytes -> Verdict, rest: seq<Item>, m: Mode, pos: nat)
    requires var p := Step(m0, s, meaning);
      p.Found? && p.used <= pos && p.used <= |s| && Reached(p.mode, s[p.used..], meaning, rest, m, pos - p.used)
    ensures Reached(m0, s, meaning, [Step(m0, s, meaning).item] + rest, m, pos)
  {
    assert ([Step(m0, s, meaning).item] + rest)[1..] == rest;
  }

  /** The items taken are the first of the response, and the rest of it is the parse of what is left. */
  lemma {:induction false} ReachedIsParse(m0: Mode, s: Bytes, meaning: Bytes -> Verdict, items: seq<Item>, m: Mode, pos: nat)
    requires Reached(m0, s, meaning, items, m, pos)
    ensures pos <= |s| && Parse(m0, s, meaning) == items + Parse(m, s[pos..], meaning)
    decreases items
  {
    hide *;
    ReachedUnfolds(m0, s, meaning, items, m, pos);
    if items == [] {
      assert s[0..] == s && [] + Parse(m0, s, meaning) == Parse(m0, s, meaning);
    } else {
      var p := Step(m0, s, meaning);
      var tail, rest := s[p.used..], items[1..];
      ReachedIsParse(p.mode, tail, meaning, rest, m, pos - p.used);
      SliceOfSlice(s, p.used, |s|, pos, |s|);
      assert items == [p.item] + rest;
      ConcatAssoc([p.item], rest, Parse(m, s[pos..], meaning));
    }
  }

  lemma ReachedUnfolds(m0: Mode, s: Bytes, meaning: Bytes -> Verdict, items: seq<Item>, m: Mode, pos: nat)
    requires Reached(m0, s, meaning, items, m, pos)
    ensures items == [] ==> m == m0 && pos == 0
    ensures items != [] ==>
      var p := Step(m0, s, meaning);
      && p.Found? && p.item == items[0] && p.used <= pos && p.used <= |s|
      && Reached(p.mode, s[p.used..], meaning, items[1..], m, pos - p.used)
      && Parse(m0, s, meaning) == [p.item] + Parse(p.mode, s[p.used..], meaning)
  {
    hide Step;
  }

  // ---------------------------------------------------------------------------------------------
  // What a server sends is what is read
  // ---------------------------------------------------------------------------------------------

  const LINE_END: Bytes := [RETURN, NEWLINE]

  /** What comes before the last line of a response: a line alone, or one that announces a value. */
  datatype Part = Plain(text: Bytes) | Valued(text: Bytes, value: Bytes)

  function Written(p: Part): Bytes {
    p.text + LINE_END + if p.Valued? then p.value + LINE_END else []
  }

  /** The response on the wire. */
  function Sent(parts: seq<Part>, last: Bytes): Bytes {
    if parts == [] then last + LINE_END else Written(parts[0]) + Sent(parts[1..], last)
  }

  /** What the client should get. */
  function Items(parts: seq<Part>, last: Bytes): seq<Item> {
    if parts == [] then [Line(last)]
    else (if parts[0].Valued? then [Line(parts[0].text), Block(parts[0].value)] else [Line(parts[0].text)]) + Items(parts[1..], last)
  }

  /** A line that can be read back. */
  predicate Readable(text: Bytes) { text != [] && NEWLINE !in text }

  /** The lines can be read back, and mean what they are followed by. */
  ghost predicate Meant(parts: seq<Part>, last: Bytes, meaning: Bytes -> Verdict) {
    && (forall i {:trigger parts[i]} :: 0 <= i < |parts| ==>
          Readable(parts[i].text) && meaning(parts[i].text) == if parts[i].Valued? then Value(|parts[i].value|) else More)
    && Readable(last) && meaning(last) == Over
  }

  lemma {:induction false} EndsBy(w: Bytes, i: nat)
    requires i < |w| && w[i] == NEWLINE
    ensures LineEnd(w) <= i
  {
    if i > 0 && w[0] != NEWLINE {
      EndsBy(w[1..], i - 1);
    }
  }

  /** A line is read back if and only if it is not empty and has no newline in it. */
  lemma LineReadBack(text: Bytes, rest: Bytes)
    ensures var s := text + LINE_END + rest; LineEnd(s) < |s| && (LineText(s) == text <==> Readable(text))
    ensures Readable(text) ==> LineEnd(text + LINE_END + rest) == |text| + 1
  {
    var s := text + LINE_END + rest;
    EndsBy(s, |text| + 1);
    if NEWLINE in text {
      var i :| 0 <= i < |text| && text[i] == NEWLINE;
      EndsBy(s, i);
    } else {
      assert s[..|text| + 1] == text + [RETURN];
      LineEndIs(s, |text| + 1);
      assert s[..|text|] == text;
    }
  }

  lemma LineComesOut(text: Bytes, rest: Bytes, meaning: Bytes -> Verdict)
    requires Readable(text)
    ensures Parse(AtLine, text + LINE_END + rest, meaning) == [Line(text)] + Parse(After(meaning(text)), rest, meaning)
  {
    hide LineText, LineEnd;
    LineReadBack(text, rest);
    var s := text + LINE_END + rest;
    assert s[|text| + 2..] == rest;
    assert Step(AtLine, s, meaning) == Found(Line(text), After(meaning(text)), |text| + 2);
  }

  lemma ValueComesOut(value: Bytes, rest: Bytes, meaning: Bytes -> Verdict)
    ensures Parse(InValue(|value| + 2), value + LINE_END + rest, meaning) == [Block(value)] + Parse(AtLine, rest, meaning)
  {
    var s := value + LINE_END + rest;
    assert s[..|value|] == value && s[|value| + 2..] == rest;
    assert Step(InValue(|value| + 2), s, meaning) == Found(Block(value), AtLine, |value| + 2);
  }

  /** A line that announces nothing, and a line that announces a value, come out as they were sent. */
  lemma PartComesOut(p: Part, rest: Bytes, meaning: Bytes -> Verdict)
    requires Readable(p.text) && meaning(p.text) == if p.Valued? then Value(|p.value|) else More
    ensures Parse(AtLine, Written(p) + rest, meaning)
         == (if p.Valued? then [Line(p.text), Block(p.value)] else [Line(p.text)]) + Parse(AtLine, rest, meaning)
  {
    hide Parse;
    if p.Valued? {
      var more := p.value + LINE_END + rest;
      assert Written(p) + rest == p.text + LINE_END + more;
      LineComesOut(p.text, more, meaning);
      ValueComesOut(p.value, rest, meaning);
      ConcatAssoc([Line(p.text)], [Block(p.value)], Parse(AtLine, rest, meaning));
    } else {
      assert Written(p) + rest == p.text + LINE_END + rest;
      LineComesOut(p.text, rest, meaning);
    }
  }

  /** A whole response is read as it was sent, and nothing behind it. */
  lemma {:induction false} ResponseComesOut(parts: seq<Part>, last: Bytes, rest: Bytes, meaning: Bytes -> Verdict)
    requires Meant(parts, last, meaning)
    ensures Parse(AtLine, Sent(parts, last) + rest, meaning) == Items(parts, last)
    decreases parts
  {
    hide Parse, Written;
    if parts == [] {
      LineComesOut(last, rest, meaning);
      FinishedParse(rest, meaning);
    } else {
      var tail := Sent(parts[1..], last);
      assert Sent(parts, last) + rest == Written(parts[0]) + (tail + rest);
      PartComesOut(parts[0], tail + rest, meaning);
      ResponseComesOut(parts[1..], last, rest, meaning);
    }
  }

  // ---------------------------------------------------------------------------------------------
  // The buffer
  // ---------------------------------------------------------------------------------------------

  /** memmove to the front of the buffer. */
  method MoveToFront(a: array<Byte>, at: nat, n: nat)
    requires at + n <= a.Length
    modifies a
    ensures a[..n] == old(a[at..at + n])
  {
    for i := 0 to n
      invariant forall j :: 0 <= j < i ==> a[j] == old(a[at + j])
      invariant forall j :: i <= j < a.Length ==> a[j] == old(a[j])
    {
      a[i] := a[at + i];
    }
  }

  /** What recv does to the buffer it is given. */
  method WriteAt(a: array<Byte>, at: nat, got: Bytes)
    requires at + |got| <= a.Length
    modifies a
    ensures a[..at] == old(a[..at]) && a[at..at + |got|] == got
  {
    for i := 0 to |got|
      invariant a[..at] == old(a[..at]) && a[at..at + i] == got[..i]
    {
      a[at + i] := got[i];
    }
  }

  /** The slice i..j of the first n elements. */
  lemma SliceWithin(s: Bytes, n: nat, i: nat, j: nat)
    requires i <= j <= n <= |s|
    ensures s[i..j] == s[..n][i..j]
  {
  }

  lemma DropConcat(s: Bytes, t: Bytes, n: nat)
    requires n <= |s|
    ensures (s + t)[n..] == s[n..] + t
  {
  }

  /** realloc: a buffer of another size with the same beginning. */
  method Reallocate(a: array<Byte>, size: nat, ghost n: nat) returns (b: array<Byte>)
    requires n <= a.Length && n <= size
    ensures fresh(b) && b.Length == size && b[..n] == a[..n]
  {
    b := new Byte[size](i => 0);
    var k := if size < a.Length then size else a.Length;
    for i := 0 to k
      invariant forall j :: 0 <= j < i ==> b[j] == a[j]
    {
      b[i] := a[i];
    }
  }

  /** No allocation fails. */
  ghost predicate Plenty(turns: seq<Turn>) { forall i :: 0 <= i < |turns| ==> turns[i].memory }

  /** One visit to the reading state, and whether the buffer can be reallocated when it is shrunk afterwards. */
  datatype Visit = Visit(turns: seq<Turn>, memory: bool)

  lemma FinishedParse(s: Bytes, meaning: Bytes -> Verdict)
    ensures Parse(Finished, s, meaning) == []
  {
  }

  /** How a turn of the reading loop ends: the buffer was filled, or the loop stops, or the call fails, perhaps dropping what was read. */
  datatype Next = Fill | Stop(gotdata: bool) | Fail(dropped: bool)

  class Connection {
    var rbuf: array<Byte>
    var rcurr: nat
    var rbytes: nat
    var readval: bool
    var rvbytes: nat
    var closing: bool

    /** Everything received, and how much of it has been taken or thrown away. */
    ghost var stream: Bytes
    ghost var taken: nat

    ghost predicate Valid()
      reads this`rbuf, this`rcurr, this`rbytes, this`readval, this`rvbytes, this`stream, this`taken, rbuf
    {
      && 0 < rbuf.Length && rcurr + rbytes <= rbuf.Length
      && taken <= |stream| && rbuf[rcurr..rcurr + rbytes] == stream[taken..]
      && (readval ==> rvbytes >= 2)
    }

    ghost function Mode(): Mode
      reads this
    {
      if readval then InValue(rvbytes) else AtLine
    }

    /** A line, or the rest of a value, is being waited for. */
    ghost predicate Waiting()
      reads this
    {
      readval ==> rbytes < rvbytes
    }

    constructor (size: nat)
      requires size > 0
      ensures Valid() && Waiting() && stream == [] && taken == 0 && fresh(rbuf) && !closing
    {
      rbuf := new Byte[size](i => 0);
      rcurr, rbytes, readval, rvbytes, closing := 0, 0, false, 0, false;
      stream, taken := [], 0;
    }

    /** The first step of ms_try_read_network: the window goes to the front when it is in the way. */
    method Compact()
      requires Valid()
      modifies this`rcurr, rbuf
      ensures Valid() && (rcurr == 0 || (rcurr == old(rcurr) && readval && rvbytes <= rbuf.Length - rcurr))
    {
      if rcurr != 0 && (!readval || rvbytes > rbuf.Length - rcurr || rcurr > rbytes) {
        if rbytes != 0 {
          MoveToFront(rbuf, rcurr, rbytes);
        }
        rcurr := 0;
      }
    }

    /** The second: a full buffer is doubled. The window is at the front then. */
    method Grow(memory: bool) returns (ok: bool)
      requires Valid()
      modifies this`rbuf, this`rcurr, this`rbytes, this`taken
      ensures Valid() && (rbuf == old(rbuf) || fresh(rbuf))
      ensures !ok <==> old(rbytes) == old(rbuf.Length) && !memory
      ensures if ok then rbytes == old(rbytes) && taken == old(taken) && rcurr == old(rcurr) else taken == |stream|
      ensures ok ==> rbuf.Length >= old(rbuf.Length) && rbytes < rbuf.Length && rcurr + rbytes <= rbuf.Length
    {
      ok := true;
      if rbytes >= rbuf.Length {
        if !memory {
          rbytes, taken := 0, |stream|;
          return false;
        }
        rbuf := Reallocate(rbuf, 2 * rbuf.Length, rbytes);
        rcurr := 0;
      }
    }

    /** A read puts its bytes behind the window. */
    method Append(got: Bytes)
      requires Valid() && rcurr + rbytes + |got| <= rbuf.Length
      modifies this`rbytes, this`stream, rbuf
      ensures Valid() && stream == old(stream) + got && rbytes == old(rbytes) + |got|
    {
      var end := rcurr + rbytes;
      SliceWithin(rbuf[..], end, rcurr, end);
      WriteAt(rbuf, end, got);
      SliceWithin(rbuf[..], end, rcurr, end);
      SplitSlice(rbuf[..], rcurr, end, end + |got|);
      DropConcat(stream, got, taken);
      rbytes, stream := rbytes + |got|, stream + got;
    }

    /** One turn of the loop of ms_try_read_network. */
    method ReadOnce(turn: Turn) returns (next: Next, ghost room: nat)
      requires Valid()
      modifies this`rbuf, this`rcurr, this`rbytes, this`taken, this`stream, this`closing, rbuf
      ensures Valid() && (rbuf == old(rbuf) || fresh(rbuf)) && old(stream) <= stream
      ensures next.Fill? ==> |stream| > |old(stream)|
      ensures next.Stop? && next.gotdata ==> |stream| > |old(stream)|
      ensures (next.Stop? && !next.gotdata) || next.Fail? ==> stream == old(stream)
      ensures if next.Fail? && next.dropped then !turn.memory && taken == |stream| else taken == old(taken)
      ensures turn.memory && (old(rcurr) == 0 || old(rcurr) + old(rbytes) < old(rbuf.Length)) ==> room > 0
    {
      hide Connection.Valid;
      room := 0;
      var ok := Grow(turn.memory);
      if !ok {
        return Fail(true), room;
      }
      var avail: nat := rbuf.Length - rbytes - rcurr;
      room := avail;
      if avail == 0 {
        return Stop(false), room;
      }
      match turn.got {
        case Data(bytes) =>
          var res := if |bytes| < avail then |bytes| else avail;
          if res > 0 {
            Append(bytes[..res]);
            return if res == avail then Fill else Stop(true), room;
          }
          closing := true;
          next := Fail(false);
        case Closed =>
          closing := true;
          next := Fail(false);
        case Again =>
          next := Stop(false);
        case Failed =>
          closing := true;
          next := Fail(false);
      }
    }

    /**
      ms_try_read_network. `room` is what the first read can take: it is positive whenever a line or the
      rest of a value is being waited for, so a connection never waits for bytes it has no place for.
     */
    method TryReadNetwork(turns: seq<Turn>) returns (r: int, dropped: bool, ghost room: nat)
      requires Valid()
      modifies this`rbuf, this`rcurr, this`rbytes, this`taken, this`stream, this`closing, rbuf
      ensures Valid() && (rbuf == old(rbuf) || fresh(rbuf)) && old(stream) <= stream
      ensures r == 0 ==> stream == old(stream)
      ensures r == 1 ==> |stream| > |old(stream)|
      ensures if dropped then r == -1 && taken == |stream| && !Plenty(turns) else taken == old(taken)
      ensures old(Waiting()) && turns != [] && turns[0].memory ==> room > 0
    {
      Compact();
      hide Connection.Valid;
      var gotdata := 0;
      dropped, room := false, 0;
      for i := 0 to |turns|
        invariant Valid() && (rbuf == old(rbuf) || fresh(rbuf)) && old(stream) <= stream
        invariant gotdata == (if |stream| == |old(stream)| then 0 else 1) && taken == old(taken)
        invariant i == 0 && old(Waiting()) ==> rcurr == 0 || rcurr + rbytes < rbuf.Length
        invariant i > 0 && old(Waiting()) && turns[0].memory ==> room > 0
      {
        var next, avail := ReadOnce(turns[i]);
        if i == 0 {
          room := avail;
        }
        match next {
          case Fill =>
            gotdata := 1;
          case Stop(got) =>
            return if got then 1 else gotdata, false, room;
          case Fail(lost) =>
            return -1, lost, room;
        }
      }
      r := gotdata;
    }

    /** ms_reset_conn: what has not been taken is thrown away. */
    method Reset()
      requires 0 < rbuf.Length && (readval ==> rvbytes >= 2)
      modifies this`rcurr, this`rbytes, this`taken
      ensures Valid() && taken == |stream| && rcurr == rbytes == 0
    {
      rcurr, rbytes, taken := 0, 0, |stream|;
    }

    /** memchr for the end of a line. */
    method FindNewline() returns (el: nat)
      requires Valid()
      ensures el == LineEnd(stream[taken..])
    {
      ghost var w := stream[taken..];
      el := 0;
      while el < rbytes && rbuf[rcurr + el] != NEWLINE
        invariant el <= rbytes && NEWLINE !in w[..el]
      {
        assert rbuf[rcurr + el] == w[el] && w[..el + 1] == w[..el] + [w[el]];
        el := el + 1;
      }
      assert el < rbytes ==> rbuf[rcurr + el] == w[el];
      LineEndIs(w, el);
    }

    /** The text of the line in front of the window, whose end becomes a NUL. */
    method CutLine(end: nat) returns (line: Bytes)
      requires Valid() && end < rbytes && end == LineEnd(stream[taken..])
      modifies rbuf
      ensures line == LineText(stream[taken..])
      ensures rbuf[rcurr + end + 1..rcurr + rbytes] == stream[taken..][end + 1..]
    {
      hide LineEnd;
      ghost var w := stream[taken..];
      assert |w| == rbytes && (end > 0 ==> rbuf[rcurr + end - 1] == w[end - 1]);
      assert rbuf[rcurr..rcurr + end] == w[..end] && (end > 0 ==> rbuf[rcurr..rcurr + end - 1] == w[..end - 1]);
      assert rbuf[rcurr + end + 1..rcurr + rbytes] == w[end + 1..];
      var el := end;
      if el > 1 && rbuf[rcurr + el - 1] == RETURN {
        el := el - 1;
      }
      line := rbuf[rcurr..rcurr + el];
      rbuf[rcurr + el] := 0;
    }

    /** The window begins n bytes later. */
    method Skip(n: nat)
      requires n <= rbytes && rcurr + rbytes <= rbuf.Length && taken + rbytes == |stream| && (readval ==> rvbytes >= 2)
      requires rbuf[rcurr + n..rcurr + rbytes] == stream[taken..][n..]
      modifies this`rcurr, this`rbytes, this`taken
      ensures 0 < rbuf.Length ==> Valid()
      ensures taken == old(taken) + n
    {
      assert stream[taken..][n..] == stream[taken + n..];
      rbytes, rcurr, taken := rbytes - n, rcurr + n, taken + n;
    }

    /** ms_try_read_line: takes a line when there is a whole one. */
    method TryReadLine(meaning: Bytes -> Verdict) returns (found: bool, line: Bytes)
      requires Valid() && !readval
      modifies this`rcurr, this`rbytes, this`taken, this`readval, this`rvbytes, rbuf
      ensures Valid() && found == (LineEnd(stream[old(taken)..]) < |stream[old(taken)..]|)
      ensures !found ==> taken == old(taken) && !readval
      ensures found ==> line == LineText(stream[old(taken)..])
      ensures found && meaning(line).Over? ==> taken == |stream|
      ensures found && !meaning(line).Over? ==>
        taken == old(taken) + LineEnd(stream[old(taken)..]) + 1 && Mode() == After(meaning(line))
    {
      hide LineEnd, LineText;
      found, line := false, [];
      var el := FindNewline();
      assert rcurr + rbytes <= rbuf.Length && 0 < rbuf.Length && |stream[taken..]| == rbytes;
      hide Connection.Valid;
      if el == rbytes {
        return;
      }
      found := true;
      line := CutLine(el);
      match meaning(line) {
        case Over =>
          Reset();
        case More =>
          Skip(el + 1);
        case Value(length) =>
          rvbytes, readval := length + 2, true;
          Skip(el + 1);
      }
    }

    /** ms_ascii_complete_nread: takes a value that has arrived whole. */
    method CompleteNread() returns (value: Bytes)
      requires Valid() && readval && rbytes >= rvbytes
      modifies this`rcurr, this`rbytes, this`taken, this`readval, this`rvbytes
      ensures Valid() && !readval && taken == old(taken) + old(rvbytes)
      ensures value == stream[old(taken)..][..old(rvbytes) - 2]
    {
      value := rbuf[rcurr..rcurr + rvbytes - 2];
      assert value == stream[taken..][..rvbytes - 2];
      assert rbuf[rcurr + rvbytes..rcurr + rbytes] == stream[taken..][rvbytes..];
      Skip(rvbytes);
      readval, rvbytes := false, 0;
    }

    /** ms_conn_shrink, for the read buffer of a connection that is not UDP. */
    method Shrink(memory: bool)
      requires Valid()
      modifies this`rbuf, this`rcurr, rbuf
      ensures Valid() && (rbuf == old(rbuf) || fresh(rbuf))
      ensures rbuf.Length == (if old(rbuf.Length) > READ_BUFFER_HIGHWAT && rbytes < DATA_BUFFER_SIZE && memory then DATA_BUFFER_SIZE
        else old(rbuf.Length))
    {
      if rbuf.Length > READ_BUFFER_HIGHWAT && rbytes < DATA_BUFFER_SIZE {
        if rcurr != 0 {
          MoveToFront(rbuf, rcurr, rbytes);
        }
        if memory {
          rbuf := Reallocate(rbuf, DATA_BUFFER_SIZE, rbytes);
        }
        rcurr := 0;
      }
    }

    /** One visit to the conn_read state of the state machine: one item is taken, or the network is read. */
    method ConnRead(meaning: Bytes -> Verdict, turns: seq<Turn>) returns (items: seq<Item>, over: bool, dropped: bool)
      requires Valid()
      modifies this, rbuf
      ensures Valid() && (rbuf == old(rbuf) || fresh(rbuf)) && old(stream) <= stream
      ensures dropped ==> !Plenty(turns) && items == [] && !over && taken == |stream|
      ensures var p := Step(old(Mode()), old(stream)[old(taken)..], meaning);
        && (p.Stuck? ==> items == [] && !over && Mode() == old(Mode()) && (dropped || taken == old(taken)))
        && (p.Found? ==> items == [p.item] && over == p.mode.Finished? && stream == old(stream) && !dropped)
        && (p.Found? && !over ==> Mode() == p.mode && taken == old(taken) + p.used)
    {
      hide LineEnd, LineText;
      items, over, dropped := [], false, false;
      if readval {
        if rbytes >= rvbytes {
          var value := CompleteNread();
          items := [Block(value)];
          return;
        }
      } else {
        var found, line := TryReadLine(meaning);
        if found {
          return [Line(line)], meaning(line).Over?, false;
        }
      }
      var r;
      ghost var room;
      r, dropped, room := TryReadNetwork(turns);
    }

    /**
      Reading a response in any number of visits, with the network cutting it up in any way and the
      buffer shrunk in between at will. The items taken are the first items of the stream itself; when
      the last one ends the operation, they are all of them. It ends too when an allocation fails and
      what was read is dropped.
     */
    method ReadResponse(meaning: Bytes -> Verdict, visits: seq<Visit>) returns (items: seq<Item>, over: bool, dropped: bool)
      requires Valid()
      modifies this, rbuf
      ensures Valid() && old(stream) <= stream
      ensures items <= Parse(old(Mode()), stream[old(taken)..], meaning)
      ensures over ==> items == Parse(old(Mode()), stream[old(taken)..], meaning)
      ensures !over && !dropped ==>
        Parse(old(Mode()), stream[old(taken)..], meaning) == items + Parse(Mode(), stream[taken..], meaning)
      ensures (forall i :: 0 <= i < |visits| ==> Plenty(visits[i].turns)) ==> !dropped
    {
      hide Step, Connection.Valid, Reached, Parse;
      items, over, dropped := [], false, false;
      ghost var m0, t0 := Mode(), taken;
      ValidTaken();
      StartReached(m0, stream[t0..], meaning);
      for i := 0 to |visits|
        invariant Valid() && (rbuf == old(rbuf) || fresh(rbuf)) && old(stream) <= stream
        invariant t0 <= taken <= |stream| && Reached(m0, stream[t0..], meaning, items, Mode(), taken - t0)
      {
        ghost var s, m, pos := stream[t0..], Mode(), taken - t0;
        assert stream[taken..] == s[pos..];
        var next;
        next, over, dropped := ConnRead(meaning, visits[i].turns);
        if next != [] {
          ReachedNext(m0, s, meaning, items, m, pos);
        } else {
          ghost var more := stream[t0 + |s|..];
          assert stream[t0..] == s + more && items + next == items;
          ReachedKept(m0, s, more, meaning, items, m, pos);
        }
        items := items + next;
        if dropped {
          ReachedIsParse(m0, stream[t0..], meaning, items, m, pos);
          return;
        }
        if over {
          ReachedIsParse(m0, s, meaning, items, Finished, pos + Step(m, s[pos..], meaning).used);
          FinishedParse(s[pos + Step(m, s[pos..], meaning).used..], meaning);
          return;
        }
        Shrink(visits[i].memory);
        ValidTaken();
      }
      ReachedIsParse(m0, stream[t0..], meaning, items, Mode(), taken - t0);
      assert stream[t0..][taken - t0..] == stream[taken..];
    }

    /**
      A response that a server sent, read in any number of visits: what is taken is what was sent, item by
      item, and all of it when the operation ends.
     */
    method ReceiveResponse(meaning: Bytes -> Verdict, visits: seq<Visit>, ghost parts: seq<Part>, ghost last: Bytes)
      returns (items: seq<Item>, over: bool, dropped: bool)
      requires Valid() && !readval && Meant(parts, last, meaning)
      modifies this, rbuf
      ensures Valid() && old(stream) <= stream
      ensures Sent(parts, last) <= stream[old(taken)..] ==>
        && items <= Items(parts, last)
        && (over ==> items == Items(parts, last))
        && ((forall i :: 0 <= i < |visits| ==> Plenty(visits[i].turns)) ==> !dropped)
    {
      hide Parse, Sent, Items, Meant, Connection.Valid;
      ValidTaken();
      ghost var t0 := taken;
      items, over, dropped := ReadResponse(meaning, visits);
      ghost var s, sent := stream[t0..], Sent(parts, last);
      if sent <= s {
        assert s == sent + s[|sent|..];
        ResponseComesOut(parts, last, s[|sent|..], meaning);
      }
    }

    lemma ValidTaken()
      requires Valid()
      ensures taken <= |stream|
    {
    }
  }
}
