/**
  The MD5 digest of RFC 1321: a context that takes the message in pieces, and the digest of sections 3.1
  to 3.5 for the message as a whole.
 */
module Md5 {
  import ByteOrder
  import opened Slices
  import opened Words
  import opened Md5Compress

  const TWO_32: nat := 0x1_0000_0000
  const TWO_64 := ByteOrder.TWO_64

  // ---------------------------------------------------------------------------------------------
  // RFC 1321
  // ---------------------------------------------------------------------------------------------

  /** Section 3.3. */
  const INITIAL := State(0x67452301, 0xefcdab89, 0x98badcfe, 0x10325476)

  /** Section 3.4: the registers after all whole blocks of m. */
  function Chain(s: State, m: Bytes): State
    decreases |m|
  {
    if |m| < 64 then s else Chain(Compress(s, m[..64]), m[64..])
  }

  /** The four bytes of a word, the low-order byte first. */
  function BytesOf(w: Word): (b: Bytes)
    ensures |b| == 4
  {
    [(w & 0xff) as Octet, ((w >> 8) & 0xff) as Octet, ((w >> 16) & 0xff) as Octet, ((w >> 24) & 0xff) as Octet]
  }

  function Output(x: seq<Word>): (b: Bytes)
    ensures |b| == 4 * |x|
  {
    if x == [] then [] else BytesOf(x[0]) + Output(x[1..])
  }

  function Zeros(n: nat): (z: Bytes)
    ensures |z| == n
  {
    seq(n, i => 0)
  }

  /** Section 3.1: a one bit, and zeros until the length is 56 modulo 64. */
  function Padding(n: nat): (p: Bytes)
    ensures 1 <= |p| <= 64 && (n + |p|) % 64 == 56
  {
    [0x80] + Zeros((119 - n % 64) % 64)
  }

  /** Section 3.2: the length in bits modulo 2^64, as two words, the low-order word first. */
  function LengthWords(n: nat): (x: seq<Word>)
    ensures |x| == 2
  {
    var bits := 8 * n % TWO_64;
    [(bits % TWO_32) as Word, (bits / TWO_32) as Word]
  }

  function Padded(m: Bytes): Bytes { m + Padding(|m|) + Output(LengthWords(|m|)) }

  /** Section 3.5. */
  function Digest(m: Bytes): Bytes {
    var s := Chain(INITIAL, Padded(m));
    Output([s.a, s.b, s.c, s.d])
  }

  // ---------------------------------------------------------------------------------------------
  // Words and bytes
  // ---------------------------------------------------------------------------------------------

  /** The bytes of a word make the word again. */
  lemma WordOfBytes(w: Word)
    ensures WordAt(BytesOf(w), 0) == w
  {
  }

  /** The word of four bytes has these bytes. */
  lemma BytesOfWord(b: Bytes)
    requires |b| == 4
    ensures BytesOf(WordAt(b, 0)) == b
  {
  }

  /** The first word that was put out can be read back. */
  lemma FirstWord(x: seq<Word>)
    requires x != []
    ensures WordAt(Output(x), 0) == x[0]
  {
    hide BytesOf, WordAt;
    WordOfBytes(x[0]);
    WordOfPrefix(BytesOf(x[0]), Output(x[1..]));
  }

  lemma WordOfPrefix(b: Bytes, rest: Bytes)
    requires |b| == 4
    ensures WordAt(b + rest, 0) == WordAt(b, 0)
  {
  }

  ghost function Joined(pieces: seq<Bytes>): Bytes {
    if pieces == [] then [] else Joined(pieces[..|pieces| - 1]) + pieces[|pieces| - 1]
  }

  /** The i-th word of what was put out lies four times as far. */
  lemma {:induction false} OutputAt(x: seq<Word>, i: nat)
    requires i < |x|
    ensures Output(x)[4 * i..4 * i + 4] == BytesOf(x[i])
  {
    hide BytesOf;
    if i > 0 {
      OutputAt(x[1..], i - 1);
      var rest := Output(x[1..]);
      assert Output(x)[4 * i..4 * i + 4] == rest[4 * (i - 1)..4 * (i - 1) + 4];
    } else {
      assert Output(x)[0..4] == BytesOf(x[0]);
    }
  }

  lemma WordOfSlice(b: Bytes, j: nat)
    requires j + 4 <= |b|
    ensures WordAt(b, j) == WordAt(b[j..j + 4], 0)
  {
  }

  /** Decode undoes Encode. */
  lemma DecodeUndoesEncode(x: seq<Word>)
    ensures WordsOf(Output(x)) == x
  {
    hide Output, BytesOf, WordAt;
    forall i | 0 <= i < |x|
      ensures WordsOf(Output(x))[i] == x[i]
    {
      OutputAt(x, i);
      WordOfSlice(Output(x), 4 * i);
      WordOfBytes(x[i]);
    }
  }

  /** Encode undoes Decode. */
  lemma EncodeUndoesDecode(b: Bytes)
    requires |b| % 4 == 0
    ensures Output(WordsOf(b)) == b
  {
    hide Output, BytesOf, WordAt;
    var y := Output(WordsOf(b));
    forall j | 0 <= j < |b|
      ensures y[j] == b[j]
    {
      var i := j / 4;
      OutputAt(WordsOf(b), i);
      WordOfSlice(b, 4 * i);
      BytesOfWord(b[4 * i..4 * i + 4]);
      assert y[j] == y[4 * i..4 * i + 4][j - 4 * i] == b[4 * i..4 * i + 4][j - 4 * i];
    }
  }

  /** Two messages have the same digest if and only if they end in the same registers. */
  lemma DigestTellsRegisters(m: Bytes, other: Bytes)
    ensures Digest(m) == Digest(other) <==> Chain(INITIAL, Padded(m)) == Chain(INITIAL, Padded(other))
  {
    hide Chain, Padded, Output;
    var s, t := Chain(INITIAL, Padded(m)), Chain(INITIAL, Padded(other));
    DecodeUndoesEncode([s.a, s.b, s.c, s.d]);
    DecodeUndoesEncode([t.a, t.b, t.c, t.d]);
    if Digest(m) == Digest(other) {
      assert [s.a, s.b, s.c, s.d] == [t.a, t.b, t.c, t.d];
      assert s.a == [s.a, s.b, s.c, s.d][0] && s.b == [s.a, s.b, s.c, s.d][1];
      assert s.c == [s.a, s.b, s.c, s.d][2] && s.d == [s.a, s.b, s.c, s.d][3];
    }
  }

  /** No byte of a block is lost on the way into the rounds. */
  lemma WordsTellBlock(block: Bytes, other: Bytes)
    requires |block| == |other| == 64
    ensures WordsOf(block) == WordsOf(other) <==> block == other
  {
    hide WordsOf;
    EncodeUndoesDecode(block);
    EncodeUndoesDecode(other);
  }

  // ---------------------------------------------------------------------------------------------
  // Blocks
  // ---------------------------------------------------------------------------------------------

  /** The first block of a message. */
  lemma ChainStep(s: State, block: Bytes, rest: Bytes)
    requires |block| == 64
    ensures Chain(s, block + rest) == Chain(Compress(s, block), rest)
  {
    hide Compress;
    assert (block + rest)[..64] == block && (block + rest)[64..] == rest;
  }

  /** Whole blocks can be taken first. */
  lemma {:induction false} ChainConcat(s: State, a: Bytes, b: Bytes)
    requires |a| % 64 == 0
    ensures Chain(s, a + b) == Chain(Chain(s, a), b)
    decreases |a|
  {
    hide Compress;
    if a == [] {
      assert a + b == b;
    } else {
      var block, rest := a[..64], a[64..];
      ChainConcat(Compress(s, block), rest, b);
      assert a == block + rest && a + b == block + (rest + b);
      ChainStep(s, block, rest);
      ChainStep(s, block, rest + b);
    }
  }

  /** A tail that is not a whole block does not count. */
  lemma ChainIgnoresTail(s: State, a: Bytes, tail: Bytes)
    requires |a| % 64 == 0 && |tail| < 64
    ensures Chain(s, a + tail) == Chain(s, a)
  {
    ChainConcat(s, a, tail);
  }

  ghost function Tail(m: Bytes): (t: Bytes)
    ensures |t| == |m| % 64
  {
    m[|m| - |m| % 64..]
  }

  ghost function Whole(m: Bytes): (w: Bytes)
    ensures |w| % 64 == 0 && w + Tail(m) == m
  {
    m[..|m| - |m| % 64]
  }

  /** More bytes, not enough to fill a block. */
  lemma StillPartial(s: State, m: Bytes, input: Bytes)
    requires |m| % 64 + |input| < 64
    ensures Chain(s, m + input) == Chain(s, m) && Tail(m + input) == Tail(m) + input
  {
    hide Compress;
    var whole, tail := Whole(m), Tail(m);
    assert m + input == whole + (tail + input);
    ChainIgnoresTail(s, whole, tail + input);
    ChainIgnoresTail(s, whole, tail);
  }

  /** Enough bytes to fill the block that was begun. */
  lemma BlockFilled(s: State, m: Bytes, first: Bytes, rest: Bytes)
    requires |m| % 64 + |first| == 64
    ensures |Tail(m) + first| == 64
    ensures Chain(s, m + (first + rest)) == Chain(Compress(Chain(s, m), Tail(m) + first), rest)
  {
    hide Compress;
    var whole, tail := Whole(m), Tail(m);
    var block := tail + first;
    assert m + (first + rest) == whole + (block + rest);
    ChainConcat(s, whole, block + rest);
    ChainStep(Chain(s, whole), block, rest);
    ChainIgnoresTail(s, whole, tail);
  }

  /** What is left of the input behind the last whole block. */
  lemma TailOfInput(m: Bytes, input: Bytes, i: nat)
    requires i <= |input| < i + 64 && (|m| % 64 + i) % 64 == 0
    ensures Tail(m + input) == input[i..] && |m + input| % 64 == |input| - i
  {
    var n := |m + input|;
    assert n % 64 == |input| - i;
    assert (m + input)[n - n % 64..] == input[i..];
  }

  // ---------------------------------------------------------------------------------------------
  // The count of bits
  // ---------------------------------------------------------------------------------------------

  lemma SplitModulus(low: nat, high: nat)
    requires low < TWO_32
    ensures low + TWO_32 * Wrap32(high) == (low + TWO_32 * high) % TWO_64
  {
    var q, r := high / TWO_32, high % TWO_32;
    assert low + TWO_32 * high == (low + TWO_32 * r) + TWO_64 * q;
  }

  /** Unsigned 32-bit arithmetic. */
  function Wrap32(n: nat): (w: nat)
    ensures w < TWO_32
  {
    n % TWO_32
  }

  /** The two words of the count, with the carry, count the bits modulo 2^64. */
  lemma CountAdds(n: nat, c0: nat, c1: nat, len: nat)
    requires c0 < TWO_32 && c1 < TWO_32 && len < TWO_32 && c0 + TWO_32 * c1 == 8 * n % TWO_64
    ensures var shifted := Wrap32(8 * len);
      var c0' := Wrap32(c0 + shifted);
      var c1' := if c0' < shifted then Wrap32(c1 + 1) else c1;
      c0' + TWO_32 * Wrap32(c1' + len / 0x2000_0000) == 8 * (n + len) % TWO_64
  {
    hide Wrap32;
    var shifted, high := Wrap32(8 * len), len / 0x2000_0000;
    ShiftedLength(len);
    var c0' := Wrap32(c0 + shifted);
    var carry := if c0' < shifted then 1 else 0;
    CarryOut(c0, shifted);
    SumModulo32(c1 + carry, high);
    SplitModulus(c0', c1 + carry + high);
    SumModulo64(8 * n, 8 * len);
  }

  lemma ShiftedLength(len: nat)
    ensures 8 * len == Wrap32(8 * len) + TWO_32 * (len / 0x2000_0000)
  {
  }

  lemma CarryOut(c: nat, d: nat)
    requires c < TWO_32 && d < TWO_32
    ensures var r := Wrap32(c + d); c + d == r + (if r < d then TWO_32 else 0)
  {
  }

  lemma SumModulo32(a: nat, b: nat)
    ensures Wrap32(Wrap32(a) + b) == Wrap32(a + b)
  {
    var q := a / TWO_32;
    assert a + b == (a % TWO_32 + b) + TWO_32 * q;
  }

  lemma SumModulo64(a: nat, b: nat)
    ensures (a % TWO_64 + b) % TWO_64 == (a + b) % TWO_64
  {
    var q := a / TWO_64;
    assert a + b == (a % TWO_64 + b) + TWO_64 * q;
  }

  /** The code's table of padding bytes has the padding of section 3.1 in front. */
  lemma PaddingIs(n: nat)
    ensures var idx := n % 64;
      var padLen := if idx < 56 then 56 - idx else 120 - idx;
      1 <= padLen <= 64 && ([0x80] + Zeros(63))[..padLen] == Padding(n)
  {
    var idx := n % 64;
    assert (119 - idx) % 64 + 1 == if idx < 56 then 56 - idx else 120 - idx;
  }

  lemma CountSplits(bits: nat, c0: nat, c1: nat)
    requires c0 < TWO_32 && c0 + TWO_32 * c1 == bits
    ensures bits % TWO_32 == c0 && bits / TWO_32 == c1
  {
  }

  /** The two words of the count are the length that is appended. */
  lemma LengthIsCount(n: nat, c0: nat, c1: nat)
    requires c0 < TWO_32 && c1 < TWO_32 && c0 + TWO_32 * c1 == 8 * n % TWO_64
    ensures LengthWords(n) == [c0 as Word, c1 as Word]
  {
    CountSplits(8 * n % TWO_64, c0, c1);
  }

  lemma QuotientTells(bits: nat, q: nat)
    requires q == bits / TWO_64
    ensures bits == bits % TWO_64 + TWO_64 * q
  {
  }

  lemma EighthModulo64(c: nat, n: nat, blocks: nat)
    requires c == 8 * n - 512 * blocks
    ensures c / 8 % 64 == n % 64
  {
    assert c / 8 == n - 64 * blocks;
  }

  /** The low word of the count tells how full the buffer is. */
  lemma CountTells(n: nat, c0: nat, c1: nat)
    requires c0 < TWO_32 && c1 < TWO_32 && c0 + TWO_32 * c1 == 8 * n % TWO_64
    ensures c0 / 8 % 64 == n % 64
  {
    var q := 8 * n / TWO_64;
    QuotientTells(8 * n, q);
    EighthModulo64(c0, n, 0x80_0000 * c1 + 0x80_0000_0000_0000 * q);
  }

  // ---------------------------------------------------------------------------------------------
  // The loop over whole blocks counts in 32 bits
  // ---------------------------------------------------------------------------------------------

  /** The guard of the loop of MD5Update, in unsigned 32-bit arithmetic. */
  function Guard(i: nat, inputLen: nat): bool { (i + 63) % TWO_32 < inputLen }

  /** Where the loop should stop: behind the last whole block. */
  function LoopEnd(partLen: nat, inputLen: nat): nat
    requires 0 < partLen <= inputLen
  {
    partLen + 64 * ((inputLen - partLen) / 64)
  }

  /** In its k-th test the guard is true exactly when a whole block is left. */
  ghost predicate GuardTrue(partLen: nat, inputLen: nat, k: nat) {
    Guard(partLen + 64 * k, inputLen) <==> partLen + 64 * k + 64 <= inputLen
  }

  /** It is so at every place the loop should visit. */
  ghost predicate GuardWorks(partLen: nat, inputLen: nat)
    requires 0 < partLen <= inputLen
  {
    forall k: nat :: partLen + 64 * k <= LoopEnd(partLen, inputLen) ==> GuardTrue(partLen, inputLen, k)
  }

  /** What a caller of MD5Update has to see to; always true when the length is at most 2^32 - 64. */
  predicate LengthFits(idx: nat, inputLen: nat)
    requires idx < 64
  {
    inputLen < 64 - idx || LoopEnd(64 - idx, inputLen) <= TWO_32 - 64
  }

  /** The loop reads whole blocks of the input and nothing else if and only if the length fits. */
  lemma GuardWorksIff(idx: nat, inputLen: nat)
    requires idx < 64 && 64 - idx <= inputLen < TWO_32
    ensures GuardWorks(64 - idx, inputLen) <==> LengthFits(idx, inputLen)
  {
    var partLen := 64 - idx;
    var last: nat := (inputLen - partLen) / 64;
    if LengthFits(idx, inputLen) {
      forall k: nat | partLen + 64 * k <= LoopEnd(partLen, inputLen)
        ensures GuardTrue(partLen, inputLen, k)
      {
      }
    } else {
      assert !GuardTrue(partLen, inputLen, last);
    }
  }

  /** After one byte, an input of 2^32 - 1 bytes does not fit. */
  lemma LongInputDoesNotFit()
    ensures !GuardWorks(63, TWO_32 - 1)
  {
    GuardWorksIff(1, TWO_32 - 1);
  }

  lemma GuardTells(idx: nat, inputLen: nat, k: nat)
    requires idx < 64 && 64 - idx <= inputLen < TWO_32 && LengthFits(idx, inputLen) && 64 - idx + 64 * k <= inputLen
    ensures Guard(64 - idx + 64 * k, inputLen) <==> 64 - idx + 64 * k + 64 <= inputLen
  {
  }

  lemma NoBlockLeft(s: State, rest: Bytes)
    requires |rest| < 64
    ensures Chain(s, rest) == s
  {
  }

  lemma ShortInputFits(idx: nat, inputLen: nat)
    requires idx < 64 && (inputLen <= TWO_32 - 64 || (idx == 0 && inputLen < TWO_32))
    ensures LengthFits(idx, inputLen)
  {
  }

  // ---------------------------------------------------------------------------------------------
  // The code
  // ---------------------------------------------------------------------------------------------

  /** memcpy into the buffer. */
  method CopyInto(buffer: array<Octet>, at: nat, input: Bytes)
    requires at + |input| <= buffer.Length
    modifies buffer
    ensures buffer[..at + |input|] == old(buffer[..at]) + input
  {
    for i := 0 to |input|
      invariant buffer[..at] == old(buffer[..at])
      invariant forall j :: 0 <= j < i ==> buffer[at + j] == input[j]
    {
      buffer[at + i] := input[i];
    }
  }

  method PutWord(output: array<Octet>, j: nat, w: Word)
    requires j + 4 <= output.Length
    modifies output
    ensures output[..j + 4] == old(output[..j]) + BytesOf(w)
  {
    output[j] := (w & 0xff) as Octet;
    output[j + 1] := ((w >> 8) & 0xff) as Octet;
    output[j + 2] := ((w >> 16) & 0xff) as Octet;
    output[j + 3] := ((w >> 24) & 0xff) as Octet;
  }

  lemma EmptyOutput()
    ensures Output([]) == []
  {
  }

  lemma OutputStep(input: seq<Word>, i: nat)
    requires i < |input|
    ensures Output(input[i..]) == BytesOf(input[i]) + Output(input[i + 1..])
  {
    hide BytesOf;
    assert input[i..][1..] == input[i + 1..];
  }

  /** Encode */
  method Encode(input: seq<Word>) returns (output: array<Octet>)
    ensures fresh(output) && output[..] == Output(input)
  {
    hide BytesOf, Output;
    output := new Octet[4 * |input|](i => 0);
    EmptyOutput();
    var i, j := 0, 0;
    assert input[0..] == input;
    while j < output.Length
      invariant j == 4 * i && i <= |input|
      invariant output[..j] + Output(input[i..]) == Output(input)
    {
      ghost var done := output[..j];
      PutWord(output, j, input[i]);
      OutputStep(input, i);
      ConcatAssoc(done, BytesOf(input[i]), Output(input[i + 1..]));
      i, j := i + 1, j + 4;
    }
    assert output[..j] == output[..] && input[i..] == [];
  }

  class Context {
    var state: State
    var count0: nat
    var count1: nat
    const buffer: array<Octet>

    /** The context after the message m, in whatever pieces it came. */
    ghost predicate Holds(m: Bytes)
      reads this, buffer
    {
      && buffer.Length == 64 && count0 < TWO_32 && count1 < TWO_32
      && count0 + TWO_32 * count1 == 8 * |m| % TWO_64
      && state == Chain(INITIAL, m)
      && buffer[..|m| % 64] == Tail(m)
    }

    /** MD5Init */
    constructor ()
      ensures Holds([]) && fresh(buffer)
    {
      state, count0, count1 := INITIAL, 0, 0;
      buffer := new Octet[64](i => 0);
    }

    /** The counting part of MD5Update. */
    method AddCount(inputLen: nat, ghost n: nat) returns (idx: nat)
      requires inputLen < TWO_32 && count0 < TWO_32 && count1 < TWO_32 && count0 + TWO_32 * count1 == 8 * n % TWO_64
      modifies this`count0, this`count1
      ensures idx == n % 64
      ensures count0 < TWO_32 && count1 < TWO_32 && count0 + TWO_32 * count1 == 8 * (n + inputLen) % TWO_64
    {
      hide Wrap32;
      CountTells(n, count0, count1);
      CountAdds(n, count0, count1, inputLen);
      idx := count0 / 8 % 64;
      count0 := Wrap32(count0 + Wrap32(8 * inputLen));
      if count0 < Wrap32(8 * inputLen) {
        count1 := Wrap32(count1 + 1);
      }
      count1 := Wrap32(count1 + inputLen / 0x2000_0000);
    }

    /** The transforming part: fills the buffer, and takes the whole blocks that follow. */
    method TakeBlocks(input: Bytes, idx: nat) returns (i: nat)
      requires buffer.Length == 64 && idx < 64 && 64 - idx <= |input| < TWO_32 && LengthFits(idx, |input|)
      modifies this`state, buffer
      ensures i <= |input| && |input| - i < 64 && (idx + i) % 64 == 0
      ensures var first := old(buffer[..idx]) + input[..64 - idx];
        |first| == 64 && state == Chain(Compress(old(state), first), input[64 - idx..])
    {
      hide Chain, Compress;
      var partLen := 64 - idx;
      CopyInto(buffer, idx, input[..partLen]);
      assert buffer[..] == old(buffer[..idx]) + input[..partLen];
      state := Transform(state, buffer[..]);
      ghost var goal := Chain(state, input[partLen..]);
      i := partLen;
      ghost var k := 0;
      while Guard(i, |input|)
        invariant i == partLen + 64 * k && i <= |input| && Chain(state, input[i..]) == goal
        decreases |input| - i
      {
        GuardTells(idx, |input|, k);
        assert input[i..] == input[i..i + 64] + input[i + 64..];
        ChainStep(state, input[i..i + 64], input[i + 64..]);
        state := Transform(state, input[i..i + 64]);
        i, k := i + 64, k + 1;
      }
      GuardTells(idx, |input|, k);
      NoBlockLeft(state, input[i..]);
    }

    /** MD5Update: the message grows by the input. */
    method Update(ghost m: Bytes, input: Bytes)
      requires Holds(m) && |input| < TWO_32 && LengthFits(|m| % 64, |input|)
      modifies this`state, this`count0, this`count1, buffer
      ensures Holds(m + input)
    {
      hide Chain, Compress, Tail, Whole;
      var idx := AddCount(|input|, |m|);
      var partLen := 64 - idx;
      var i := 0;
      if |input| >= partLen {
        BlockFilled(INITIAL, m, input[..partLen], input[partLen..]);
        assert input == input[..partLen] + input[partLen..];
        i := TakeBlocks(input, idx);
        TailOfInput(m, input, i);
        idx := 0;
      } else {
        StillPartial(INITIAL, m, input);
      }
      CopyInto(buffer, idx, input[i..]);
    }

    /** The count, as it will be appended. */
    method SaveCount(ghost m: Bytes) returns (bits: array<Octet>)
      requires Holds(m)
      ensures fresh(bits) && bits[..] == Output(LengthWords(|m|))
    {
      hide Chain, Compress, Tail, Output, LengthWords;
      LengthIsCount(|m|, count0, count1);
      bits := Encode([count0 as Word, count1 as Word]);
    }

    /** Padding to 56 modulo 64. */
    method Pad(ghost m: Bytes)
      requires Holds(m)
      modifies this`state, this`count0, this`count1, buffer
      ensures Holds(m + Padding(|m|))
    {
      hide Chain, Compress, Tail, Padding, Zeros;
      CountTells(|m|, count0, count1);
      PaddingIs(|m|);
      var idx := count0 / 8 % 64;
      var padLen := if idx < 56 then 56 - idx else 120 - idx;
      var padding := ([0x80] + Zeros(63))[..padLen];
      ShortInputFits(|m| % 64, padLen);
      hide Context.Holds, LengthFits;
      Update(m, padding);
    }

    /** The two updates of MD5Final: the context then holds the padded message. */
    method Finish(ghost m: Bytes)
      requires Holds(m)
      modifies this`state, this`count0, this`count1, buffer
      ensures Holds(Padded(m))
    {
      hide Context.Holds, LengthFits, Padding, Output, LengthWords;
      var bits := SaveCount(m);
      Pad(m);
      ShortInputFits(|m + Padding(|m|)| % 64, 8);
      Update(m + Padding(|m|), bits[..]);
    }

    /** MD5Final: the digest of RFC 1321, and nothing of the message stays in the context. */
    method Final(ghost m: Bytes) returns (digest: array<Octet>)
      requires Holds(m)
      modifies this`state, this`count0, this`count1, buffer
      ensures fresh(digest) && digest[..] == Digest(m)
      ensures state == State(0, 0, 0, 0) && count0 == count1 == 0 && buffer[..] == Zeros(64)
    {
      hide Chain, Compress, Tail, Output, Padded;
      Finish(m);
      digest := Encode([state.a, state.b, state.c, state.d]);
      state, count0, count1 := State(0, 0, 0, 0), 0, 0;
      for i := 0 to 64
        invariant forall j :: 0 <= j < i ==> buffer[j] == 0
        modifies buffer
      {
        buffer[i] := 0;
      }
    }
  }

  /** md5_signature */
  method Signature(key: Bytes) returns (result: array<Octet>)
    requires |key| < TWO_32
    ensures result[..] == Digest(key)
  {
    hide Digest, Context.Holds, LengthFits;
    var context := new Context();
    ShortInputFits(0, |key|);
    context.Update([], key);
    assert [] + key == key;
    result := context.Final(key);
  }

  /** Any split of a message into pieces gives the digest of the message. */
  method DigestOfPieces(pieces: seq<Bytes>) returns (result: array<Octet>)
    requires forall i :: 0 <= i < |pieces| ==> |pieces[i]| <= TWO_32 - 64
    ensures result[..] == Digest(Joined(pieces))
  {
    hide Digest, Context.Holds;
    var context := new Context();
    assert pieces[..0] == [];
    for i := 0 to |pieces|
      invariant context.Holds(Joined(pieces[..i])) && fresh(context) && fresh(context.buffer)
    {
      ghost var m := Joined(pieces[..i]);
      ShortInputFits(|m| % 64, |pieces[i]|);
      context.Update(m, pieces[i]);
      assert pieces[..i + 1][..i] == pieces[..i];
    }
    assert pieces[..|pieces|] == pieces;
    result := context.Final(Joined(pieces));
  }

  /** hashkit_md5: the first word of the digest. The length is cut to 32 bits. */
  method HashkitMd5(key: Bytes) returns (h: Word)
    ensures h == Chain(INITIAL, Padded(key[..|key| % TWO_32])).a
  {
    hide Chain, Compress, Padded;
    var results := Signature(key[..|key| % TWO_32]);
    ghost var s := Chain(INITIAL, Padded(key[..|key| % TWO_32]));
    FirstWord([s.a, s.b, s.c, s.d]);
    h := ((results[3] as Word) << 24) | ((results[2] as Word) << 16) | ((results[1] as Word) << 8) | (results[0] as Word);
  }
}
