/** Austin Appleby's MurmurHash2, on a little-endian machine. */
module MurmurHash {
  import opened Words
  import opened HashSteps

  // ---------------------------------------------------------------------------------------------
  // The hash
  // ---------------------------------------------------------------------------------------------

  function Seed(n: Word): Word { (0xdeadbeef * n) ^ n }

  function Initial(length: nat): Word { Seed(LengthWord(length)) }

  /** The whole four-byte blocks of a key. */
  ghost function Blocks(key: Bytes): (ks: seq<Word>)
    ensures |ks| == |key| / 4 && forall i :: 0 <= i < |ks| ==> ks[i] == WordAt(key, 4 * i)
  {
    seq(|key| / 4, i requires 0 <= i < |key| / 4 => WordAt(key, 4 * i))
  }

  /** The up to three bytes behind the last block, as one word. */
  function TailWord(key: Bytes): Word {
    var i := |key| - |key| % 4;
    LittleEndian(Get(key, i), Get(key, i + 1), Get(key, i + 2), 0)
  }

  function TakeTail(h: Word, key: Bytes): Word {
    if |key| % 4 == 0 then h else TimesMurmur(Xor(h, TailWord(key)))
  }

  function Finish(h: Word): Word { Fold15(TimesMurmur(Fold13(h))) }

  ghost function HashOf(key: Bytes): Word {
    Finish(TakeTail(Run(Murmur, Initial(|key|), Blocks(key), |key| / 4), key))
  }

  // ---------------------------------------------------------------------------------------------
  // The code
  // ---------------------------------------------------------------------------------------------

  lemma XorAssociates(x: Word, y: Word, z: Word)
    ensures Xor(Xor(x, y), z) == Xor(x, Xor(y, z))
  {
  }

  lemma BytesJoined(b0: Octet, b1: Octet, b2: Octet)
    ensures Xor(Byte2(b2), Xor(Byte1(b1), Byte0(b0))) == LittleEndian(b0, b1, b2, 0)
  {
  }

  lemma XoredBytes(h: Word, b0: Octet, b1: Octet, b2: Octet)
    ensures Xor(Xor(Xor(h, Byte2(b2)), Byte1(b1)), Byte0(b0)) == Xor(h, LittleEndian(b0, b1, b2, 0))
  {
    hide *;
    XorAssociates(Xor(h, Byte2(b2)), Byte1(b1), Byte0(b0));
    XorAssociates(h, Byte2(b2), Xor(Byte1(b1), Byte0(b0)));
    BytesJoined(b0, b1, b2);
  }

  lemma XorZero(h: Word)
    ensures Xor(h, 0) == h
  {
  }

  /** The switch over the last bytes, whose cases fall through. */
  method AddTail(h0: Word, key: Bytes, data: nat) returns (h: Word)
    requires data == |key| - |key| % 4
    ensures h == TakeTail(h0, key)
  {
    hide Xor, LittleEndian, Byte0, Byte1, Byte2, TimesMurmur;
    var length := |key| - data;
    h := h0;
    if length >= 3 {
      h := Xor(h, Byte2(key[data + 2]));
    }
    if length >= 2 {
      h := Xor(h, Byte1(key[data + 1]));
    }
    if length >= 1 {
      h := Xor(h, Byte0(key[data]));
      h := TimesMurmur(h);
    }
    XoredBytes(h0, Get(key, data), Get(key, data + 1), Get(key, data + 2));
    ZeroBytes();
    XorZero(h0);
  }

  /** hashkit_murmur */
  method HashkitMurmur(key: Bytes) returns (h: Word)
    ensures h == HashOf(key)
  {
    hide Xor, LittleEndian, TimesMurmur, Fold24, Fold13, Fold15, TakeTail, Initial;
    h := Initial(|key|);
    var data := 0;
    ghost var done := 0;
    while |key| - data >= 4
      invariant data == 4 * done && data <= |key| && h == Run(Murmur, Initial(|key|), Blocks(key), done)
    {
      var k := WordAt(key, data);
      k := TimesMurmur(k);
      k := Fold24(k);
      k := TimesMurmur(k);
      h := TimesMurmur(h);
      h := Xor(h, k);
      data, done := data + 4, done + 1;
    }
    h := AddTail(h, key, data);
    h := Fold13(h);
    h := TimesMurmur(h);
    h := Fold15(h);
  }

  // ---------------------------------------------------------------------------------------------
  // Local changes never collide
  // ---------------------------------------------------------------------------------------------

  function Unfinish(h: Word): Word { Unfold13(UnTimesMurmur(Unfold15(h))) }

  lemma FinishUndone(h: Word)
    ensures Unfinish(Finish(h)) == h
  {
    hide TimesMurmur, UnTimesMurmur, Fold13, Fold15, Unfold13, Unfold15;
    Fold13Undone(h);
    TimesMurmurUndone(Fold13(h));
    Fold15Undone(TimesMurmur(Fold13(h)));
  }

  lemma TailUndone(h: Word, t: Word)
    ensures Xor(UnTimesMurmur(TimesMurmur(Xor(h, t))), t) == h
    ensures Xor(UnTimesMurmur(TimesMurmur(Xor(h, t))), h) == t
  {
    hide *;
    TimesMurmurUndone(Xor(h, t));
    XorUndone(h, t);
    XorRecovers(h, t);
  }

  /** Different blocks are different words. */
  lemma BlocksDiffer(key: Bytes, other: Bytes, i: nat)
    requires i < |key| / 4 && DifferWithin(key, other, 4 * i, 4 * i + 4)
    ensures DifferAt(Blocks(key), Blocks(other), i)
  {
    hide LittleEndian, Octet0, Octet1, Octet2, Octet3;
    var j := 4 * i;
    OctetsTell(key[j], key[j + 1], key[j + 2], key[j + 3]);
    OctetsTell(other[j], other[j + 1], other[j + 2], other[j + 3]);
    var d :| 0 <= d < |key| && key[d] != other[d];
    assert d == j || d == j + 1 || d == j + 2 || d == j + 3;
  }

  /** Keys that differ in one block only have different hashes. */
  lemma BlockNeverCollides(key: Bytes, other: Bytes, i: nat)
    requires i < |key| / 4 && DifferWithin(key, other, 4 * i, 4 * i + 4)
    ensures HashOf(key) != HashOf(other)
  {
    hide Run, LittleEndian, TimesMurmur, UnTimesMurmur, Xor, Finish, Unfinish, Initial;
    BlocksDiffer(key, other, i);
    var n := |key| / 4;
    ApartAfter(Murmur, Initial(|key|), Blocks(key), Blocks(other), i, n);
    var h, h' := Run(Murmur, Initial(|key|), Blocks(key), n), Run(Murmur, Initial(|key|), Blocks(other), n);
    assert TailWord(key) == TailWord(other);
    TailUndone(h, TailWord(key));
    TailUndone(h', TailWord(key));
    FinishUndone(TakeTail(h, key));
    FinishUndone(TakeTail(h', other));
  }

  /** Keys that differ only behind the last block have different hashes. */
  lemma TailNeverCollides(key: Bytes, other: Bytes)
    requires DifferWithin(key, other, |key| - |key| % 4, |key|)
    ensures HashOf(key) != HashOf(other)
  {
    hide Run, LittleEndian, TimesMurmur, UnTimesMurmur, Xor, Finish, Unfinish, Initial, Octet0, Octet1, Octet2, Octet3;
    var i := |key| - |key| % 4;
    assert Blocks(key) == Blocks(other);
    OctetsTell(Get(key, i), Get(key, i + 1), Get(key, i + 2), 0);
    OctetsTell(Get(other, i), Get(other, i + 1), Get(other, i + 2), 0);
    var d :| 0 <= d < |key| && key[d] != other[d];
    assert d == i || d == i + 1 || d == i + 2;
    var h := Run(Murmur, Initial(|key|), Blocks(key), |key| / 4);
    TailUndone(h, TailWord(key));
    TailUndone(h, TailWord(other));
    FinishUndone(TakeTail(h, key));
    FinishUndone(TakeTail(h, other));
  }
}
