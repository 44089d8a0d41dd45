/** Known answers: what tests/hash_results.h expects of the hashes of "apple", step by step. */
module HashAnswers {
  import opened Words
  import opened HashSteps
  import Fnv
  import OneAtATimeHash
  import MurmurHash
  import Crc32
  import Jenkins

  const APPLE: Bytes := [0x61, 0x70, 0x70, 0x6c, 0x65]

  // ---------------------------------------------------------------------------------------------
  // The hashes that go byte by byte
  // ---------------------------------------------------------------------------------------------

  /** A letter is the same number whether or not char has a sign. */
  lemma Letters(signed: bool)
    ensures Char(0x61, signed) == 0x61 && Char(0x70, signed) == 0x70 && Char(0x6c, signed) == 0x6c && Char(0x65, signed) == 0x65
  {
  }

  /** Five steps, by their values. */
  lemma FiveSteps(kind: Kind, h0: Word, h1: Word, h2: Word, h3: Word, h4: Word, h5: Word, signed: bool)
    requires Step(kind, h0, 0x61) == h1 && Step(kind, h1, 0x70) == h2 && Step(kind, h2, 0x70) == h3
    requires Step(kind, h3, 0x6c) == h4 && Step(kind, h4, 0x65) == h5
    ensures Hash(kind, h0, APPLE, signed) == h5
  {
    hide Step, Char;
    Letters(signed);
    var vs := Chars(APPLE, signed);
    assert Run(kind, h0, vs, 1) == Step(kind, Run(kind, h0, vs, 0), vs[0]);
    assert Run(kind, h0, vs, 2) == Step(kind, h1, vs[1]);
    assert Run(kind, h0, vs, 3) == Step(kind, h2, vs[2]);
    assert Run(kind, h0, vs, 4) == Step(kind, h3, vs[3]);
  }

  lemma Fnv1Values()
    ensures Step(Fnv1, 0x811c9dc5, 0x61) == 0x050c5d7e
    ensures Step(Fnv1, 0x050c5d7e, 0x70) == 0x70772d2a
    ensures Step(Fnv1, 0x70772d2a, 0x70) == 0x359c196e
    ensures Step(Fnv1, 0x359c196e, 0x6c) == 0xd2bc0846
    ensures Step(Fnv1, 0xd2bc0846, 0x65) == 0x04010657
  {
  }

  lemma Fnv1OfApple(signed: bool)
    ensures Hash(Fnv1, Fnv.FNV_32_INIT, APPLE, signed) == 67176023
  {
    hide Step, Hash;
    Fnv1Values();
    FiveSteps(Fnv1, 0x811c9dc5, 0x050c5d7e, 0x70772d2a, 0x359c196e, 0xd2bc0846, 0x04010657, signed);
  }

  lemma Fnv1aValues()
    ensures Step(Fnv1a, 0x811c9dc5, 0x61) == 0xe40c292c
    ensures Step(Fnv1a, 0xe40c292c, 0x70) == 0x5b251bd4
    ensures Step(Fnv1a, 0x5b251bd4, 0x70) == 0x1f6a832c
    ensures Step(Fnv1a, 0x1f6a832c, 0x6c) == 0xb4ac9dc0
    ensures Step(Fnv1a, 0xb4ac9dc0, 0x65) == 0x10bc2abf
  {
  }

  lemma Fnv1aOfApple(signed: bool)
    ensures Hash(Fnv1a, Fnv.FNV_32_INIT, APPLE, signed) == 280767167
  {
    hide Step, Hash;
    Fnv1aValues();
    FiveSteps(Fnv1a, 0x811c9dc5, 0xe40c292c, 0x5b251bd4, 0x1f6a832c, 0xb4ac9dc0, 0x10bc2abf, signed);
  }

  lemma Fnv1LowValues()
    ensures Step(Fnv1Low, 0x84222325, 0x61) == 0x8601b7be
    ensures Step(Fnv1Low, 0x8601b7be, 0x70) == 0xb4eb37aa
    ensures Step(Fnv1Low, 0xb4eb37aa, 0x70) == 0x6baf95ae
    ensures Step(Fnv1Low, 0x6baf95ae, 0x6c) == 0xfb5b56c6
    ensures Step(Fnv1Low, 0xfb5b56c6, 0x65) == 0x1c347217
  {
  }

  lemma Fnv1LowOfApple(signed: bool)
    ensures Hash(Fnv1Low, Fnv.FNV_64_INIT_LOW, APPLE, signed) == 473199127
  {
    hide Step, Hash;
    Fnv1LowValues();
    FiveSteps(Fnv1Low, 0x84222325, 0x8601b7be, 0xb4eb37aa, 0x6baf95ae, 0xfb5b56c6, 0x1c347217, signed);
  }

  lemma Fnv1aLowValues()
    ensures Step(Fnv1aLow, 0x84222325, 0x61) == 0x8601ec8c
    ensures Step(Fnv1aLow, 0x8601ec8c, 0x70) == 0xb545b034
    ensures Step(Fnv1aLow, 0xb545b034, 0x70) == 0x056a838c
    ensures Step(Fnv1aLow, 0x056a838c, 0x6c) == 0x33fe15a0
    ensures Step(Fnv1aLow, 0x33fe15a0, 0x65) == 0x58befdbf
  {
  }

  lemma Fnv1aLowOfApple(signed: bool)
    ensures Hash(Fnv1aLow, Fnv.FNV_64_INIT_LOW, APPLE, signed) == 1488911807
  {
    hide Step, Hash;
    Fnv1aLowValues();
    FiveSteps(Fnv1aLow, 0x84222325, 0x8601ec8c, 0xb545b034, 0x056a838c, 0x33fe15a0, 0x58befdbf, signed);
  }

  lemma OneAtATimeValues()
    ensures Step(OneAtATime, 0x00000000, 0x61) == 0x00018270
    ensures Step(OneAtATime, 0x00018270, 0x70) == 0x061536eb
    ensures Step(OneAtATime, 0x061536eb, 0x70) == 0x5b9969d6
    ensures Step(OneAtATime, 0x5b9969d6, 0x6c) == 0xc2477b8b
    ensures Step(OneAtATime, 0xc2477b8b, 0x65) == 0xe3b7e71f
  {
  }

  lemma OneAtATimeEnd()
    ensures Spread3(0xe3b7e71f) == 0x01772017 && Fold11(0x01772017) == 0x01770ef3 && Spread15(0x01770ef3) == 2297466611
  {
  }

  lemma OneAtATimeOfApple(signed: bool)
    ensures OneAtATimeHash.Finish(Hash(OneAtATime, 0, APPLE, signed)) == 2297466611
  {
    hide Step, Hash, Spread3, Fold11, Spread15;
    OneAtATimeValues();
    OneAtATimeEnd();
    FiveSteps(OneAtATime, 0x00000000, 0x00018270, 0x061536eb, 0x5b9969d6, 0xc2477b8b, 0xe3b7e71f, signed);
  }

  // ---------------------------------------------------------------------------------------------
  // The others
  // ---------------------------------------------------------------------------------------------

  lemma FirstWord()
    ensures LittleEndian(0x61, 0x70, 0x70, 0x6c) == 0x6c707061 && LittleEndian(0x65, 0, 0, 0) == 0x65 && LittleEndian(0, 0, 0, 0) == 0
  {
  }

  lemma FiveIs()
    ensures LengthWord(5) == 5
  {
    assert 5 % 0x1_0000_0000 == 5;
  }

  lemma MurmurStart()
    ensures MurmurHash.Seed(5) == 0x5964baae
  {
  }

  lemma MurmurValues()
    ensures Step(Murmur, 0x5964baae, 0x6c707061) == 0x39581ffe
    ensures TimesMurmur(Xor(0x39581ffe, 0x65)) == 0x7b997837
    ensures Fold13(0x7b997837) == 0x7b9aa4fc && TimesMurmur(0x7b9aa4fc) == 0xf6e762ac && Fold15(0xf6e762ac) == 4142305122
  {
  }

  lemma MurmurOfApple()
    ensures MurmurHash.HashOf(APPLE) == 4142305122
  {
    hide Step, LittleEndian, TimesMurmur, Xor, Fold13, Fold15, MurmurHash.Seed, LengthWord;
    FirstWord();
    FiveIs();
    MurmurStart();
    MurmurValues();
    var blocks := MurmurHash.Blocks(APPLE);
    assert blocks[0] == WordAt(APPLE, 0);
    assert Run(Murmur, MurmurHash.Initial(5), blocks, 1) == Step(Murmur, Run(Murmur, MurmurHash.Initial(5), blocks, 0), blocks[0]);
  }

  lemma CrcValues()
    ensures Crc32.Bits8(Xor(0xffffffff, Byte0(0x61))) == 0x174841bc
    ensures Crc32.Bits8(Xor(0x174841bc, Byte0(0x70))) == 0x92c5c6da
    ensures Crc32.Bits8(Xor(0x92c5c6da, Byte0(0x70))) == 0x36918f30
    ensures Crc32.Bits8(Xor(0x36918f30, Byte0(0x6c))) == 0x62eb8c50
    ensures Crc32.Bits8(Xor(0x62eb8c50, Byte0(0x65))) == 0x56d12faf
  {
  }

  lemma CrcEnd()
    ensures !(0x56d12faf as Word) == 0xa92ed050 && Crc32.Middle(0xa92ed050) == 10542
  {
  }

  /** The CRC-32 itself, and the fifteen bits of it. */
  lemma CrcOfApple()
    ensures Crc32.Crc(APPLE) == 0xa92ed050 && Crc32.Middle(Crc32.Crc(APPLE)) == 10542
  {
    hide Crc32.Bits8, Crc32.Middle, Xor, Byte0;
    CrcValues();
    CrcEnd();
    assert Crc32.Register(APPLE, 1) == Crc32.Bits8(Xor(Crc32.Register(APPLE, 0), Byte0(0x61)));
    assert Crc32.Register(APPLE, 2) == Crc32.Bits8(Xor(Crc32.Register(APPLE, 1), Byte0(0x70)));
    assert Crc32.Register(APPLE, 3) == Crc32.Bits8(Xor(Crc32.Register(APPLE, 2), Byte0(0x70)));
    assert Crc32.Register(APPLE, 4) == Crc32.Bits8(Xor(Crc32.Register(APPLE, 3), Byte0(0x6c)));
  }

  lemma JenkinsValues()
    ensures Plus(0xdeadbf01, 0x6c707061) == 0x4b1e2f62 && Plus(0xdeadbf01, 0x65) == 0xdeadbf66 && Plus(0xdeadbf01, 0) == 0xdeadbf01
    ensures Jenkins.FinalTurn(Jenkins.Lanes(0xdeadbf01, 0x4b1e2f62, 0xdeadbf66), 14) == Jenkins.Lanes(0x4b1e2f62, 0xdeadbf66, 0x902648bc)
    ensures Jenkins.FinalTurn(Jenkins.Lanes(0x4b1e2f62, 0xdeadbf66, 0x902648bc), 11) == Jenkins.Lanes(0xdeadbf66, 0x902648bc, 0xa8f2835d)
    ensures Jenkins.FinalTurn(Jenkins.Lanes(0xdeadbf66, 0x902648bc, 0xa8f2835d), 25) == Jenkins.Lanes(0x902648bc, 0xa8f2835d, 0xbb0d5735)
    ensures Jenkins.FinalTurn(Jenkins.Lanes(0x902648bc, 0xa8f2835d, 0xbb0d5735), 16) == Jenkins.Lanes(0xa8f2835d, 0xbb0d5735, 0xd3f5647c)
    ensures Jenkins.FinalTurn(Jenkins.Lanes(0xa8f2835d, 0xbb0d5735, 0xd3f5647c), 4) == Jenkins.Lanes(0xbb0d5735, 0xd3f5647c, 0x3bb19f54)
    ensures Jenkins.FinalTurn(Jenkins.Lanes(0xbb0d5735, 0xd3f5647c, 0x3bb19f54), 14) == Jenkins.Lanes(0xd3f5647c, 0x3bb19f54, 0x18e7b975)
    ensures Jenkins.FinalTurn(Jenkins.Lanes(0xd3f5647c, 0x3bb19f54, 0x18e7b975), 24) == Jenkins.Lanes(0x3bb19f54, 0x18e7b975, 0x55f9f550)
  {
  }

  lemma JenkinsStart()
    ensures Plus(0xdeadbeef, 5) == 0xdeadbef4 && Plus(0xdeadbef4, 13) == 0xdeadbf01
  {
  }

  lemma JenkinsOfApple()
    ensures Jenkins.Hash(APPLE) == 1442444624
  {
    hide Jenkins.FinalTurn, LengthWord, Plus, LittleEndian;
    FirstWord();
    FiveIs();
    JenkinsStart();
    JenkinsValues();
    var x := Jenkins.Initial(5);
    assert Jenkins.Lane(APPLE, 0) == 0x6c707061 && Jenkins.Lane(APPLE, 4) == 0x65 && Jenkins.Lane(APPLE, 8) == 0;
    assert Jenkins.Absorb(Jenkins.Lanes(x, x, x), APPLE, 0) == Jenkins.Lanes(0x4b1e2f62, 0xdeadbf66, 0xdeadbf01);
  }

  // ---------------------------------------------------------------------------------------------
  // The answer that Bob Jenkins gives for his hash, with an initial value of zero
  // ---------------------------------------------------------------------------------------------

  /** "Four score and seven years ago" */
  const BLOCK_1: Bytes := [0x46, 0x6f, 0x75, 0x72, 0x20, 0x73, 0x63, 0x6f, 0x72, 0x65, 0x20, 0x61]
  const BLOCK_2: Bytes := [0x6e, 0x64, 0x20, 0x73, 0x65, 0x76, 0x65, 0x6e, 0x20, 0x79, 0x65, 0x61]
  const BLOCK_3: Bytes := [0x72, 0x73, 0x20, 0x61, 0x67, 0x6f]
  const FOUR_SCORE: Bytes := BLOCK_1 + (BLOCK_2 + BLOCK_3)

  lemma FourScoreWords()
    ensures LittleEndian(0x46, 0x6f, 0x75, 0x72) == 0x72756f46
    ensures LittleEndian(0x20, 0x73, 0x63, 0x6f) == 0x6f637320
    ensures LittleEndian(0x72, 0x65, 0x20, 0x61) == 0x61206572
    ensures LittleEndian(0x6e, 0x64, 0x20, 0x73) == 0x7320646e
    ensures LittleEndian(0x65, 0x76, 0x65, 0x6e) == 0x6e657665
    ensures LittleEndian(0x20, 0x79, 0x65, 0x61) == 0x61657920
    ensures LittleEndian(0x72, 0x73, 0x20, 0x61) == 0x61207372
    ensures LittleEndian(0x67, 0x6f, 0, 0) == 0x00006f67
    ensures LittleEndian(0, 0, 0, 0) == 0
  {
  }

  lemma FourScoreFirst()
    ensures Jenkins.Lane(FOUR_SCORE, 0) == 0x72756f46
    ensures Jenkins.Lane(FOUR_SCORE, 4) == 0x6f637320
    ensures Jenkins.Lane(FOUR_SCORE, 8) == 0x61206572
  {
    hide LittleEndian, Jenkins.Lane;
    FourScoreWords();
    LaneIs(FOUR_SCORE, 0, 0x46, 0x6f, 0x75, 0x72);
    LaneIs(FOUR_SCORE, 4, 0x20, 0x73, 0x63, 0x6f);
    LaneIs(FOUR_SCORE, 8, 0x72, 0x65, 0x20, 0x61);
  }

  lemma FourScoreSecond()
    ensures Jenkins.Lane(FOUR_SCORE, 12) == 0x7320646e
    ensures Jenkins.Lane(FOUR_SCORE, 16) == 0x6e657665
    ensures Jenkins.Lane(FOUR_SCORE, 20) == 0x61657920
  {
    hide LittleEndian, Jenkins.Lane;
    FourScoreWords();
    LaneIs(FOUR_SCORE, 12, 0x6e, 0x64, 0x20, 0x73);
    LaneIs(FOUR_SCORE, 16, 0x65, 0x76, 0x65, 0x6e);
    LaneIs(FOUR_SCORE, 20, 0x20, 0x79, 0x65, 0x61);
  }

  lemma FourScoreThird()
    ensures Jenkins.Lane(FOUR_SCORE, 24) == 0x61207372
    ensures Jenkins.Lane(FOUR_SCORE, 28) == 0x00006f67
    ensures Jenkins.Lane(FOUR_SCORE, 32) == 0
  {
    hide LittleEndian, Jenkins.Lane;
    FourScoreWords();
    LaneIs(FOUR_SCORE, 24, 0x72, 0x73, 0x20, 0x61);
    LaneIs(FOUR_SCORE, 28, 0x67, 0x6f, 0, 0);
    LaneIs(FOUR_SCORE, 32, 0, 0, 0, 0);
  }

  lemma LaneIs(key: Bytes, i: nat, b0: Octet, b1: Octet, b2: Octet, b3: Octet)
    requires Get(key, i) == b0 && Get(key, i + 1) == b1 && Get(key, i + 2) == b2 && Get(key, i + 3) == b3
    ensures Jenkins.Lane(key, i) == LittleEndian(b0, b1, b2, b3)
  {
    hide LittleEndian, Get;
  }

  lemma FourScoreSums()
    ensures Plus(0xdeadbf0d, 0x72756f46) == 0x51232e53 && Plus(0xdeadbf0d, 0x6f637320) == 0x4e11322d && Plus(0xdeadbf0d, 0x61206572) == 0x3fce247f
    ensures Plus(0xf859ad7a, 0x7320646e) == 0x6b7a11e8 && Plus(0x04bc57ae, 0x6e657665) == 0x7321ce13 && Plus(0x40dddd7e, 0x61657920) == 0xa243569e
    ensures Plus(0x336aded2, 0x61207372) == 0x948b5244 && Plus(0x059f2642, 0x00006f67) == 0x059f95a9 && Plus(0xbd02ebd5, 0) == 0xbd02ebd5
  {
  }

  lemma FourScoreTurns()
    ensures Jenkins.Turn(Jenkins.Lanes(0x51232e53, 0x4e11322d, 0x3fce247f), 4) == Jenkins.Lanes(0x4e11322d, 0x8ddf56ac, 0xedb74e27)
    ensures Jenkins.Turn(Jenkins.Lanes(0x4e11322d, 0x8ddf56ac, 0xedb74e27), 6) == Jenkins.Lanes(0x8ddf56ac, 0x7b96a4d3, 0x0d8a6dfd)
    ensures Jenkins.Turn(Jenkins.Lanes(0x8ddf56ac, 0x7b96a4d3, 0x0d8a6dfd), 8) == Jenkins.Lanes(0x7b96a4d3, 0x892112d0, 0x0a3915a2)
    ensures Jenkins.Turn(Jenkins.Lanes(0x7b96a4d3, 0x892112d0, 0x0a3915a2), 16) == Jenkins.Lanes(0x892112d0, 0x935a2872, 0x64ff8508)
    ensures Jenkins.Turn(Jenkins.Lanes(0x892112d0, 0x935a2872, 0x64ff8508), 19) == Jenkins.Lanes(0x935a2872, 0xf859ad7a, 0x0c62aa34)
    ensures Jenkins.Turn(Jenkins.Lanes(0x935a2872, 0xf859ad7a, 0x0c62aa34), 4) == Jenkins.Lanes(0xf859ad7a, 0x04bc57ae, 0x40dddd7e)
    ensures Jenkins.Turn(Jenkins.Lanes(0x6b7a11e8, 0x7321ce13, 0xa243569e), 4) == Jenkins.Lanes(0x7321ce13, 0x156524b1, 0xed03d2a0)
    ensures Jenkins.Turn(Jenkins.Lanes(0x7321ce13, 0x156524b1, 0xed03d2a0), 6) == Jenkins.Lanes(0x156524b1, 0x0268f751, 0xc6e95348)
    ensures Jenkins.Turn(Jenkins.Lanes(0x156524b1, 0x0268f751, 0xc6e95348), 8) == Jenkins.Lanes(0x0268f751, 0xc9524a99, 0xa72899af)
    ensures Jenkins.Turn(Jenkins.Lanes(0x0268f751, 0xc9524a99, 0xa72899af), 16) == Jenkins.Lanes(0xc9524a99, 0x707ae448, 0xc2effa8a)
    ensures Jenkins.Turn(Jenkins.Lanes(0xc9524a99, 0x707ae448, 0xc2effa8a), 19) == Jenkins.Lanes(0x707ae448, 0x336aded2, 0xd2344770)
    ensures Jenkins.Turn(Jenkins.Lanes(0x707ae448, 0x336aded2, 0xd2344770), 4) == Jenkins.Lanes(0x336aded2, 0x059f2642, 0xbd02ebd5)
  {
  }

  lemma FourScoreEnd()
    ensures Jenkins.FinalTurn(Jenkins.Lanes(0xbd02ebd5, 0x948b5244, 0x059f95a9), 14) == Jenkins.Lanes(0x948b5244, 0x059f95a9, 0xd3333d15)
    ensures Jenkins.FinalTurn(Jenkins.Lanes(0x948b5244, 0x059f95a9, 0xd3333d15), 11) == Jenkins.Lanes(0x059f95a9, 0xd3333d15, 0xadcfc0b8)
    ensures Jenkins.FinalTurn(Jenkins.Lanes(0x059f95a9, 0xd3333d15, 0xadcfc0b8), 25) == Jenkins.Lanes(0xd3333d15, 0xadcfc0b8, 0x36f4b590)
    ensures Jenkins.FinalTurn(Jenkins.Lanes(0xd3333d15, 0xadcfc0b8, 0x36f4b590), 16) == Jenkins.Lanes(0xadcfc0b8, 0x36f4b590, 0x30375191)
    ensures Jenkins.FinalTurn(Jenkins.Lanes(0xadcfc0b8, 0x36f4b590, 0x30375191), 4) == Jenkins.Lanes(0x36f4b590, 0x30375191, 0x9a837816)
    ensures Jenkins.FinalTurn(Jenkins.Lanes(0x36f4b590, 0x30375191, 0x9a837816), 14) == Jenkins.Lanes(0x30375191, 0x9a837816, 0xce7226e6)
    ensures Jenkins.FinalTurn(Jenkins.Lanes(0x30375191, 0x9a837816, 0xce7226e6), 24) == Jenkins.Lanes(0x9a837816, 0xce7226e6, 0x17770551)
  {
  }

  lemma JenkinsOfFourScore()
    ensures var x := Plus(0xdeadbeef, 30); Jenkins.Run(Jenkins.Lanes(x, x, x), FOUR_SCORE, 0) == 0x17770551
  {
    hide Plus, Jenkins.Turn, Jenkins.FinalTurn, Jenkins.Lane;
    FourScoreStart();
    FourScoreFirst();
    FourScoreSecond();
    FourScoreThird();
    FourScoreSums();
    FourScoreTurns();
    FourScoreEnd();
    assert Jenkins.Mix(Jenkins.Lanes(0x51232e53, 0x4e11322d, 0x3fce247f)) == Jenkins.Lanes(0xf859ad7a, 0x04bc57ae, 0x40dddd7e);
    assert Jenkins.Mix(Jenkins.Lanes(0x6b7a11e8, 0x7321ce13, 0xa243569e)) == Jenkins.Lanes(0x336aded2, 0x059f2642, 0xbd02ebd5);
    assert Jenkins.Absorb(Jenkins.Lanes(0x336aded2, 0x059f2642, 0xbd02ebd5), FOUR_SCORE, 24) == Jenkins.Lanes(0x948b5244, 0x059f95a9, 0xbd02ebd5);
    hide Jenkins.Mix, Jenkins.Absorb;
    assert Jenkins.Run(Jenkins.Lanes(0x336aded2, 0x059f2642, 0xbd02ebd5), FOUR_SCORE, 24) == 0x17770551;
    assert Jenkins.Run(Jenkins.Lanes(0xf859ad7a, 0x04bc57ae, 0x40dddd7e), FOUR_SCORE, 12) == 0x17770551;
  }

  lemma FourScoreStart()
    ensures Plus(0xdeadbeef, 30) == 0xdeadbf0d
  {
  }
}
