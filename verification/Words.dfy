/** Unsigned 32-bit words and their bytes. */
module Words {
  type Word = bv32
  type Octet = bv8
  type Bytes = seq<Octet>

  /** Addition modulo 2^32. */
  function Plus(x: Word, y: Word): Word { x + y }

  /** A length cut to 32 bits. */
  function LengthWord(n: nat): Word { (n % 0x1_0000_0000) as Word }

  /** Subtraction modulo 2^32. */
  function Minus(x: Word, y: Word): Word { x - y }

  function RotateLeft(x: Word, n: nat): Word
    requires 0 < n < 32
  {
    (x << n) | (x >> (32 - n))
  }

  /** A word from its four bytes, the low-order byte first. */
  function LittleEndian(b0: Octet, b1: Octet, b2: Octet, b3: Octet): Word {
    (b0 as Word) | ((b1 as Word) << 8) | ((b2 as Word) << 16) | ((b3 as Word) << 24)
  }

  /** A byte of the key, or zero behind its end. */
  function Get(key: seq<Octet>, i: nat): Octet { if i < |key| then key[i] else 0 }

  /** The word that begins at place j. */
  function WordAt(bytes: seq<Octet>, j: nat): Word
    requires j + 4 <= |bytes|
  {
    LittleEndian(bytes[j], bytes[j + 1], bytes[j + 2], bytes[j + 3])
  }

  // ---------------------------------------------------------------------------------------------
  // Addition
  // ---------------------------------------------------------------------------------------------

  lemma PlusIs(x: Word, y: Word)
    ensures Plus(x, y) == x + y
  {
  }

  lemma PlusZero(x: Word)
    ensures Plus(x, 0) == x
  {
  }

  lemma PlusCommutes(x: Word, y: Word)
    ensures Plus(x, y) == Plus(y, x)
  {
  }

  lemma PlusSums(x: Word, y: Word, z: Word)
    ensures Plus(x + y, z) == Plus(x, y + z)
  {
  }

  lemma PlusAssociates(x: Word, y: Word, z: Word)
    ensures Plus(Plus(x, y), z) == Plus(x, Plus(y, z))
  {
    hide Plus;
    PlusIs(x, y);
    PlusIs(y, z);
    PlusSums(x, y, z);
  }

  lemma MinusIs(x: Word, y: Word)
    ensures Minus(x, y) == x - y
  {
  }

  lemma PlusOfDifference(x: Word, y: Word)
    ensures Plus(x - y, y) == x && Minus(x + y, y) == x
  {
  }

  lemma MinusUndone(x: Word, y: Word)
    ensures Plus(Minus(x, y), y) == x && Minus(Plus(x, y), y) == x
  {
    hide Plus, Minus;
    PlusIs(x, y);
    MinusIs(x, y);
    PlusOfDifference(x, y);
  }

  function Xor(x: Word, y: Word): Word { x ^ y }

  lemma XorUndone(x: Word, y: Word)
    ensures Xor(Xor(x, y), y) == x
  {
  }

  // ---------------------------------------------------------------------------------------------
  // Bytes added one by one
  // ---------------------------------------------------------------------------------------------

  function Byte0(b: Octet): Word { b as Word }
  function Byte1(b: Octet): Word { (b as Word) << 8 }
  function Byte2(b: Octet): Word { (b as Word) << 16 }
  function Byte3(b: Octet): Word { (b as Word) << 24 }

  /** A 16-bit word, and one in the upper half of a word. */
  function Half(b0: Octet, b1: Octet): Word { (b0 as Word) | ((b1 as Word) << 8) }
  function HighHalf(b2: Octet, b3: Octet): Word { ((b2 as Word) | ((b3 as Word) << 8)) << 16 }

  lemma ZeroBytes()
    ensures Byte0(0) == 0 && Byte1(0) == 0 && Byte2(0) == 0 && Byte3(0) == 0 && LittleEndian(0, 0, 0, 0) == 0
  {
  }

  /** Bytes in different places add up without a carry. */
  lemma TwoBytes(b0: Octet, b1: Octet)
    ensures Plus(Byte0(b0), Byte1(b1)) == LittleEndian(b0, b1, 0, 0) == Half(b0, b1)
  {
  }

  lemma ThirdByte(b0: Octet, b1: Octet, b2: Octet)
    ensures Plus(LittleEndian(b0, b1, 0, 0), Byte2(b2)) == LittleEndian(b0, b1, b2, 0)
  {
  }

  lemma FourthByte(b0: Octet, b1: Octet, b2: Octet, b3: Octet)
    ensures Plus(LittleEndian(b0, b1, b2, 0), Byte3(b3)) == LittleEndian(b0, b1, b2, b3)
  {
  }

  lemma BytesMake(b0: Octet, b1: Octet, b2: Octet, b3: Octet)
    ensures Plus(Plus(Plus(Byte0(b0), Byte1(b1)), Byte2(b2)), Byte3(b3)) == LittleEndian(b0, b1, b2, b3)
  {
    hide *;
    TwoBytes(b0, b1);
    ThirdByte(b0, b1, b2);
    FourthByte(b0, b1, b2, b3);
  }

  lemma HalvesMake(b0: Octet, b1: Octet, b2: Octet, b3: Octet)
    ensures Plus(Half(b0, b1), HighHalf(b2, b3)) == LittleEndian(b0, b1, b2, b3)
  {
  }

  /** Adding the bytes of a word in ascending order adds the word. */
  lemma AddedUp(x: Word, b0: Octet, b1: Octet, b2: Octet, b3: Octet)
    ensures Plus(Plus(Plus(Plus(x, Byte0(b0)), Byte1(b1)), Byte2(b2)), Byte3(b3)) == Plus(x, LittleEndian(b0, b1, b2, b3))
  {
    hide *;
    var w0, w1, w2, w3 := Byte0(b0), Byte1(b1), Byte2(b2), Byte3(b3);
    PlusAssociates(x, w0, w1);
    PlusAssociates(x, Plus(w0, w1), w2);
    PlusAssociates(x, Plus(Plus(w0, w1), w2), w3);
    BytesMake(b0, b1, b2, b3);
  }

  /** So does adding them in descending order. */
  lemma AddedDown(x: Word, b0: Octet, b1: Octet, b2: Octet, b3: Octet)
    ensures Plus(Plus(Plus(Plus(x, Byte3(b3)), Byte2(b2)), Byte1(b1)), Byte0(b0)) == Plus(x, LittleEndian(b0, b1, b2, b3))
  {
    hide *;
    var w0, w1, w2, w3 := Byte0(b0), Byte1(b1), Byte2(b2), Byte3(b3);
    PlusAssociates(Plus(Plus(x, w3), w2), w1, w0);
    PlusAssociates(Plus(x, w3), w2, Plus(w1, w0));
    PlusAssociates(x, w3, Plus(w2, Plus(w1, w0)));
    PlusCommutes(w1, w0);
    PlusCommutes(w2, Plus(w0, w1));
    PlusCommutes(w3, Plus(Plus(w0, w1), w2));
    BytesMake(b0, b1, b2, b3);
  }

  // ---------------------------------------------------------------------------------------------
  // Keys that differ
  // ---------------------------------------------------------------------------------------------

  function Octet0(w: Word): Octet { (w & 0xff) as Octet }
  function Octet1(w: Word): Octet { ((w >> 8) & 0xff) as Octet }
  function Octet2(w: Word): Octet { ((w >> 16) & 0xff) as Octet }
  function Octet3(w: Word): Octet { ((w >> 24) & 0xff) as Octet }

  lemma OctetsTell(b0: Octet, b1: Octet, b2: Octet, b3: Octet)
    ensures Octet0(LittleEndian(b0, b1, b2, b3)) == b0 && Octet1(LittleEndian(b0, b1, b2, b3)) == b1
    ensures Octet2(LittleEndian(b0, b1, b2, b3)) == b2 && Octet3(LittleEndian(b0, b1, b2, b3)) == b3
  {
  }

  /** Two keys of one length that differ in bytes from lo to hi and nowhere else. */
  ghost predicate DifferWithin(key: seq<Octet>, other: seq<Octet>, lo: nat, hi: nat) {
    && |key| == |other| && key != other
    && forall j :: 0 <= j < |key| && !(lo <= j < hi) ==> key[j] == other[j]
  }

  // ---------------------------------------------------------------------------------------------
  // Bits
  // ---------------------------------------------------------------------------------------------

  function And(x: Word, y: Word): Word { x & y }
  function Or(x: Word, y: Word): Word { x | y }
  function Not(x: Word): Word { !x }

  /** The bit of a word at place k. */
  predicate Bit(w: Word, k: bv5) { (w >> k) & 1 == 1 }

  lemma AndIs(x: Word, y: Word)
    ensures And(x, y) == x & y
  {
  }

  lemma OrIs(x: Word, y: Word)
    ensures Or(x, y) == x | y
  {
  }

  lemma NotIs(x: Word)
    ensures Not(x) == !x
  {
  }

  lemma XorIs(x: Word, y: Word)
    ensures Xor(x, y) == x ^ y
  {
  }

  lemma BitOfBoth(x: Word, y: Word, k: bv5)
    ensures Bit(x & y, k) == (Bit(x, k) && Bit(y, k))
  {
  }

  lemma BitOfEither(x: Word, y: Word, k: bv5)
    ensures Bit(x | y, k) == (Bit(x, k) || Bit(y, k))
  {
  }

  lemma BitOfNeither(x: Word, k: bv5)
    ensures Bit(!x, k) == !Bit(x, k)
  {
  }

  lemma BitOfOne(x: Word, y: Word, k: bv5)
    ensures Bit(x ^ y, k) == (Bit(x, k) != Bit(y, k))
  {
  }

  lemma BitOfAnd(x: Word, y: Word, k: bv5)
    ensures Bit(And(x, y), k) == (Bit(x, k) && Bit(y, k))
  {
    hide *;
    AndIs(x, y);
    BitOfBoth(x, y, k);
  }

  lemma BitOfOr(x: Word, y: Word, k: bv5)
    ensures Bit(Or(x, y), k) == (Bit(x, k) || Bit(y, k))
  {
    hide *;
    OrIs(x, y);
    BitOfEither(x, y, k);
  }

  lemma BitOfNot(x: Word, k: bv5)
    ensures Bit(Not(x), k) == !Bit(x, k)
  {
    hide *;
    NotIs(x);
    BitOfNeither(x, k);
  }

  lemma BitOfXor(x: Word, y: Word, k: bv5)
    ensures Bit(Xor(x, y), k) == (Bit(x, k) != Bit(y, k))
  {
    hide *;
    XorIs(x, y);
    BitOfOne(x, y, k);
  }
}
