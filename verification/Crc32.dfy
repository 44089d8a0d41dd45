/** CRC-32 by table, and bit by bit as in section 8 of RFC 1952. */
module Crc32 {
  import opened Words
  import opened HashSteps

  // ---------------------------------------------------------------------------------------------
  // RFC 1952, section 8
  // ---------------------------------------------------------------------------------------------

  /** One bit of the message shifted out of the register. */
  function Bit(c: Word): Word { if c & 1 != 0 then 0xedb88320 ^ (c >> 1) else c >> 1 }

  function Bits8(c: Word): Word { Bit(Bit(Bit(Bit(Bit(Bit(Bit(Bit(c)))))))) }

  /** The register after the first n bytes. */
  ghost function Register(key: Bytes, n: nat): Word
    requires n <= |key|
  {
    if n == 0 then 0xffffffff else Bits8(Xor(Register(key, n - 1), Byte0(key[n - 1])))
  }

  /** The checksum. */
  ghost function Crc(key: Bytes): Word { !Register(key, |key|) }

  // ---------------------------------------------------------------------------------------------
  // The table
  // ---------------------------------------------------------------------------------------------

  function Row0(low: Octet): Word {
    if low == 0 then 0x00000000 else if low == 1 then 0x77073096 else if low == 2 then 0xee0e612c else
    if low == 3 then 0x990951ba else if low == 4 then 0x076dc419 else if low == 5 then 0x706af48f else
    if low == 6 then 0xe963a535 else if low == 7 then 0x9e6495a3 else if low == 8 then 0x0edb8832 else
    if low == 9 then 0x79dcb8a4 else if low == 10 then 0xe0d5e91e else if low == 11 then 0x97d2d988 else
    if low == 12 then 0x09b64c2b else if low == 13 then 0x7eb17cbd else if low == 14 then 0xe7b82d07 else
    0x90bf1d91
  }

  function Row1(low: Octet): Word {
    if low == 0 then 0x1db71064 else if low == 1 then 0x6ab020f2 else if low == 2 then 0xf3b97148 else
    if low == 3 then 0x84be41de else if low == 4 then 0x1adad47d else if low == 5 then 0x6ddde4eb else
    if low == 6 then 0xf4d4b551 else if low == 7 then 0x83d385c7 else if low == 8 then 0x136c9856 else
    if low == 9 then 0x646ba8c0 else if low == 10 then 0xfd62f97a else if low == 11 then 0x8a65c9ec else
    if low == 12 then 0x14015c4f else if low == 13 then 0x63066cd9 else if low == 14 then 0xfa0f3d63 else
    0x8d080df5
  }

  function Row2(low: Octet): Word {
    if low == 0 then 0x3b6e20c8 else if low == 1 then 0x4c69105e else if low == 2 then 0xd56041e4 else
    if low == 3 then 0xa2677172 else if low == 4 then 0x3c03e4d1 else if low == 5 then 0x4b04d447 else
    if low == 6 then 0xd20d85fd else if low == 7 then 0xa50ab56b else if low == 8 then 0x35b5a8fa else
    if low == 9 then 0x42b2986c else if low == 10 then 0xdbbbc9d6 else if low == 11 then 0xacbcf940 else
    if low == 12 then 0x32d86ce3 else if low == 13 then 0x45df5c75 else if low == 14 then 0xdcd60dcf else
    0xabd13d59
  }

  function Row3(low: Octet): Word {
    if low == 0 then 0x26d930ac else if low == 1 then 0x51de003a else if low == 2 then 0xc8d75180 else
    if low == 3 then 0xbfd06116 else if low == 4 then 0x21b4f4b5 else if low == 5 then 0x56b3c423 else
    if low == 6 then 0xcfba9599 else if low == 7 then 0xb8bda50f else if low == 8 then 0x2802b89e else
    if low == 9 then 0x5f058808 else if low == 10 then 0xc60cd9b2 else if low == 11 then 0xb10be924 else
    if low == 12 then 0x2f6f7c87 else if low == 13 then 0x58684c11 else if low == 14 then 0xc1611dab else
    0xb6662d3d
  }

  function Row4(low: Octet): Word {
    if low == 0 then 0x76dc4190 else if low == 1 then 0x01db7106 else if low == 2 then 0x98d220bc else
    if low == 3 then 0xefd5102a else if low == 4 then 0x71b18589 else if low == 5 then 0x06b6b51f else
    if low == 6 then 0x9fbfe4a5 else if low == 7 then 0xe8b8d433 else if low == 8 then 0x7807c9a2 else
    if low == 9 then 0x0f00f934 else if low == 10 then 0x9609a88e else if low == 11 then 0xe10e9818 else
    if low == 12 then 0x7f6a0dbb else if low == 13 then 0x086d3d2d else if low == 14 then 0x91646c97 else
    0xe6635c01
  }

  function Row5(low: Octet): Word {
    if low == 0 then 0x6b6b51f4 else if low == 1 then 0x1c6c6162 else if low == 2 then 0x856530d8 else
    if low == 3 then 0xf262004e else if low == 4 then 0x6c0695ed else if low == 5 then 0x1b01a57b else
    if low == 6 then 0x8208f4c1 else if low == 7 then 0xf50fc457 else if low == 8 then 0x65b0d9c6 else
    if low == 9 then 0x12b7e950 else if low == 10 then 0x8bbeb8ea else if low == 11 then 0xfcb9887c else
    if low == 12 then 0x62dd1ddf else if low == 13 then 0x15da2d49 else if low == 14 then 0x8cd37cf3 else
    0xfbd44c65
  }

  function Row6(low: Octet): Word {
    if low == 0 then 0x4db26158 else if low == 1 then 0x3ab551ce else if low == 2 then 0xa3bc0074 else
    if low == 3 then 0xd4bb30e2 else if low == 4 then 0x4adfa541 else if low == 5 then 0x3dd895d7 else
    if low == 6 then 0xa4d1c46d else if low == 7 then 0xd3d6f4fb else if low == 8 then 0x4369e96a else
    if low == 9 then 0x346ed9fc else if low == 10 then 0xad678846 else if low == 11 then 0xda60b8d0 else
    if low == 12 then 0x44042d73 else if low == 13 then 0x33031de5 else if low == 14 then 0xaa0a4c5f else
    0xdd0d7cc9
  }

  function Row7(low: Octet): Word {
    if low == 0 then 0x5005713c else if low == 1 then 0x270241aa else if low == 2 then 0xbe0b1010 else
    if low == 3 then 0xc90c2086 else if low == 4 then 0x5768b525 else if low == 5 then 0x206f85b3 else
    if low == 6 then 0xb966d409 else if low == 7 then 0xce61e49f else if low == 8 then 0x5edef90e else
    if low == 9 then 0x29d9c998 else if low == 10 then 0xb0d09822 else if low == 11 then 0xc7d7a8b4 else
    if low == 12 then 0x59b33d17 else if low == 13 then 0x2eb40d81 else if low == 14 then 0xb7bd5c3b else
    0xc0ba6cad
  }

  function Row8(low: Octet): Word {
    if low == 0 then 0xedb88320 else if low == 1 then 0x9abfb3b6 else if low == 2 then 0x03b6e20c else
    if low == 3 then 0x74b1d29a else if low == 4 then 0xead54739 else if low == 5 then 0x9dd277af else
    if low == 6 then 0x04db2615 else if low == 7 then 0x73dc1683 else if low == 8 then 0xe3630b12 else
    if low == 9 then 0x94643b84 else if low == 10 then 0x0d6d6a3e else if low == 11 then 0x7a6a5aa8 else
    if low == 12 then 0xe40ecf0b else if low == 13 then 0x9309ff9d else if low == 14 then 0x0a00ae27 else
    0x7d079eb1
  }

  function Row9(low: Octet): Word {
    if low == 0 then 0xf00f9344 else if low == 1 then 0x8708a3d2 else if low == 2 then 0x1e01f268 else
    if low == 3 then 0x6906c2fe else if low == 4 then 0xf762575d else if low == 5 then 0x806567cb else
    if low == 6 then 0x196c3671 else if low == 7 then 0x6e6b06e7 else if low == 8 then 0xfed41b76 else
    if low == 9 then 0x89d32be0 else if low == 10 then 0x10da7a5a else if low == 11 then 0x67dd4acc else
    if low == 12 then 0xf9b9df6f else if low == 13 then 0x8ebeeff9 else if low == 14 then 0x17b7be43 else
    0x60b08ed5
  }

  function RowA(low: Octet): Word {
    if low == 0 then 0xd6d6a3e8 else if low == 1 then 0xa1d1937e else if low == 2 then 0x38d8c2c4 else
    if low == 3 then 0x4fdff252 else if low == 4 then 0xd1bb67f1 else if low == 5 then 0xa6bc5767 else
    if low == 6 then 0x3fb506dd else if low == 7 then 0x48b2364b else if low == 8 then 0xd80d2bda else
    if low == 9 then 0xaf0a1b4c else if low == 10 then 0x36034af6 else if low == 11 then 0x41047a60 else
    if low == 12 then 0xdf60efc3 else if low == 13 then 0xa867df55 else if low == 14 then 0x316e8eef else
    0x4669be79
  }

  function RowB(low: Octet): Word {
    if low == 0 then 0xcb61b38c else if low == 1 then 0xbc66831a else if low == 2 then 0x256fd2a0 else
    if low == 3 then 0x5268e236 else if low == 4 then 0xcc0c7795 else if low == 5 then 0xbb0b4703 else
    if low == 6 then 0x220216b9 else if low == 7 then 0x5505262f else if low == 8 then 0xc5ba3bbe else
    if low == 9 then 0xb2bd0b28 else if low == 10 then 0x2bb45a92 else if low == 11 then 0x5cb36a04 else
    if low == 12 then 0xc2d7ffa7 else if low == 13 then 0xb5d0cf31 else if low == 14 then 0x2cd99e8b else
    0x5bdeae1d
  }

  function RowC(low: Octet): Word {
    if low == 0 then 0x9b64c2b0 else if low == 1 then 0xec63f226 else if low == 2 then 0x756aa39c else
    if low == 3 then 0x026d930a else if low == 4 then 0x9c0906a9 else if low == 5 then 0xeb0e363f else
    if low == 6 then 0x72076785 else if low == 7 then 0x05005713 else if low == 8 then 0x95bf4a82 else
    if low == 9 then 0xe2b87a14 else if low == 10 then 0x7bb12bae else if low == 11 then 0x0cb61b38 else
    if low == 12 then 0x92d28e9b else if low == 13 then 0xe5d5be0d else if low == 14 then 0x7cdcefb7 else
    0x0bdbdf21
  }

  function RowD(low: Octet): Word {
    if low == 0 then 0x86d3d2d4 else if low == 1 then 0xf1d4e242 else if low == 2 then 0x68ddb3f8 else
    if low == 3 then 0x1fda836e else if low == 4 then 0x81be16cd else if low == 5 then 0xf6b9265b else
    if low == 6 then 0x6fb077e1 else if low == 7 then 0x18b74777 else if low == 8 then 0x88085ae6 else
    if low == 9 then 0xff0f6a70 else if low == 10 then 0x66063bca else if low == 11 then 0x11010b5c else
    if low == 12 then 0x8f659eff else if low == 13 then 0xf862ae69 else if low == 14 then 0x616bffd3 else
    0x166ccf45
  }

  function RowE(low: Octet): Word {
    if low == 0 then 0xa00ae278 else if low == 1 then 0xd70dd2ee else if low == 2 then 0x4e048354 else
    if low == 3 then 0x3903b3c2 else if low == 4 then 0xa7672661 else if low == 5 then 0xd06016f7 else
    if low == 6 then 0x4969474d else if low == 7 then 0x3e6e77db else if low == 8 then 0xaed16a4a else
    if low == 9 then 0xd9d65adc else if low == 10 then 0x40df0b66 else if low == 11 then 0x37d83bf0 else
    if low == 12 then 0xa9bcae53 else if low == 13 then 0xdebb9ec5 else if low == 14 then 0x47b2cf7f else
    0x30b5ffe9
  }

  function RowF(low: Octet): Word {
    if low == 0 then 0xbdbdf21c else if low == 1 then 0xcabac28a else if low == 2 then 0x53b39330 else
    if low == 3 then 0x24b4a3a6 else if low == 4 then 0xbad03605 else if low == 5 then 0xcdd70693 else
    if low == 6 then 0x54de5729 else if low == 7 then 0x23d967bf else if low == 8 then 0xb3667a2e else
    if low == 9 then 0xc4614ab8 else if low == 10 then 0x5d681b02 else if low == 11 then 0x2a6f2b94 else
    if low == 12 then 0xb40bbe37 else if low == 13 then 0xc30c8ea1 else if low == 14 then 0x5a05df1b else
    0x2d02ef8d
  }

  /** crc32tab, sixteen entries to a row. */
  function Table(i: Octet): Word {
    var high, low := i >> 4, i & 15;
    if high == 0 then Row0(low) else
    if high == 1 then Row1(low) else
    if high == 2 then Row2(low) else
    if high == 3 then Row3(low) else
    if high == 4 then Row4(low) else
    if high == 5 then Row5(low) else
    if high == 6 then Row6(low) else
    if high == 7 then Row7(low) else
    if high == 8 then Row8(low) else
    if high == 9 then Row9(low) else
    if high == 10 then RowA(low) else
    if high == 11 then RowB(low) else
    if high == 12 then RowC(low) else
    if high == 13 then RowD(low) else
    if high == 14 then RowE(low) else
    RowF(low)
  }

  lemma Row0Is(i: Octet)
    requires i >> 4 == 0
    ensures Row0(i & 15) == Bits8(i as Word)
  {
  }

  lemma Row1Is(i: Octet)
    requires i >> 4 == 1
    ensures Row1(i & 15) == Bits8(i as Word)
  {
  }

  lemma Row2Is(i: Octet)
    requires i >> 4 == 2
    ensures Row2(i & 15) == Bits8(i as Word)
  {
  }

  lemma Row3Is(i: Octet)
    requires i >> 4 == 3
    ensures Row3(i & 15) == Bits8(i as Word)
  {
  }

  lemma Row4Is(i: Octet)
    requires i >> 4 == 4
    ensures Row4(i & 15) == Bits8(i as Word)
  {
  }

  lemma Row5Is(i: Octet)
    requires i >> 4 == 5
    ensures Row5(i & 15) == Bits8(i as Word)
  {
  }

  lemma Row6Is(i: Octet)
    requires i >> 4 == 6
    ensures Row6(i & 15) == Bits8(i as Word)
  {
  }

  lemma Row7Is(i: Octet)
    requires i >> 4 == 7
    ensures Row7(i & 15) == Bits8(i as Word)
  {
  }

  lemma Row8Is(i: Octet)
    requires i >> 4 == 8
    ensures Row8(i & 15) == Bits8(i as Word)
  {
  }

  lemma Row9Is(i: Octet)
    requires i >> 4 == 9
    ensures Row9(i & 15) == Bits8(i as Word)
  {
  }

  lemma RowAIs(i: Octet)
    requires i >> 4 == 10
    ensures RowA(i & 15) == Bits8(i as Word)
  {
  }

  lemma RowBIs(i: Octet)
    requires i >> 4 == 11
    ensures RowB(i & 15) == Bits8(i as Word)
  {
  }

  lemma RowCIs(i: Octet)
    requires i >> 4 == 12
    ensures RowC(i & 15) == Bits8(i as Word)
  {
  }

  lemma RowDIs(i: Octet)
    requires i >> 4 == 13
    ensures RowD(i & 15) == Bits8(i as Word)
  {
  }

  lemma RowEIs(i: Octet)
    requires i >> 4 == 14
    ensures RowE(i & 15) == Bits8(i as Word)
  {
  }

  lemma RowFIs(i: Octet)
    requires i >> 4 == 15
    ensures RowF(i & 15) == Bits8(i as Word)
  {
  }

  /** The table holds what eight bits do to each byte. */
  lemma TableIs(i: Octet)
    ensures Table(i) == Bits8(i as Word)
  {
    hide Bits8, Row0, Row1, Row2, Row3, Row4, Row5, Row6, Row7, Row8, Row9, RowA, RowB, RowC, RowD, RowE, RowF;
    var high := i >> 4;
    if high == 0 {
      Row0Is(i);
    } else if high == 1 {
      Row1Is(i);
    } else if high == 2 {
      Row2Is(i);
    } else if high == 3 {
      Row3Is(i);
    } else if high == 4 {
      Row4Is(i);
    } else if high == 5 {
      Row5Is(i);
    } else if high == 6 {
      Row6Is(i);
    } else if high == 7 {
      Row7Is(i);
    } else if high == 8 {
      Row8Is(i);
    } else if high == 9 {
      Row9Is(i);
    } else if high == 10 {
      RowAIs(i);
    } else if high == 11 {
      RowBIs(i);
    } else if high == 12 {
      RowCIs(i);
    } else if high == 13 {
      RowDIs(i);
    } else if high == 14 {
      RowEIs(i);
    } else {
      RowFIs(i);
    }
  }

  // ---------------------------------------------------------------------------------------------
  // The code
  // ---------------------------------------------------------------------------------------------

  predicate Odd(c: Word) { c & 1 != 0 }
  function Shifted(c: Word): Word { c >> 1 }
  function Flipped(c: Word): Word { 0xedb88320 ^ c }

  lemma BitIs(c: Word)
    ensures Bit(c) == if Odd(c) then Flipped(Shifted(c)) else Shifted(c)
  {
  }

  lemma OddOfXor(t: Word, rest: Word)
    requires !Odd(t)
    ensures Odd(Xor(t, rest)) <==> Odd(rest)
  {
  }

  lemma ShiftedXor(t: Word, rest: Word)
    ensures Shifted(Xor(t, rest)) == Xor(Shifted(t), Shifted(rest))
  {
  }

  lemma FlippedXor(t: Word, rest: Word)
    ensures Flipped(Xor(t, rest)) == Xor(t, Flipped(rest))
  {
  }

  /** A bit shifted out does not depend on what lies above it, which moves down. */
  lemma BitOfXor(t: Word, rest: Word)
    requires !Odd(t)
    ensures Bit(Xor(t, rest)) == Xor(Shifted(t), Bit(rest))
  {
    hide *;
    BitIs(Xor(t, rest));
    BitIs(rest);
    OddOfXor(t, rest);
    ShiftedXor(t, rest);
    FlippedXor(Shifted(t), Shifted(rest));
  }

  /** The upper three bytes of x, with so many bits still to go before they reach the bottom. */
  function Upper8(x: Word): Word { (x >> 8) << 8 }
  function Upper7(x: Word): Word { (x >> 8) << 7 }
  function Upper6(x: Word): Word { (x >> 8) << 6 }
  function Upper5(x: Word): Word { (x >> 8) << 5 }
  function Upper4(x: Word): Word { (x >> 8) << 4 }
  function Upper3(x: Word): Word { (x >> 8) << 3 }
  function Upper2(x: Word): Word { (x >> 8) << 2 }
  function Upper1(x: Word): Word { (x >> 8) << 1 }

  lemma Upper8Moves(x: Word)
    ensures !Odd(Upper8(x)) && Shifted(Upper8(x)) == Upper7(x)
  {
  }

  lemma Upper7Moves(x: Word)
    ensures !Odd(Upper7(x)) && Shifted(Upper7(x)) == Upper6(x)
  {
  }

  lemma Upper6Moves(x: Word)
    ensures !Odd(Upper6(x)) && Shifted(Upper6(x)) == Upper5(x)
  {
  }

  lemma Upper5Moves(x: Word)
    ensures !Odd(Upper5(x)) && Shifted(Upper5(x)) == Upper4(x)
  {
  }

  lemma Upper4Moves(x: Word)
    ensures !Odd(Upper4(x)) && Shifted(Upper4(x)) == Upper3(x)
  {
  }

  lemma Upper3Moves(x: Word)
    ensures !Odd(Upper3(x)) && Shifted(Upper3(x)) == Upper2(x)
  {
  }

  lemma Upper2Moves(x: Word)
    ensures !Odd(Upper2(x)) && Shifted(Upper2(x)) == Upper1(x)
  {
  }

  lemma Upper1Moves(x: Word)
    ensures !Odd(Upper1(x)) && Shifted(Upper1(x)) == ShiftByte(x)
  {
  }

  function ShiftByte(crc: Word): Word { crc >> 8 }

  lemma Split(x: Word)
    ensures Xor(Upper8(x), x & 0xff) == x
  {
  }

  /** Eight bits at once: the upper bytes move down, and the bottom byte says what is added. */
  lemma EightBits(x: Word)
    ensures Bits8(x) == Xor(ShiftByte(x), Bits8(x & 0xff))
  {
    hide Bit, Odd, Shifted, Xor, ShiftByte, Upper8, Upper7, Upper6, Upper5, Upper4, Upper3, Upper2, Upper1;
    var b0 := x & 0xff;
    var b1 := Bit(b0);
    var b2 := Bit(b1);
    var b3 := Bit(b2);
    var b4 := Bit(b3);
    var b5 := Bit(b4);
    var b6 := Bit(b5);
    var b7 := Bit(b6);
    Split(x);
    Upper8Moves(x);
    BitOfXor(Upper8(x), b0);
    Upper7Moves(x);
    BitOfXor(Upper7(x), b1);
    Upper6Moves(x);
    BitOfXor(Upper6(x), b2);
    Upper5Moves(x);
    BitOfXor(Upper5(x), b3);
    Upper4Moves(x);
    BitOfXor(Upper4(x), b4);
    Upper3Moves(x);
    BitOfXor(Upper3(x), b5);
    Upper2Moves(x);
    BitOfXor(Upper2(x), b6);
    Upper1Moves(x);
    BitOfXor(Upper1(x), b7);
  }

  /** The low byte does not depend on how a char is converted. */
  lemma IndexIs(crc: Word, b: Octet, signed: bool)
    ensures LowByte(Xor(crc, Char(b, signed))) == LowByte(Xor(crc, Byte0(b)))
  {
  }

  lemma ShiftByteIs(crc: Word, b: Octet)
    ensures ShiftByte(crc) == ShiftByte(Xor(crc, Byte0(b)))
  {
  }

  lemma LowByteIs(x: Word)
    ensures LowByte(x) as Word == x & 0xff
  {
  }

  /** One step by table is eight steps by bit. */
  lemma TableStep(crc: Word, b: Octet)
    ensures Xor(ShiftByte(crc), Table(LowByte(Xor(crc, Byte0(b))))) == Bits8(Xor(crc, Byte0(b)))
  {
    hide *;
    var x := Xor(crc, Byte0(b));
    TableIs(LowByte(x));
    LowByteIs(x);
    EightBits(x);
    ShiftByteIs(crc, b);
  }

  /** Bits 16 to 30. */
  function Middle(crc: Word): Word { (crc >> 16) & 0x7fff }

  /** hashkit_crc32 */
  method HashkitCrc32(key: Bytes, signed: bool) returns (result: Word)
    ensures result == Middle(Crc(key))
  {
    hide Xor, ShiftByte, Table, LowByte, Char, Bits8, Byte0, Middle;
    var crc: Word := 0xffffffff;
    for x := 0 to |key|
      invariant crc == Register(key, x)
    {
      IndexIs(crc, key[x], signed);
      TableStep(crc, key[x]);
      crc := Xor(ShiftByte(crc), Table(LowByte(Xor(crc, Char(key[x], signed)))));
    }
    result := Middle(!crc);
  }
}
