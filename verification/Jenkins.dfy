/**
  Bob Jenkins' hash (2006). The code has three ways of reading the key, chosen by the alignment of its
  address; the specification has one. Little-endian machine.
 */
module Jenkins {
  import opened Words

  /** The internal state. */
  datatype Lanes = Lanes(a: Word, b: Word, c: Word)

  // ---------------------------------------------------------------------------------------------
  // The hash
  // ---------------------------------------------------------------------------------------------

  /** One third of half a mixing, with the registers renamed for the next. */
  function Turn(s: Lanes, n: nat): Lanes
    requires 0 < n < 32
  {
    Lanes(s.b, Plus(s.c, s.b), Xor(Minus(s.a, s.c), RotateLeft(s.c, n)))
  }

  function Mix(s: Lanes): Lanes {
    Turn(Turn(Turn(Turn(Turn(Turn(s, 4), 6), 8), 16), 19), 4)
  }

  /** One step of the final mixing, with the registers renamed for the next. */
  function FinalTurn(s: Lanes, n: nat): Lanes
    requires 0 < n < 32
  {
    Lanes(s.b, s.c, Minus(Xor(s.a, s.c), RotateLeft(s.c, n)))
  }

  function Final(s: Lanes): Word {
    FinalTurn(FinalTurn(FinalTurn(FinalTurn(FinalTurn(FinalTurn(FinalTurn(Lanes(s.c, s.a, s.b), 14), 11), 25), 16), 4), 14), 24).c
  }

  function Lane(key: Bytes, i: nat): Word {
    LittleEndian(Get(key, i), Get(key, i + 1), Get(key, i + 2), Get(key, i + 3))
  }

  /** Twelve bytes of the key go into the state. */
  function Absorb(s: Lanes, key: Bytes, i: nat): Lanes {
    Lanes(Plus(s.a, Lane(key, i)), Plus(s.b, Lane(key, i + 4)), Plus(s.c, Lane(key, i + 8)))
  }

  /** The rest of the key from place i on. */
  function Run(s: Lanes, key: Bytes, i: nat): Word
    requires i <= |key|
    decreases |key| - i
  {
    if |key| - i > 12 then Run(Mix(Absorb(s, key, i)), key, i + 12)
    else if |key| == i then s.c
    else Final(Absorb(s, key, i))
  }

  function Initial(length: nat): Word { Plus(Plus(0xdeadbeef, LengthWord(length)), 13) }

  function Hash(key: Bytes): Word {
    var x := Initial(|key|);
    Run(Lanes(x, x, x), key, 0)
  }

  // ---------------------------------------------------------------------------------------------
  // Mixing loses nothing
  // ---------------------------------------------------------------------------------------------

  function Unturn(s: Lanes, n: nat): Lanes
    requires 0 < n < 32
  {
    var c := Minus(s.b, s.a);
    Lanes(Plus(Xor(s.c, RotateLeft(c, n)), c), s.a, c)
  }

  lemma TurnUndone(s: Lanes, n: nat)
    requires 0 < n < 32
    ensures Unturn(Turn(s, n), n) == s
  {
    hide Plus, Minus, Xor, RotateLeft;
    MinusUndone(s.c, s.b);
    MinusUndone(s.a, s.c);
    XorUndone(Minus(s.a, s.c), RotateLeft(s.c, n));
  }

  function Unmix(s: Lanes): Lanes {
    Unturn(Unturn(Unturn(Unturn(Unturn(Unturn(s, 4), 19), 16), 8), 6), 4)
  }

  /** Mixing is a permutation of the internal states. */
  lemma MixUndone(s: Lanes)
    ensures Unmix(Mix(s)) == s
  {
    hide Turn, Unturn;
    var s1 := Turn(s, 4);
    var s2 := Turn(s1, 6);
    var s3 := Turn(s2, 8);
    var s4 := Turn(s3, 16);
    var s5 := Turn(s4, 19);
    TurnUndone(s, 4);
    TurnUndone(s1, 6);
    TurnUndone(s2, 8);
    TurnUndone(s3, 16);
    TurnUndone(s4, 19);
    TurnUndone(s5, 4);
  }

  /** The state that goes into the final mixing, from place i on. */
  ghost function LastState(s: Lanes, key: Bytes, i: nat): Lanes
    requires i <= |key|
    decreases |key| - i
  {
    if |key| - i > 12 then LastState(Mix(Absorb(s, key, i)), key, i + 12) else Absorb(s, key, i)
  }

  /** The hash of a key that is not empty is the final mixing of that state. */
  lemma {:induction false} RunIsFinal(s: Lanes, key: Bytes, i: nat)
    requires i < |key|
    ensures Run(s, key, i) == Final(LastState(s, key, i))
    decreases |key| - i
  {
    hide Mix, Final, Absorb;
    if |key| - i > 12 {
      RunIsFinal(Mix(Absorb(s, key, i)), key, i + 12);
    }
  }

  lemma PlusTells(x: Word, y: Word)
    ensures Minus(Plus(x, y), x) == y && Minus(Plus(x, y), y) == x
  {
    hide Plus, Minus;
    PlusCommutes(x, y);
    MinusUndone(y, x);
    MinusUndone(x, y);
  }

  /** Different states that take in the same bytes stay different. */
  lemma AbsorbKeepsApart(s: Lanes, t: Lanes, key: Bytes, other: Bytes, i: nat)
    requires |key| == |other| && s != t && forall j :: i <= j < |key| ==> key[j] == other[j]
    ensures Absorb(s, key, i) != Absorb(t, other, i)
  {
    hide Plus, Minus, LittleEndian;
    PlusTells(s.a, Lane(key, i));
    PlusTells(t.a, Lane(key, i));
    PlusTells(s.b, Lane(key, i + 4));
    PlusTells(t.b, Lane(key, i + 4));
    PlusTells(s.c, Lane(key, i + 8));
    PlusTells(t.c, Lane(key, i + 8));
  }

  /** One state that takes in different bytes becomes different states. */
  lemma AbsorbTellsApart(s: Lanes, key: Bytes, other: Bytes, i: nat)
    requires DifferWithin(key, other, i, i + 12)
    ensures Absorb(s, key, i) != Absorb(s, other, i)
  {
    hide Plus, Minus, LittleEndian, Octet0, Octet1, Octet2, Octet3;
    var d :| 0 <= d < |key| && key[d] != other[d];
    var j := if d < i + 4 then i else if d < i + 8 then i + 4 else i + 8;
    LaneTells(key, j);
    LaneTells(other, j);
    assert Get(key, d) != Get(other, d) && (d == j || d == j + 1 || d == j + 2 || d == j + 3);
    assert Lane(key, j) != Lane(other, j);
    var x := if j == i then s.a else if j == i + 4 then s.b else s.c;
    PlusTells(x, Lane(key, j));
    PlusTells(x, Lane(other, j));
  }

  lemma LaneTells(key: Bytes, j: nat)
    ensures var l := Lane(key, j);
      Octet0(l) == Get(key, j) && Octet1(l) == Get(key, j + 1) && Octet2(l) == Get(key, j + 2) && Octet3(l) == Get(key, j + 3)
  {
    hide LittleEndian, Octet0, Octet1, Octet2, Octet3;
    OctetsTell(Get(key, j), Get(key, j + 1), Get(key, j + 2), Get(key, j + 3));
  }

  lemma {:induction false} StaysApart(s: Lanes, t: Lanes, key: Bytes, other: Bytes, i: nat)
    requires |key| == |other| && i <= |key| && s != t && forall j :: i <= j < |key| ==> key[j] == other[j]
    ensures LastState(s, key, i) != LastState(t, other, i)
    decreases |key| - i
  {
    hide Mix, Absorb, Unmix;
    var u, v := Absorb(s, key, i), Absorb(t, other, i);
    AbsorbKeepsApart(s, t, key, other, i);
    if |key| - i > 12 {
      MixUndone(u);
      MixUndone(v);
      StaysApart(Mix(u), Mix(v), key, other, i + 12);
    }
  }

  /** Keys of one length that differ in one twelve-byte block reach the final mixing in different states. */
  lemma {:induction false} BlocksNeverMerge(s: Lanes, key: Bytes, other: Bytes, i: nat, k: nat)
    requires i <= 12 * k < |key| && i % 12 == 0 && DifferWithin(key, other, 12 * k, 12 * k + 12)
    ensures LastState(s, key, i) != LastState(s, other, i)
    decreases |key| - i
  {
    hide Mix, Absorb, Unmix;
    var u, v := Absorb(s, key, i), Absorb(s, other, i);
    if i == 12 * k {
      AbsorbTellsApart(s, key, other, i);
      if |key| - i > 12 {
        MixUndone(u);
        MixUndone(v);
        StaysApart(Mix(u), Mix(v), key, other, i + 12);
      }
    } else {
      SameBlock(s, key, other, i);
      BlocksNeverMerge(Mix(u), key, other, i + 12, k);
    }
  }

  lemma SameBlock(s: Lanes, key: Bytes, other: Bytes, i: nat)
    requires |key| == |other| && forall j :: i <= j < i + 12 && j < |key| ==> key[j] == other[j]
    ensures Absorb(s, key, i) == Absorb(s, other, i)
  {
    hide Plus, LittleEndian;
  }

  // ---------------------------------------------------------------------------------------------
  // The code: mixing
  // ---------------------------------------------------------------------------------------------

  /** JENKINS_MIX */
  method JenkinsMix(a0: Word, b0: Word, c0: Word) returns (a: Word, b: Word, c: Word)
    ensures Lanes(a, b, c) == Mix(Lanes(a0, b0, c0))
  {
    hide Plus, Minus, Xor, RotateLeft;
    a, b, c := a0, b0, c0;
    a := Minus(a, c); a := Xor(a, RotateLeft(c, 4)); c := Plus(c, b);
    b := Minus(b, a); b := Xor(b, RotateLeft(a, 6)); a := Plus(a, c);
    c := Minus(c, b); c := Xor(c, RotateLeft(b, 8)); b := Plus(b, a);
    a := Minus(a, c); a := Xor(a, RotateLeft(c, 16)); c := Plus(c, b);
    b := Minus(b, a); b := Xor(b, RotateLeft(a, 19)); a := Plus(a, c);
    c := Minus(c, b); c := Xor(c, RotateLeft(b, 4)); b := Plus(b, a);
  }

  /** JENKINS_FINAL */
  method JenkinsFinal(a0: Word, b0: Word, c0: Word) returns (c: Word)
    ensures c == Final(Lanes(a0, b0, c0))
  {
    hide Plus, Minus, Xor, RotateLeft;
    var a, b := a0, b0;
    c := c0;
    c := Xor(c, b); c := Minus(c, RotateLeft(b, 14));
    a := Xor(a, c); a := Minus(a, RotateLeft(c, 11));
    b := Xor(b, a); b := Minus(b, RotateLeft(a, 25));
    c := Xor(c, b); c := Minus(c, RotateLeft(b, 16));
    a := Xor(a, c); a := Minus(a, RotateLeft(c, 4));
    b := Xor(b, a); b := Minus(b, RotateLeft(a, 14));
    c := Xor(c, b); c := Minus(c, RotateLeft(b, 24));
  }

  // ---------------------------------------------------------------------------------------------
  // The code: reading a lane
  // ---------------------------------------------------------------------------------------------

  lemma LaneInside(key: Bytes, i: nat)
    requires i + 4 <= |key|
    ensures Lane(key, i) == LittleEndian(key[i], key[i + 1], key[i + 2], key[i + 3])
  {
    hide LittleEndian;
  }

  lemma LaneOutside(key: Bytes, i: nat, x: Word)
    requires i >= |key|
    ensures Plus(x, Lane(key, i)) == x
  {
    hide LittleEndian, Plus;
    ZeroBytes();
    PlusZero(x);
  }

  /** Bytes 0 to 3 of the loop of the byte-wise path. */
  method AddBytes(x: Word, key: Bytes, i: nat) returns (r: Word)
    requires i + 4 <= |key|
    ensures r == Plus(x, Lane(key, i))
  {
    hide *;
    r := Plus(x, Byte0(key[i]));
    r := Plus(r, Byte1(key[i + 1]));
    r := Plus(r, Byte2(key[i + 2]));
    r := Plus(r, Byte3(key[i + 3]));
    AddedUp(x, key[i], key[i + 1], key[i + 2], key[i + 3]);
    LaneInside(key, i);
  }

  /** The cases of the last switch of the byte-wise path that belong to one register: they fall through. */
  method AddLastBytes(x: Word, key: Bytes, i: nat) returns (r: Word)
    ensures r == Plus(x, Lane(key, i))
  {
    hide Plus, LittleEndian, Byte0, Byte1, Byte2, Byte3;
    r := x;
    if i + 4 <= |key| {
      r := Plus(r, Byte3(key[i + 3]));
    }
    if i + 3 <= |key| {
      r := Plus(r, Byte2(key[i + 2]));
    }
    if i + 2 <= |key| {
      r := Plus(r, Byte1(key[i + 1]));
    }
    if i + 1 <= |key| {
      r := Plus(r, Byte0(key[i]));
    }
    AddedDown(x, Get(key, i), Get(key, i + 1), Get(key, i + 2), Get(key, i + 3));
    ZeroBytes();
    PlusZero(x);
  }

  /** The 16-bit words of the loop of the 16-bit path. */
  method AddHalves(x: Word, key: Bytes, i: nat) returns (r: Word)
    requires i + 4 <= |key|
    ensures r == Plus(x, Lane(key, i))
  {
    hide *;
    r := Plus(x, Plus(Half(key[i], key[i + 1]), HighHalf(key[i + 2], key[i + 3])));
    HalvesMake(key[i], key[i + 1], key[i + 2], key[i + 3]);
    LaneInside(key, i);
  }

  /** The cases of the last switch of the 16-bit path that belong to one register. */
  method AddLastHalves(x: Word, key: Bytes, i: nat) returns (r: Word)
    ensures r == Plus(x, Lane(key, i))
  {
    hide Plus, LittleEndian, Byte0, Byte1, Byte2, Byte3, Half, HighHalf;
    var rest := |key| - i;
    if rest >= 4 {
      r := AddHalves(x, key, i);
    } else if rest == 3 {
      r := Plus(x, Byte2(key[i + 2]));
      r := Plus(r, Half(key[i], key[i + 1]));
      LastThree(x, key[i], key[i + 1], key[i + 2]);
    } else if rest == 2 {
      r := Plus(x, Half(key[i], key[i + 1]));
      TwoBytes(key[i], key[i + 1]);
    } else if rest == 1 {
      r := Plus(x, Byte0(key[i]));
      OneByte(key[i]);
    } else {
      r := x;
      LaneOutside(key, i, x);
    }
  }

  lemma LastThree(x: Word, b0: Octet, b1: Octet, b2: Octet)
    ensures Plus(Plus(x, Byte2(b2)), Half(b0, b1)) == Plus(x, LittleEndian(b0, b1, b2, 0))
  {
    hide *;
    PlusAssociates(x, Byte2(b2), Half(b0, b1));
    PlusCommutes(Byte2(b2), Half(b0, b1));
    TwoBytes(b0, b1);
    ThirdByte(b0, b1, b2);
  }

  lemma OneByte(b0: Octet)
    ensures Byte0(b0) == LittleEndian(b0, 0, 0, 0)
  {
  }

  function LowThree(k: Word): Word { k & 0xffffff }
  function LowTwo(k: Word): Word { k & 0xffff }
  function LowOne(k: Word): Word { k & 0xff }

  lemma LowThreeIs(b0: Octet, b1: Octet, b2: Octet, b3: Octet)
    ensures LowThree(LittleEndian(b0, b1, b2, b3)) == LittleEndian(b0, b1, b2, 0)
  {
  }

  lemma LowTwoIs(b0: Octet, b1: Octet, b2: Octet, b3: Octet)
    ensures LowTwo(LittleEndian(b0, b1, b2, b3)) == LittleEndian(b0, b1, 0, 0)
  {
  }

  lemma LowOneIs(b0: Octet, b1: Octet, b2: Octet, b3: Octet)
    ensures LowOne(LittleEndian(b0, b1, b2, b3)) == LittleEndian(b0, 0, 0, 0)
  {
  }

  /**
    The cases of the last switch of the 32-bit path that belong to one register. The word is read whole
    and what lies behind the key is masked off.
   */
  method AddLastWord(x: Word, memory: Bytes, length: nat, i: nat) returns (r: Word)
    requires length <= |memory| && (i < length ==> i + 4 <= |memory|)
    ensures r == Plus(x, Lane(memory[..length], i))
  {
    hide Plus, LittleEndian, LowThree, LowTwo, LowOne;
    var rest := length - i;
    if rest <= 0 {
      r := x;
      LaneOutside(memory[..length], i, x);
    } else {
      var k := WordAt(memory, i);
      if rest >= 4 {
        r := Plus(x, k);
      } else if rest == 3 {
        r := Plus(x, LowThree(k));
        LowThreeIs(memory[i], memory[i + 1], memory[i + 2], memory[i + 3]);
      } else if rest == 2 {
        r := Plus(x, LowTwo(k));
        LowTwoIs(memory[i], memory[i + 1], memory[i + 2], memory[i + 3]);
      } else {
        r := Plus(x, LowOne(k));
        LowOneIs(memory[i], memory[i + 1], memory[i + 2], memory[i + 3]);
      }
    }
  }

  // ---------------------------------------------------------------------------------------------
  // The code: the three paths
  // ---------------------------------------------------------------------------------------------

  /** The byte-wise path, for any address. */
  method HashBytes(key: Bytes) returns (c: Word)
    ensures c == Hash(key)
  {
    hide Mix, Final, Lane, Plus, Initial;
    var a, b := Initial(|key|), Initial(|key|);
    c := Initial(|key|);
    var i := 0;
    while |key| - i > 12
      invariant i <= |key| && Run(Lanes(a, b, c), key, i) == Hash(key)
    {
      a := AddBytes(a, key, i);
      b := AddBytes(b, key, i + 4);
      c := AddBytes(c, key, i + 8);
      a, b, c := JenkinsMix(a, b, c);
      i := i + 12;
    }
    if |key| == i {
      return;
    }
    c := AddLastBytes(c, key, i + 8);
    b := AddLastBytes(b, key, i + 4);
    a := AddLastBytes(a, key, i);
    c := JenkinsFinal(a, b, c);
  }

  /** The path for an even address that is not a multiple of four. */
  method HashHalves(key: Bytes) returns (c: Word)
    ensures c == Hash(key)
  {
    hide Mix, Final, Lane, Plus, Initial;
    var a, b := Initial(|key|), Initial(|key|);
    c := Initial(|key|);
    var i := 0;
    while |key| - i > 12
      invariant i <= |key| && Run(Lanes(a, b, c), key, i) == Hash(key)
    {
      a := AddHalves(a, key, i);
      b := AddHalves(b, key, i + 4);
      c := AddHalves(c, key, i + 8);
      a, b, c := JenkinsMix(a, b, c);
      i := i + 12;
    }
    if |key| == i {
      return;
    }
    c := AddLastHalves(c, key, i + 8);
    b := AddLastHalves(b, key, i + 4);
    a := AddLastHalves(a, key, i);
    c := JenkinsFinal(a, b, c);
  }

  /**
    The path for an address that is a multiple of four. `memory` is what the words are read from: the key
    and, up to the end of its last word, whatever lies behind it.
   */
  method HashWords(memory: Bytes, length: nat) returns (c: Word)
    requires length <= |memory| && |memory| % 4 == 0
    ensures c == Hash(memory[..length])
  {
    hide Mix, Final, Lane, Plus, Initial, LittleEndian;
    ghost var key := memory[..length];
    var a, b := Initial(length), Initial(length);
    c := Initial(length);
    var i := 0;
    while length - i > 12
      invariant i <= length && i % 4 == 0 && Run(Lanes(a, b, c), key, i) == Hash(key)
    {
      LaneOfWord(memory, length, i);
      LaneOfWord(memory, length, i + 4);
      LaneOfWord(memory, length, i + 8);
      a := Plus(a, WordAt(memory, i));
      b := Plus(b, WordAt(memory, i + 4));
      c := Plus(c, WordAt(memory, i + 8));
      a, b, c := JenkinsMix(a, b, c);
      i := i + 12;
    }
    if length == i {
      return;
    }
    c := AddLastWord(c, memory, length, i + 8);
    b := AddLastWord(b, memory, length, i + 4);
    a := AddLastWord(a, memory, length, i);
    c := JenkinsFinal(a, b, c);
  }

  lemma LaneOfWord(memory: Bytes, length: nat, i: nat)
    requires i + 4 <= length <= |memory|
    ensures WordAt(memory, i) == Lane(memory[..length], i)
  {
    hide LittleEndian;
  }

  /** hashkit_jenkins at any address: the result is a function of the bytes of the key alone. */
  method HashkitJenkins(address: nat, memory: Bytes, length: nat) returns (c: Word)
    requires length <= |memory| && (address % 4 == 0 ==> |memory| % 4 == 0)
    ensures c == Hash(memory[..length])
  {
    if address % 4 == 0 {
      c := HashWords(memory, length);
    } else if address % 2 == 0 {
      c := HashHalves(memory[..length]);
    } else {
      c := HashBytes(memory[..length]);
    }
  }
}
