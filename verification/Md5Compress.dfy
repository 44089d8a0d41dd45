/** The compression function of MD5: section 3.4 of RFC 1321, and the unrolled code that computes it. */
module Md5Compress {
  import opened Words

  /** The four registers. */
  datatype State = State(a: Word, b: Word, c: Word, d: Word)

  // ---------------------------------------------------------------------------------------------
  // Section 3.4 of RFC 1321
  // ---------------------------------------------------------------------------------------------

  function F(x: Word, y: Word, z: Word): Word { Or(And(x, y), And(Not(x), z)) }
  function G(x: Word, y: Word, z: Word): Word { Or(And(x, z), And(y, Not(z))) }
  function H(x: Word, y: Word, z: Word): Word { Xor(Xor(x, y), z) }
  function I(x: Word, y: Word, z: Word): Word { Xor(y, Or(x, Not(z))) }

  /** Bit by bit, F takes y or z, as x says. */
  lemma SelectsByFirst(x: Word, y: Word, z: Word, k: bv5)
    ensures Bit(F(x, y, z), k) == if Bit(x, k) then Bit(y, k) else Bit(z, k)
  {
    hide Bit, And, Or, Not;
    BitOfOr(And(x, y), And(Not(x), z), k);
    BitOfAnd(x, y, k);
    BitOfAnd(Not(x), z, k);
    BitOfNot(x, k);
  }

  /** G takes x or y, as z says. */
  lemma SelectsByLast(x: Word, y: Word, z: Word, k: bv5)
    ensures Bit(G(x, y, z), k) == if Bit(z, k) then Bit(x, k) else Bit(y, k)
  {
    hide Bit, And, Or, Not;
    BitOfOr(And(x, z), And(y, Not(z)), k);
    BitOfAnd(x, z, k);
    BitOfAnd(y, Not(z), k);
    BitOfNot(z, k);
  }

  /** H is one where an odd number of the three are. */
  lemma IsParity(x: Word, y: Word, z: Word, k: bv5)
    ensures var ones := (if Bit(x, k) then 1 else 0) + (if Bit(y, k) then 1 else 0) + (if Bit(z, k) then 1 else 0);
      Bit(H(x, y, z), k) <==> ones % 2 == 1
  {
    hide Bit, Xor;
    BitOfXor(Xor(x, y), z, k);
    BitOfXor(x, y, k);
  }

  /** I inverts y exactly where x is one or z is zero. */
  lemma InvertsByBoth(x: Word, y: Word, z: Word, k: bv5)
    ensures Bit(I(x, y, z), k) == if Bit(x, k) || !Bit(z, k) then !Bit(y, k) else Bit(y, k)
  {
    hide Bit, Or, Not, Xor;
    BitOfXor(y, Or(x, Not(z)), k);
    BitOfOr(x, Not(z), k);
    BitOfNot(z, k);
  }

  /** The auxiliary function of the round that step i is in. */
  function Aux(i: nat, x: Word, y: Word, z: Word): Word {
    if i < 16 then F(x, y, z) else if i < 32 then G(x, y, z) else if i < 48 then H(x, y, z) else I(x, y, z)
  }

  /** Which word of the block step i uses. */
  function Index(i: nat): (k: nat)
    ensures k < 16
  {
    if i < 16 then i else if i < 32 then (5 * i + 1) % 16 else if i < 48 then (3 * i + 5) % 16 else (7 * i) % 16
  }

  function Pick(i: nat, s0: nat, s1: nat, s2: nat, s3: nat): nat {
    if i == 0 then s0 else if i == 1 then s1 else if i == 2 then s2 else s3
  }

  /** How far step i rotates. */
  function Shift(i: nat): (s: nat)
    ensures 0 < s < 32
  {
    if i < 16 then Pick(i % 4, 7, 12, 17, 22)
    else if i < 32 then Pick(i % 4, 5, 9, 14, 20)
    else if i < 48 then Pick(i % 4, 4, 11, 16, 23)
    else Pick(i % 4, 6, 10, 15, 21)
  }

  /** The table of the integer parts of 2^32 times abs(sin(i + 1)), round by round. */
  function T(i: nat): Word {
    if i < 16 then T1(i) else if i < 32 then T2(i - 16) else if i < 48 then T3(i - 32) else T4(i - 48)
  }

  function T1(i: int): Word {
    match i
    case 0 => 0xd76aa478
    case 1 => 0xe8c7b756
    case 2 => 0x242070db
    case 3 => 0xc1bdceee
    case 4 => 0xf57c0faf
    case 5 => 0x4787c62a
    case 6 => 0xa8304613
    case 7 => 0xfd469501
    case 8 => 0x698098d8
    case 9 => 0x8b44f7af
    case 10 => 0xffff5bb1
    case 11 => 0x895cd7be
    case 12 => 0x6b901122
    case 13 => 0xfd987193
    case 14 => 0xa679438e
    case _ => 0x49b40821
  }

  function T2(i: int): Word {
    match i
    case 0 => 0xf61e2562
    case 1 => 0xc040b340
    case 2 => 0x265e5a51
    case 3 => 0xe9b6c7aa
    case 4 => 0xd62f105d
    case 5 => 0x02441453
    case 6 => 0xd8a1e681
    case 7 => 0xe7d3fbc8
    case 8 => 0x21e1cde6
    case 9 => 0xc33707d6
    case 10 => 0xf4d50d87
    case 11 => 0x455a14ed
    case 12 => 0xa9e3e905
    case 13 => 0xfcefa3f8
    case 14 => 0x676f02d9
    case _ => 0x8d2a4c8a
  }

  function T3(i: int): Word {
    match i
    case 0 => 0xfffa3942
    case 1 => 0x8771f681
    case 2 => 0x6d9d6122
    case 3 => 0xfde5380c
    case 4 => 0xa4beea44
    case 5 => 0x4bdecfa9
    case 6 => 0xf6bb4b60
    case 7 => 0xbebfbc70
    case 8 => 0x289b7ec6
    case 9 => 0xeaa127fa
    case 10 => 0xd4ef3085
    case 11 => 0x04881d05
    case 12 => 0xd9d4d039
    case 13 => 0xe6db99e5
    case 14 => 0x1fa27cf8
    case _ => 0xc4ac5665
  }

  function T4(i: int): Word {
    match i
    case 0 => 0xf4292244
    case 1 => 0x432aff97
    case 2 => 0xab9423a7
    case 3 => 0xfc93a039
    case 4 => 0x655b59c3
    case 5 => 0x8f0ccc92
    case 6 => 0xffeff47d
    case 7 => 0x85845dd1
    case 8 => 0x6fa87e4f
    case 9 => 0xfe2ce6e0
    case 10 => 0xa3014314
    case 11 => 0x4e0811a1
    case 12 => 0xf7537e82
    case 13 => 0xbd3af235
    case 14 => 0x2ad7d2bb
    case _ => 0xeb86d391
  }

  /** The operation of a step: a becomes b + ((a + f + x + t) <<< n). */
  function Mix(a: Word, b: Word, f: Word, x: Word, n: nat, t: Word): Word
    requires 0 < n < 32
  {
    Plus(b, RotateLeft(Plus(Plus(Plus(a, f), x), t), n))
  }

  /** Step i, with the registers renamed so that every step changes the first. */
  function Step(i: nat, s: State, x: seq<Word>): State
    requires |x| == 16
  {
    State(s.d, Mix(s.a, s.b, Aux(i, s.b, s.c, s.d), x[Index(i)], Shift(i), T(i)), s.b, s.c)
  }

  function Steps(n: nat, s: State, x: seq<Word>): State
    requires |x| == 16
  {
    if n == 0 then s else Step(n - 1, Steps(n - 1, s, x), x)
  }

  function Add(s: State, t: State): State { State(Plus(s.a, t.a), Plus(s.b, t.b), Plus(s.c, t.c), Plus(s.d, t.d)) }

  function WordsOf(bytes: seq<Octet>): (x: seq<Word>)
    requires |bytes| % 4 == 0
    ensures |x| == |bytes| / 4
  {
    seq(|bytes| / 4, i requires 0 <= i < |bytes| / 4 => WordAt(bytes, 4 * i))
  }

  function Compress(s: State, block: seq<Octet>): State
    requires |block| == 64
  {
    Add(s, Steps(64, s, WordsOf(block)))
  }

  // ---------------------------------------------------------------------------------------------
  // The code
  // ---------------------------------------------------------------------------------------------

  /** Decode: `output` gets the words of the input. */
  method Decode(output: array<Word>, input: seq<Octet>)
    requires |input| % 4 == 0 && 4 * output.Length == |input|
    modifies output
    ensures output[..] == WordsOf(input)
  {
    var i, j := 0, 0;
    while j < |input|
      invariant j == 4 * i && i <= output.Length
      invariant forall k :: 0 <= k < i ==> output[k] == WordAt(input, 4 * k)
    {
      output[i] := WordAt(input, j);
      i, j := i + 1, j + 4;
    }
  }

  /** The code adds up the last three operands first. */
  lemma Regroup(a: Word, f: Word, x: Word, t: Word)
    ensures Plus(a, Plus(Plus(f, x), t)) == Plus(Plus(Plus(a, f), x), t)
  {
    hide Plus;
    PlusAssociates(a, f, x);
    PlusAssociates(a, Plus(f, x), t);
  }

  method FF(a: Word, b: Word, c: Word, d: Word, x: Word, s: nat, ac: Word) returns (r: Word)
    requires 0 < s < 32
    ensures r == Mix(a, b, F(b, c, d), x, s, ac)
  {
    hide F, RotateLeft, Plus;
    Regroup(a, F(b, c, d), x, ac);
    r := Plus(a, Plus(Plus(F(b, c, d), x), ac));
    r := RotateLeft(r, s);
    PlusCommutes(r, b);
    r := Plus(r, b);
  }

  method GG(a: Word, b: Word, c: Word, d: Word, x: Word, s: nat, ac: Word) returns (r: Word)
    requires 0 < s < 32
    ensures r == Mix(a, b, G(b, c, d), x, s, ac)
  {
    hide G, RotateLeft, Plus;
    Regroup(a, G(b, c, d), x, ac);
    r := Plus(a, Plus(Plus(G(b, c, d), x), ac));
    r := RotateLeft(r, s);
    PlusCommutes(r, b);
    r := Plus(r, b);
  }

  method HH(a: Word, b: Word, c: Word, d: Word, x: Word, s: nat, ac: Word) returns (r: Word)
    requires 0 < s < 32
    ensures r == Mix(a, b, H(b, c, d), x, s, ac)
  {
    hide H, RotateLeft, Plus;
    Regroup(a, H(b, c, d), x, ac);
    r := Plus(a, Plus(Plus(H(b, c, d), x), ac));
    r := RotateLeft(r, s);
    PlusCommutes(r, b);
    r := Plus(r, b);
  }

  method II(a: Word, b: Word, c: Word, d: Word, x: Word, s: nat, ac: Word) returns (r: Word)
    requires 0 < s < 32
    ensures r == Mix(a, b, I(b, c, d), x, s, ac)
  {
    hide I, RotateLeft, Plus;
    Regroup(a, I(b, c, d), x, ac);
    r := Plus(a, Plus(Plus(I(b, c, d), x), ac));
    r := RotateLeft(r, s);
    PlusCommutes(r, b);
    r := Plus(r, b);
  }

  lemma FourSteps(n: nat, s: State, x: seq<Word>)
    requires |x| == 16
    ensures Steps(n + 4, s, x) == Step(n + 3, Step(n + 2, Step(n + 1, Step(n, Steps(n, s, x), x), x), x), x)
  {
    hide Step;
    assert Steps(n + 1, s, x) == Step(n, Steps(n, s, x), x);
    assert Steps(n + 2, s, x) == Step(n + 1, Steps(n + 1, s, x), x);
    assert Steps(n + 3, s, x) == Step(n + 2, Steps(n + 2, s, x), x);
  }

  /** Four steps of round 1 bring every register back to its own name. */
  lemma QuadOfRound1(n: nat, s: State, x: seq<Word>)
    requires 0 <= n < n + 4 <= 16 && n % 4 == 0 && |x| == 16
    ensures var t := Steps(n, s, x);
      var a := Mix(t.a, t.b, F(t.b, t.c, t.d), x[Index(n)], 7, T(n));
      var d := Mix(t.d, a, F(a, t.b, t.c), x[Index(n + 1)], 12, T(n + 1));
      var c := Mix(t.c, d, F(d, a, t.b), x[Index(n + 2)], 17, T(n + 2));
      var b := Mix(t.b, c, F(c, d, a), x[Index(n + 3)], 22, T(n + 3));
      Steps(n + 4, s, x) == State(a, b, c, d)
  {
    hide Steps, Mix, Index, T, F;
    FourSteps(n, s, x);
  }

  lemma WordsOfRound1()
    ensures Index(0) == 0 && Index(1) == 1 && Index(2) == 2 && Index(3) == 3
    ensures Index(4) == 4 && Index(5) == 5 && Index(6) == 6 && Index(7) == 7
    ensures Index(8) == 8 && Index(9) == 9 && Index(10) == 10 && Index(11) == 11
    ensures Index(12) == 12 && Index(13) == 13 && Index(14) == 14 && Index(15) == 15
  {
  }

  method Round1(x: seq<Word>, a0: Word, b0: Word, c0: Word, d0: Word, ghost s: State) returns (a: Word, b: Word, c: Word, d: Word)
    requires |x| == 16 && State(a0, b0, c0, d0) == Steps(0, s, x)
    ensures State(a, b, c, d) == Steps(16, s, x)
  {
    hide F, Mix, Steps, Step, Index;
    WordsOfRound1();
    a, b, c, d := a0, b0, c0, d0;
    a := FF(a, b, c, d, x[0], 7, 0xd76aa478);
    d := FF(d, a, b, c, x[1], 12, 0xe8c7b756);
    c := FF(c, d, a, b, x[2], 17, 0x242070db);
    b := FF(b, c, d, a, x[3], 22, 0xc1bdceee);
    QuadOfRound1(0, s, x);
    assert State(a, b, c, d) == Steps(4, s, x);
    a := FF(a, b, c, d, x[4], 7, 0xf57c0faf);
    d := FF(d, a, b, c, x[5], 12, 0x4787c62a);
    c := FF(c, d, a, b, x[6], 17, 0xa8304613);
    b := FF(b, c, d, a, x[7], 22, 0xfd469501);
    QuadOfRound1(4, s, x);
    assert State(a, b, c, d) == Steps(8, s, x);
    a := FF(a, b, c, d, x[8], 7, 0x698098d8);
    d := FF(d, a, b, c, x[9], 12, 0x8b44f7af);
    c := FF(c, d, a, b, x[10], 17, 0xffff5bb1);
    b := FF(b, c, d, a, x[11], 22, 0x895cd7be);
    QuadOfRound1(8, s, x);
    assert State(a, b, c, d) == Steps(12, s, x);
    a := FF(a, b, c, d, x[12], 7, 0x6b901122);
    d := FF(d, a, b, c, x[13], 12, 0xfd987193);
    c := FF(c, d, a, b, x[14], 17, 0xa679438e);
    b := FF(b, c, d, a, x[15], 22, 0x49b40821);
    QuadOfRound1(12, s, x);
    assert State(a, b, c, d) == Steps(16, s, x);
  }

  /** Four steps of round 2 bring every register back to its own name. */
  lemma QuadOfRound2(n: nat, s: State, x: seq<Word>)
    requires 16 <= n < n + 4 <= 32 && n % 4 == 0 && |x| == 16
    ensures var t := Steps(n, s, x);
      var a := Mix(t.a, t.b, G(t.b, t.c, t.d), x[Index(n)], 5, T(n));
      var d := Mix(t.d, a, G(a, t.b, t.c), x[Index(n + 1)], 9, T(n + 1));
      var c := Mix(t.c, d, G(d, a, t.b), x[Index(n + 2)], 14, T(n + 2));
      var b := Mix(t.b, c, G(c, d, a), x[Index(n + 3)], 20, T(n + 3));
      Steps(n + 4, s, x) == State(a, b, c, d)
  {
    hide Steps, Mix, Index, T, G;
    FourSteps(n, s, x);
  }

  lemma WordsOfRound2()
    ensures Index(16) == 1 && Index(17) == 6 && Index(18) == 11 && Index(19) == 0
    ensures Index(20) == 5 && Index(21) == 10 && Index(22) == 15 && Index(23) == 4
    ensures Index(24) == 9 && Index(25) == 14 && Index(26) == 3 && Index(27) == 8
    ensures Index(28) == 13 && Index(29) == 2 && Index(30) == 7 && Index(31) == 12
  {
  }

  method Round2(x: seq<Word>, a0: Word, b0: Word, c0: Word, d0: Word, ghost s: State) returns (a: Word, b: Word, c: Word, d: Word)
    requires |x| == 16 && State(a0, b0, c0, d0) == Steps(16, s, x)
    ensures State(a, b, c, d) == Steps(32, s, x)
  {
    hide G, Mix, Steps, Step, Index;
    WordsOfRound2();
    a, b, c, d := a0, b0, c0, d0;
    a := GG(a, b, c, d, x[1], 5, 0xf61e2562);
    d := GG(d, a, b, c, x[6], 9, 0xc040b340);
    c := GG(c, d, a, b, x[11], 14, 0x265e5a51);
    b := GG(b, c, d, a, x[0], 20, 0xe9b6c7aa);
    QuadOfRound2(16, s, x);
    assert State(a, b, c, d) == Steps(20, s, x);
    a := GG(a, b, c, d, x[5], 5, 0xd62f105d);
    d := GG(d, a, b, c, x[10], 9, 0x02441453);
    c := GG(c, d, a, b, x[15], 14, 0xd8a1e681);
    b := GG(b, c, d, a, x[4], 20, 0xe7d3fbc8);
    QuadOfRound2(20, s, x);
    assert State(a, b, c, d) == Steps(24, s, x);
    a := GG(a, b, c, d, x[9], 5, 0x21e1cde6);
    d := GG(d, a, b, c, x[14], 9, 0xc33707d6);
    c := GG(c, d, a, b, x[3], 14, 0xf4d50d87);
    b := GG(b, c, d, a, x[8], 20, 0x455a14ed);
    QuadOfRound2(24, s, x);
    assert State(a, b, c, d) == Steps(28, s, x);
    a := GG(a, b, c, d, x[13], 5, 0xa9e3e905);
    d := GG(d, a, b, c, x[2], 9, 0xfcefa3f8);
    c := GG(c, d, a, b, x[7], 14, 0x676f02d9);
    b := GG(b, c, d, a, x[12], 20, 0x8d2a4c8a);
    QuadOfRound2(28, s, x);
    assert State(a, b, c, d) == Steps(32, s, x);
  }

  /** Four steps of round 3 bring every register back to its own name. */
  lemma QuadOfRound3(n: nat, s: State, x: seq<Word>)
    requires 32 <= n < n + 4 <= 48 && n % 4 == 0 && |x| == 16
    ensures var t := Steps(n, s, x);
      var a := Mix(t.a, t.b, H(t.b, t.c, t.d), x[Index(n)], 4, T(n));
      var d := Mix(t.d, a, H(a, t.b, t.c), x[Index(n + 1)], 11, T(n + 1));
      var c := Mix(t.c, d, H(d, a, t.b), x[Index(n + 2)], 16, T(n + 2));
      var b := Mix(t.b, c, H(c, d, a), x[Index(n + 3)], 23, T(n + 3));
      Steps(n + 4, s, x) == State(a, b, c, d)
  {
    hide Steps, Mix, Index, T, H;
    FourSteps(n, s, x);
  }

  lemma WordsOfRound3()
    ensures Index(32) == 5 && Index(33) == 8 && Index(34) == 11 && Index(35) == 14
    ensures Index(36) == 1 && Index(37) == 4 && Index(38) == 7 && Index(39) == 10
    ensures Index(40) == 13 && Index(41) == 0 && Index(42) == 3 && Index(43) == 6
    ensures Index(44) == 9 && Index(45) == 12 && Index(46) == 15 && Index(47) == 2
  {
  }

  method Round3(x: seq<Word>, a0: Word, b0: Word, c0: Word, d0: Word, ghost s: State) returns (a: Word, b: Word, c: Word, d: Word)
    requires |x| == 16 && State(a0, b0, c0, d0) == Steps(32, s, x)
    ensures State(a, b, c, d) == Steps(48, s, x)
  {
    hide H, Mix, Steps, Step, Index;
    WordsOfRound3();
    a, b, c, d := a0, b0, c0, d0;
    a := HH(a, b, c, d, x[5], 4, 0xfffa3942);
    d := HH(d, a, b, c, x[8], 11, 0x8771f681);
    c := HH(c, d, a, b, x[11], 16, 0x6d9d6122);
    b := HH(b, c, d, a, x[14], 23, 0xfde5380c);
    QuadOfRound3(32, s, x);
    assert State(a, b, c, d) == Steps(36, s, x);
    a := HH(a, b, c, d, x[1], 4, 0xa4beea44);
    d := HH(d, a, b, c, x[4], 11, 0x4bdecfa9);
    c := HH(c, d, a, b, x[7], 16, 0xf6bb4b60);
    b := HH(b, c, d, a, x[10], 23, 0xbebfbc70);
    QuadOfRound3(36, s, x);
    assert State(a, b, c, d) == Steps(40, s, x);
    a := HH(a, b, c, d, x[13], 4, 0x289b7ec6);
    d := HH(d, a, b, c, x[0], 11, 0xeaa127fa);
    c := HH(c, d, a, b, x[3], 16, 0xd4ef3085);
    b := HH(b, c, d, a, x[6], 23, 0x04881d05);
    QuadOfRound3(40, s, x);
    assert State(a, b, c, d) == Steps(44, s, x);
    a := HH(a, b, c, d, x[9], 4, 0xd9d4d039);
    d := HH(d, a, b, c, x[12], 11, 0xe6db99e5);
    c := HH(c, d, a, b, x[15], 16, 0x1fa27cf8);
    b := HH(b, c, d, a, x[2], 23, 0xc4ac5665);
    QuadOfRound3(44, s, x);
    assert State(a, b, c, d) == Steps(48, s, x);
  }

  /** Four steps of round 4 bring every register back to its own name. */
  lemma QuadOfRound4(n: nat, s: State, x: seq<Word>)
    requires 48 <= n < n + 4 <= 64 && n % 4 == 0 && |x| == 16
    ensures var t := Steps(n, s, x);
      var a := Mix(t.a, t.b, I(t.b, t.c, t.d), x[Index(n)], 6, T(n));
      var d := Mix(t.d, a, I(a, t.b, t.c), x[Index(n + 1)], 10, T(n + 1));
      var c := Mix(t.c, d, I(d, a, t.b), x[Index(n + 2)], 15, T(n + 2));
      var b := Mix(t.b, c, I(c, d, a), x[Index(n + 3)], 21, T(n + 3));
      Steps(n + 4, s, x) == State(a, b, c, d)
  {
    hide Steps, Mix, Index, T, I;
    FourSteps(n, s, x);
  }

  lemma WordsOfRound4()
    ensures Index(48) == 0 && Index(49) == 7 && Index(50) == 14 && Index(51) == 5
    ensures Index(52) == 12 && Index(53) == 3 && Index(54) == 10 && Index(55) == 1
    ensures Index(56) == 8 && Index(57) == 15 && Index(58) == 6 && Index(59) == 13
    ensures Index(60) == 4 && Index(61) == 11 && Index(62) == 2 && Index(63) == 9
  {
  }

  method Round4(x: seq<Word>, a0: Word, b0: Word, c0: Word, d0: Word, ghost s: State) returns (a: Word, b: Word, c: Word, d: Word)
    requires |x| == 16 && State(a0, b0, c0, d0) == Steps(48, s, x)
    ensures State(a, b, c, d) == Steps(64, s, x)
  {
    hide I, Mix, Steps, Step, Index;
    WordsOfRound4();
    a, b, c, d := a0, b0, c0, d0;
    a := II(a, b, c, d, x[0], 6, 0xf4292244);
    d := II(d, a, b, c, x[7], 10, 0x432aff97);
    c := II(c, d, a, b, x[14], 15, 0xab9423a7);
    b := II(b, c, d, a, x[5], 21, 0xfc93a039);
    QuadOfRound4(48, s, x);
    assert State(a, b, c, d) == Steps(52, s, x);
    a := II(a, b, c, d, x[12], 6, 0x655b59c3);
    d := II(d, a, b, c, x[3], 10, 0x8f0ccc92);
    c := II(c, d, a, b, x[10], 15, 0xffeff47d);
    b := II(b, c, d, a, x[1], 21, 0x85845dd1);
    QuadOfRound4(52, s, x);
    assert State(a, b, c, d) == Steps(56, s, x);
    a := II(a, b, c, d, x[8], 6, 0x6fa87e4f);
    d := II(d, a, b, c, x[15], 10, 0xfe2ce6e0);
    c := II(c, d, a, b, x[6], 15, 0xa3014314);
    b := II(b, c, d, a, x[13], 21, 0x4e0811a1);
    QuadOfRound4(56, s, x);
    assert State(a, b, c, d) == Steps(60, s, x);
    a := II(a, b, c, d, x[4], 6, 0xf7537e82);
    d := II(d, a, b, c, x[11], 10, 0xbd3af235);
    c := II(c, d, a, b, x[2], 15, 0x2ad7d2bb);
    b := II(b, c, d, a, x[9], 21, 0xeb86d391);
    QuadOfRound4(60, s, x);
    assert State(a, b, c, d) == Steps(64, s, x);
  }

  /** MD5Transform */
  method Transform(s: State, block: seq<Octet>) returns (r: State)
    requires |block| == 64
    ensures r == Compress(s, block)
  {
    hide Step, WordsOf, Plus;
    var output := new Word[16](i => 0);
    Decode(output, block);
    var x := output[..];
    var a, b, c, d := Round1(x, s.a, s.b, s.c, s.d, s);
    a, b, c, d := Round2(x, a, b, c, d, s);
    a, b, c, d := Round3(x, a, b, c, d, s);
    a, b, c, d := Round4(x, a, b, c, d, s);
    r := State(Plus(s.a, a), Plus(s.b, b), Plus(s.c, c), Plus(s.d, d));
  }
}
