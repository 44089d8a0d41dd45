/**
  The steps of the small hashes, one 32-bit word of state at a time. Every step can be undone, and the
  value it took in can be recovered; so a change of one value changes every later state.
 */
module HashSteps {
  import opened Words

  // ---------------------------------------------------------------------------------------------
  // Permutations of the 32-bit words
  // ---------------------------------------------------------------------------------------------

  /** Multiplication by the 32-bit FNV prime, and by its inverse modulo 2^32. */
  function TimesFnv32(h: Word): Word { h * 0x01000193 }
  function UnTimesFnv32(h: Word): Word { h * 0x359c449b }

  lemma TimesFnv32Inverse(h: Word)
    ensures UnTimesFnv32(h * 0x01000193) == h
  {
  }

  lemma TimesFnv32Is(h: Word)
    ensures TimesFnv32(h) == h * 0x01000193
  {
  }

  lemma TimesFnv32Undone(h: Word)
    ensures UnTimesFnv32(TimesFnv32(h)) == h
  {
    hide *;
    TimesFnv32Is(h);
    TimesFnv32Inverse(h);
  }

  /** Multiplication by the low word of the 64-bit FNV prime, and by its inverse modulo 2^32. */
  function TimesFnv64(h: Word): Word { h * 0x000001b3 }
  function UnTimesFnv64(h: Word): Word { h * 0xaff6957b }

  lemma TimesFnv64Inverse(h: Word)
    ensures UnTimesFnv64(h * 0x000001b3) == h
  {
  }

  lemma TimesFnv64Is(h: Word)
    ensures TimesFnv64(h) == h * 0x000001b3
  {
  }

  lemma TimesFnv64Undone(h: Word)
    ensures UnTimesFnv64(TimesFnv64(h)) == h
  {
    hide *;
    TimesFnv64Is(h);
    TimesFnv64Inverse(h);
  }

  /** Multiplication by the multiplier of Murmur, and by its inverse modulo 2^32. */
  function TimesMurmur(h: Word): Word { h * 0x5bd1e995 }
  function UnTimesMurmur(h: Word): Word { h * 0xe59b19bd }

  lemma TimesMurmurInverse(h: Word)
    ensures UnTimesMurmur(h * 0x5bd1e995) == h
  {
  }

  lemma TimesMurmurIs(h: Word)
    ensures TimesMurmur(h) == h * 0x5bd1e995
  {
  }

  lemma TimesMurmurUndone(h: Word)
    ensures UnTimesMurmur(TimesMurmur(h)) == h
  {
    hide *;
    TimesMurmurIs(h);
    TimesMurmurInverse(h);
  }

  /** Adding a word shifted by 10, which is multiplying by 1025. */
  function Spread10(h: Word): Word { h + (h << 10) }
  function Unspread10(h: Word): Word { h * 0xc00ffc01 }

  lemma Spread10Is(h: Word)
    ensures Spread10(h) == h * 0x00000401
  {
  }

  lemma Spread10Inverse(h: Word)
    ensures Unspread10(h * 0x00000401) == h
  {
  }

  lemma Spread10Undone(h: Word)
    ensures Unspread10(Spread10(h)) == h
  {
    hide *;
    Spread10Is(h);
    Spread10Inverse(h);
  }

  /** Adding a word shifted by 3, which is multiplying by 9. */
  function Spread3(h: Word): Word { h + (h << 3) }
  function Unspread3(h: Word): Word { h * 0x38e38e39 }

  lemma Spread3Is(h: Word)
    ensures Spread3(h) == h * 0x00000009
  {
  }

  lemma Spread3Inverse(h: Word)
    ensures Unspread3(h * 0x00000009) == h
  {
  }

  lemma Spread3Undone(h: Word)
    ensures Unspread3(Spread3(h)) == h
  {
    hide *;
    Spread3Is(h);
    Spread3Inverse(h);
  }

  /** Adding a word shifted by 15, which is multiplying by 32769. */
  function Spread15(h: Word): Word { h + (h << 15) }
  function Unspread15(h: Word): Word { h * 0x3fff8001 }

  lemma Spread15Is(h: Word)
    ensures Spread15(h) == h * 0x00008001
  {
  }

  lemma Spread15Inverse(h: Word)
    ensures Unspread15(h * 0x00008001) == h
  {
  }

  lemma Spread15Undone(h: Word)
    ensures Unspread15(Spread15(h)) == h
  {
    hide *;
    Spread15Is(h);
    Spread15Inverse(h);
  }

  /** Exclusive or with a word shifted by 6. */
  function Fold6(h: Word): Word { h ^ (h >> 6) }
  function Unfold6(h: Word): Word { h ^ (h >> 6) ^ (h >> 12) ^ (h >> 18) ^ (h >> 24) ^ (h >> 30) }

  lemma Fold6Undone(h: Word)
    ensures Unfold6(Fold6(h)) == h
  {
    hide Unfold6;
    Fold6Inverse(h);
  }

  lemma Fold6Inverse(h: Word)
    ensures Unfold6(h ^ (h >> 6)) == h
  {
  }

  /** Exclusive or with a word shifted by 11. */
  function Fold11(h: Word): Word { h ^ (h >> 11) }
  function Unfold11(h: Word): Word { h ^ (h >> 11) ^ (h >> 22) }

  lemma Fold11Undone(h: Word)
    ensures Unfold11(Fold11(h)) == h
  {
    hide Unfold11;
    Fold11Inverse(h);
  }

  lemma Fold11Inverse(h: Word)
    ensures Unfold11(h ^ (h >> 11)) == h
  {
  }

  /** Exclusive or with a word shifted by 13. */
  function Fold13(h: Word): Word { h ^ (h >> 13) }
  function Unfold13(h: Word): Word { h ^ (h >> 13) ^ (h >> 26) }

  lemma Fold13Undone(h: Word)
    ensures Unfold13(Fold13(h)) == h
  {
    hide Unfold13;
    Fold13Inverse(h);
  }

  lemma Fold13Inverse(h: Word)
    ensures Unfold13(h ^ (h >> 13)) == h
  {
  }

  /** Exclusive or with a word shifted by 15. */
  function Fold15(h: Word): Word { h ^ (h >> 15) }
  function Unfold15(h: Word): Word { h ^ (h >> 15) ^ (h >> 30) }

  lemma Fold15Undone(h: Word)
    ensures Unfold15(Fold15(h)) == h
  {
    hide Unfold15;
    Fold15Inverse(h);
  }

  lemma Fold15Inverse(h: Word)
    ensures Unfold15(h ^ (h >> 15)) == h
  {
  }

  /** Exclusive or with a word shifted by 24. */
  function Fold24(h: Word): Word { h ^ (h >> 24) }
  function Unfold24(h: Word): Word { h ^ (h >> 24) }

  lemma Fold24Undone(h: Word)
    ensures Unfold24(Fold24(h)) == h
  {
    hide Unfold24;
    Fold24Inverse(h);
  }

  lemma Fold24Inverse(h: Word)
    ensures Unfold24(h ^ (h >> 24)) == h
  {
  }

  // ---------------------------------------------------------------------------------------------
  // The steps
  // ---------------------------------------------------------------------------------------------

  datatype Kind = Fnv1 | Fnv1a | Fnv1Low | Fnv1aLow | OneAtATime | Murmur

  /** What Murmur does to a block before it takes it in. */
  function Scramble(k: Word): Word { TimesMurmur(Fold24(TimesMurmur(k))) }
  function Unscramble(k: Word): Word { UnTimesMurmur(Unfold24(UnTimesMurmur(k))) }

  lemma ScrambleUndone(k: Word)
    ensures Unscramble(Scramble(k)) == k
  {
    hide TimesMurmur, UnTimesMurmur, Fold24, Unfold24;
    TimesMurmurUndone(k);
    Fold24Undone(TimesMurmur(k));
    TimesMurmurUndone(Fold24(TimesMurmur(k)));
  }

  /** The state h takes in the value v. */
  function Step(kind: Kind, h: Word, v: Word): Word {
    match kind
    case Fnv1 => Xor(TimesFnv32(h), v)
    case Fnv1a => TimesFnv32(Xor(h, v))
    case Fnv1Low => Xor(TimesFnv64(h), v)
    case Fnv1aLow => TimesFnv64(Xor(h, v))
    case OneAtATime => Fold6(Spread10(Plus(h, v)))
    case Murmur => Xor(TimesMurmur(h), Scramble(v))
  }

  function Undo(kind: Kind, h: Word, v: Word): Word {
    match kind
    case Fnv1 => UnTimesFnv32(Xor(h, v))
    case Fnv1a => Xor(UnTimesFnv32(h), v)
    case Fnv1Low => UnTimesFnv64(Xor(h, v))
    case Fnv1aLow => Xor(UnTimesFnv64(h), v)
    case OneAtATime => Minus(Unspread10(Unfold6(h)), v)
    case Murmur => UnTimesMurmur(Xor(h, Scramble(v)))
  }

  /** The value that took the state from h to next. */
  function Value(kind: Kind, next: Word, h: Word): Word {
    match kind
    case Fnv1 => Xor(next, TimesFnv32(h))
    case Fnv1a => Xor(UnTimesFnv32(next), h)
    case Fnv1Low => Xor(next, TimesFnv64(h))
    case Fnv1aLow => Xor(UnTimesFnv64(next), h)
    case OneAtATime => Minus(Unspread10(Unfold6(next)), h)
    case Murmur => Unscramble(Xor(next, TimesMurmur(h)))
  }

  lemma XorRecovers(x: Word, y: Word)
    ensures Xor(Xor(x, y), x) == y
  {
  }

  /** For a given value, a step is a permutation of the states. */
  lemma StepUndone(kind: Kind, h: Word, v: Word)
    ensures Undo(kind, Step(kind, h, v), v) == h
  {
    hide Xor, Plus, Minus, TimesFnv32, TimesFnv64, TimesMurmur, UnTimesFnv32, UnTimesFnv64, UnTimesMurmur;
    hide Fold6, Spread10, Unfold6, Unspread10, Scramble;
    XorUndone(h, v);
    match kind
    case Fnv1 =>
      XorUndone(TimesFnv32(h), v);
      TimesFnv32Undone(h);
    case Fnv1a =>
      TimesFnv32Undone(Xor(h, v));
    case Fnv1Low =>
      XorUndone(TimesFnv64(h), v);
      TimesFnv64Undone(h);
    case Fnv1aLow =>
      TimesFnv64Undone(Xor(h, v));
    case OneAtATime =>
      Fold6Undone(Spread10(Plus(h, v)));
      Spread10Undone(Plus(h, v));
      MinusUndone(h, v);
    case Murmur =>
      XorUndone(TimesMurmur(h), Scramble(v));
      TimesMurmurUndone(h);
  }

  /** For a given state, a step tells its values apart. */
  lemma ValueRecovered(kind: Kind, h: Word, v: Word)
    ensures Value(kind, Step(kind, h, v), h) == v
  {
    hide Xor, Plus, Minus, TimesFnv32, TimesFnv64, TimesMurmur, UnTimesFnv32, UnTimesFnv64;
    hide Fold6, Spread10, Unfold6, Unspread10, Scramble, Unscramble;
    XorRecovers(h, v);
    match kind
    case Fnv1 =>
      XorRecovers(TimesFnv32(h), v);
    case Fnv1a =>
      TimesFnv32Undone(Xor(h, v));
    case Fnv1Low =>
      XorRecovers(TimesFnv64(h), v);
    case Fnv1aLow =>
      TimesFnv64Undone(Xor(h, v));
    case OneAtATime =>
      Fold6Undone(Spread10(Plus(h, v)));
      Spread10Undone(Plus(h, v));
      PlusCommutes(h, v);
      MinusUndone(v, h);
    case Murmur =>
      XorRecovers(TimesMurmur(h), Scramble(v));
      ScrambleUndone(v);
  }

  // ---------------------------------------------------------------------------------------------
  // A run of steps
  // ---------------------------------------------------------------------------------------------

  /** The state after the first n values. */
  ghost function Run(kind: Kind, h: Word, vs: seq<Word>, n: nat): Word
    requires n <= |vs|
  {
    if n == 0 then h else Step(kind, Run(kind, h, vs, n - 1), vs[n - 1])
  }

  /** Two sequences of values that differ in place i and nowhere else. */
  ghost predicate DifferAt(vs: seq<Word>, ws: seq<Word>, i: nat) {
    i < |vs| == |ws| && vs[i] != ws[i] && forall j :: 0 <= j < |vs| && j != i ==> vs[j] == ws[j]
  }

  lemma {:induction false} SameBefore(kind: Kind, h: Word, vs: seq<Word>, ws: seq<Word>, i: nat, n: nat)
    requires DifferAt(vs, ws, i) && n <= i
    ensures Run(kind, h, vs, n) == Run(kind, h, ws, n)
  {
    hide Step;
    if n > 0 {
      SameBefore(kind, h, vs, ws, i, n - 1);
    }
  }

  /** A change of one value changes every later state. */
  lemma {:induction false} ApartAfter(kind: Kind, h: Word, vs: seq<Word>, ws: seq<Word>, i: nat, n: nat)
    requires DifferAt(vs, ws, i) && i < n <= |vs|
    ensures Run(kind, h, vs, n) != Run(kind, h, ws, n)
  {
    hide Step, Undo, Value;
    var x, y := Run(kind, h, vs, n - 1), Run(kind, h, ws, n - 1);
    if n == i + 1 {
      SameBefore(kind, h, vs, ws, i, i);
      ValueRecovered(kind, x, vs[i]);
      ValueRecovered(kind, x, ws[i]);
    } else {
      ApartAfter(kind, h, vs, ws, i, n - 1);
      StepUndone(kind, x, vs[n - 1]);
      StepUndone(kind, y, ws[n - 1]);
    }
  }

  // ---------------------------------------------------------------------------------------------
  // Keys, byte by byte
  // ---------------------------------------------------------------------------------------------

  /** A char converted to uint32_t; whether char has a sign depends on the machine. */
  function Char(b: Octet, signed: bool): Word {
    if signed && b & 0x80 != 0 then (b as Word) | 0xffff_ff00 else b as Word
  }

  function LowByte(w: Word): Octet { (w & 0xff) as Octet }

  lemma CharTells(b: Octet, signed: bool)
    ensures LowByte(Char(b, signed)) == b
  {
  }

  ghost function Chars(key: seq<Octet>, signed: bool): (vs: seq<Word>)
    ensures |vs| == |key| && forall i :: 0 <= i < |key| ==> vs[i] == Char(key[i], signed)
  {
    seq(|key|, i requires 0 <= i < |key| => Char(key[i], signed))
  }

  ghost function Hash(kind: Kind, h: Word, key: seq<Octet>, signed: bool): Word {
    Run(kind, h, Chars(key, signed), |key|)
  }

  ghost predicate OneByteDiffers(key: seq<Octet>, other: seq<Octet>, i: nat) {
    i < |key| == |other| && key[i] != other[i] && forall j :: 0 <= j < |key| && j != i ==> key[j] == other[j]
  }

  /** A change of one byte changes the state behind the last byte. */
  lemma OneByteCounts(kind: Kind, h: Word, key: seq<Octet>, other: seq<Octet>, i: nat, signed: bool)
    requires OneByteDiffers(key, other, i)
    ensures Hash(kind, h, key, signed) != Hash(kind, h, other, signed)
  {
    hide Char, LowByte, Run;
    CharTells(key[i], signed);
    CharTells(other[i], signed);
    ApartAfter(kind, h, Chars(key, signed), Chars(other, signed), i, |key|);
  }
}
