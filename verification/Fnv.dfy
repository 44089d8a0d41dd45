/** The Fowler-Noll-Vo hashes, in 32 bits and in 64 bits cut to 32. */
module Fnv {
  import opened Words
  import opened HashSteps

  type Wide = bv64

  const FNV_32_INIT: Word := 2166136261
  const FNV_64_INIT: Wide := 0xcbf29ce484222325
  /** The low word of the initial value. */
  const FNV_64_INIT_LOW: Word := 0x84222325

  // ---------------------------------------------------------------------------------------------
  // The low word of the 64-bit hash evolves on its own
  // ---------------------------------------------------------------------------------------------

  /** The low word of a 64-bit number: the conversion to uint32_t. */
  function Low(h: Wide): Word { (h & 0xffff_ffff) as Word }

  function TimesWide(h: Wide): Wide { h * 0x100000001b3 }
  function XorWide(x: Wide, y: Wide): Wide { x ^ y }

  /** A char as a 64-bit number, with its sign extended if it has one. */
  function CharWide(b: Octet, signed: bool): Wide {
    if signed && b & 0x80 != 0 then (b as Wide) | 0xffff_ffff_ffff_ff00 else b as Wide
  }

  lemma LowIs(h: Wide)
    ensures Low(h) == (h & 0xffff_ffff) as Word
  {
  }

  lemma LowOfProduct(h: Wide)
    ensures Low(h * 0x100000001b3) == TimesFnv64((h & 0xffff_ffff) as Word)
  {
  }

  lemma TimesWideIs(h: Wide)
    ensures TimesWide(h) == h * 0x100000001b3
  {
  }

  lemma LowTimes(h: Wide)
    ensures Low(TimesWide(h)) == TimesFnv64(Low(h))
  {
    hide *;
    LowIs(h);
    LowOfProduct(h);
    TimesWideIs(h);
  }

  lemma LowXor(x: Wide, y: Wide)
    ensures Low(XorWide(x, y)) == Xor(Low(x), Low(y))
  {
  }

  lemma LowChar(b: Octet, signed: bool)
    ensures Low(CharWide(b, signed)) == Char(b, signed)
  {
  }

  lemma LowInit()
    ensures Low(FNV_64_INIT) == FNV_64_INIT_LOW
  {
  }

  // ---------------------------------------------------------------------------------------------
  // The code
  // ---------------------------------------------------------------------------------------------

  /** hashkit_fnv1_32 */
  method HashkitFnv1(key: Bytes, signed: bool) returns (hash: Word)
    ensures hash == Hash(Fnv1, FNV_32_INIT, key, signed)
  {
    hide TimesFnv32, Xor, Char;
    hash := FNV_32_INIT;
    for x := 0 to |key|
      invariant hash == Run(Fnv1, FNV_32_INIT, Chars(key, signed), x)
    {
      var val := Char(key[x], signed);
      hash := TimesFnv32(hash);
      hash := Xor(hash, val);
    }
  }

  /** hashkit_fnv1a_32 */
  method HashkitFnv1a(key: Bytes, signed: bool) returns (hash: Word)
    ensures hash == Hash(Fnv1a, FNV_32_INIT, key, signed)
  {
    hide TimesFnv32, Xor, Char;
    hash := FNV_32_INIT;
    for x := 0 to |key|
      invariant hash == Run(Fnv1a, FNV_32_INIT, Chars(key, signed), x)
    {
      var val := Char(key[x], signed);
      hash := Xor(hash, val);
      hash := TimesFnv32(hash);
    }
  }

  /** hashkit_fnv1_64: computed in 64 bits, and the result cut to 32. */
  method HashkitFnv1Wide(key: Bytes, signed: bool) returns (result: Word)
    ensures result == Hash(Fnv1Low, FNV_64_INIT_LOW, key, signed)
  {
    hide TimesFnv64, Xor, Char, Low, TimesWide, XorWide, CharWide;
    var hash := FNV_64_INIT;
    LowInit();
    for x := 0 to |key|
      invariant Low(hash) == Run(Fnv1Low, FNV_64_INIT_LOW, Chars(key, signed), x)
    {
      LowTimes(hash);
      hash := TimesWide(hash);
      LowXor(hash, CharWide(key[x], signed));
      LowChar(key[x], signed);
      hash := XorWide(hash, CharWide(key[x], signed));
    }
    result := Low(hash);
  }

  /** hashkit_fnv1a_64: computed in 32 bits, with the low words of the 64-bit constants. */
  method HashkitFnv1aWide(key: Bytes, signed: bool) returns (hash: Word)
    ensures hash == Hash(Fnv1aLow, FNV_64_INIT_LOW, key, signed)
  {
    hide TimesFnv64, Xor, Char, Low;
    LowInit();
    hash := Low(FNV_64_INIT);
    for x := 0 to |key|
      invariant hash == Run(Fnv1aLow, FNV_64_INIT_LOW, Chars(key, signed), x)
    {
      var val := Char(key[x], signed);
      hash := Xor(hash, val);
      hash := TimesFnv64(hash);
    }
  }

  /** Keys of one length that differ in one byte have different hashes, in all four variants. */
  lemma NeverCollides(kind: Kind, key: Bytes, other: Bytes, i: nat, signed: bool)
    requires kind in {Fnv1, Fnv1a, Fnv1Low, Fnv1aLow} && OneByteDiffers(key, other, i)
    ensures var start := if kind in {Fnv1, Fnv1a} then FNV_32_INIT else FNV_64_INIT_LOW;
      Hash(kind, start, key, signed) != Hash(kind, start, other, signed)
  {
    var start := if kind in {Fnv1, Fnv1a} then FNV_32_INIT else FNV_64_INIT_LOW;
    OneByteCounts(kind, start, key, other, i, signed);
  }
}
