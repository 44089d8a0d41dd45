/** Byte order conversions on unsigned integers of a fixed number of bytes. */
module ByteOrder {

  type Byte = b: nat | b < 256
  type Bytes = seq<Byte>

  const TWO_64: nat := 0x1_0000_0000_0000_0000

  /** The number with these base-256 digits, least significant first. */
  function Value(digits: seq<Byte>): nat {
    if digits == [] then 0 else digits[0] + 256 * Value(digits[1..])
  }

  function Digits(x: nat, n: nat): (digits: seq<Byte>)
    ensures |digits| == n
  {
    if n == 0 then [] else [x % 256] + Digits(x / 256, n - 1)
  }

  function Reversed(s: seq<Byte>): (r: seq<Byte>)
    ensures |r| == |s|
    ensures forall i :: 0 <= i < |s| ==> r[i] == s[|s| - 1 - i]
  {
    if s == [] then [] else Reversed(s[1..]) + [s[0]]
  }

  function Pow256(n: nat): nat { if n == 0 then 1 else 256 * Pow256(n - 1) }

  /** The n-byte number whose bytes are those of x in the opposite order. */
  function Swap(x: nat, n: nat): nat { Value(Reversed(Digits(x, n))) }

  lemma {:induction false} ValueBound(digits: seq<Byte>)
    ensures Value(digits) < Pow256(|digits|)
  {
    if digits != [] {
      ValueBound(digits[1..]);
    }
  }

  lemma {:induction false} DigitsOfValue(digits: seq<Byte>)
    ensures Digits(Value(digits), |digits|) == digits
  {
    if digits != [] {
      DigitsOfValue(digits[1..]);
      assert Value(digits) % 256 == digits[0] && Value(digits) / 256 == Value(digits[1..]);
    }
  }

  lemma {:induction false} ValueOfDigits(x: nat, n: nat)
    requires x < Pow256(n)
    ensures Value(Digits(x, n)) == x
  {
    if n > 0 {
      assert x / 256 < Pow256(n - 1);
      ValueOfDigits(x / 256, n - 1);
      assert Digits(x, n)[1..] == Digits(x / 256, n - 1);
    }
  }

  /** Swapping twice gives the number back; only zero is swapped to zero. */
  lemma SwapIsInvolution(x: nat, n: nat)
    requires x < Pow256(n)
    ensures Swap(x, n) < Pow256(n) && Swap(Swap(x, n), n) == x
    ensures Swap(x, n) == 0 <==> x == 0
  {
    var d := Digits(x, n);
    ValueBound(Reversed(d));
    DigitsOfValue(Reversed(d));
    assert Reversed(Reversed(d)) == d;
    ValueOfDigits(x, n);
    SwapZero(n);
  }

  lemma {:induction false} DigitsOfZero(n: nat)
    ensures Value(Digits(0, n)) == 0 && forall i :: 0 <= i < n ==> Digits(0, n)[i] == 0
  {
    if n > 0 {
      DigitsOfZero(n - 1);
      assert Digits(0, n)[1..] == Digits(0, n - 1);
    }
  }

  lemma SwapZero(n: nat)
    ensures Swap(0, n) == 0
  {
    DigitsOfZero(n);
    assert Reversed(Digits(0, n)) == Digits(0, n);
  }

  lemma {:induction false} Pow256Grows(m: nat, n: nat)
    requires m <= n
    ensures Pow256(m) <= Pow256(n)
    decreases n - m
  {
    if m < n {
      Pow256Grows(m + 1, n);
    }
  }

  /** One more byte moves to the front of the reversed ones. */
  lemma SwapStep(d: seq<Byte>, k: nat)
    requires k < |d| == 8
    ensures Value(Reversed(d[..k])) * 256 < TWO_64
    ensures Value(Reversed(d[..k + 1])) == Value(Reversed(d[..k])) * 256 + d[k]
  {
    assert Reversed(d[..k + 1]) == [d[k]] + Reversed(d[..k]);
    ValueBound(Reversed(d[..k]));
    Pow256Grows(k, 7);
    assert Pow256(7) == 256 * Pow256(6) == 256 * 256 * Pow256(5) == 256 * 256 * 256 * Pow256(4);
  }

  /** swap64 on a little-endian machine. */
  method Swap64(x: nat) returns (rv: nat)
    requires x < TWO_64
    ensures rv == Swap(x, 8)
  {
    var rest: nat := x;
    rv := 0;
    ghost var d := Digits(x, 8);
    for k := 0 to 8
      invariant d[k..] == Digits(rest, 8 - k)
      invariant rv == Value(Reversed(d[..k]))
    {
      SwapStep(d, k);
      assert d[k] == d[k..][0] && d[k + 1..] == d[k..][1..];
      rv := (rv * 256) % TWO_64 + rest % 256;
      rest := rest / 256;
    }
    assert d[..8] == d;
  }
}
