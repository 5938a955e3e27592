/** Bytes, 16-bit words and their bits. A word is its bits, most significant first, so that XOR and
    shifts are what they are on the machine: operations on single bits. */
module Bytes {
  import opened Numbers

  newtype byte = x: int | 0 <= x < 0x100

  type Word = w: seq<bool> | |w| == 16 witness seq(16, _ => false)

  function Zeros(n: nat): seq<bool> { seq(n, _ => false) }

  function Ones(n: nat): seq<bool> { seq(n, _ => true) }

  /** Bitwise XOR, and equally the positions at which two bit streams differ. */
  function Xor(a: seq<bool>, b: seq<bool>): (e: seq<bool>)
    requires |a| == |b|
    ensures |e| == |a| && forall i :: 0 <= i < |e| ==> e[i] == (a[i] != b[i])
  {
    seq(|a|, i requires 0 <= i < |a| => a[i] != b[i])
  }

  function ShiftLeft(w: Word): Word { w[1..] + [false] }

  /** The n low bits of a number, most significant first, and the number they stand for. */
  function NumberBits(x: nat, n: nat): (bits: seq<bool>)
    ensures |bits| == n
  {
    if n == 0 then [] else NumberBits(x / 2, n - 1) + [x % 2 == 1]
  }

  function BitsNumber(bits: seq<bool>): nat {
    if bits == [] then 0
    else 2 * BitsNumber(bits[..|bits| - 1]) + if bits[|bits| - 1] then 1 else 0
  }

  lemma {:induction false} NumberOfBits(x: nat, n: nat)
    requires x < Pow2(n)
    ensures BitsNumber(NumberBits(x, n)) == x
  {
    if n > 0 {
      NumberOfBits(x / 2, n - 1);
      assert NumberBits(x, n)[..n - 1] == NumberBits(x / 2, n - 1);
    }
  }

  lemma {:induction false} BitsOfNumber(bits: seq<bool>)
    ensures BitsNumber(bits) < Pow2(|bits|)
    ensures NumberBits(BitsNumber(bits), |bits|) == bits
  {
    if bits != [] {
      BitsOfNumber(bits[..|bits| - 1]);
    }
  }

  function ByteBits(b: byte): (bits: seq<bool>)
    ensures |bits| == 8
  {
    NumberBits(b as nat, 8)
  }

  function BitsByte(bits: seq<bool>): (b: byte)
    requires |bits| == 8
    ensures ByteBits(b) == bits
  {
    BitsOfNumber(bits);
    assert Pow2(8) == 0x100;
    BitsNumber(bits) as byte
  }

  lemma BitsByteOfByteBits(b: byte)
    ensures BitsByte(ByteBits(b)) == b
  {
    assert Pow2(8) == 0x100;
    NumberOfBits(b as nat, 8);
  }

  /** A byte in the high half of a word: (uint16_t)b << 8. */
  function HighByte(b: byte): Word { ByteBits(b) + Zeros(8) }
}
