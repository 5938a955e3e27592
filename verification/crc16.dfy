/** CRC-16 over a byte buffer: generator x^16 + x^12 + x^5 + 1, initial value 0xFFFF.
    The byte-at-a-time loop is proved against a register fed one bit at a time, and that register
    detects every burst of at most 16 bits and every odd number of flipped bits. */
module Crc16 {

  import opened Bytes

  /** 0xFFFF and the generator without its leading term, 0x1021. */
  const INITIAL: Word := Ones(16)
  const POLYNOMIAL: Word := Zeros(3) + [true] + Zeros(6) + [true] + Zeros(4) + [true]

  ghost predicate AllZero(e: seq<bool>) { forall i :: 0 <= i < |e| ==> !e[i] }

  /** One bit enters the register: it is added to the bit that falls out at the top, and their sum
      is fed back through the taps of the generator at bits 12, 5 and 0. */
  function Step(c: Word, bit: bool): (r: Word) {
    var out := c[0] != bit;
    seq(16, i requires 0 <= i < 16 => (i < 15 && c[i + 1]) != (out && i in {3, 10, 15}))
  }

  /** The register after a stream of bits: the reference for the byte loop. */
  function Feed(c: Word, bits: seq<bool>): Word
    decreases bits
  {
    if bits == [] then c else Feed(Step(c, bits[0]), bits[1..])
  }

  /** The bits of a message in the order they enter the register. */
  function Bits(data: seq<byte>): (bits: seq<bool>)
    ensures |bits| == 8 * |data|
  {
    if data == [] then [] else Bits(data[..|data| - 1]) + ByteBits(data[|data| - 1])
  }

  method Compute(data: seq<byte>, initial: Word := INITIAL) returns (crc: Word)
    ensures crc == Feed(initial, Bits(data))
  {
    crc := initial;
    assert data[..0] == [];
    for i := 0 to |data|
      invariant crc == Feed(initial, Bits(data[..i]))
    {
      crc := Xor(crc, HighByte(data[i]));
      ghost var start := crc;
      for b := 0 to 8
        invariant crc == Feed(start, Zeros(b))
      {
        ShiftIsStep(crc);
        crc := if crc[0] then Xor(ShiftLeft(crc), POLYNOMIAL) else ShiftLeft(crc);
        FeedZero(start, b);
      }
      ByteFed(initial, data, i);
    }
    assert data[..|data|] == data;
  }

  // ----- The loop body in terms of bits -----

  lemma ShiftIsStep(c: Word)
    ensures Step(c, false) == if c[0] then Xor(ShiftLeft(c), POLYNOMIAL) else ShiftLeft(c)
  {
  }

  lemma FeedZero(c: Word, k: nat)
    ensures Feed(c, Zeros(k + 1)) == Step(Feed(c, Zeros(k)), false)
  {
    FeedConcat(c, Zeros(k), [false]);
    assert Zeros(k + 1) == Zeros(k) + [false];
  }

  lemma ByteFed(initial: Word, data: seq<byte>, i: nat)
    requires i < |data|
    ensures Feed(Xor(Feed(initial, Bits(data[..i])), HighByte(data[i])), Zeros(8))
         == Feed(initial, Bits(data[..i + 1]))
  {
    XoredBitsAreFedBits(Feed(initial, Bits(data[..i])), ByteBits(data[i]));
    FeedConcat(initial, Bits(data[..i]), ByteBits(data[i]));
    assert data[..i + 1][..i] == data[..i];
  }

  /** Adding up to 16 bits to the register at once and then shifting them out one by one is the
      same as feeding them in one by one. */
  lemma {:induction false} XoredBitsAreFedBits(c: Word, e: seq<bool>)
    requires |e| <= 16
    ensures Feed(Xor(c, e + Zeros(16 - |e|)), Zeros(|e|)) == Feed(c, e)
    decreases e
  {
    if e != [] {
      XoredBitsAreFedBits(Step(c, e[0]), e[1..]);
      var x := Xor(c, e + Zeros(16 - |e|));
      assert Zeros(|e|)[1..] == Zeros(|e| - 1);
      assert Step(x, false) == Xor(Step(c, e[0]), e[1..] + Zeros(17 - |e|));
    }
  }

  lemma {:induction false} FeedConcat(c: Word, a: seq<bool>, b: seq<bool>)
    ensures Feed(c, a + b) == Feed(Feed(c, a), b)
    decreases a
  {
    if a == [] {
      assert a + b == b;
    } else {
      assert (a + b)[1..] == a[1..] + b;
      FeedConcat(Step(c, a[0]), a[1..], b);
    }
  }

  // ----- The register is linear, and its step is invertible -----

  /** Two streams leave registers that differ exactly by the register of the error pattern. */
  lemma {:induction false} FeedIsLinear(c: Word, d: Word, a: seq<bool>, b: seq<bool>)
    requires |a| == |b|
    ensures Xor(Feed(c, a), Feed(d, b)) == Feed(Xor(c, d), Xor(a, b))
    decreases a
  {
    if a != [] {
      FeedIsLinear(Step(c, a[0]), Step(d, b[0]), a[1..], b[1..]);
      assert Xor(Step(c, a[0]), Step(d, b[0])) == Step(Xor(c, d), Xor(a, b)[0]);
      assert Xor(a, b)[1..] == Xor(a[1..], b[1..]);
    }
  }

  /** The register can be cleared by at most 16 bits only if these bits are the register itself. */
  lemma {:induction false} ClearedOnlyByItself(c: Word, e: seq<bool>)
    requires |e| <= 16 && AllZero(Feed(c, e))
    ensures forall i :: 0 <= i < 16 ==> c[i] == (i < |e| && e[i])
    decreases e
  {
    if e != [] {
      var s := Step(c, e[0]);
      ClearedOnlyByItself(s, e[1..]);
      assert !s[15];
      assert forall i :: 0 < i < 16 ==> s[i - 1] == c[i];
    }
  }

  /** Undamaged bits can neither create nor hide a difference. */
  lemma {:induction false} ZerosKeepNonzero(c: Word, e: seq<bool>)
    requires AllZero(e)
    ensures AllZero(Feed(c, e)) <==> AllZero(c)
    decreases e
  {
    if e != [] {
      var s := Step(c, false);
      ZerosKeepNonzero(s, e[1..]);
      if AllZero(s) {
        assert !s[15] && forall i :: 0 < i < 16 ==> s[i - 1] == c[i];
      }
    }
  }

  // ----- Detection -----

  /** All ones of the pattern lie within 16 consecutive positions. */
  ghost predicate IsBurst(e: seq<bool>, at: nat) {
    forall i :: 0 <= i < |e| && e[i] ==> at <= i < at + 16
  }

  lemma BurstIsSeen(e: seq<bool>, at: nat)
    requires IsBurst(e, at) && !AllZero(e)
    ensures !AllZero(Feed(Zeros(16), e))
  {
    var p := if at < |e| then at else |e|;
    var q := if p + 16 < |e| then p + 16 else |e|;
    var k :| 0 <= k < |e| && e[k];
    var w := e[p..q];
    assert w[k - p];
    hide Feed;
    ZerosKeepNonzero(Zeros(16), e[..p]);
    FeedSplit(e, p, q);
    if AllZero(Feed(Zeros(16), w)) {
      ClearedOnlyByItself(Zeros(16), w);
      assert false;
    }
    ZerosKeepNonzero(Feed(Zeros(16), w), e[q..]);
  }

  lemma FeedSplit(e: seq<bool>, p: nat, q: nat)
    requires p <= q <= |e| && AllZero(Feed(Zeros(16), e[..p]))
    ensures Feed(Zeros(16), e) == Feed(Feed(Zeros(16), e[p..q]), e[q..])
  {
    hide Feed;
    assert e == e[..p] + e[p..q] + e[q..];
    FeedConcat(Zeros(16), e[..p] + e[p..q], e[q..]);
    FeedConcat(Zeros(16), e[..p], e[p..q]);
    assert Feed(Zeros(16), e[..p]) == Zeros(16);
  }

  lemma {:induction false} BitsInjective(a: seq<byte>, b: seq<byte>)
    requires |a| == |b| && Bits(a) == Bits(b)
    ensures a == b
  {
    hide ByteBits, BitsByte;
    if a != [] {
      var n := |a| - 1;
      assert Bits(a)[..8 * n] == Bits(a[..n]) && Bits(b)[..8 * n] == Bits(b[..n]);
      assert Bits(a)[8 * n..] == ByteBits(a[n]) && Bits(b)[8 * n..] == ByteBits(b[n]);
      BitsInjective(a[..n], b[..n]);
      BitsByteOfByteBits(a[n]);
      BitsByteOfByteBits(b[n]);
      assert a == a[..n] + [a[n]] && b == b[..n] + [b[n]];
    }
  }

  /** Changing any nonempty set of bits within 16 consecutive bit positions of a message of any
      length changes its checksum, whatever the initial value. */
  lemma BurstDetected(initial: Word, a: seq<byte>, b: seq<byte>, at: nat)
    requires |a| == |b| && a != b
    requires IsBurst(Xor(Bits(a), Bits(b)), at)
    ensures Feed(initial, Bits(a)) != Feed(initial, Bits(b))
  {
    var e := Xor(Bits(a), Bits(b));
    if AllZero(e) {
      assert Bits(a) == Bits(b);
      BitsInjective(a, b);
    }
    BurstIsSeen(e, at);
    FeedIsLinear(initial, initial, Bits(a), Bits(b));
    assert Xor(initial, initial) == Zeros(16);
  }

  /** The parity of a bit stream. */
  function Parity(e: seq<bool>): bool {
    if e == [] then false else e[0] != Parity(e[1..])
  }

  lemma {:induction false} ParityOfXor(a: seq<bool>, b: seq<bool>)
    requires |a| == |b|
    ensures Parity(Xor(a, b)) == (Parity(a) != Parity(b))
  {
    if a != [] {
      ParityOfXor(a[1..], b[1..]);
      assert Xor(a, b)[1..] == Xor(a[1..], b[1..]);
    }
  }

  lemma {:induction false} ParityOfConcat(a: seq<bool>, b: seq<bool>)
    ensures Parity(a + b) == (Parity(a) != Parity(b))
  {
    if a == [] {
      assert a + b == b;
    } else {
      ParityOfConcat(a[1..], b);
      assert (a + b)[1..] == a[1..] + b;
    }
  }

  /** The generator has an even number of terms, so a step adds exactly the entering bit's parity. */
  lemma StepParity(c: Word, bit: bool)
    ensures Parity(Step(c, bit)) == (Parity(c) != bit)
  {
    var out := c[0] != bit;
    var shifted := c[1..] + [false];
    var taps := Zeros(3) + [out] + (Zeros(6) + [out] + (Zeros(4) + [out]));
    assert Step(c, bit) == Xor(shifted, taps);
    ParityOfXor(shifted, taps);
    ParityOfConcat(c[1..], [false]);
    ParityOfConcat(Zeros(3) + [out], Zeros(6) + [out] + (Zeros(4) + [out]));
    ParityOfConcat(Zeros(6) + [out], Zeros(4) + [out]);
    ParityOfZerosThen(3, out);
    ParityOfZerosThen(6, out);
    ParityOfZerosThen(4, out);
  }

  lemma {:induction false} ParityOfZerosThen(n: nat, bit: bool)
    ensures Parity(Zeros(n) + [bit]) == bit
  {
    if n > 0 {
      ParityOfZerosThen(n - 1, bit);
      assert (Zeros(n) + [bit])[1..] == Zeros(n - 1) + [bit];
    }
  }

  lemma {:induction false} FeedParity(c: Word, e: seq<bool>)
    ensures Parity(Feed(c, e)) == (Parity(c) != Parity(e))
    decreases e
  {
    if e != [] {
      StepParity(c, e[0]);
      FeedParity(Step(c, e[0]), e[1..]);
    }
  }

  /** Changing any odd number of bits, anywhere in the message, changes its checksum. */
  lemma OddErrorsDetected(initial: Word, a: seq<byte>, b: seq<byte>)
    requires |a| == |b| && Parity(Xor(Bits(a), Bits(b)))
    ensures Feed(initial, Bits(a)) != Feed(initial, Bits(b))
  {
    FeedParity(initial, Bits(a));
    FeedParity(initial, Bits(b));
    ParityOfXor(Bits(a), Bits(b));
  }

  // ----- Check values -----

  lemma {:induction false} BitsOfPush(data: seq<byte>, b: byte)
    ensures Bits(data + [b]) == Bits(data) + ByteBits(b)
  {
    assert (data + [b])[..|data|] == data;
  }

  lemma AllOnesByte()
    ensures ByteBits(0xFF) == Ones(8)
  {
  }

  lemma LowBitByte()
    ensures ByteBits(0x01) == Zeros(7) + [true]
  {
  }

  lemma BitsOfTwo()
    ensures Bits([0xFF, 0xFF]) == Ones(16)
  {
    AllOnesByte();
    BitsOfPush([], 0xFF);
    BitsOfPush([0xFF], 0xFF);
    assert [] + [0xFF] == [0xFF] && [0xFF] + [0xFF] == [0xFF, 0xFF];
    hide ByteBits, Bits;
  }

  lemma BitsOfThree()
    ensures Bits([0xFF, 0xFF, 0x01]) == Ones(16) + (Zeros(7) + [true])
  {
    BitsOfTwo();
    LowBitByte();
    BitsOfPush([0xFF, 0xFF], 0x01);
    assert [0xFF, 0xFF] + [0x01] == [0xFF, 0xFF, 0x01];
    hide ByteBits, Bits;
  }

  /** Two checksums that fix the start value, the generator and the order of the bits: FF FF leaves 0000,
      and FF FF 01 leaves 1021. */
  lemma CheckValues()
    ensures Feed(INITIAL, Bits([0xFF, 0xFF])) == Zeros(16)
    ensures Feed(INITIAL, Bits([0xFF, 0xFF, 0x01]))
         == [false, false, false, true, false, false, false, false,
             false, false, true, false, false, false, false, true]
  {
    hide ByteBits, Bits, Feed;
    BitsOfTwo();
    BitsOfThree();
    StartIsCleared();
    StaysClear(7);
    FeedConcat(INITIAL, Ones(16), Zeros(7) + [true]);
    FeedConcat(Zeros(16), Zeros(7), [true]);
    OneBit(Zeros(16), true);
    TapsAppear();
  }

  lemma TapsAppear()
    ensures Step(Zeros(16), true)
         == [false, false, false, true, false, false, false, false,
             false, false, true, false, false, false, false, true]
  {
  }

  lemma StartIsCleared()
    ensures Feed(INITIAL, Ones(16)) == Zeros(16)
  {
    hide Feed;
    XoredBitsAreFedBits(INITIAL, Ones(16));
    assert Xor(INITIAL, Ones(16) + Zeros(0)) == Zeros(16);
    StaysClear(16);
  }

  lemma StaysClear(n: nat)
    ensures Feed(Zeros(16), Zeros(n)) == Zeros(16)
  {
    ZerosKeepNonzero(Zeros(16), Zeros(n));
  }

  lemma OneBit(c: Word, bit: bool)
    ensures Feed(c, [bit]) == Step(c, bit)
  {
    assert [bit][1..] == [];
  }
}
