/** Which damage to a stored relay record is recognised: exactly, and for the common kinds of damage. */
module RecordDamage {
  import opened Wrappers
  import opened RelayTypes
  import opened Bytes
  import opened Persistence
  import opened Crc16

  function Covering(rec: seq<byte>): (bits: seq<bool>)
    requires |rec| == RECORD_SIZE
    ensures |bits| == 80
  {
    Bits(rec[..CRC_OFFSET])
  }

  function Stamp(rec: seq<byte>): Word
    requires |rec| == RECORD_SIZE
  {
    BytesWord(rec[CRC_OFFSET..])
  }

  /** All bits of the record flipped by the damage, in storage order. */
  function Flips(rec: seq<byte>, bad: seq<byte>): (e: seq<bool>)
    requires |rec| == |bad| == RECORD_SIZE
    ensures |e| == 96
  {
    Xor(Bits(rec), Bits(bad))
  }

  /** The flipped checksum bits are what the flipped covered bits make of an empty register. */
  predicate Unseen(rec: seq<byte>, bad: seq<byte>)
    requires |rec| == |bad| == RECORD_SIZE
  {
    Xor(Stamp(rec), Stamp(bad)) == Feed(Zeros(16), Xor(Covering(rec), Covering(bad)))
  }

  lemma XorCancels(a: Word, b: Word, c: Word, d: Word)
    requires a == b
    ensures c == d <==> Xor(a, c) == Xor(b, d)
  {
    assert forall i :: 0 <= i < 16 ==> c[i] == (Xor(a, c)[i] != a[i]) && d[i] == (Xor(b, d)[i] != b[i]);
    if Xor(a, c) == Xor(b, d) {
      assert forall i :: 0 <= i < 16 ==> c[i] == d[i];
    }
  }

  lemma {:induction false} LittleEndianInjective(a: seq<byte>, b: seq<byte>)
    requires |a| == |b| && LittleEndian(a) == LittleEndian(b)
    ensures a == b
  {
    if a != [] {
      assert a[0] == b[0];
      LittleEndianInjective(a[1..], b[1..]);
      assert a == [a[0]] + a[1..] && b == [b[0]] + b[1..];
    }
  }

  lemma HeadDecides(rec: seq<byte>, bad: seq<byte>)
    requires |rec| == |bad| == RECORD_SIZE && LittleEndian(rec[..4]) == MAGIC && rec[4] == VERSION
    ensures LittleEndian(bad[..4]) == MAGIC && bad[4] == VERSION <==> bad[..5] == rec[..5]
  {
    assert rec[..5] == rec[..4] + [rec[4]] && bad[..5] == bad[..4] + [bad[4]];
    if LittleEndian(bad[..4]) == MAGIC {
      LittleEndianInjective(rec[..4], bad[..4]);
    }
    if bad[..5] == rec[..5] {
      assert bad[..4] == bad[..5][..4] == rec[..5][..4] == rec[..4] && bad[4] == bad[..5][4] == rec[..5][4];
    }
  }

  /** The exact theorem: an intact record stays intact under damage iff its magic and version are
      untouched and the flips fulfil the checksum's own relation. */
  lemma DamageExactly(rec: seq<byte>, bad: seq<byte>)
    requires |rec| == |bad| == RECORD_SIZE && Intact(rec)
    ensures Intact(bad) <==> bad[..5] == rec[..5] && Unseen(rec, bad)
  {
    var a, b := Covering(rec), Covering(bad);
    FeedIsLinear(INITIAL, INITIAL, a, b);
    assert Xor(INITIAL, INITIAL) == Zeros(16);
    HeadDecides(rec, bad);
    hide Feed, Bits, LittleEndian;
    XorCancels(Stamp(rec), Feed(INITIAL, a), Stamp(bad), Feed(INITIAL, b));
  }

  /** Recognisable damage: any change of magic or version, any change of the checksum alone, a burst of
      at most 16 bits in the covered bytes alone, or an odd number of flips anywhere in the record. */
  ghost predicate Damaged(rec: seq<byte>, bad: seq<byte>)
    requires |rec| == |bad| == RECORD_SIZE
  {
    || rec[..5] != bad[..5]
    || (rec[..CRC_OFFSET] == bad[..CRC_OFFSET] && rec != bad)
    || (rec[CRC_OFFSET..] == bad[CRC_OFFSET..] && rec != bad
        && exists at: nat :: IsBurst(Xor(Covering(rec), Covering(bad)), at))
    || Parity(Flips(rec, bad))
  }

  lemma BitsConcat(a: seq<byte>, b: seq<byte>)
    ensures Bits(a + b) == Bits(a) + Bits(b)
  {
    if b == [] {
      assert a + b == a;
    } else {
      assert (a + b)[..|a + b| - 1] == a + b[..|b| - 1];
      BitsConcat(a, b[..|b| - 1]);
    }
  }

  lemma XorConcat(a: seq<bool>, b: seq<bool>, c: seq<bool>, d: seq<bool>)
    requires |a| == |c| && |b| == |d|
    ensures Xor(a + b, c + d) == Xor(a, c) + Xor(b, d)
  {
  }

  lemma FlipsSplit(rec: seq<byte>, bad: seq<byte>)
    requires |rec| == |bad| == RECORD_SIZE
    ensures Flips(rec, bad) == Xor(Covering(rec), Covering(bad)) + Xor(Bits(rec[CRC_OFFSET..]), Bits(bad[CRC_OFFSET..]))
  {
    BitsConcat(rec[..CRC_OFFSET], rec[CRC_OFFSET..]);
    BitsConcat(bad[..CRC_OFFSET], bad[CRC_OFFSET..]);
    assert rec == rec[..CRC_OFFSET] + rec[CRC_OFFSET..] && bad == bad[..CRC_OFFSET] + bad[CRC_OFFSET..];
    hide Bits;
    XorConcat(Covering(rec), Bits(rec[CRC_OFFSET..]), Covering(bad), Bits(bad[CRC_OFFSET..]));
  }

  /** The stored order of its two bytes does not change a word's parity. */
  lemma StampParity(rec: seq<byte>)
    requires |rec| == RECORD_SIZE
    ensures Parity(Stamp(rec)) == Parity(Bits(rec[CRC_OFFSET..]))
  {
    var w := rec[CRC_OFFSET..];
    assert w == [w[0]] + [w[1]];
    BitsConcat([w[0]], [w[1]]);
    OneByte(w[0]);
    OneByte(w[1]);
    hide ByteBits, Bits, Parity;
    ParityOfConcat(ByteBits(w[0]), ByteBits(w[1]));
    ParityOfConcat(ByteBits(w[1]), ByteBits(w[0]));
  }

  lemma OneByte(b: byte)
    ensures Bits([b]) == ByteBits(b)
  {
    hide ByteBits;
    assert [b][..0] == [];
  }

  lemma UnseenIsEven(rec: seq<byte>, bad: seq<byte>)
    requires |rec| == |bad| == RECORD_SIZE && Unseen(rec, bad)
    ensures !Parity(Flips(rec, bad))
  {
    var covered := Xor(Covering(rec), Covering(bad));
    var r, b := Bits(rec[CRC_OFFSET..]), Bits(bad[CRC_OFFSET..]);
    FlipsSplit(rec, bad);
    StampParity(rec);
    StampParity(bad);
    ZerosAreEven(16);
    hide Parity, Feed, Bits, Flips;
    FeedParity(Zeros(16), covered);
    ParityOfXor(Stamp(rec), Stamp(bad));
    ParityOfXor(r, b);
    ParityOfConcat(covered, Xor(r, b));
  }

  lemma {:induction false} ZerosAreEven(n: nat)
    ensures !Parity(Zeros(n))
  {
    if n > 0 {
      ZerosAreEven(n - 1);
      assert Zeros(n)[1..] == Zeros(n - 1);
    }
  }

  lemma UnseenBurstIsNone(rec: seq<byte>, bad: seq<byte>, at: nat)
    requires |rec| == |bad| == RECORD_SIZE && Unseen(rec, bad)
    requires rec[CRC_OFFSET..] == bad[CRC_OFFSET..] && IsBurst(Xor(Covering(rec), Covering(bad)), at)
    ensures rec == bad
  {
    var a, b := rec[..CRC_OFFSET], bad[..CRC_OFFSET];
    FeedIsLinear(INITIAL, INITIAL, Bits(a), Bits(b));
    assert Xor(INITIAL, INITIAL) == Zeros(16);
    hide Feed, Bits;
    XorCancels(Stamp(rec), Stamp(rec), Stamp(rec), Stamp(bad));
    assert Xor(Stamp(rec), Stamp(rec)) == Zeros(16);
    XorCancels(Feed(INITIAL, Bits(a)), Feed(INITIAL, Bits(a)), Feed(INITIAL, Bits(a)), Feed(INITIAL, Bits(b)));
    assert Xor(Feed(INITIAL, Bits(a)), Feed(INITIAL, Bits(a))) == Zeros(16);
    if a != b {
      BurstDetected(INITIAL, a, b, at);
    }
    assert rec == a + rec[CRC_OFFSET..] && bad == b + bad[CRC_OFFSET..];
  }

  /** Damage to the checksum alone is seen, whatever it is. */
  lemma UnseenStampIsNone(rec: seq<byte>, bad: seq<byte>)
    requires |rec| == |bad| == RECORD_SIZE && Unseen(rec, bad) && rec[..CRC_OFFSET] == bad[..CRC_OFFSET]
    ensures rec == bad
  {
    var e := Xor(Covering(rec), Covering(bad));
    ZerosKeepNonzero(Zeros(16), e);
    assert AllZero(Feed(Zeros(16), e));
    hide Feed, Bits;
    assert forall i :: 0 <= i < 16 ==> !Xor(Stamp(rec), Stamp(bad))[i];
    assert Stamp(rec) == Stamp(bad);
    BytesRoundTrip(rec[CRC_OFFSET..]);
    BytesRoundTrip(bad[CRC_OFFSET..]);
    assert rec == rec[..CRC_OFFSET] + rec[CRC_OFFSET..] && bad == bad[..CRC_OFFSET] + bad[CRC_OFFSET..];
  }

  /** A valid record with recognisable damage loads as invalid. */
  lemma DamageDetected(rec: seq<byte>, bad: seq<byte>)
    requires |rec| == |bad| == RECORD_SIZE
    requires Decode(Some(rec)).valid && Damaged(rec, bad)
    ensures Decode(Some(bad)) == INVALID
  {
    DamageExactly(rec, bad);
    hide Unseen, Flips, Intact, Parity;
    if Unseen(rec, bad) && bad[..5] == rec[..5] {
      UnseenIsEven(rec, bad);
      if rec[..CRC_OFFSET] == bad[..CRC_OFFSET] {
        UnseenStampIsNone(rec, bad);
      } else {
        var at: nat :| IsBurst(Xor(Covering(rec), Covering(bad)), at);
        UnseenBurstIsNone(rec, bad, at);
      }
    }
  }

  // ----- Bursts across the boundary -----

  function TopFlipped(b: byte): byte {
    BitsByte([!ByteBits(b)[0]] + ByteBits(b)[1..])
  }

  /** Six flips across the boundary between the covered bytes and the checksum. */
  function BoundaryDamage(rec: seq<byte>): (bad: seq<byte>)
    requires |rec| == RECORD_SIZE
    ensures |bad| == RECORD_SIZE
  {
    rec[8 := 0x11][9 := 0x8A][10 := TopFlipped(rec[10])]
  }

  /** A register by the positions of its ones. */
  function OnesAt(ps: set<nat>): Word { seq(16, i requires 0 <= i < 16 => i in ps) }

  predicate Steps(ps: set<nat>, bit: bool, qs: set<nat>) {
    forall i :: 0 <= i < 16 ==>
      (i in qs <==> (i < 15 && i + 1 in ps) != ((0 in ps) != bit && (i == 3 || i == 10 || i == 15)))
  }

  lemma Stepped(ps: set<nat>, bit: bool, qs: set<nat>, rest: seq<bool>)
    requires Steps(ps, bit, qs)
    ensures Feed(OnesAt(ps), [bit] + rest) == Feed(OnesAt(qs), rest)
  {
    assert ([bit] + rest)[1..] == rest;
    assert Step(OnesAt(ps), bit) == OnesAt(qs);
  }

  /** The thirteen covered bits from the first flip on, in four pieces. */
  function Piece1(): seq<bool> { [true] + ([false] + ([false] + Piece2())) }
  function Piece2(): seq<bool> { [false] + ([true] + ([true] + Piece3())) }
  function Piece3(): seq<bool> { [false] + ([false] + ([false] + Piece4())) }
  function Piece4(): seq<bool> { [true] + ([false] + ([true] + ([false] + []))) }

  lemma Feed1()
    ensures Feed(OnesAt({}), Piece1()) == Feed(OnesAt({1, 8, 13}), Piece2())
  {
    hide Feed, OnesAt, Piece2;
    Stepped({}, true, {3, 10, 15}, [false] + ([false] + Piece2()));
    Stepped({3, 10, 15}, false, {2, 9, 14}, [false] + Piece2());
    Stepped({2, 9, 14}, false, {1, 8, 13}, Piece2());
  }

  lemma Feed2()
    ensures Feed(OnesAt({1, 8, 13}), Piece2()) == Feed(OnesAt({3, 5, 15}), Piece3())
  {
    hide Feed, OnesAt, Piece3;
    Stepped({1, 8, 13}, false, {0, 7, 12}, [true] + ([true] + Piece3()));
    Stepped({0, 7, 12}, true, {6, 11}, [true] + Piece3());
    Stepped({6, 11}, true, {3, 5, 15}, Piece3());
  }

  lemma Feed3()
    ensures Feed(OnesAt({3, 5, 15}), Piece3()) == Feed(OnesAt({0, 2, 12}), Piece4())
  {
    hide Feed, OnesAt, Piece4;
    Stepped({3, 5, 15}, false, {2, 4, 14}, [false] + ([false] + Piece4()));
    Stepped({2, 4, 14}, false, {1, 3, 13}, [false] + Piece4());
    Stepped({1, 3, 13}, false, {0, 2, 12}, Piece4());
  }

  lemma Feed4()
    ensures Feed(OnesAt({0, 2, 12}), Piece4()) == OnesAt({8})
  {
    var last: seq<bool> := [];
    assert Feed(OnesAt({8}), last) == OnesAt({8});
    hide Feed, OnesAt;
    Stepped({0, 2, 12}, true, {1, 11}, [false] + ([true] + ([false] + last)));
    Stepped({1, 11}, false, {0, 10}, [true] + ([false] + last));
    Stepped({0, 10}, true, {9}, [false] + last);
    Stepped({9}, false, {8}, last);
  }

  lemma BurstLeaves()
    ensures Feed(Zeros(16), Zeros(67) + Piece1()) == OnesAt({8})
  {
    hide Piece1;
    FeedConcat(Zeros(16), Zeros(67), Piece1());
    ZerosKeepNonzero(Zeros(16), Zeros(67));
    assert Feed(Zeros(16), Zeros(67)) == Zeros(16) == OnesAt({});
    hide Feed, OnesAt;
    Feed1();
    Feed2();
    Feed3();
    Feed4();
  }

  lemma BitAt(data: seq<byte>, i: nat, j: nat)
    requires i < |data| && j < 8
    ensures Bits(data)[8 * i + j] == ByteBits(data[i])[j]
  {
    hide ByteBits;
    if i < |data| - 1 {
      BitAt(data[..|data| - 1], i, j);
    }
  }

  lemma BitsOfZero()
    ensures ByteBits(0) == Zeros(8)
  {
  }

  lemma BitsOfEleven()
    ensures ByteBits(0x11) == [false, false, false, true, false, false, false, true]
  {
  }

  lemma BitsOfEightyA()
    ensures ByteBits(0x8A) == [true, false, false, false, true, false, true, false]
  {
  }

  lemma CoveredFlips(rec: seq<byte>)
    requires |rec| == RECORD_SIZE && rec[8] == 0 && rec[9] == 0
    ensures Xor(Covering(rec), Covering(BoundaryDamage(rec))) == Zeros(67) + Piece1()
  {
    var bad := BoundaryDamage(rec);
    var a, b := rec[..CRC_OFFSET], bad[..CRC_OFFSET];
    BitsOfZero();
    BitsOfEleven();
    BitsOfEightyA();
    hide ByteBits, Bits, TopFlipped;
    forall k | 0 <= k < 80 ensures Xor(Bits(a), Bits(b))[k] == (Zeros(67) + Piece1())[k] {
      var i, j := k / 8, k % 8;
      BitAt(a, i, j);
      BitAt(b, i, j);
      if i == 8 {
        assert j == k - 64;
      } else if i == 9 {
        assert j == k - 72;
      }
    }
  }

  lemma StampFlips(rec: seq<byte>)
    requires |rec| == RECORD_SIZE
    ensures Xor(Stamp(rec), Stamp(BoundaryDamage(rec))) == OnesAt({8})
    ensures Xor(ByteBits(rec[10]), ByteBits(TopFlipped(rec[10]))) == [true] + Zeros(7)
  {
    hide ByteBits;
    var bad := BoundaryDamage(rec);
    assert ByteBits(bad[10]) == [!ByteBits(rec[10])[0]] + ByteBits(rec[10])[1..];
  }

  lemma StaysIntact(rec: seq<byte>)
    requires |rec| == RECORD_SIZE && rec[8] == 0 && rec[9] == 0 && Intact(rec)
    ensures Intact(BoundaryDamage(rec))
  {
    CoveredFlips(rec);
    StampFlips(rec);
    BurstLeaves();
    DamageExactly(rec, BoundaryDamage(rec));
    hide Intact, Covering, Stamp, TopFlipped;
    assert BoundaryDamage(rec)[..5] == rec[..5];
  }

  lemma EncodedBytes(channel: seq<RelayState>)
    requires |channel| == MAX_CHANNELS
    ensures Intact(Encode(channel)) && Encode(channel)[9] == 0
    ensures forall i :: 0 <= i < MAX_CHANNELS ==> Encode(channel)[5 + i] == StateByte(channel[i])
  {
    DecodeEncode(channel);
    hide Intact, WordBytes, Checksum;
    forall i | 0 <= i < CRC_OFFSET ensures Encode(channel)[i] == Covered(channel)[i] {
    }
  }

  /** A burst of 14 positions across the boundary goes unseen: the record of any snapshot with channel 3
      off, so damaged, loads as valid with channel 3 on. */
  lemma BoundaryBurstMissed(channel: seq<RelayState>)
    requires |channel| == MAX_CHANNELS && channel[3] == Off
    ensures IsBurst(Flips(Encode(channel), BoundaryDamage(Encode(channel))), 67)
    ensures Decode(Some(BoundaryDamage(Encode(channel)))) == PersistedRelayState(channel[3 := On], true)
  {
    var rec := Encode(channel);
    EncodedBytes(channel);
    hide Intact, Flips, TopFlipped, Encode;
    assert rec[8] == StateByte(channel[3]);
    StaysIntact(rec);
    FlippedLast(rec);
    DecodedStates(BoundaryDamage(rec));
    var got := Decode(Some(BoundaryDamage(rec))).channel;
    hide Decode;
    assert got[3] == ByteState(0x11);
    forall i | 0 <= i < 3 ensures got[i] == channel[i] {
      assert got[i] == ByteState(BoundaryDamage(rec)[5 + i]) == ByteState(rec[5 + i]);
      assert rec[5 + i] == StateByte(channel[i]);
    }
  }

  lemma DecodedStates(rec: seq<byte>)
    requires |rec| == RECORD_SIZE && Intact(rec)
    ensures Decode(Some(rec)).valid && |Decode(Some(rec)).channel| == MAX_CHANNELS
    ensures forall i :: 0 <= i < MAX_CHANNELS ==> Decode(Some(rec)).channel[i] == ByteState(rec[5 + i])
  {
    hide Intact;
  }

  lemma FlippedLast(rec: seq<byte>)
    requires |rec| == RECORD_SIZE && rec[8] == 0 && rec[9] == 0
    ensures IsBurst(Flips(rec, BoundaryDamage(rec)), 67)
  {
    var bad := BoundaryDamage(rec);
    FlipsSplit(rec, bad);
    CoveredFlips(rec);
    StampFlips(rec);
    hide ByteBits, Flips, Covering, TopFlipped;
    var r, b := Bits(rec[CRC_OFFSET..]), Bits(bad[CRC_OFFSET..]);
    forall k | 1 <= k < 16 ensures r[k] == b[k] {
      BitAt(rec[CRC_OFFSET..], k / 8, k % 8);
      BitAt(bad[CRC_OFFSET..], k / 8, k % 8);
      if k < 8 {
        assert Xor(ByteBits(rec[10]), ByteBits(TopFlipped(rec[10])))[k] == ([true] + Zeros(7))[k];
      }
    }
  }
}
