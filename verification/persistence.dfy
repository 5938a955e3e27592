/** The relay snapshot in flash: a versioned, checksummed 12-byte record under one key. */
module Persistence {
  import opened Wrappers
  import opened RelayTypes
  import opened Bytes
  import Crc16

  /** What a key-value store holds. */
  type Blobs = map<string, seq<byte>>

  /** The key-value store seam. A store that is not writable refuses every write. `history` lists
      every content the store has had: what a power cut after each write would have left. */
  class KvStore {
    var blobs: Blobs
    var writable: bool
    ghost var history: seq<Blobs>

    constructor (blobs: Blobs)
      ensures this.blobs == blobs && writable
    {
      this.blobs, writable, history := blobs, true, [blobs];
    }

    method SetBlob(key: string, data: seq<byte>) returns (ok: bool)
      modifies this
      ensures ok == writable == old(writable)
      ensures blobs == if ok then old(blobs)[key := data] else old(blobs)
      ensures history == old(history) + if ok then [blobs] else []
    {
      ok := writable;
      if ok {
        blobs := blobs[key := data];
        history := history + [blobs];
      }
    }

    /** Reads at most `bufLen` bytes; nothing is read for an absent key. */
    method GetBlob(key: string, bufLen: nat) returns (data: seq<byte>)
      ensures data == ReadBlob(if key in blobs then Some(blobs[key]) else None, bufLen)
    {
      if key !in blobs {
        data := [];
      } else if |blobs[key]| <= bufLen {
        data := blobs[key];
      } else {
        data := blobs[key][..bufLen];
      }
    }
  }

  function ReadBlob(blob: Option<seq<byte>>, bufLen: nat): seq<byte> {
    match blob
    case None => []
    case Some(b) => if |b| <= bufLen then b else b[..bufLen]
  }

  const KEY := "relay_state"
  const MAGIC: nat := 0x52535431
  const VERSION: byte := 1
  const CRC_OFFSET: nat := 10
  const RECORD_SIZE: nat := 12

  /** What loading yields: a validity flag and one state per possible channel. */
  datatype PersistedRelayState = PersistedRelayState(channel: seq<RelayState>, valid: bool)

  const INVALID := PersistedRelayState(All(MAX_CHANNELS, Off), false)

  ghost function Checksum(data: seq<byte>): Word { Crc16.Feed(Crc16.INITIAL, Crc16.Bits(data)) }

  function LittleEndian(bytes: seq<byte>): nat {
    if bytes == [] then 0 else bytes[0] as nat + 0x100 * LittleEndian(bytes[1..])
  }

  /** A word in memory: low byte first. */
  function WordBytes(w: Word): (b: seq<byte>)
    ensures |b| == 2
  {
    [BitsByte(w[8..]), BitsByte(w[..8])]
  }

  function BytesWord(b: seq<byte>): Word
    requires |b| == 2
  {
    ByteBits(b[1]) + ByteBits(b[0])
  }

  function StateByte(s: RelayState): byte { if s.On? then 1 else 0 }

  /** The record for a snapshot: magic, version, four states, padding, checksum of all before it. */
  ghost function Encode(channel: seq<RelayState>): (rec: seq<byte>)
    requires |channel| == MAX_CHANNELS
    ensures |rec| == RECORD_SIZE
  {
    var covered := Covered(channel);
    covered + WordBytes(Checksum(covered))
  }

  function Covered(channel: seq<RelayState>): (b: seq<byte>)
    requires |channel| == MAX_CHANNELS
    ensures |b| == CRC_OFFSET
  {
    [0x31, 0x54, 0x53, 0x52, VERSION]
      + seq(MAX_CHANNELS, i requires 0 <= i < MAX_CHANNELS => StateByte(channel[i])) + [0]
  }

  /** A record is intact when its magic, version and checksum are right. */
  ghost predicate Intact(rec: seq<byte>)
    requires |rec| == RECORD_SIZE
  {
    && LittleEndian(rec[..4]) == MAGIC
    && rec[4] == VERSION
    && BytesWord(rec[CRC_OFFSET..]) == Checksum(rec[..CRC_OFFSET])
  }

  ghost function Decode(blob: Option<seq<byte>>): PersistedRelayState {
    var rec := ReadBlob(blob, RECORD_SIZE);
    if |rec| == RECORD_SIZE && Intact(rec)
    then PersistedRelayState(seq(MAX_CHANNELS, i requires 0 <= i < MAX_CHANNELS => ByteState(rec[5 + i])), true)
    else INVALID
  }

  function ByteState(b: byte): RelayState { if b != 0 then On else Off }

  ghost function Stored(blobs: Blobs): Option<seq<byte>> {
    if KEY in blobs then Some(blobs[KEY]) else None
  }

  class FlashDbStatePersistence {
    const kv: KvStore

    constructor (kv: KvStore)
      ensures this.kv == kv
    {
      this.kv := kv;
    }

    method LoadRelayState() returns (out: PersistedRelayState)
      ensures out == Decode(Stored(kv.blobs))
    {
      var rec := kv.GetBlob(KEY, RECORD_SIZE);
      if |rec| != RECORD_SIZE {
        return INVALID;
      }
      if LittleEndian(rec[..4]) != MAGIC {
        return INVALID;
      }
      if rec[4] != VERSION {
        return INVALID;
      }
      var crc := Crc16.Compute(rec[..CRC_OFFSET]);
      if BytesWord(rec[CRC_OFFSET..]) != crc {
        return INVALID;
      }
      var channel := [];
      for ch := 0 to MAX_CHANNELS
        invariant channel == seq(ch, i requires 0 <= i < ch => ByteState(rec[5 + i]))
      {
        channel := channel + [if rec[5 + ch] != 0 then On else Off];
      }
      return PersistedRelayState(channel, true);
    }

    method SaveRelayState(s: PersistedRelayState) returns (r: Status)
      requires |s.channel| == MAX_CHANNELS
      modifies kv
      ensures kv.writable == old(kv.writable)
      ensures r == if kv.writable then Success else Fail(InternalInvariant)
      ensures kv.blobs == if kv.writable then old(kv.blobs)[KEY := Encode(s.channel)] else old(kv.blobs)
      ensures kv.history == old(kv.history) + if kv.writable then [kv.blobs] else []
    {
      var states := [];
      for ch := 0 to MAX_CHANNELS
        invariant states == seq(ch, i requires 0 <= i < ch => StateByte(s.channel[i]))
      {
        states := states + [if s.channel[ch].On? then 1 else 0];
      }
      var rec := [0x31, 0x54, 0x53, 0x52, VERSION] + states + [0];
      assert rec == Covered(s.channel);
      var crc := Crc16.Compute(rec);
      var ok := kv.SetBlob(KEY, rec + WordBytes(crc));
      return if ok then Success else Fail(InternalInvariant);
    }
  }

  // ----- Round trip and damage -----

  lemma WordRoundTrip(w: Word)
    ensures BytesWord(WordBytes(w)) == w
  {
    assert w == w[..8] + w[8..];
  }

  lemma BytesRoundTrip(b: seq<byte>)
    requires |b| == 2
    ensures WordBytes(BytesWord(b)) == b
  {
    BitsByteOfByteBits(b[0]);
    BitsByteOfByteBits(b[1]);
    assert BytesWord(b)[8..] == ByteBits(b[0]) && BytesWord(b)[..8] == ByteBits(b[1]);
  }

  lemma MagicBytes(rec: seq<byte>)
    requires |rec| >= 4 && rec[0] == 0x31 && rec[1] == 0x54 && rec[2] == 0x53 && rec[3] == 0x52
    ensures LittleEndian(rec[..4]) == MAGIC
  {
    var m := rec[..4];
    assert m == [0x31, 0x54, 0x53, 0x52];
    assert LittleEndian([0x52]) == 0x52;
    assert [0x53, 0x52][1..] == [0x52];
    assert LittleEndian([0x53, 0x52]) == 0x5253;
    assert [0x54, 0x53, 0x52][1..] == [0x53, 0x52];
    assert m[1..] == [0x54, 0x53, 0x52];
  }

  /** Saving and loading returns the snapshot. */
  lemma DecodeEncode(channel: seq<RelayState>)
    requires |channel| == MAX_CHANNELS
    ensures Decode(Some(Encode(channel))) == PersistedRelayState(channel, true)
  {
    var rec := Encode(channel);
    var covered := Covered(channel);
    assert rec[..CRC_OFFSET] == covered && rec[CRC_OFFSET..] == WordBytes(Checksum(covered));
    WordRoundTrip(Checksum(covered));
    MagicBytes(rec);
    assert Intact(rec);
    var got := Decode(Some(rec)).channel;
    forall i | 0 <= i < MAX_CHANNELS ensures got[i] == channel[i] {
      assert covered[5 + i] == StateByte(channel[i]);
      assert got[i] == ByteState(rec[5 + i]);
    }
  }

  /** The record byte by byte: the magic's bytes low one first, the version, one byte a channel, padding, and
      the checksum of those ten low byte first. */
  lemma RecordLayout(channel: seq<RelayState>)
    requires |channel| == MAX_CHANNELS
    ensures var rec := Encode(channel);
            var sum := Crc16.Feed(Crc16.INITIAL, Crc16.Bits(rec[..10]));
            && rec[..5] == [0x31, 0x54, 0x53, 0x52, 0x01]
            && (forall i :: 0 <= i < 4 ==> rec[5 + i] == if channel[i] == On then 1 else 0)
            && rec[9] == 0x00
            && rec[10] == BitsByte(sum[8..]) && rec[11] == BitsByte(sum[..8])
  {
    var rec := Encode(channel);
    assert rec[..10] == Covered(channel);
    assert rec[..5] == Covered(channel)[..5];
  }

  /** What loads: a blob whose first twelve bytes have the right magic, version and checksum, a channel being
      on iff its byte is not zero. */
  lemma LoadedExactly(blob: seq<byte>)
    ensures var got := Decode(Some(blob));
            && |got.channel| == 4
            && (got.valid <==>
                && |blob| >= 12
                && blob[..5] == [0x31, 0x54, 0x53, 0x52, 0x01]
                && ByteBits(blob[11]) + ByteBits(blob[10])
                   == Crc16.Feed(Crc16.INITIAL, Crc16.Bits(blob[..10])))
            && (forall i :: 0 <= i < 4 ==> (got.channel[i] == On <==> got.valid && blob[5 + i] != 0))
  {
    if |blob| >= 12 {
      var rec := blob[..12];
      LoadedRecord(rec);
      assert ReadBlob(Some(blob), RECORD_SIZE) == rec;
      assert rec[..10] == blob[..10] && rec[..5] == blob[..5] && rec[11] == blob[11];
      assert Decode(Some(blob)).valid <==> Intact(rec);
      StatesOf(blob, rec);
      hide Intact, Crc16.Feed, ByteBits;
    }
  }

  lemma StatesOf(blob: seq<byte>, rec: seq<byte>)
    requires |blob| >= 12 && rec == blob[..12] && ReadBlob(Some(blob), RECORD_SIZE) == rec
    ensures var got := Decode(Some(blob));
            forall i :: 0 <= i < 4 ==> (got.channel[i] == On <==> got.valid && blob[5 + i] != 0)
  {
    var got := Decode(Some(blob));
    hide Intact;
    if got.valid {
      assert forall i :: 0 <= i < 4 ==> got.channel[i] == ByteState(rec[5 + i]);
    } else {
      assert got.channel == All(MAX_CHANNELS, Off);
    }
  }

  lemma LoadedRecord(rec: seq<byte>)
    requires |rec| == 12
    ensures Intact(rec) <==>
            && rec[..5] == [0x31, 0x54, 0x53, 0x52, 0x01]
            && ByteBits(rec[11]) + ByteBits(rec[10]) == Crc16.Feed(Crc16.INITIAL, Crc16.Bits(rec[..10]))
  {
    MagicExactly(rec);
    assert rec[10..] == [rec[10], rec[11]];
    assert rec[..5] == rec[..4] + [rec[4]];
    hide LittleEndian, Crc16.Feed, Crc16.Bits;
  }

  lemma MagicExactly(rec: seq<byte>)
    requires |rec| >= 4
    ensures LittleEndian(rec[..4]) == MAGIC <==> rec[..4] == [0x31, 0x54, 0x53, 0x52]
  {
    var m := rec[..4];
    assert m[1..][1..][1..] == [m[3]] && m[1..][1..] == [m[2], m[3]] && m[1..] == [m[1], m[2], m[3]];
    assert LittleEndian([m[3]]) == m[3] as nat;
    assert LittleEndian([m[2], m[3]]) == m[2] as nat + 0x100 * m[3] as nat;
    assert LittleEndian(m) == m[0] as nat + 0x100 * (m[1] as nat + 0x100 * (m[2] as nat + 0x100 * m[3] as nat));
  }
}
