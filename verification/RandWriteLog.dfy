/**
The binary form of a random write in the raft log, and how a command is told from one in the other, textual form.
*/
module RandWriteLog {

  type Byte = x: nat | x < 256

  const MAGIC_VERSION := 0xFF
  const UINT64 := 0x1_0000_0000_0000_0000
  const INT64_MAX := 0x7FFF_FFFF_FFFF_FFFF

  /** A record; `offset` and `size` are signed 64-bit, `extentID` and `crc` unsigned. */
  datatype Record = Record(opcode: Byte, extentID: nat, offset: int, size: int, data: seq<Byte>, crc: nat)

  datatype Result = Decoded(record: Record) | EndOfInput | NegativeSize

  predicate InRange(r: Record) {
    && r.extentID < UINT64 && -INT64_MAX - 1 <= r.offset <= INT64_MAX && -INT64_MAX - 1 <= r.size <= INT64_MAX
    && r.crc < 0x1_0000_0000
  }

  // ---------------------------------------------------------------- big endian

  function Pow256(n: nat): nat { if n == 0 then 1 else 256 * Pow256(n - 1) }

  function BigEndian(v: nat, n: nat): (bytes: seq<Byte>)
    ensures |bytes| == n
  {
    if n == 0 then [] else BigEndian(v / 256, n - 1) + [v % 256]
  }

  function FromBigEndian(bytes: seq<Byte>): nat {
    if bytes == [] then 0 else 256 * FromBigEndian(bytes[..|bytes| - 1]) + bytes[|bytes| - 1]
  }

  lemma {:induction false} BigEndianRoundTrip(v: nat, n: nat)
    requires v < Pow256(n)
    ensures FromBigEndian(BigEndian(v, n)) == v
  {
    if n > 0 {
      BigEndianRoundTrip(v / 256, n - 1);
      assert BigEndian(v, n)[..n - 1] == BigEndian(v / 256, n - 1);
    }
  }

  /** The first byte is the most significant one. */
  lemma {:induction false} FirstByteWeighs(bytes: seq<Byte>)
    requires bytes != []
    ensures FromBigEndian(bytes) == bytes[0] * Pow256(|bytes| - 1) + FromBigEndian(bytes[1..])
  {
    var n := |bytes| - 1;
    if n == 0 {
      assert bytes[..0] == [] && bytes[1..] == [];
    } else {
      var init := bytes[..n];
      FirstByteWeighs(init);
      assert bytes[1..][..n - 1] == init[1..];
      assert 256 * (bytes[0] * Pow256(n - 1)) == bytes[0] * Pow256(n);
    }
  }

  lemma Powers()
    ensures Pow256(1) == 256 && Pow256(4) == 0x1_0000_0000 && Pow256(8) == UINT64
  {
    assert Pow256(2) == 0x1_0000 && Pow256(3) == 0x100_0000;
    assert Pow256(5) == 0x100_0000_0000 && Pow256(6) == 0x1_0000_0000_0000 && Pow256(7) == 0x100_0000_0000_0000;
  }

  function Unsigned(v: int): (u: nat)
    requires -INT64_MAX - 1 <= v <= INT64_MAX
    ensures u < UINT64 && (u - v) % UINT64 == 0
  {
    if v < 0 then v + UINT64 else v
  }

  function Signed(v: nat): (s: int)
    ensures v < UINT64 ==> -INT64_MAX - 1 <= s <= INT64_MAX && (v - s) % UINT64 == 0
  {
    if v > INT64_MAX then v - UINT64 else v
  }

  // ---------------------------------------------------------------- the frame

  function Header(r: Record): seq<Byte>
    requires InRange(r)
  {
    BigEndian(MAGIC_VERSION, 4) + [r.opcode] + BigEndian(r.extentID, 8) + BigEndian(Unsigned(r.offset), 8)
    + BigEndian(Unsigned(r.size), 8) + BigEndian(r.crc, 4)
  }

  const HEADER_SIZE := 33

  /** The first `n` bytes, filled up with zeros. */
  function Sized(data: seq<Byte>, n: nat): (sized: seq<Byte>)
    ensures |sized| == n && forall i :: 0 <= i < n ==> sized[i] == if i < |data| then data[i] else 0
  {
    if n <= |data| then data[..n] else data + seq(n - |data|, _ => 0)
  }

  /** A byte buffer that is written at the end and read from the front. */
  class Buffer {
    var bytes: seq<Byte>

    constructor (bytes: seq<Byte>)
      ensures this.bytes == bytes
    {
      this.bytes := bytes;
    }

    method WriteUint(v: nat, n: nat)
      modifies this
      ensures bytes == old(bytes) + BigEndian(v, n)
    {
      bytes := bytes + BigEndian(v, n);
    }

    method ReadUint(n: nat) returns (ok: bool, v: nat)
      modifies this
      ensures ok <==> n <= |old(bytes)|
      ensures ok ==> v == FromBigEndian(old(bytes)[..n]) && bytes == old(bytes)[n..]
    {
      if n > |bytes| {
        return false, 0;
      }
      ok, v := true, FromBigEndian(bytes[..n]);
      bytes := bytes[n..];
    }

    /** Reads up to `n` bytes into a zeroed array; only an empty buffer is an error. */
    method Read(n: nat) returns (ok: bool, data: seq<Byte>)
      modifies this
      ensures ok <==> n == 0 || old(bytes) != []
      ensures ok ==> data == Sized(old(bytes), n)
      ensures ok ==> bytes == if n <= |old(bytes)| then old(bytes)[n..] else []
    {
      if bytes == [] && n > 0 {
        return false, [];
      }
      ok, data := true, Sized(bytes, n);
      bytes := if n <= |bytes| then bytes[n..] else [];
    }
  }

  /** What the source adds to the size for the room it asks for. */
  const FRAME_ROOM := 8 + 8 * 2 + 4 + 4 + 4

  /**
  MarshalRandWriteRaftLog. The room asked for is a signed 64-bit sum, and asking for a negative one panics: that is so
  for sizes below -36, and for those within 36 of the largest, where the sum wraps around.
  */
  method Marshal(r: Record) returns (panicked: bool, result: seq<Byte>)
    requires InRange(r)
    ensures panicked <==> r.size < -36 || r.size > INT64_MAX - 36
    ensures !panicked ==> result == Header(r) + r.data
    ensures !panicked ==>
              && |result| == HEADER_SIZE + |r.data| && result[HEADER_SIZE..] == r.data
              && FromBigEndian(result[..4]) == MAGIC_VERSION && result[4] == r.opcode
              && FromBigEndian(result[5..13]) == r.extentID && FromBigEndian(result[13..21]) == Unsigned(r.offset)
              && FromBigEndian(result[21..29]) == Unsigned(r.size) && FromBigEndian(result[29..33]) == r.crc
  {
    hide BigEndian, FromBigEndian;
    var buff := new Buffer([]);
    if Signed((Unsigned(r.size) + FRAME_ROOM) % UINT64) < 0 {
      return true, [];
    }
    panicked := false;
    buff.WriteUint(MAGIC_VERSION, 4);
    buff.bytes := buff.bytes + [r.opcode];
    buff.WriteUint(r.extentID, 8);
    buff.WriteUint(Unsigned(r.offset), 8);
    buff.WriteUint(Unsigned(r.size), 8);
    buff.WriteUint(r.crc, 4);
    result := buff.bytes + r.data;
    assert result == Header(r) + r.data;
    HeaderValues(r, result);
  }

  /** What UnmarshalRandWriteRaftLog makes of a frame. */
  function Parsed(raw: seq<Byte>): Result {
    if |raw| < HEADER_SIZE then EndOfInput
    else
      var size := Signed(FromBigEndian(raw[21..29]));
      if size < 0 then NegativeSize
      else if size > 0 && |raw| == HEADER_SIZE then EndOfInput
      else
        Decoded(Record(raw[4], FromBigEndian(raw[5..13]), Signed(FromBigEndian(raw[13..21])), size,
                       Sized(raw[HEADER_SIZE..], size), FromBigEndian(raw[29..33])))
  }

  /** UnmarshalRandWriteRaftLog. A negative size makes the allocation of the data panic. */
  method Unmarshal(raw: seq<Byte>) returns (result: Result)
    ensures result == Parsed(raw)
    ensures result.Decoded? ==>
              && |raw| >= HEADER_SIZE && |result.record.data| == result.record.size
              && forall i :: 0 <= i < result.record.size ==>
                   result.record.data[i] == if HEADER_SIZE + i < |raw| then raw[HEADER_SIZE + i] else 0
  {
    var buff := new Buffer(raw);
    var ok, version, opcode, extentID, offset, size, crc;
    ok, version := buff.ReadUint(4);
    if !ok {
      return EndOfInput;
    }
    ok, opcode := buff.ReadUint(1);
    if !ok {
      return EndOfInput;
    }
    ok, extentID := buff.ReadUint(8);
    if !ok {
      return EndOfInput;
    }
    ok, offset := buff.ReadUint(8);
    if !ok {
      return EndOfInput;
    }
    ok, size := buff.ReadUint(8);
    if !ok {
      return EndOfInput;
    }
    ok, crc := buff.ReadUint(4);
    if !ok {
      return EndOfInput;
    }
    Fields(raw);
    assert buff.bytes == raw[HEADER_SIZE..];
    if Signed(size) < 0 {
      return NegativeSize;
    }
    var data;
    ok, data := buff.Read(Signed(size));
    if !ok {
      return EndOfInput;
    }
    result := Decoded(Record(opcode, extentID, Signed(offset), Signed(size), data, crc));
  }

  lemma Fields(raw: seq<Byte>)
    requires |raw| >= HEADER_SIZE
    ensures raw[4..][..1] == [raw[4]] && FromBigEndian([raw[4]]) == raw[4]
    ensures raw[4..][1..][..8] == raw[5..13] && raw[4..][1..][8..][..8] == raw[13..21]
    ensures raw[4..][1..][8..][8..][..8] == raw[21..29] && raw[4..][1..][8..][8..][8..][..4] == raw[29..33]
    ensures raw[4..][1..][8..][8..][8..][4..] == raw[HEADER_SIZE..]
  {
    assert [raw[4]][..0] == [];
  }

  // ---------------------------------------------------------------- round trip

  lemma HeaderFields(r: Record, raw: seq<Byte>)
    requires InRange(r) && raw == Header(r) + r.data
    ensures |raw| >= HEADER_SIZE && raw[4] == r.opcode && raw[..4] == BigEndian(MAGIC_VERSION, 4)
    ensures raw[5..13] == BigEndian(r.extentID, 8) && raw[13..21] == BigEndian(Unsigned(r.offset), 8)
    ensures raw[21..29] == BigEndian(Unsigned(r.size), 8) && raw[29..33] == BigEndian(r.crc, 4)
    ensures raw[HEADER_SIZE..] == r.data
  {
  }

  lemma HeaderValues(r: Record, raw: seq<Byte>)
    requires InRange(r) && raw == Header(r) + r.data
    ensures |raw| == HEADER_SIZE + |r.data| && raw[HEADER_SIZE..] == r.data
    ensures FromBigEndian(raw[..4]) == MAGIC_VERSION && raw[4] == r.opcode
    ensures FromBigEndian(raw[5..13]) == r.extentID && FromBigEndian(raw[13..21]) == Unsigned(r.offset)
    ensures FromBigEndian(raw[21..29]) == Unsigned(r.size) && FromBigEndian(raw[29..33]) == r.crc
  {
    hide BigEndian, FromBigEndian;
    HeaderFields(r, raw);
    Powers();
    BigEndianRoundTrip(MAGIC_VERSION, 4);
    BigEndianRoundTrip(r.extentID, 8);
    BigEndianRoundTrip(Unsigned(r.offset), 8);
    BigEndianRoundTrip(Unsigned(r.size), 8);
    BigEndianRoundTrip(r.crc, 4);
  }

  /**
  Decoding an encoded record gives every field back, and the first `size` bytes of the data, filled up with zeros when
  there are fewer. It fails only for data that is missing altogether and for a negative size.
  */
  lemma RoundTrip(r: Record)
    requires InRange(r)
    ensures r.size < 0 ==> Parsed(Header(r) + r.data) == NegativeSize
    ensures r.size > 0 && r.data == [] ==> Parsed(Header(r) + r.data) == EndOfInput
    ensures 0 <= r.size <= |r.data| ==> Parsed(Header(r) + r.data) == Decoded(r.(data := r.data[..r.size]))
    ensures r.size > |r.data| > 0 ==>
              Parsed(Header(r) + r.data) == Decoded(r.(data := r.data + seq(r.size - |r.data|, _ => 0)))
  {
    hide BigEndian, FromBigEndian;
    HeaderValues(r, Header(r) + r.data);
  }

  // ---------------------------------------------------------------- telling the two forms apart

  /** Apply takes the binary path for commands whose first four bytes are the version. */
  predicate IsBinary(command: seq<Byte>) { |command| >= 4 && FromBigEndian(command[..4]) == MAGIC_VERSION }

  /** A marshalled record takes the binary path. Text, which does not begin with a zero byte, never does. */
  lemma FormsApart(r: Record, text: seq<Byte>)
    requires InRange(r)
    ensures IsBinary(Header(r) + r.data)
    ensures text != [] && text[0] != 0 ==> !IsBinary(text)
  {
    var raw := Header(r) + r.data;
    HeaderValues(r, raw);
    if |text| >= 4 && text[0] != 0 {
      FirstByteWeighs(text[..4]);
    }
  }
}
