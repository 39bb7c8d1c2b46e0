/**
Repair of a tiny extent by streaming: the source answers one request with a sequence of data packets and
hole packets, and the receiver writes them behind what it already has.
*/
module HoleStream {

  type Byte = x: int | 0 <= x < 256

  const PAGE := 4096
  const BLOCK := 131072
  const EXTENT_SIZE := 134217728
  const MB := 1048576
  const MAX_UINT32 := 4294967295

  /** An extent file: its bytes, the pages that are allocated (the others are holes), and the watermark. */
  datatype Extent = Extent(bytes: seq<Byte>, pages: set<nat>, dataSize: nat)

  function RoundUp(n: nat): nat {
    if n % PAGE == 0 then n else n + (PAGE - n % PAGE)
  }

  predicate IsData(e: Extent, i: nat) { i / PAGE in e.pages }

  /** Reading a position: holes and anything past the end of the file read as zero. */
  function ReadAt(e: Extent, i: nat): Byte {
    if i < |e.bytes| then e.bytes[i] else 0
  }

  /** A tiny extent at rest: the watermark is the file size rounded up to a page, and holes hold zeros. */
  ghost predicate Valid(e: Extent) {
    && e.dataSize == RoundUp(|e.bytes|)
    && forall i :: 0 <= i < |e.bytes| && !IsData(e, i) ==> e.bytes[i] == 0
  }

  ghost predicate Agree(a: Extent, b: Extent, n: nat) {
    forall i :: 0 <= i < n ==> ReadAt(a, i) == ReadAt(b, i)
  }

  // ---------------------------------------------------------------- seeking

  datatype Offset = NoData | At(offset: nat)

  /** SEEK_DATA: the first data position at or after `off`, or ENXIO. */
  function SeekData(e: Extent, off: nat): (r: Offset)
    ensures r.At? ==> off <= r.offset < |e.bytes|
    decreases |e.bytes| - off
  {
    if off >= |e.bytes| then NoData else if IsData(e, off) then At(off) else SeekData(e, off + 1)
  }

  lemma {:induction false} SeekDataSkipsHole(e: Extent, off: nat)
    ensures var r := SeekData(e, off);
      && (r.At? ==> IsData(e, r.offset))
      && forall i :: off <= i < (if r.At? then r.offset else |e.bytes|) ==> !IsData(e, i)
    decreases |e.bytes| - off
  {
    if off < |e.bytes| && !IsData(e, off) {
      SeekDataSkipsHole(e, off + 1);
    }
  }

  /** SEEK_HOLE: the first hole position at or after `off`; the end of the file counts as a hole. */
  function SeekHole(e: Extent, off: nat): (end: nat)
    requires off <= |e.bytes|
    ensures off <= end <= |e.bytes|
    decreases |e.bytes| - off
  {
    if off == |e.bytes| || !IsData(e, off) then off else SeekHole(e, off + 1)
  }

  lemma {:induction false} SeekHoleSkipsData(e: Extent, off: nat)
    requires off <= |e.bytes|
    ensures var end := SeekHole(e, off);
      && (end == |e.bytes| || !IsData(e, end))
      && forall i :: off <= i < end ==> IsData(e, i)
    decreases |e.bytes| - off
  {
    if off < |e.bytes| && IsData(e, off) {
      SeekHoleSkipsData(e, off + 1);
    }
  }

  /** GetExtentWithHoleAvailableOffset, with its two clamps and its answer for a trailing hole. */
  function AvailableOffset(e: Extent, off: nat): (r: (nat, nat))
    ensures r.0 <= r.1
    ensures SeekData(e, off).At? ==> off <= r.0 && r.1 <= |e.bytes|
  {
    match SeekData(e, off)
    case NoData => (e.dataSize, e.dataSize)
    case At(start) =>
      var end := SeekHole(e, start);
      var newOffset := if start - off > EXTENT_SIZE then off + EXTENT_SIZE else start;
      var newEnd := if end - newOffset > BLOCK then newOffset + BLOCK else end;
      (newOffset, newEnd)
  }

  // ---------------------------------------------------------------- the sender

  /** A reply packet: `size` bytes of data, or an empty response standing for `holeSize` bytes. */
  datatype Reply = Reply(empty: bool, size: nat, holeSize: nat, available: int, data: seq<Byte>)

  function Span(r: Reply): nat { if r.empty then r.holeSize else r.size }

  /** The block size in force: zero in the configuration stands for the default. */
  function RepairBlock(configured: nat): (block: nat)
    ensures block > 0
  {
    if configured == 0 then BLOCK else configured
  }

  /** The packet sent for position `off`. */
  function Send(e: Extent, block: nat, available: int, off: nat): Reply
    requires off < |e.bytes|
  {
    var (newOffset, newEnd) := AvailableOffset(e, off);
    if newOffset > off then Reply(true, 0, newOffset - off, available, [])
    else
      var n := if newEnd - newOffset < block then newEnd - newOffset else block;
      Reply(false, n, 0, available, e.bytes[off..off + n])
  }

  /** The sender advances from a position inside the file unless that position lies in a trailing hole that starts
      at or after the watermark; there it sends empty data packets for ever. */
  lemma SenderAdvancesIff(e: Extent, block: nat, available: int, off: nat)
    requires off < |e.bytes| && block > 0
    ensures Span(Send(e, block, available, off)) > 0 <==> SeekData(e, off).At? || off < e.dataSize
  {
    SeekDataSkipsHole(e, off);
    if SeekData(e, off).At? && SeekData(e, off).offset == off {
      assert SeekHole(e, off) > off;
    }
  }

  /** Both ends of the position arithmetic: where a packet may start, given that it follows others. */
  ghost predicate Boundary(e: Extent, off: nat) {
    off % PAGE == 0 || off >= |e.bytes| || IsData(e, off)
  }

  /** A run of data or of hole can only end at a page boundary. */
  lemma RunEndsAtPage(e: Extent, i: nat)
    requires i > 0 && IsData(e, i - 1) != IsData(e, i)
    ensures i % PAGE == 0
  {
  }

  lemma HolePacket(e: Extent, block: nat, available: int, off: nat)
    requires Valid(e) && off < |e.bytes| && off % PAGE == 0 && !IsData(e, off)
    ensures
      var r := Send(e, block, available, off);
      var next := off + Span(r);
      && r.empty && off < next <= e.dataSize && next % PAGE == 0
      && (next < |e.bytes| ==> Span(r) <= EXTENT_SIZE)
      && forall i :: off <= i < next ==> ReadAt(e, i) == 0
  {
    HoleEnds(e, block, available, off);
    var next := off + Span(Send(e, block, available, off));
    forall i | off <= i < next ensures ReadAt(e, i) == 0 {
      HoleIsZero(e, block, available, off, i);
    }
  }

  lemma HoleEnds(e: Extent, block: nat, available: int, off: nat)
    requires Valid(e) && off < |e.bytes| && off % PAGE == 0 && !IsData(e, off)
    ensures
      var r := Send(e, block, available, off);
      var next := off + Span(r);
      && r.empty && off < next <= e.dataSize && next % PAGE == 0
      && (next < |e.bytes| ==> Span(r) <= EXTENT_SIZE)
  {
    SeekDataSkipsHole(e, off);
    var sd := SeekData(e, off);
    if sd.At? {
      RunEndsAtPage(e, sd.offset);
      assert (off + EXTENT_SIZE) % PAGE == 0;
    }
  }

  lemma HoleIsZero(e: Extent, block: nat, available: int, off: nat, i: nat)
    requires Valid(e) && off < |e.bytes| && off % PAGE == 0 && !IsData(e, off)
    requires off <= i < off + Span(Send(e, block, available, off))
    ensures ReadAt(e, i) == 0
  {
    SeekDataSkipsHole(e, off);
  }

  lemma DataPacket(e: Extent, block: nat, available: int, off: nat)
    requires off < |e.bytes| && IsData(e, off) && block > 0
    ensures
      var r := Send(e, block, available, off);
      var next := off + Span(r);
      && !r.empty && off < next <= |e.bytes| && Span(r) <= BLOCK
      && Boundary(e, next) && r.data == e.bytes[off..next]
      && (off % PAGE == 0 && (block >= BLOCK || block % PAGE == 0) ==> next % PAGE == 0 || next == |e.bytes|)
  {
    SeekHoleSkipsData(e, off);
    var end := SeekHole(e, off);
    assert end > off;
    if end < |e.bytes| {
      RunEndsAtPage(e, end);
    }
  }

  /** What one packet carries: the source's own bytes for its span, or a hole that reads as zeros. */
  ghost predicate PacketFor(e: Extent, r: Reply, off: nat) {
    var next := off + Span(r);
    && next <= e.dataSize
    && (r.empty ==> off % PAGE == 0 && next % PAGE == 0 && forall i :: off <= i < next ==> ReadAt(e, i) == 0)
    && (!r.empty ==> next <= |e.bytes| && r.data == e.bytes[off..next] && |r.data| == r.size)
    && (next < |e.bytes| ==> Span(r) <= EXTENT_SIZE)
  }

  lemma PacketFacts(e: Extent, block: nat, available: int, off: nat)
    requires Valid(e) && off < |e.bytes| && block > 0 && Boundary(e, off)
    ensures
      var r := Send(e, block, available, off);
      && Span(r) > 0 && Boundary(e, off + Span(r)) && PacketFor(e, r, off) && r.available == available
  {
    if IsData(e, off) {
      DataPacket(e, block, available, off);
    } else {
      HolePacket(e, block, available, off);
    }
  }

  /** The position reached by the first `k` packets of a stream that starts at `start`. */
  function Reached(start: nat, packets: seq<Reply>, k: nat): (off: nat)
    requires k <= |packets|
    ensures off >= start
  {
    if k == 0 then start else Reached(start, packets, k - 1) + Span(packets[k - 1])
  }

  lemma {:induction false} ReachedPrefix(start: nat, packets: seq<Reply>, more: seq<Reply>, k: nat)
    requires k <= |packets|
    ensures Reached(start, packets + more, k) == Reached(start, packets, k)
  {
    if k > 0 {
      ReachedPrefix(start, packets, more, k - 1);
    }
  }

  /** The k-th packet is the one for the position reached before it, and was sent because bytes were still owed. */
  ghost predicate SentAt(e: Extent, block: nat, available: int, start: nat, packets: seq<Reply>, k: nat)
    requires k < |packets|
  {
    var off := Reached(start, packets, k);
    off < start + available && off < |e.bytes| && packets[k] == Send(e, block, available, off)
  }

  ghost predicate SentFrom(e: Extent, block: nat, available: int, start: nat, packets: seq<Reply>) {
    forall k :: 0 <= k < |packets| ==> SentAt(e, block, available, start, packets, k)
  }

  lemma SentSnoc(e: Extent, block: nat, available: int, start: nat, packets: seq<Reply>, r: Reply)
    requires SentFrom(e, block, available, start, packets)
    requires var off := Reached(start, packets, |packets|);
      off < start + available && off < |e.bytes| && r == Send(e, block, available, off)
    ensures SentFrom(e, block, available, start, packets + [r])
    ensures Reached(start, packets + [r], |packets| + 1) == Reached(start, packets, |packets|) + Span(r)
  {
    ReachedPrefix(start, packets, [r], |packets|);
    forall k | 0 <= k < |packets| + 1 ensures SentAt(e, block, available, start, packets + [r], k) {
      ReachedPrefix(start, packets, [r], k);
      if k < |packets| {
        assert SentAt(e, block, available, start, packets, k);
      }
    }
  }

  lemma {:induction false} ReachedBoundary(e: Extent, block: nat, available: int, start: nat, packets: seq<Reply>,
                                           k: nat)
    requires Valid(e) && block > 0 && Boundary(e, start) && SentFrom(e, block, available, start, packets)
    requires k <= |packets|
    ensures Boundary(e, Reached(start, packets, k))
  {
    if k > 0 {
      ReachedBoundary(e, block, available, start, packets, k - 1);
      assert SentAt(e, block, available, start, packets, k - 1);
      PacketFacts(e, block, available, Reached(start, packets, k - 1));
    }
  }

  /** The reply loop of ExtentWithHoleRepairRead. `size` is the packet's uint32 size field. The loop ends, and it ends
      as soon as the bytes owed (the requested size, cut off at the end of the file) have been sent. */
  method RepairRead(e: Extent, configuredBlock: nat, offset: nat, size: nat) returns (available: int,
                    packets: seq<Reply>)
    requires Valid(e) && Boundary(e, offset) && size <= MAX_UINT32
    ensures available == if offset + size > |e.bytes| then |e.bytes| - offset else size
    ensures SentFrom(e, RepairBlock(configuredBlock), available, offset, packets)
    ensures Reached(offset, packets, |packets|) >= offset + available
  {
    var block := RepairBlock(configuredBlock);
    var need: int := size;
    if offset + size > |e.bytes| {
      need := |e.bytes| - offset;
    }
    available := need;
    packets := [];
    var off: nat := offset;
    while need > 0
      invariant off == Reached(offset, packets, |packets|) && off + need == offset + available
      invariant SentFrom(e, block, available, offset, packets)
      decreases need
    {
      ReachedBoundary(e, block, available, offset, packets, |packets|);
      PacketFacts(e, block, available, off);
      var r := Send(e, block, available, off);
      SentSnoc(e, block, available, offset, packets, r);
      packets := packets + [r];
      need := need - Span(r);
      off := off + Span(r);
    }
  }

  /** What a packet stands for. */
  function Expand(r: Reply): seq<Byte> {
    if r.empty then seq(r.holeSize, _ => 0) else r.data
  }

  /** What the first `k` packets stand for, end to end. */
  function ExpandAll(packets: seq<Reply>, k: nat): seq<Byte>
    requires k <= |packets|
  {
    if k == 0 then [] else ExpandAll(packets, k - 1) + Expand(packets[k - 1])
  }

  lemma ExpandIsSource(e: Extent, r: Reply, off: nat)
    requires PacketFor(e, r, off)
    ensures |Expand(r)| == Span(r) && forall i :: 0 <= i < Span(r) ==> Expand(r)[i] == ReadAt(e, off + i)
  {
  }

  /** The packets stand for exactly the source's bytes from the requested offset on, without gap or overlap. */
  lemma {:induction false} StreamIsSource(e: Extent, block: nat, available: int, start: nat, packets: seq<Reply>,
                                          k: nat)
    requires Valid(e) && block > 0 && Boundary(e, start) && SentFrom(e, block, available, start, packets)
    requires k <= |packets|
    ensures |ExpandAll(packets, k)| == Reached(start, packets, k) - start
    ensures forall i :: 0 <= i < |ExpandAll(packets, k)| ==> ExpandAll(packets, k)[i] == ReadAt(e, start + i)
  {
    if k > 0 {
      StreamIsSource(e, block, available, start, packets, k - 1);
      NextPacketFits(e, block, available, start, packets, k - 1);
      ExpandIsSource(e, packets[k - 1], Reached(start, packets, k - 1));
    }
  }

  // ---------------------------------------------------------------- the receiver

  datatype Outcome = Repaired | OffsetInvalid | OffsetNotEqual | PastEndOfFile | NoMorePackets

  function Padded(bytes: seq<Byte>, n: nat): (r: seq<Byte>)
    ensures |r| == if n < |bytes| then |bytes| else n
    ensures forall i :: 0 <= i < |r| ==> r[i] == if i < |bytes| then bytes[i] else 0
  {
    if n <= |bytes| then bytes else bytes + seq(n - |bytes|, _ => 0)
  }

  function PagesOf(offset: nat, size: nat): (pages: set<nat>)
    ensures forall i :: offset <= i < offset + size ==> i / PAGE in pages
    ensures forall p :: p in pages ==> offset / PAGE <= p
  {
    if size == 0 then {} else PagesOf(offset, size - 1) + {(offset + size - 1) / PAGE}
  }

  class TinyExtent {
    var bytes: seq<Byte>
    var pages: set<nat>
    var dataSize: nat

    function Value(): Extent
      reads this
    {
      Extent(bytes, pages, dataSize)
    }

    constructor (e: Extent)
      ensures Value() == e
    {
      bytes, pages, dataSize := e.bytes, e.pages, e.dataSize;
    }

    /** Writes one packet at `offset`: data in place, or a hole by growing the file, which is only allowed at the
        watermark, on a page boundary and not before the end of the file. The watermark moves to the next page. */
    method Recover(offset: nat, size: nat, data: seq<Byte>, empty: bool) returns (outcome: Outcome)
      requires !empty ==> |data| == size
      modifies this
      ensures outcome ==
        if !empty then Repaired else if offset % PAGE != 0 then OffsetInvalid
        else if offset != old(dataSize) then OffsetNotEqual
        else if offset < |old(bytes)| then PastEndOfFile else Repaired
      ensures outcome != Repaired ==> unchanged(this)
      ensures outcome == Repaired ==> dataSize == RoundUp(offset + size)
      ensures outcome == Repaired && |old(bytes)| <= offset ==>
        bytes == Padded(old(bytes), offset) + (if empty then Padded([], size) else data)
      ensures outcome == Repaired ==> forall i :: 0 <= i < offset ==> ReadAt(Value(), i) == ReadAt(old(Value()), i)
      ensures outcome == Repaired ==>
        pages == if empty then old(pages) - PagesOf(offset, size) else old(pages) + PagesOf(offset, size)
    {
      if empty {
        if offset % PAGE != 0 {
          return OffsetInvalid;
        }
        if offset != dataSize {
          return OffsetNotEqual;
        }
        if offset < |bytes| {
          return PastEndOfFile;
        }
        bytes := Padded(bytes, offset + size);
        pages := pages - PagesOf(offset, size);
      } else {
        var grown := Padded(bytes, offset + size);
        bytes := grown[..offset] + data + grown[offset + size..];
        pages := pages + PagesOf(offset, size);
      }
      dataSize := RoundUp(offset + size);
      outcome := Repaired;
    }

    /** A packet of the stream is always accepted where the receiver stands, and extends the agreement by its span. */
    method RecoverPacket(src: Extent, reply: Reply, off: nat) returns (outcome: Outcome)
      requires PacketFor(src, reply, off) && Span(reply) > 0 && InStep(Value(), src, off)
      modifies this
      ensures outcome == Repaired
      ensures InStep(Value(), src, off + Span(reply)) && |bytes| == off + Span(reply)
      ensures Agree(Value(), old(Value()), off)
    {
      ghost var before := Value();
      outcome := Recover(off, Span(reply), reply.data, reply.empty);
      ghost var e := Value();
      forall i | 0 <= i < off + Span(reply) ensures ReadAt(e, i) == ReadAt(src, i) {
        if i < off {
          assert ReadAt(e, i) == ReadAt(before, i);
        } else if !reply.empty {
          assert e.bytes[i] == reply.data[i - off];
        }
      }
      forall i | 0 <= i < |e.bytes| && !IsData(e, i) ensures e.bytes[i] == 0 {
        if i < off {
          assert e.bytes[i] == ReadAt(before, i);
        }
      }
    }

    /** One repair of this extent from `src`, whose watermark is the size the repair plan names: one request, and the
        receive loop, whose counters go through the packet's uint32 size field. */
    method StreamRepair(src: Extent, configuredBlock: nat)
      returns (outcome: Outcome, unread: int, ghost packets: seq<Reply>)
      requires Valid(src) && Valid(Value()) && Agree(Value(), src, dataSize)
      modifies this
      ensures outcome == Repaired && unread == 0
      ensures old(dataSize) < src.dataSize ==>
        Answered(src, RepairBlock(configuredBlock), old(dataSize), RequestSize(old(dataSize), src), packets, Value())
      ensures Agree(Value(), old(Value()), old(dataSize))
      ensures Agree(Value(), src, |bytes|) && Valid(Value())
      ensures old(dataSize) <= src.dataSize < old(dataSize) + MAX_UINT32 ==> Complete(Value(), src)
      ensures configuredBlock == 0 || EndsOnPages(configuredBlock) ==>
        && Agree(Value(), src, dataSize)
        && (dataSize == src.dataSize || dataSize >= old(dataSize) + MAX_UINT32 - MB || old(dataSize) > src.dataSize)
      ensures dataSize <= (if old(dataSize) > src.dataSize then old(dataSize) else src.dataSize)
    {
      BlockInForce(configuredBlock);
      hide EndsOnPages, Complete, SentFrom;
      packets := [];
      RestsOnPage(Value());
      RestsOnPage(src);
      var dstOffset := src.dataSize;
      if dataSize >= dstOffset {
        SameEnd(Value(), src);
        return Repaired, 0, packets;
      }
      var sizeDiff := dstOffset - dataSize;
      if sizeDiff >= MAX_UINT32 {
        sizeDiff := MAX_UINT32 - MB;
      }
      var start := dataSize;
      var available, replies := RepairRead(src, configuredBlock, start, sizeDiff);
      packets := replies;
      PageBelow(start, |src.bytes|);
      outcome, unread := ReceiveStream(src, configuredBlock, start, dstOffset, available, replies);
      RepairDone(src, RepairBlock(configuredBlock), start, replies, Value());
    }

    /** One turn of the receive loop. */
    method ReceivePacket(src: Extent, configuredBlock: nat, start: nat, available: int, packets: seq<Reply>, k: nat)
      returns (outcome: Outcome)
      requires Valid(src) && start % PAGE == 0 && k < |packets| && start + available <= |src.bytes|
      requires InStep(Value(), src, Reached(start, packets, k))
      requires SentFrom(src, RepairBlock(configuredBlock), available, start, packets)
      requires Reached(start, packets, |packets|) >= start + available
      modifies this
      ensures outcome == Repaired && packets[k].available == available
      ensures
        var off, next := Reached(start, packets, k), Reached(start, packets, k + 1);
        && next == off + Span(packets[k]) && (next >= start + available <==> k + 1 == |packets|)
        && (next < start + available ==> Span(packets[k]) <= EXTENT_SIZE)
        && InStep(Value(), src, next) && |bytes| == next && Agree(Value(), old(Value()), off)
    {
      NextPacketFits(src, RepairBlock(configuredBlock), available, start, packets, k);
      NextPacketLast(src, RepairBlock(configuredBlock), available, start, packets, k);
      outcome := RecoverPacket(src, packets[k], Reached(start, packets, k));
    }

    /** The receive loop of streamRepairExtent. It never fails, and it stops exactly on the last packet sent. */
    method ReceiveStream(src: Extent, configuredBlock: nat, start: nat, dstOffset: nat, available: int,
                         packets: seq<Reply>)
      returns (outcome: Outcome, unread: int)
      requires Valid(src) && start % PAGE == 0 && InStep(Value(), src, start)
      requires 0 < available && start + available <= dstOffset && start + available <= |src.bytes|
      requires SentFrom(src, RepairBlock(configuredBlock), available, start, packets)
      requires Reached(start, packets, |packets|) >= start + available
      modifies this
      ensures outcome == Repaired && unread == 0
      ensures InStep(Value(), src, Reached(start, packets, |packets|)) && |bytes| == Reached(start, packets, |packets|)
      ensures Agree(Value(), old(Value()), start)
    {
      hide InStep, Agree, SentFrom, Valid, ReadAt;
      AgreeItself(Value(), start);
      outcome := Repaired;
      var currFixOffset: nat := start;
      var hasRecoverySize: nat := 0;
      var k := 0;
      while currFixOffset < dstOffset
        invariant k <= |packets| && outcome == Repaired
        invariant currFixOffset == start + hasRecoverySize == Reached(start, packets, k)
        invariant hasRecoverySize < available
        invariant InStep(Value(), src, currFixOffset)
        invariant Agree(Value(), old(Value()), start)
        decreases |packets| - k
      {
        if k == |packets| {
          return NoMorePackets, 0;
        }
        var reply := packets[k];
        var currRecoverySize := if reply.empty then reply.holeSize else reply.size;
        ghost var before := Value();
        outcome := ReceivePacket(src, configuredBlock, start, available, packets, k);
        AgreeThrough(Value(), before, old(Value()), start, currFixOffset);
        k := k + 1;
        if hasRecoverySize + currRecoverySize >= reply.available {
          break;
        }
        if outcome != Repaired {
          return outcome, |packets| - k;
        }
        var replySize := currRecoverySize % (MAX_UINT32 + 1);
        hasRecoverySize := hasRecoverySize + replySize;
        currFixOffset := currFixOffset + replySize;
        if currFixOffset >= dstOffset {
          break;
        }
      }
      unread := |packets| - k;
    }
  }

  /** Repair rounds, each bounded by one request, make an extent of any size equal to its source. */
  method RepairUntilEqual(local: TinyExtent, src: Extent, configuredBlock: nat) returns (outcome: Outcome)
    requires Valid(src) && Valid(local.Value()) && Agree(local.Value(), src, local.dataSize)
    requires local.dataSize <= src.dataSize && (configuredBlock == 0 || EndsOnPages(configuredBlock))
    modifies local
    ensures outcome == Repaired && Complete(local.Value(), src)
  {
    outcome := Repaired;
    var unread := 0;
    ghost var packets;
    while local.dataSize < src.dataSize
      invariant Valid(local.Value()) && Agree(local.Value(), src, local.dataSize)
      invariant local.dataSize <= src.dataSize && outcome == Repaired
      decreases src.dataSize - local.dataSize
    {
      outcome, unread, packets := local.StreamRepair(src, configuredBlock);
    }
    SameEnd(local.Value(), src);
  }

  /** The next packet fits where the receiver stands. */
  lemma NextPacketFits(e: Extent, block: nat, available: int, start: nat, packets: seq<Reply>, k: nat)
    requires Valid(e) && block > 0 && Boundary(e, start) && k < |packets|
    requires SentFrom(e, block, available, start, packets)
    ensures
      var r, off := packets[k], Reached(start, packets, k);
      && r.available == available && Span(r) > 0 && PacketFor(e, r, off)
      && off < start + available
  {
    ReachedBoundary(e, block, available, start, packets, k);
    assert SentAt(e, block, available, start, packets, k);
    PacketFacts(e, block, available, Reached(start, packets, k));
  }

  /** ... and it is the last one exactly when it completes what is owed. */
  lemma NextPacketLast(e: Extent, block: nat, available: int, start: nat, packets: seq<Reply>, k: nat)
    requires SentFrom(e, block, available, start, packets) && k < |packets|
    requires Reached(start, packets, |packets|) >= start + available
    ensures Reached(start, packets, k + 1) == Reached(start, packets, k) + Span(packets[k])
    ensures Reached(start, packets, k + 1) >= start + available <==> k + 1 == |packets|
  {
    if k + 1 < |packets| {
      assert SentAt(e, block, available, start, packets, k + 1);
    }
  }

  // ---------------------------------------------------------------- where a stream ends

  /** The size of the request that a repair from `start` makes, as the packet's size field can hold it. */
  function RequestSize(start: nat, src: Extent): nat
    requires start < src.dataSize
  {
    if src.dataSize - start >= MAX_UINT32 then MAX_UINT32 - MB else src.dataSize - start
  }

  /** The request for `size` bytes from `start` was answered by the packets, and all of them were received. */
  ghost predicate Answered(src: Extent, block: nat, start: nat, size: nat, packets: seq<Reply>, local: Extent) {
    var available := if start + size > |src.bytes| then |src.bytes| - start else size;
    && SentFrom(src, block, available, start, packets)
    && Reached(start, packets, |packets|) >= start + available
    && InStep(local, src, Reached(start, packets, |packets|)) && |local.bytes| == Reached(start, packets, |packets|)
  }

  /**
  The blocks with which a stream cut short by the size of its request still ends on a page: blocks that are a whole
  number of pages, or larger than what one packet may hold, and blocks that divide a page, because the request is one
  byte short of a page. Single bytes are the exception.
  */
  predicate EndsOnPages(block: nat) {
    block >= BLOCK || block % PAGE == 0 || (block > 1 && PAGE % block == 0)
  }

  lemma BlockInForce(configured: nat)
    ensures EndsOnPages(RepairBlock(configured)) <==> configured == 0 || EndsOnPages(configured)
  {
  }

  lemma {:induction false} EndBelow(e: Extent, block: nat, available: int, start: nat, packets: seq<Reply>, k: nat)
    requires Valid(e) && block > 0 && start % PAGE == 0 && SentFrom(e, block, available, start, packets)
    requires k <= |packets|
    ensures Reached(start, packets, k) <= (if start > e.dataSize then start else e.dataSize)
  {
    if k > 0 {
      NextPacketFits(e, block, available, start, packets, k - 1);
    }
  }

  /** What every packet ends on: a whole number of steps, where a step is a page or divides one. */
  predicate InSteps(e: Extent, step: nat, off: nat) { step > 0 && (off % step == 0 || off >= |e.bytes|) }

  lemma MulMono(a: nat, b: nat, d: nat)
    ensures a <= b ==> a * d <= b * d
  {
    if a <= b {
      assert b * d == a * d + (b - a) * d;
    }
  }

  lemma QuotientUnique(n: nat, q: nat, r: nat, d: nat)
    requires r < d && n == q * d + r
    ensures n % d == r
  {
    var p := n / d;
    assert n == p * d + n % d;
    MulMono(p + 1, q, d);
    MulMono(q + 1, p, d);
    assert (p + 1) * d == p * d + d && (q + 1) * d == q * d + d;
  }

  lemma MultipleIs(q: nat, d: nat)
    requires d > 0
    ensures (q * d) % d == 0
  {
    QuotientUnique(q * d, q, 0, d);
  }

  lemma MultipleOfDivisor(n: nat, d: nat, m: nat)
    requires d > 0 && m > 0 && n % m == 0 && m % d == 0
    ensures n % d == 0
  {
    var q, r := n / m, m / d;
    assert n == q * m && m == r * d;
    assert q * (r * d) == (q * r) * d;
    MultipleIs(q * r, d);
  }

  lemma SumOfMultiples(a: nat, b: nat, d: nat)
    requires d > 0 && a % d == 0 && b % d == 0
    ensures (a + b) % d == 0
  {
    var q, r := a / d, b / d;
    assert a == q * d && b == r * d;
    assert (q + r) * d == q * d + r * d;
    MultipleIs(q + r, d);
  }

  /** One packet keeps to the steps. */
  lemma PacketInSteps(e: Extent, block: nat, step: nat, available: int, off: nat)
    requires Valid(e) && off < |e.bytes| && Boundary(e, off) && block > 0 && InSteps(e, step, off)
    requires PAGE % step == 0 && (if block >= BLOCK then step == PAGE else block % step == 0)
    ensures InSteps(e, step, off + Span(Send(e, block, available, off)))
  {
    var next := off + Span(Send(e, block, available, off));
    if IsData(e, off) {
      DataSteps(e, block, available, off);
      if next % PAGE == 0 {
        MultipleOfDivisor(next, step, PAGE);
      } else if next == off + block {
        SumOfMultiples(off, block, step);
      }
    } else {
      HolePacket(e, block, available, off);
      MultipleOfDivisor(next, step, PAGE);
    }
  }

  /** A data packet is a whole block, or ends with its run of data, or holds as much as a packet may. */
  lemma DataSteps(e: Extent, block: nat, available: int, off: nat)
    requires off < |e.bytes| && IsData(e, off) && block > 0
    ensures var n := Span(Send(e, block, available, off));
      && n <= block
      && (|| off + n >= |e.bytes| || (off + n) % PAGE == 0
          || (n == block && block < BLOCK) || (n == BLOCK && block >= BLOCK))
  {
    SeekHoleSkipsData(e, off);
    var end := SeekHole(e, off);
    assert end > off;
    if end < |e.bytes| {
      RunEndsAtPage(e, end);
    }
  }

  lemma {:induction false} StreamInSteps(e: Extent, block: nat, step: nat, available: int, start: nat,
                                         packets: seq<Reply>, k: nat)
    requires Valid(e) && block > 0 && start % PAGE == 0 && SentFrom(e, block, available, start, packets)
    requires k <= |packets| && step > 0 && PAGE % step == 0
    requires if block >= BLOCK then step == PAGE else block % step == 0
    ensures InSteps(e, step, Reached(start, packets, k))
  {
    if k == 0 {
      MultipleOfDivisor(start, step, PAGE);
    } else {
      StreamInSteps(e, block, step, available, start, packets, k - 1);
      ReachedBoundary(e, block, available, start, packets, k - 1);
      assert SentAt(e, block, available, start, packets, k - 1);
      PacketInSteps(e, block, step, available, Reached(start, packets, k - 1));
    }
  }

  lemma NextMultiple(n: nat, m: nat, d: nat)
    requires d > 0 && n % d == 0 && m % d == 0 && n < m
    ensures n + d <= m
  {
    var q, r := n / d, m / d;
    assert n == q * d && m == r * d;
    MulMono(r, q, d);
    MulMono(q + 1, r, d);
    assert (q + 1) * d == q * d + d;
  }

  lemma BeforeMultiple(n: nat, d: nat)
    requires d > 1 && (n + 1) % d == 0
    ensures n % d != 0
  {
    if n % d == 0 {
      NextMultiple(n, n + 1, d);
    }
  }

  /** A request one byte short of a page is filled up to the page when the block divides it. */
  lemma DividingBlockEnds(e: Extent, block: nat, size: nat, start: nat, packets: seq<Reply>)
    requires Valid(e) && 1 < block < BLOCK && PAGE % block == 0 && start % PAGE == 0 && (size + 1) % PAGE == 0
    requires SentFrom(e, block, size, start, packets) && packets != []
    requires Reached(start, packets, |packets|) >= start + size
    ensures InSteps(e, PAGE, Reached(start, packets, |packets|))
  {
    var n := |packets| - 1;
    var off, owed := Reached(start, packets, n), start + size + 1;
    var next := Reached(start, packets, n + 1);
    BlockDivides(block);
    StreamInSteps(e, block, block, size, start, packets, n);
    StreamInSteps(e, block, block, size, start, packets, n + 1);
    assert SentAt(e, block, size, start, packets, n);
    ReachedBoundary(e, block, size, start, packets, n);
    SumOfMultiples(start, size + 1, PAGE);
    MultipleOfDivisor(owed, block, PAGE);
    NextMultiple(off, owed, block);
    if IsData(e, off) {
      DataSteps(e, block, size, off);
      BeforeMultiple(owed - 1, block);
    } else {
      HolePacket(e, block, size, off);
    }
  }

  lemma BlockDivides(block: nat)
    requires block > 0
    ensures block % block == 0
  {
    MultipleIs(1, block);
  }

  /** What is sent of a request that goes up to the end of the file, or is cut short of it. */
  lemma Available(src: Extent, start: nat)
    requires Valid(src) && start % PAGE == 0 && start < src.dataSize
    ensures start < |src.bytes| <= src.dataSize < |src.bytes| + PAGE
    ensures src.dataSize - start >= MAX_UINT32 ==> start + RequestSize(start, src) <= |src.bytes|
    ensures src.dataSize - start < MAX_UINT32 ==> start + RequestSize(start, src) == src.dataSize
  {
    PageBelow(start, |src.bytes|);
  }

  /** A stream cut short by its request ends on a page for the blocks that allow it. */
  lemma CappedEnd(src: Extent, block: nat, start: nat, packets: seq<Reply>)
    requires Valid(src) && block > 0 && EndsOnPages(block) && start % PAGE == 0
    requires SentFrom(src, block, MAX_UINT32 - MB, start, packets)
    requires Reached(start, packets, |packets|) >= start + MAX_UINT32 - MB
    ensures InSteps(src, PAGE, Reached(start, packets, |packets|))
  {
    hide SentFrom, Valid;
    if block >= BLOCK || block % PAGE == 0 {
      StreamInSteps(src, block, PAGE, MAX_UINT32 - MB, start, packets, |packets|);
    } else {
      DividingBlockEnds(src, block, MAX_UINT32 - MB, start, packets);
    }
  }

  /** Where a repair ends: with the file, or at the size of its request, on a page for the blocks that allow it. */
  lemma StreamEnd(src: Extent, block: nat, start: nat, packets: seq<Reply>, local: Extent)
    requires Valid(src) && block > 0 && start % PAGE == 0 && start < src.dataSize
    requires Answered(src, block, start, RequestSize(start, src), packets, local)
    ensures var end := Reached(start, packets, |packets|);
      && end <= src.dataSize
      && (src.dataSize - start < MAX_UINT32 ==> end >= |src.bytes|)
      && (src.dataSize - start >= MAX_UINT32 ==> end >= start + MAX_UINT32 - MB)
      && (EndsOnPages(block) ==> InSteps(src, PAGE, end))
  {
    hide SentFrom, Valid, EndsOnPages, Reached, InStep;
    Available(src, start);
    var size := RequestSize(start, src);
    var available := if start + size > |src.bytes| then |src.bytes| - start else size;
    EndBelow(src, block, available, start, packets, |packets|);
    if src.dataSize - start >= MAX_UINT32 && EndsOnPages(block) {
      CappedEnd(src, block, start, packets);
    }
  }

  /** What one repair has achieved. */
  lemma RepairDone(src: Extent, block: nat, start: nat, packets: seq<Reply>, local: Extent)
    requires Valid(src) && block > 0 && start % PAGE == 0 && start < src.dataSize
    requires Answered(src, block, start, RequestSize(start, src), packets, local)
    ensures Agree(local, src, |local.bytes|) && Valid(local) && local.dataSize <= src.dataSize
    ensures src.dataSize < start + MAX_UINT32 ==> Complete(local, src)
    ensures EndsOnPages(block) ==>
      Agree(local, src, local.dataSize) && (local.dataSize == src.dataSize || local.dataSize >= start + MAX_UINT32 - MB)
  {
    hide EndsOnPages, SentFrom;
    StreamEnd(src, block, start, packets, local);
    StreamFinished(local, src, Reached(start, packets, |packets|));
    RoundedBelow(Reached(start, packets, |packets|), |src.bytes|);
  }

  lemma RoundedBelow(n: nat, size: nat)
    ensures n <= RoundUp(size) ==> RoundUp(n) <= RoundUp(size)
    ensures RoundUp(n) >= n
  {
  }

  /** An extent at rest has its watermark on a page, at or after its end. */
  lemma RestsOnPage(e: Extent)
    requires Valid(e)
    ensures e.dataSize % PAGE == 0 && |e.bytes| <= e.dataSize == RoundUp(|e.bytes|)
  {
  }

  // ---------------------------------------------------------------- every other block leaves a gap

  /** A file that is a hole up to `from` and holds ones from there on. */
  function OnesFrom(from: nat, n: nat): Extent
    requires from <= n
  {
    Extent(seq(n, i => if i < from then 0 else 1), PagesOf(from, n - from), RoundUp(n))
  }

  /** The page in which a capped request for an extent from its beginning ends, and a file that goes on far enough. */
  const LAST_PAGE := MAX_UINT32 - MB - (PAGE - 1)
  const LONG := MAX_UINT32 + PAGE

  lemma OnesFromData(from: nat, n: nat, i: nat)
    requires from <= n && from % PAGE == 0
    ensures i < from ==> !IsData(OnesFrom(from, n), i)
    ensures from <= i < n ==> IsData(OnesFrom(from, n), i)
    ensures Valid(OnesFrom(from, n))
  {
    var e := OnesFrom(from, n);
    forall k | 0 <= k < n && !IsData(e, k) ensures e.bytes[k] == 0 {
      assert k < from;
    }
  }

  /** Before the ones the sender only sends holes, up to where they begin; then only whole blocks. */
  lemma OnesFromPacket(block: nat, available: int, off: nat)
    requires 0 < block < BLOCK && off < LAST_PAGE + 2 * BLOCK
    ensures var next := off + Span(Send(OnesFrom(LAST_PAGE, LONG), block, available, off));
      if off < LAST_PAGE then next <= LAST_PAGE else next == off + block
  {
    var e := OnesFrom(LAST_PAGE, LONG);
    OnesFromData(LAST_PAGE, LONG, off);
    OnesFromData(LAST_PAGE, LONG, LAST_PAGE);
    SeekDataSkipsHole(e, off);
    if off < LAST_PAGE {
      var r := SeekData(e, off);
      assert r.At? && r.offset <= LAST_PAGE;
      OnesFromData(LAST_PAGE, LONG, r.offset);
    } else {
      SeekHoleSkipsData(e, off);
      OnesFromData(LAST_PAGE, LONG, SeekHole(e, off));
    }
  }

  /** The stream of that file: it reaches the ones exactly, and goes on block by block. */
  lemma {:induction false} OnesFromStream(block: nat, available: int, packets: seq<Reply>, k: nat) returns (j: nat)
    requires 0 < block < BLOCK && available == MAX_UINT32 - MB && k <= |packets|
    requires SentFrom(OnesFrom(LAST_PAGE, LONG), block, available, 0, packets)
    ensures Reached(0, packets, k) < LAST_PAGE || Reached(0, packets, k) == LAST_PAGE + j * block
    ensures k > 0 && Reached(0, packets, k - 1) >= LAST_PAGE ==>
              j > 0 && Reached(0, packets, k - 1) == LAST_PAGE + (j - 1) * block
  {
    j := 0;
    if k > 0 {
      var i := OnesFromStream(block, available, packets, k - 1);
      assert SentAt(OnesFrom(LAST_PAGE, LONG), block, available, 0, packets, k - 1);
      OnesFromPacket(block, available, Reached(0, packets, k - 1));
      if Reached(0, packets, k - 1) >= LAST_PAGE {
        j := i + 1;
        assert j * block == i * block + block;
      }
    }
  }

  /** The first multiple of a block at or after the last byte of a page is a page only for the blocks that allow it. */
  lemma NotAPage(block: nat, j: nat, before: nat, after: nat)
    requires 0 < block < BLOCK && !EndsOnPages(block) && j > 0
    requires before == (j - 1) * block && after == j * block && before < PAGE - 1 <= after
    ensures after % PAGE != 0 && after == before + block
  {
    assert after == before + block;
    MulMono(1, j - 1, block);
    MultipleIs(j, block);
  }

  lemma PagesOn(v: nat)
    ensures (LAST_PAGE + v) % PAGE == v % PAGE
  {
  }

  /** For every other block there is a source that a capped request leaves wrong below the new watermark. */
  lemma OtherBlocksLeaveGap(block: nat, packets: seq<Reply>, local: Extent)
    requires 0 < block < BLOCK && !EndsOnPages(block)
    requires Answered(OnesFrom(LAST_PAGE, LONG), block, 0, MAX_UINT32 - MB, packets, local)
    ensures !Agree(local, OnesFrom(LAST_PAGE, LONG), local.dataSize)
    ensures local.dataSize < OnesFrom(LAST_PAGE, LONG).dataSize
  {
    hide EndsOnPages, Send;
    var e, n := OnesFrom(LAST_PAGE, LONG), |packets|;
    var end := Reached(0, packets, n);
    GapEnd(block, packets);
    assert ReadAt(e, end) == 1 && ReadAt(local, end) == 0;
  }

  lemma GapEnd(block: nat, packets: seq<Reply>)
    requires 0 < block < BLOCK && !EndsOnPages(block)
    requires SentFrom(OnesFrom(LAST_PAGE, LONG), block, MAX_UINT32 - MB, 0, packets)
    requires Reached(0, packets, |packets|) >= MAX_UINT32 - MB
    ensures var end := Reached(0, packets, |packets|);
      end % PAGE != 0 && LAST_PAGE <= end < MAX_UINT32 - MB + BLOCK
  {
    hide EndsOnPages, Send;
    var n := |packets|;
    var j := OnesFromStream(block, MAX_UINT32 - MB, packets, n);
    assert SentAt(OnesFrom(LAST_PAGE, LONG), block, MAX_UINT32 - MB, 0, packets, n - 1);
    OnesFromPacket(block, MAX_UINT32 - MB, Reached(0, packets, n - 1));
    NotAPage(block, j, (j - 1) * block, j * block);
    PagesOn(j * block);
  }

  /**
  The condition is exact: with any other block a new, empty copy of that source comes out of one repair with a byte
  wrong below its watermark, and later repairs start behind it.
  */
  method RepairLeavesGap(configuredBlock: nat) returns (local: TinyExtent, src: Extent)
    requires configuredBlock > 0 && !EndsOnPages(configuredBlock)
    ensures fresh(local) && Valid(src) && local.dataSize < src.dataSize
    ensures !Agree(local.Value(), src, local.dataSize)
  {
    src := OnesFrom(LAST_PAGE, LONG);
    OnesFromData(LAST_PAGE, LONG, 0);
    local := new TinyExtent(Extent([], {}, 0));
    var outcome, unread;
    ghost var packets;
    outcome, unread, packets := local.StreamRepair(src, configuredBlock);
    OtherBlocksLeaveGap(RepairBlock(configuredBlock), packets, local.Value());
  }

  // ---------------------------------------------------------------- agreement

  lemma AgreeItself(a: Extent, n: nat)
    ensures Agree(a, a, n)
  {
  }

  lemma AgreeThrough(a: Extent, b: Extent, c: Extent, n: nat, m: nat)
    requires Agree(a, b, m) && Agree(b, c, n) && n <= m
    ensures Agree(a, c, n)
  {
  }

  lemma SameEnd(local: Extent, src: Extent)
    requires Valid(local) && Valid(src) && Agree(local, src, local.dataSize) && local.dataSize >= src.dataSize
    ensures local.dataSize == src.dataSize ==> Complete(local, src)
  {
  }

  lemma StreamFinished(local: Extent, src: Extent, end: nat)
    requires Valid(src) && InStep(local, src, end) && |local.bytes| == end && end <= src.dataSize
    ensures Valid(local)
    ensures end >= |src.bytes| ==> Complete(local, src)
    ensures end % PAGE == 0 ==> Agree(local, src, local.dataSize)
  {
  }

  /** The receiver in the middle of a stream, with `off` the next position to fill. */
  ghost predicate InStep(local: Extent, src: Extent, off: nat) {
    && |local.bytes| <= off && local.dataSize == RoundUp(off)
    && Agree(local, src, off)
    && forall i :: 0 <= i < |local.bytes| && !IsData(local, i) ==> local.bytes[i] == 0
  }

  /** Nothing is left to repair: every position reads alike and the watermarks are equal. */
  ghost predicate Complete(local: Extent, src: Extent) {
    local.dataSize == src.dataSize && forall i: nat :: ReadAt(local, i) == ReadAt(src, i)
  }

  lemma PageBelow(off: nat, size: nat)
    requires off % PAGE == 0 && off < RoundUp(size)
    ensures off < size
  {
  }
}
