// FFMPEGMediaStreamSource: the early media stream source that feeds a
// Windows media element from FFmpeg. Demuxed packets are routed to a fixed
// ring buffer of 320 packets per stream (audio and video); a sample request
// for a stream pops its queue, reading from the demuxer until the queue has a
// packet. A compressed H.264 video packet is handed on as an Annex B byte
// stream: on a key frame the SPS and PPS from the extradata first, then each
// unit of the packet with its 4-byte length replaced by a start code. Neither
// of these two byte transforms checks its bounds.
//
// The demuxer is modelled by the sequence of outcomes av_read_frame would
// return; a data writer by the bytes written to it.

module FfmpegMss {
  import opened Common
  import H264
  import H264Avc

  /** AUDIOPKTBUFFERSZ and VIDEOPKTBUFFERSZ: the capacity of each ring buffer. */
  const PKT_BUFFER_SZ: int := 320

  /** The packet av_init_packet produces, with no data. */
  function EmptyPacket(): Packet
  {
    Packet([], None, 0, false, 0, -1)
  }

  // ---------------------------------------------------------------------
  // The bounded FIFO the ring buffers implement

  /** A push stores the packet behind the others, or drops it when the buffer is full. */
  function Enqueue(q: seq<Packet>, p: Packet): (r: seq<Packet>)
    ensures |q| <= PKT_BUFFER_SZ ==> |r| <= PKT_BUFFER_SZ
    ensures |q| < PKT_BUFFER_SZ ==> |r| == |q| + 1 && r[..|q|] == q && r[|q|] == p
    ensures |q| >= PKT_BUFFER_SZ ==> r == q
  {
    if |q| < PKT_BUFFER_SZ then q + [p] else q
  }

  /** A pop takes the oldest packet, or gives an empty packet when there is none. */
  function Dequeue(q: seq<Packet>): (r: (Packet, seq<Packet>))
    ensures q != [] ==> [r.0] + r.1 == q
    ensures q == [] ==> r.0 == EmptyPacket() && r.1 == []
  {
    if |q| > 0 then (q[0], q[1..]) else (EmptyPacket(), q)
  }

  datatype QueueOp = PushOp(p: Packet) | PopOp

  /**
   * A run of pushes and pops: the packets popped (empty pops give nothing),
   * the packets left, and the pushed packets that were kept rather than
   * dropped.
   */
  datatype QueueTrace = QueueTrace(popped: seq<Packet>, left: seq<Packet>, accepted: seq<Packet>)

  /**
   * The packets leave in the order they were accepted and none is lost:
   * what was popped followed by what is left is what was there followed by
   * every accepted push; the buffer never holds more than its capacity.
   */
  function Replay(q: seq<Packet>, ops: seq<QueueOp>): (t: QueueTrace)
    requires |q| <= PKT_BUFFER_SZ
    ensures t.popped + t.left == q + t.accepted
    ensures |t.left| <= PKT_BUFFER_SZ
    decreases |ops|
  {
    if ops == [] then QueueTrace([], q, [])
    else match ops[0]
      case PushOp(p) =>
        if |q| < PKT_BUFFER_SZ then
          var t := Replay(Enqueue(q, p), ops[1..]);
          QueueTrace(t.popped, t.left, [p] + t.accepted)
        else Replay(q, ops[1..])
      case PopOp =>
        if q == [] then Replay(q, ops[1..])
        else
          var t := Replay(Dequeue(q).1, ops[1..]);
          assert [q[0]] + t.popped + t.left == [q[0]] + (t.popped + t.left);
          QueueTrace([q[0]] + t.popped, t.left, t.accepted)
  }

  function Pushes(ps: seq<Packet>): (ops: seq<QueueOp>)
    ensures |ops| == |ps|
  {
    if ps == [] then [] else [PushOp(ps[0])] + Pushes(ps[1..])
  }

  /** While there is room, every pushed packet is accepted and kept in order. */
  lemma {:induction false} PushesAccepted(q: seq<Packet>, ps: seq<Packet>)
    requires |q| + |ps| <= PKT_BUFFER_SZ
    ensures Replay(q, Pushes(ps)) == QueueTrace([], q + ps, ps)
    decreases |ps|
  {
    if ps != [] {
      var ops := Pushes(ps);
      assert ops[0] == PushOp(ps[0]) && ops[1..] == Pushes(ps[1..]);
      PushesAccepted(q + [ps[0]], ps[1..]);
      SplitFirst(q, ps);
    }
  }

  lemma SplitFirst(q: seq<Packet>, ps: seq<Packet>)
    requires ps != []
    ensures q + [ps[0]] + ps[1..] == q + ps && [ps[0]] + ps[1..] == ps
  {
    assert ps == [ps[0]] + ps[1..];
  }

  /** Pushing onto a full buffer changes nothing. */
  lemma {:induction false} PushesDropped(q: seq<Packet>, ps: seq<Packet>)
    requires |q| == PKT_BUFFER_SZ
    ensures Replay(q, Pushes(ps)) == QueueTrace([], q, [])
    decreases |ps|
  {
    if ps != [] {
      var ops := Pushes(ps);
      assert ops[0] == PushOp(ps[0]) && ops[1..] == Pushes(ps[1..]);
      PushesDropped(q, ps[1..]);
    }
  }

  // ---------------------------------------------------------------------
  // The ring buffer

  /** One of the two packet queues: a fixed array with a head index and a count. */
  class PacketQueue {
    const slots: array<Packet>
    var head: int
    var count: int

    ghost predicate Valid()
      reads this
    {
      slots.Length == PKT_BUFFER_SZ && 0 <= head < PKT_BUFFER_SZ && 0 <= count <= PKT_BUFFER_SZ
    }

    /** The queued packets, oldest first. */
    ghost function Contents(): (q: seq<Packet>)
      requires Valid()
      reads this, slots
      ensures |q| == count
    {
      var h, c := head, count;
      seq(c, i requires 0 <= i < c reads slots => slots[Ring(h, i)])
    }

    /** The queue fields as the constructor of the stream source sets them. */
    constructor ()
      ensures Valid() && fresh(slots) && head == 0 && Contents() == []
    {
      slots := new Packet[PKT_BUFFER_SZ](_ => EmptyPacket());
      head, count := 0, 0;
    }

    /** PushAudioPacket / PushVideoPacket. */
    method Push(p: Packet)
      requires Valid()
      modifies this, slots
      ensures Valid() && head == old(head)
      ensures old(count) < PKT_BUFFER_SZ ==> count == old(count) + 1 && slots[(head + old(count)) % PKT_BUFFER_SZ] == p
      ensures Contents() == Enqueue(old(Contents()), p)
    {
      if count < PKT_BUFFER_SZ {
        slots[(head + count) % PKT_BUFFER_SZ] := p;
        count := count + 1;
        RingIndex(head, count - 1);
      }
    }

    /** PopAudioPacket / PopVideoPacket. */
    method Pop() returns (p: Packet)
      requires Valid()
      modifies this
      ensures Valid()
      ensures old(count) > 0 ==> head == (old(head) + 1) % PKT_BUFFER_SZ && count == old(count) - 1
      ensures (p, Contents()) == Dequeue(old(Contents()))
    {
      p := EmptyPacket();
      if count > 0 {
        ghost var q := Contents();
        p := slots[head];
        assert p == q[0];
        RingIndex(head, 1);
        head := (head + 1) % PKT_BUFFER_SZ;
        count := count - 1;
        assert Contents() == q[1..];
      }
    }
  }

  /** Where the k-th packet after the head sits in the ring. */
  function Ring(head: int, k: int): (r: int)
    requires 0 <= head < PKT_BUFFER_SZ && 0 <= k <= PKT_BUFFER_SZ
    ensures 0 <= r < PKT_BUFFER_SZ
  {
    if head + k < PKT_BUFFER_SZ then head + k else head + k - PKT_BUFFER_SZ
  }

  /** The ring position is the source's `(head + k) % size`. */
  lemma RingIndex(head: int, k: int)
    requires 0 <= head < PKT_BUFFER_SZ && 0 <= k <= PKT_BUFFER_SZ
    ensures (head + k) % PKT_BUFFER_SZ == Ring(head, k)
  {
  }

  // ---------------------------------------------------------------------
  // WriteAnnexBPacket

  /**
   * AV_INPUT_BUFFER_PADDING_SIZE: the zeroed bytes FFmpeg keeps behind the
   * data of a demuxed packet and behind a codec's extradata.
   */
  const PADDING_SIZE: nat := 64

  /** The data with its zeroed padding: all an unchecked read may reach without undefined behaviour. */
  function Padded(data: seq<Byte>): (p: seq<Byte>)
    ensures |p| == |data| + PADDING_SIZE
  {
    ZeroFill(data, |data| + PADDING_SIZE)
  }

  /** s followed by zeros up to length n. */
  function ZeroFill(s: seq<Byte>, n: nat): (r: seq<Byte>)
    ensures |r| == if |s| < n then n else |s|
    decreases n - |s|
  {
    if |s| >= n then s else ZeroFill(s + [0], n)
  }

  lemma {:induction false} ZeroFillReads(s: seq<Byte>, n: nat)
    ensures forall k :: 0 <= k < |ZeroFill(s, n)| ==> ZeroFill(s, n)[k] == if k < |s| then s[k] else 0
    decreases n - |s|
  {
    if |s| < n {
      ZeroFillReads(s + [0], n);
    }
  }

  /** A read of the padded data is a read of the data, or a zero of the padding. */
  lemma PaddedReads(data: seq<Byte>)
    ensures forall k :: 0 <= k < |Padded(data)| ==> Padded(data)[k] == if k < |data| then data[k] else 0
  {
    ZeroFillReads(data, |data| + PADDING_SIZE);
  }

  /**
   * What code that reads without bounds checks writes: the bytes, and
   * whether every read stayed within the data and its padding. When one did
   * not, the behaviour is undefined from that read on, and bytes holds what
   * had been written before it.
   */
  datatype Unchecked = Unchecked(bytes: seq<Byte>, defined: bool)

  /** Bytes written before a call, in front of what the call writes. */
  function PrependUnchecked(bytes: seq<Byte>, o: Unchecked): Unchecked
  {
    Unchecked(bytes + o.bytes, o.defined)
  }

  lemma PrependUncheckedTwice(a: seq<Byte>, b: seq<Byte>, o: Unchecked)
    ensures PrependUnchecked(a, PrependUnchecked(b, o)) == PrependUnchecked(a + b, o)
  {
    assert a + (b + o.bytes) == (a + b) + o.bytes;
  }

  /** The unit length at index: four bytes, most significant first, taken as uint32. */
  function UnitLength(data: seq<Byte>, index: nat): (n: nat)
    requires index + 4 <= |data|
    ensures n <= UINT32_MAX
  {
    data[index] as nat * 0x100_0000 + data[index + 1] as nat * 0x1_0000 + data[index + 2] as nat * 0x100 + data[index + 3] as nat
  }

  /** The length is the one the checked transform reads with ReadNaluLength. */
  lemma UnitLengthIsRead(data: seq<Byte>, index: nat)
    requires index + 4 <= |data|
    ensures H264.ReadNaluLength(4, data[index..]) == Ok(UnitLength(data, index))
  {
  }

  /**
   * From index on, every unit has its four length bytes and its payload
   * inside the packet: the packets the checked WriteNALPacket accepts.
   */
  predicate Framed(data: seq<Byte>, index: nat)
    decreases |data| - index
  {
    && index + 4 <= |data|
    && index + 4 + UnitLength(data, index) <= |data|
    && (index + 4 + UnitLength(data, index) < |data| ==> Framed(data, index + 4 + UnitLength(data, index)))
  }

  /**
   * What WriteAnnexBPacket writes from index on, reading a packet's buffer:
   * its packetSize bytes of data and the padding behind them. The do-while
   * reads a first length even from an empty packet. A length always lies
   * within the buffer; a payload that runs past it is undefined, after its
   * start code has been written. Within the buffer the index cannot wrap,
   * since the packet size is an `int`.
   */
  function AnnexBFrom(buffer: seq<Byte>, packetSize: nat, index: nat): Unchecked
    requires |buffer| == packetSize + PADDING_SIZE && packetSize <= H264Avc.INT32_MAX
    requires index == 0 || index < packetSize
    decreases packetSize - index
  {
    var size := UnitLength(buffer, index);
    var start := index + 4;
    if |buffer| < start + size then Unchecked(START_CODE, false)
    else
      var unit := START_CODE + buffer[start..start + size];
      if start + size < packetSize then PrependUnchecked(unit, AnnexBFrom(buffer, packetSize, start + size))
      else Unchecked(unit, true)
  }

  /** What WriteAnnexBPacket writes for a demuxed packet from index on: its data read through its padding. */
  function AnnexB(data: seq<Byte>, index: nat): Unchecked
    requires |data| <= H264Avc.INT32_MAX && (index == 0 || index < |data|)
  {
    AnnexBFrom(Padded(data), |data|, index)
  }

  /**
   * On the packets the checked WriteNALPacket of H264AVCSampleProvider
   * accepts, and only on those, every unit lies inside the packet; there
   * the unchecked transform writes exactly what the checked one writes.
   */
  lemma AnnexBIsNalPacket(data: seq<Byte>, index: nat)
    requires |data| <= H264Avc.INT32_MAX && (index == 0 || index < |data|)
    ensures H264Avc.NalUnitsFrom(data, index).hr == SOk <==> Framed(data, index)
    ensures Framed(data, index) ==>
              AnnexB(data, index).defined && H264Avc.NalUnitsFrom(data, index) == H264Avc.Written(SOk, AnnexB(data, index).bytes)
  {
    NalUnitsAreFramed(data, index);
    if Framed(data, index) {
      AnnexBOfFramed(data, index);
    }
  }

  /** The checked WriteNALPacket succeeds from index on exactly when the units there are framed. */
  lemma {:induction false} NalUnitsAreFramed(data: seq<Byte>, index: nat)
    requires |data| <= H264Avc.INT32_MAX
    ensures H264Avc.NalUnitsFrom(data, index).hr == SOk <==> Framed(data, index)
    decreases |data| - index
  {
    if index + 4 <= |data| {
      var size := UnitLength(data, index);
      var next := index + 4 + size;
      UnitLengthIsRead(data, index);
      if |data| < next {
        H264Avc.UnitOverruns(data, index, size, next);
      } else {
        H264Avc.NalUnitsStep(data, index, size, next);
        if next < |data| {
          NalUnitsAreFramed(data, next);
        }
      }
    }
  }

  /** Over framed units the unchecked transform stays inside the packet and writes what the checked one writes. */
  lemma {:induction false} AnnexBOfFramed(data: seq<Byte>, index: nat)
    requires |data| <= H264Avc.INT32_MAX && (index == 0 || index < |data|) && Framed(data, index)
    ensures AnnexB(data, index).defined && H264Avc.NalUnitsFrom(data, index) == H264Avc.Written(SOk, AnnexB(data, index).bytes)
    decreases |data| - index
  {
    var size := UnitLength(data, index);
    var next := index + 4 + size;
    AnnexBInside(data, index);
    UnitLengthIsRead(data, index);
    H264Avc.NalUnitsStep(data, index, size, next);
    if next < |data| {
      AnnexBOfFramed(data, next);
    }
  }

  /** One round of the unchecked transform over a unit inside the packet. */
  lemma AnnexBInside(data: seq<Byte>, index: nat)
    requires |data| <= H264Avc.INT32_MAX && (index == 0 || index < |data|)
    requires index + 4 <= |data| && index + 4 + UnitLength(data, index) <= |data|
    ensures var next := index + 4 + UnitLength(data, index);
            var unit := START_CODE + data[index + 4..next];
            AnnexB(data, index) == if next < |data| then PrependUnchecked(unit, AnnexB(data, next)) else Unchecked(unit, true)
  {
    var size := UnitLength(data, index);
    var next := index + 4 + size;
    PaddedInside(data, index, next);
    AnnexBStep(Padded(data), |data|, index, size, next);
  }

  /** Inside the data the padded buffer reads the data: the length at index and the payload behind it. */
  lemma PaddedInside(data: seq<Byte>, index: nat, next: nat)
    requires index + 4 <= next <= |data|
    ensures UnitLength(Padded(data), index) == UnitLength(data, index)
    ensures Padded(data)[index + 4..next] == data[index + 4..next]
  {
    var padded := Padded(data);
    PaddedReads(data);
    assert padded[index..index + 4] == data[index..index + 4];
  }

  /**
   * Packets the checked transform refuses: the empty packet comes out as
   * one empty unit read from the padding, a payload running into the
   * padding is completed with zeros, and one running past it is undefined.
   */
  lemma AnnexBPastPacket()
    ensures AnnexB([], 0) == Unchecked(START_CODE, true)
    ensures AnnexB([0, 0, 0, 9, 1, 2], 0) == Unchecked(START_CODE + [1, 2, 0, 0, 0, 0, 0, 0, 0], true)
    ensures AnnexB([0, 0, 1, 0], 0) == Unchecked(START_CODE, false)
    ensures H264Avc.NalUnitsFrom([], 0).hr == EFail
    ensures H264Avc.NalUnitsFrom([0, 0, 0, 9, 1, 2], 0).hr == EFail
    ensures H264Avc.NalUnitsFrom([0, 0, 1, 0], 0).hr == EFail
  {
    var empty := Padded([]);
    PaddedReads([]);
    assert empty[0] == 0 && empty[1] == 0 && empty[2] == 0 && empty[3] == 0;
    assert empty[4..4] == [];
    var short: seq<Byte> := [0, 0, 0, 9, 1, 2];
    var p := Padded(short);
    PaddedReads(short);
    assert p[..6] == short;
    assert p[4..13] == [1, 2, 0, 0, 0, 0, 0, 0, 0];
    var long: seq<Byte> := [0, 0, 1, 0];
    PaddedReads(long);
    assert Padded(long)[..4] == long;
    assert UnitLength(Padded(long), 0) == 256;
    AnnexBIsNalPacket(short, 0);
    AnnexBIsNalPacket(long, 0);
  }

  /**
   * A sample of units behind 4-byte lengths is one the unchecked transform
   * reads entirely inside the packet, and comes out as the units behind
   * start codes.
   */
  lemma AnnexBRoundTrip(units: seq<seq<Byte>>)
    requires units != [] && H264.UnitsFit(4, units) && |H264.EncodeUnits(4, units)| <= H264Avc.INT32_MAX
    ensures Framed(H264.EncodeUnits(4, units), 0)
    ensures AnnexB(H264.EncodeUnits(4, units), 0) == Unchecked(H264.FrameUnits(units), true)
  {
    H264Avc.NalPacketRoundTrip(units);
    AnnexBIsNalPacket(H264.EncodeUnits(4, units), 0);
  }

  /** Replacing each length by a start code keeps the size of a framed packet. */
  lemma AnnexBKeepsLength(data: seq<Byte>)
    requires |data| <= H264Avc.INT32_MAX && Framed(data, 0)
    ensures |AnnexB(data, 0).bytes| == |data|
  {
    AnnexBIsNalPacket(data, 0);
    H264Avc.NalPacketIsStamped(data);
  }

  /** A payload running past the buffer: its start code is written, then the copy is undefined. */
  lemma AnnexBOverrun(buffer: seq<Byte>, packetSize: nat, index: nat, size: nat)
    requires |buffer| == packetSize + PADDING_SIZE && packetSize <= H264Avc.INT32_MAX && (index == 0 || index < packetSize)
    requires size == UnitLength(buffer, index) && |buffer| < index + 4 + size
    ensures AnnexBFrom(buffer, packetSize, index) == Unchecked(START_CODE, false)
  {
  }

  /** One round of the unchecked transform over a payload inside the buffer; the index cannot wrap. */
  lemma AnnexBStep(buffer: seq<Byte>, packetSize: nat, index: nat, size: nat, next: nat)
    requires |buffer| == packetSize + PADDING_SIZE && packetSize <= H264Avc.INT32_MAX && (index == 0 || index < packetSize)
    requires size == UnitLength(buffer, index) && next == index + 4 + size <= |buffer|
    ensures next <= UINT32_MAX
    ensures AnnexBFrom(buffer, packetSize, index)
              == if next < packetSize then PrependUnchecked(START_CODE + buffer[index + 4..next], AnnexBFrom(buffer, packetSize, next))
                 else Unchecked(START_CODE + buffer[index + 4..next], true)
  {
  }

  /**
   * WriteAnnexBPacket: a do-while over a uint32 index through the packet's
   * buffer. Each length is read from the four bytes at the index, a start
   * code is written, then the payload is copied; the index moves past both
   * while it is below the packet size.
   */
  method WriteAnnexBPacket(buffer: seq<Byte>, packetSize: nat) returns (o: Unchecked)
    requires |buffer| == packetSize + PADDING_SIZE && packetSize <= H264Avc.INT32_MAX
    ensures o == AnnexBFrom(buffer, packetSize, 0)
  {
    var written: seq<Byte> := [];
    var index: nat := 0;
    ghost var goal := AnnexBFrom(buffer, packetSize, 0);
    assert goal == PrependUnchecked(written, AnnexBFrom(buffer, packetSize, index)) by {
      assert [] + goal.bytes == goal.bytes;
    }
    while true
      invariant index == 0 || index < packetSize
      invariant goal == PrependUnchecked(written, AnnexBFrom(buffer, packetSize, index))
      decreases packetSize - index
    {
      var size := UnitLength(buffer, index);
      var start: nat := index + 4;
      WriteRound(buffer, packetSize, index, size, written, goal);
      if |buffer| < start + size {
        return Unchecked(written + START_CODE, false);
      }
      var unit := START_CODE + buffer[start..start + size];
      var next: int := if start + size > UINT32_MAX then start + size - UINT32_MODULUS else start + size;
      if next >= packetSize {
        return Unchecked(written + unit, true);
      }
      written := written + unit;
      index := next;
    }
  }

  /** What one round of WriteAnnexBPacket's loop leaves to write. */
  lemma WriteRound(buffer: seq<Byte>, packetSize: nat, index: nat, size: nat, written: seq<Byte>, goal: Unchecked)
    requires |buffer| == packetSize + PADDING_SIZE && packetSize <= H264Avc.INT32_MAX && (index == 0 || index < packetSize)
    requires size == UnitLength(buffer, index) && goal == PrependUnchecked(written, AnnexBFrom(buffer, packetSize, index))
    ensures var next := index + 4 + size;
            |buffer| < next ==> goal == Unchecked(written + START_CODE, false)
    ensures var next := index + 4 + size;
            next <= |buffer| ==>
              var unit := START_CODE + buffer[index + 4..next];
              && next <= UINT32_MAX
              && (packetSize <= next ==> goal == Unchecked(written + unit, true))
              && (next < packetSize ==> goal == PrependUnchecked(written + unit, AnnexBFrom(buffer, packetSize, next)))
  {
    var next := index + 4 + size;
    if |buffer| < next {
      AnnexBOverrun(buffer, packetSize, index, size);
    } else {
      AnnexBStep(buffer, packetSize, index, size, next);
      if next < packetSize {
        PrependUncheckedTwice(written, START_CODE + buffer[index + 4..next], AnnexBFrom(buffer, packetSize, next));
      }
    }
  }

  /** The extradata holds the SPS behind its length byte at 7 and the PPS behind its length byte three bytes later. */
  predicate HasSpsPps(d: seq<Byte>)
  {
    && |d| >= 8
    && |d| >= 8 + d[7] as int + 3
    && |d| >= 8 + d[7] as int + 3 + d[8 + d[7] as int + 2] as int
  }

  /**
   * GetSPSAndPPSBuffer of the stream source, which checks nothing: the SPS
   * length is the byte at 7 and the SPS follows it; the PPS length is the
   * byte three bytes past the SPS, and the PPS follows it. Each set is
   * copied, then written behind a start code. The reads go through the
   * extradata's padding; a copy past it is undefined.
   */
  function SpsPps(d: seq<Byte>): Unchecked
  {
    var padded := Padded(d);
    var spsLength: nat := padded[7];
    if |padded| < 8 + spsLength then Unchecked([], false)
    else
      var sps := START_CODE + padded[8..8 + spsLength];
      if |padded| < 8 + spsLength + 3 then Unchecked(sps, false)
      else
        var ppsLength: nat := padded[8 + spsLength + 2];
        if |padded| < 8 + spsLength + 3 + ppsLength then Unchecked(sps, false)
        else Unchecked(sps + START_CODE + padded[8 + spsLength + 3..8 + spsLength + 3 + ppsLength], true)
  }

  /**
   * The checked GetSPSAndPPSBuffer succeeds exactly on extradata holding
   * both sets, and there the unchecked reads give the same buffer.
   */
  lemma SpsPpsIsBuffer(d: seq<Byte>)
    ensures H264Avc.SpsPpsBuffer(true, Some(d)).hr == SOk <==> HasSpsPps(d)
    ensures HasSpsPps(d) ==> SpsPps(d) == Unchecked(H264Avc.SpsPpsBuffer(true, Some(d)).bytes, true)
  {
    if HasSpsPps(d) {
      var padded := Padded(d);
      PaddedReads(d);
      var spsLength: nat := d[7];
      assert padded[7] == d[7];
      assert padded[8..8 + spsLength] == d[8..8 + spsLength];
      var ppsLength: nat := d[8 + spsLength + 2];
      assert padded[8 + spsLength + 2] == d[8 + spsLength + 2];
      assert padded[8 + spsLength + 3..8 + spsLength + 3 + ppsLength] == d[8 + spsLength + 3..8 + spsLength + 3 + ppsLength];
    }
  }

  /** Empty extradata: the unchecked reads find two empty sets in the padding, where the checked buffer fails. */
  lemma SpsPpsOfEmptyExtradata()
    ensures SpsPps([]) == Unchecked(START_CODE + START_CODE, true)
    ensures H264Avc.SpsPpsBuffer(true, Some([])).hr == EFail
  {
    var padded := Padded([]);
    PaddedReads([]);
    assert padded[7] == 0 && padded[10] == 0;
    assert padded[8..8] == [] && padded[11..11] == [];
  }

  /**
   * GetSPSAndPPSBuffer: the SPS length at 7 and its copy, a start code, then
   * the PPS length three bytes past the SPS and its copy with its start code.
   */
  method GetSpsAndPpsBuffer(extradata: seq<Byte>) returns (o: Unchecked)
    ensures o == SpsPps(extradata)
  {
    var d := Padded(extradata);
    var spsLength: nat := d[7];
    if |d| < 8 + spsLength {
      return Unchecked([], false);
    }
    var sets := START_CODE + d[8..8 + spsLength];
    if |d| < 8 + spsLength + 3 {
      return Unchecked(sets, false);
    }
    var ppsLength: nat := d[8 + spsLength + 2];
    if |d| < 8 + spsLength + 3 + ppsLength {
      return Unchecked(sets, false);
    }
    o := Unchecked(sets + START_CODE + d[8 + spsLength + 3..8 + spsLength + 3 + ppsLength], true);
  }

  /** The bytes of a compressed video sample: SPS and PPS first on a key frame. */
  function VideoPayload(extradata: seq<Byte>, pkt: seq<Byte>, isKeyFrame: bool): Unchecked
    requires |pkt| <= H264Avc.INT32_MAX
  {
    if !isKeyFrame then AnnexB(pkt, 0)
    else
      var sets := SpsPps(extradata);
      if !sets.defined then sets else PrependUnchecked(sets.bytes, AnnexB(pkt, 0))
  }

  /**
   * Whenever H264AVCSampleProvider's checked write succeeds on the same
   * extradata and packet, the stream source's unchecked write stays inside
   * them and writes the same bytes.
   */
  lemma VideoPayloadIsAvPacketWrite(extradata: seq<Byte>, pkt: seq<Byte>, isKeyFrame: bool)
    requires |pkt| <= H264Avc.INT32_MAX
    ensures H264Avc.AvPacketWrite(true, Some(extradata), pkt, isKeyFrame).hr == SOk ==>
              && VideoPayload(extradata, pkt, isKeyFrame).defined
              && VideoPayload(extradata, pkt, isKeyFrame).bytes == H264Avc.AvPacketWrite(true, Some(extradata), pkt, isKeyFrame).bytes
  {
    AnnexBIsNalPacket(pkt, 0);
    SpsPpsIsBuffer(extradata);
  }

  // ---------------------------------------------------------------------
  // Reading packets and filling samples

  /** A stream the media element asks samples for. */
  datatype StreamKind = Audio | Video

  /**
   * The state the sample path works on: both queues and what the demuxer
   * has yet to return. An exhausted demuxer keeps returning AVERROR_EOF.
   */
  datatype SourceState = SourceState(audio: seq<Packet>, video: seq<Packet>, input: seq<ReadOutcome>)

  /** The stream indices of the selected audio and video streams. */
  datatype Routing = Routing(audioIndex: int, videoIndex: int)

  /** ReadPacket's return value: 0 for a packet, otherwise the error. */
  function ReadResult(input: seq<ReadOutcome>): (ret: int)
  {
    if input == [] then AVERROR_EOF
    else match input[0]
      case Demuxed(_) => 0
      case ReadFailure(code) => code
  }

  /**
   * ReadPacket: a failed read changes nothing but the demuxer; a packet
   * goes to the audio queue if its stream index is the audio stream's,
   * otherwise to the video queue if it is the video stream's, and is
   * dropped otherwise.
   */
  function ReadStep(s: SourceState, r: Routing): (s': SourceState)
    ensures ReadResult(s.input) < 0 ==> s'.audio == s.audio && s'.video == s.video
    ensures s.input != [] ==> s'.input == s.input[1..]
  {
    if s.input == [] then s
    else match s.input[0]
      case ReadFailure(_) => s.(input := s.input[1..])
      case Demuxed(p) =>
        if p.streamIndex == r.audioIndex then SourceState(Enqueue(s.audio, p), s.video, s.input[1..])
        else if p.streamIndex == r.videoIndex then SourceState(s.audio, Enqueue(s.video, p), s.input[1..])
        else s.(input := s.input[1..])
  }

  function QueueOf(s: SourceState, kind: StreamKind): seq<Packet>
  {
    if kind == Audio then s.audio else s.video
  }

  /**
   * The read loop of FillAudioSample and FillVideoSample: read while the
   * queue of the requested stream is empty, stopping at the first failed
   * read.
   */
  function Refill(s: SourceState, r: Routing, kind: StreamKind): (s': SourceState)
    ensures QueueOf(s, kind) != [] ==> s' == s
    decreases |s.input|
  {
    if QueueOf(s, kind) != [] then s
    else if ReadResult(s.input) < 0 then ReadStep(s, r)
    else Refill(ReadStep(s, r), r, kind)
  }

  /**
   * FillAudioSample: the packet popped after the read loop, or an empty
   * packet when the demuxer failed first. An audio sample is always made.
   */
  function FillAudio(s: SourceState, r: Routing): (SourceState, Packet)
  {
    var s1 := Refill(s, r, Audio);
    var (p, rest) := Dequeue(s1.audio);
    (s1.(audio := rest), p)
  }

  /**
   * FillVideoSample on a compressed stream: the packet popped after the
   * read loop, or no sample when the demuxer failed first.
   */
  function FillVideo(s: SourceState, r: Routing): (SourceState, Option<Packet>)
  {
    var s1 := Refill(s, r, Video);
    if s1.video == [] then (s1, None)
    else (s1.(video := s1.video[1..]), Some(s1.video[0]))
  }

  /**
   * FillSample: the descriptor is compared with the audio stream's id
   * first, then the video stream's; neither gives no sample and no change.
   * An audio sample carries the packet it is built from.
   */
  function FillSample(s: SourceState, r: Routing, audioId: int, videoId: int, descId: int): (SourceState, Option<Packet>)
  {
    if descId == audioId then var (s', p) := FillAudio(s, r); (s', Some(p))
    else if descId == videoId then FillVideo(s, r)
    else (s, None)
  }

  /** A request gets no sample exactly when it names neither stream, or the video stream runs dry. */
  lemma FillSampleNone(s: SourceState, r: Routing, audioId: int, videoId: int, descId: int)
    ensures (FillSample(s, r, audioId, videoId, descId).1.None?
             <==> descId != audioId && (descId != videoId || Refill(s, r, Video).video == []))
    ensures descId != audioId && descId != videoId ==> FillSample(s, r, audioId, videoId, descId).0 == s
  {
  }

  /** A packet of the given stream, in the state's routing. */
  predicate RoutedTo(p: Packet, r: Routing, kind: StreamKind)
  {
    if kind == Audio then p.streamIndex == r.audioIndex
    else p.streamIndex != r.audioIndex && p.streamIndex == r.videoIndex
  }

  /** Successful reads of packets that none goes to the given stream. */
  predicate OtherFrames(frames: seq<ReadOutcome>, r: Routing, kind: StreamKind)
  {
    forall i :: 0 <= i < |frames| ==> frames[i].Demuxed? && !RoutedTo(frames[i].pkt, r, kind)
  }

  /**
   * With the queue empty, the read loop skips (routes elsewhere or drops)
   * the packets of other streams and stops right after the first packet of
   * the requested stream, which is then the only packet in its queue.
   */
  lemma {:induction false} RefillFindsFirst(s: SourceState, r: Routing, kind: StreamKind,
                                            others: seq<ReadOutcome>, p: Packet, rest: seq<ReadOutcome>)
    requires QueueOf(s, kind) == [] && s.input == others + [Demuxed(p)] + rest
    requires OtherFrames(others, r, kind) && RoutedTo(p, r, kind)
    ensures QueueOf(Refill(s, r, kind), kind) == [p] && Refill(s, r, kind).input == rest
    decreases |others|
  {
    if others == [] {
      assert s.input[0] == Demuxed(p) && s.input[1..] == rest;
    } else {
      assert s.input[0] == others[0];
      var s1 := ReadStep(s, r);
      assert s1.input == others[1..] + [Demuxed(p)] + rest;
      RefillFindsFirst(s1, r, kind, others[1..], p, rest);
    }
  }

  /** A sample request with an empty queue delivers the first packet read for that stream. */
  lemma FillFindsFirst(s: SourceState, r: Routing, kind: StreamKind,
                       others: seq<ReadOutcome>, p: Packet, rest: seq<ReadOutcome>)
    requires QueueOf(s, kind) == [] && s.input == others + [Demuxed(p)] + rest
    requires OtherFrames(others, r, kind) && RoutedTo(p, r, kind)
    ensures kind == Audio ==> FillAudio(s, r).1 == p && FillAudio(s, r).0.audio == [] && FillAudio(s, r).0.input == rest
    ensures kind == Video ==> FillVideo(s, r).1 == Some(p) && FillVideo(s, r).0.video == [] && FillVideo(s, r).0.input == rest
  {
    RefillFindsFirst(s, r, kind, others, p, rest);
  }

  /** The stream source: its routing, stream ids, queues and demuxer. */
  class FfmpegSource {
    const audioQueue: PacketQueue
    const videoQueue: PacketQueue
    const audioStreamIndex: int
    const videoStreamIndex: int
    const audioStreamId: int
    const videoStreamId: int
    const extradata: seq<Byte>
    var input: seq<ReadOutcome>

    /** The two queues are distinct objects over distinct arrays. */
    ghost predicate Valid()
      reads this, audioQueue, videoQueue
    {
      && audioQueue != videoQueue && audioQueue.slots != videoQueue.slots
      && audioQueue.Valid() && videoQueue.Valid()
    }

    ghost function State(): SourceState
      requires Valid()
      reads this, audioQueue, videoQueue, audioQueue.slots, videoQueue.slots
    {
      SourceState(audioQueue.Contents(), videoQueue.Contents(), input)
    }

    function Routes(): Routing
    {
      Routing(audioStreamIndex, videoStreamIndex)
    }

    /**
     * The constructor leaves both queues empty. The stream indices and ids
     * are those the opening code finds; with no such stream they are
     * AVERROR_STREAM_NOT_FOUND and 0.
     */
    constructor (input: seq<ReadOutcome>, audioStreamIndex: int, videoStreamIndex: int,
                 audioStreamId: int, videoStreamId: int, extradata: seq<Byte>)
      ensures Valid() && State() == SourceState([], [], input)
      ensures Routes() == Routing(audioStreamIndex, videoStreamIndex)
      ensures this.audioStreamId == audioStreamId && this.videoStreamId == videoStreamId && this.extradata == extradata
    {
      audioQueue := new PacketQueue();
      videoQueue := new PacketQueue();
      this.audioStreamIndex, this.videoStreamIndex := audioStreamIndex, videoStreamIndex;
      this.audioStreamId, this.videoStreamId := audioStreamId, videoStreamId;
      this.extradata := extradata;
      this.input := input;
    }

    /** ReadPacket: one demuxer read, routed to at most one queue. */
    method ReadPacket() returns (ret: int)
      requires Valid()
      modifies this, audioQueue, audioQueue.slots, videoQueue, videoQueue.slots
      ensures Valid()
      ensures ret == ReadResult(old(input))
      ensures State() == ReadStep(old(State()), Routes())
    {
      ret := ReadResult(input);
      if input == [] {
        return;
      }
      var outcome := input[0];
      input := input[1..];
      match outcome {
        case ReadFailure(_) =>
        case Demuxed(p) =>
          if p.streamIndex == audioStreamIndex {
            audioQueue.Push(p);
          } else if p.streamIndex == videoStreamIndex {
            videoQueue.Push(p);
          }
      }
    }

    /** FillAudioSample, up to the conversion of the packet's timestamps. */
    method FillAudioSample() returns (p: Packet)
      requires Valid()
      modifies this, audioQueue, audioQueue.slots, videoQueue, videoQueue.slots
      ensures Valid()
      ensures (State(), p) == FillAudio(old(State()), Routes())
    {
      while audioQueue.count <= 0
        invariant Valid()
        invariant Refill(State(), Routes(), Audio) == Refill(old(State()), Routes(), Audio)
        decreases |input|
      {
        ghost var before := State();
        var ret := ReadPacket();
        if ret < 0 {
          assert State() == Refill(before, Routes(), Audio);
          break;
        }
      }
      p := EmptyPacket();
      if audioQueue.count > 0 {
        p := audioQueue.Pop();
      }
    }

    /** FillVideoSample for compressed video: the popped packet, or no sample. */
    method FillVideoSample() returns (p: Option<Packet>)
      requires Valid()
      modifies this, audioQueue, audioQueue.slots, videoQueue, videoQueue.slots
      ensures Valid()
      ensures (State(), p) == FillVideo(old(State()), Routes())
    {
      while videoQueue.count <= 0
        invariant Valid()
        invariant Refill(State(), Routes(), Video) == Refill(old(State()), Routes(), Video)
        decreases |input|
      {
        ghost var before := State();
        var ret := ReadPacket();
        if ret < 0 {
          assert State() == Refill(before, Routes(), Video);
          return None;
        }
      }
      var packet := videoQueue.Pop();
      p := Some(packet);
    }

    /** FillSample: dispatch on the descriptor's hash code. */
    method FillSampleFor(descId: int) returns (p: Option<Packet>)
      requires Valid()
      modifies this, audioQueue, audioQueue.slots, videoQueue, videoQueue.slots
      ensures Valid()
      ensures (State(), p) == FillSample(old(State()), Routes(), audioStreamId, videoStreamId, descId)
    {
      if descId == audioStreamId {
        var a := FillAudioSample();
        return Some(a);
      }
      if descId == videoStreamId {
        p := FillVideoSample();
        return;
      }
      return None;
    }

    /**
     * The sample buffer FillVideoSample writes for a compressed packet: on a
     * key frame GetSPSAndPPSBuffer first, then WriteAnnexBPacket.
     */
    method VideoSampleBuffer(pkt: Packet) returns (written: Unchecked)
      requires |pkt.data| <= H264Avc.INT32_MAX
      ensures written == VideoPayload(extradata, pkt.data, pkt.isKeyFrame)
    {
      var sets := Unchecked([], true);
      if pkt.isKeyFrame {
        sets := GetSpsAndPpsBuffer(extradata);
        if !sets.defined {
          return sets;
        }
      }
      var units := WriteAnnexBPacket(Padded(pkt.data), |pkt.data|);
      assert [] + units.bytes == units.bytes;
      written := PrependUnchecked(sets.bytes, units);
    }
  }
}
