/**
 * The packet loop of `EncodeCuda`: `last_frame` frames are submitted with
 * `EncodeFrame`, then `EndEncode` drains the encoder; every packet either
 * call hands back is counted and written to the output file, in order.
 *
 * The encoder is seen only through the packets it returns: an `Encoder` is
 * given, up front, the batch of packets it answers each call with.
 */
module EncodeCudaLoop {

  /** `uint8_t`. */
  newtype byte = x: int | 0 <= x < 256

  /** One encoded packet, `std::vector<uint8_t>`. */
  type Packet = seq<byte>

  /** Concatenation of a sequence of sequences, in order. */
  function Concat<T>(xss: seq<seq<T>>): seq<T> {
    if xss == [] then [] else Concat(xss[..|xss| - 1]) + xss[|xss| - 1]
  }

  lemma ConcatSnoc<T>(xss: seq<seq<T>>, xs: seq<T>)
    ensures Concat(xss + [xs]) == Concat(xss) + xs
  {
    assert (xss + [xs])[..|xss|] == xss;
  }

  lemma {:induction false} ConcatAppend<T>(a: seq<seq<T>>, b: seq<seq<T>>)
    ensures Concat(a + b) == Concat(a) + Concat(b)
    decreases |b|
  {
    if b != [] {
      var b' := b[..|b| - 1];
      assert a + b == (a + b') + [b[|b| - 1]];
      ConcatSnoc(a + b', b[|b| - 1]);
      ConcatAppend(a, b');
      ConcatSnoc(b', b[|b| - 1]);
      assert b == b' + [b[|b| - 1]];
    } else {
      assert a + b == a;
    }
  }

  datatype Call = EncodeFrameCall | EndEncodeCall

  /** `last_frame`: the number of frames submitted. */
  const LastFrame: nat := 15 * 25

  /** The call the loop makes on its trip number `j`. */
  function CallAt(j: nat): Call {
    if j < LastFrame then EncodeFrameCall else EndEncodeCall
  }

  /** The calls of the first `n` trips through the loop. */
  function CallLog(n: nat): seq<Call> {
    if n == 0 then [] else CallLog(n - 1) + [CallAt(n - 1)]
  }

  /** `LastFrame` frames are submitted, then the encoder is flushed exactly once, last. */
  lemma {:induction false} CallLogShape(n: nat)
    ensures |CallLog(n)| == n
    ensures forall j :: 0 <= j < n ==> CallLog(n)[j] == CallAt(j)
    ensures n == LastFrame + 1 ==>
      (forall j :: 0 <= j < LastFrame ==> CallLog(n)[j] == EncodeFrameCall) &&
      CallLog(n)[LastFrame] == EndEncodeCall
  {
    if n > 0 {
      CallLogShape(n - 1);
    }
  }

  /** The batch of packets the encoder answers call number `j` with (none once `replies` runs out). */
  function Batch(replies: seq<seq<Packet>>, j: nat): seq<Packet> {
    if j < |replies| then replies[j] else []
  }

  /** Every packet returned by the first `n` calls, in the order they were returned. */
  function Packets(replies: seq<seq<Packet>>, n: nat): seq<Packet> {
    if n == 0 then [] else Packets(replies, n - 1) + Batch(replies, n - 1)
  }

  /** The bytes of the packets returned by the first `n` calls, batch after batch. */
  function Bytes(replies: seq<seq<Packet>>, n: nat): seq<byte> {
    if n == 0 then [] else Bytes(replies, n - 1) + Concat(Batch(replies, n - 1))
  }

  /** Writing batch after batch is writing the packets one after another. */
  lemma {:induction false} BytesArePackets(replies: seq<seq<Packet>>, n: nat)
    ensures Bytes(replies, n) == Concat(Packets(replies, n))
  {
    if n > 0 {
      BytesArePackets(replies, n - 1);
      ConcatAppend(Packets(replies, n - 1), Batch(replies, n - 1));
    }
  }

  /** The first `n` calls return exactly the first `n` scripted batches, in order. */
  lemma {:induction false} PacketsPrefix(replies: seq<seq<Packet>>, n: nat)
    requires n <= |replies|
    ensures Packets(replies, n) == Concat(replies[..n])
  {
    if n > 0 {
      PacketsPrefix(replies, n - 1);
      assert replies[..n] == replies[..n - 1] + [replies[n - 1]];
      ConcatSnoc(replies[..n - 1], replies[n - 1]);
    }
  }

  /**
   * Once there have been at least as many calls as scripted batches, every
   * scripted packet has been received, in the order the calls returned them.
   */
  lemma {:induction false} PacketsReceiveAll(replies: seq<seq<Packet>>, n: nat)
    requires |replies| <= n
    ensures Packets(replies, n) == Concat(replies)
  {
    if n == |replies| {
      PacketsPrefix(replies, n);
      assert replies[..n] == replies;
    } else {
      PacketsReceiveAll(replies, n - 1);
    }
  }

  /**
   * The encoder, as the loop sees it: each `EncodeFrame` or `EndEncode`
   * returns the next scripted batch of packets, and the calls are logged.
   */
  class Encoder {
    const replies: seq<seq<Packet>>
    var calls: seq<Call>

    constructor (replies: seq<seq<Packet>>)
      ensures this.replies == replies && calls == []
    {
      this.replies := replies;
      calls := [];
    }

    /** Submits one frame; returns the packets that are ready, possibly none. */
    method EncodeFrame() returns (packets: seq<Packet>)
      modifies this
      ensures calls == old(calls) + [EncodeFrameCall]
      ensures packets == Batch(replies, |old(calls)|)
    {
      packets := Batch(replies, |calls|);
      calls := calls + [EncodeFrameCall];
    }

    /** Flushes the encoder; returns the packets still queued. */
    method EndEncode() returns (packets: seq<Packet>)
      modifies this
      ensures calls == old(calls) + [EndEncodeCall]
      ensures packets == Batch(replies, |old(calls)|)
    {
      packets := Batch(replies, |calls|);
      calls := calls + [EndEncodeCall];
    }
  }

  /** The output file, `std::ofstream`: writes append bytes. */
  class OutputFile {
    var bytes: seq<byte>

    constructor ()
      ensures bytes == []
    {
      bytes := [];
    }

    method Write(data: seq<byte>)
      modifies this
      ensures bytes == old(bytes) + data
    {
      bytes := bytes + data;
    }
  }


  /** Writes every packet of a batch to the file, in order. */
  method WritePackets(out: OutputFile, packets: seq<Packet>)
    modifies out
    ensures out.bytes == old(out.bytes) + Concat(packets)
  {
    for k := 0 to |packets|
      invariant out.bytes == old(out.bytes) + Concat(packets[..k])
    {
      assert packets[..k + 1] == packets[..k] + [packets[k]];
      ConcatSnoc(packets[..k], packets[k]);
      out.Write(packets[k]);
    }
    assert packets[..|packets|] == packets;
  }

  /**
   * One trip through the loop of `EncodeCuda`: submit a frame (or, on the
   * last trip, flush the encoder), then write out the packets that come back.
   * Returns how many there were.
   */
  method EncodeTrip(enc: Encoder, out: OutputFile, i: nat) returns (count: nat)
    requires |enc.calls| == i
    modifies enc, out
    ensures enc.calls == old(enc.calls) + [CallAt(i)]
    ensures count == |Batch(enc.replies, i)|
    ensures out.bytes == old(out.bytes) + Concat(Batch(enc.replies, i))
  {
    var packets;
    if i < LastFrame {
      packets := enc.EncodeFrame();
    } else {
      packets := enc.EndEncode();
    }
    count := |packets|;
    WritePackets(out, packets);
  }

  /**
   * The loop of `EncodeCuda`, with the encoder created here from the
   * batches it will answer with. Returns `nFrame`, the number of packets,
   * and the encoder with its log of calls.
   */
  method EncodeCuda(replies: seq<seq<Packet>>, out: OutputFile) returns (nFrame: int, enc: Encoder)
    modifies out
    ensures fresh(enc) && enc.replies == replies
    ensures enc.calls == CallLog(LastFrame + 1)
    ensures |enc.calls| == LastFrame + 1 && enc.calls[LastFrame] == EndEncodeCall
    ensures forall j :: 0 <= j < LastFrame ==> enc.calls[j] == EncodeFrameCall
    ensures nFrame == |Packets(replies, LastFrame + 1)|
    ensures out.bytes == old(out.bytes) + Concat(Packets(replies, LastFrame + 1))
  {
    ghost var start := out.bytes;
    enc := new Encoder(replies);
    nFrame := 0;
    for i := 0 to LastFrame + 1
      invariant fresh(enc) && enc.replies == replies
      invariant |enc.calls| == i
      invariant enc.calls == CallLog(i)
      invariant nFrame == |Packets(replies, i)|
      invariant out.bytes == start + Bytes(replies, i)
    {
      var count := EncodeTrip(enc, out, i);
      nFrame := nFrame + count;
    }
    CallLogShape(LastFrame + 1);
    BytesArePackets(replies, LastFrame + 1);
  }
}
