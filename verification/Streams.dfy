/** Cutting a byte stream into packets and putting it together again. */
module Streams {
  import opened PacketNumbers
  import opened Packets
  import opened Connection

  /** The stream bytes of one packet. */
  function Bytes(p: Pkt): seq<byte> {
    if p.op >= DAT then p.data else []
  }

  /** The stream bytes of a list of packets: those of its DATs, in order. */
  function Payload(ps: seq<Pkt>): seq<byte> {
    if ps == [] then [] else Bytes(ps[0]) + Payload(ps[1..])
  }

  lemma {:induction false} PayloadAppend(a: seq<Pkt>, b: seq<Pkt>)
    ensures Payload(a + b) == Payload(a) + Payload(b)
  {
    if a == [] {
      assert a + b == b;
    } else {
      PayloadAppend(a[1..], b);
      assert (a + b)[0] == a[0] && (a + b)[1..] == a[1..] + b;
      Regroup(Bytes(a[0]), Payload(a[1..]), Payload(b));
    }
  }

  lemma Regroup<T>(a: seq<T>, b: seq<T>, c: seq<T>)
    ensures (a + b) + c == a + (b + c)
  {}

  /** The packets cut from a byte string carry exactly that string. */
  lemma {:induction false} SegmentsCarryAll(data: seq<byte>)
    ensures Payload(Segments(data)) == data
  {
    if data != [] {
      var n := Min(|data|, MAX_DATA);
      SegmentsCarryAll(data[n..]);
      assert Segments(data)[1..] == Segments(data[n..]);
      assert data == data[..n] + data[n..];
    }
  }

  /** A write appends to the stream exactly the bytes it accepted, which are as many as
      were offered or as there was room for. */
  lemma SendAppends(c: Conn, data: seq<byte>)
    requires Ok(c)
    ensures var n := Accepted(c, data);
      && n == Min(|data|, SendRoom(c))
      && Payload(Send(c, data).c.snd.log) == Payload(c.snd.log) + data[..n]
  {
    var taken := data[..Accepted(c, data)];
    if taken != [] {
      PayloadAppend(c.snd.log, Segments(taken));
      SegmentsCarryAll(taken);
    }
  }

  /** The bytes a reader can still take: from the consumed mark through the in-order
      mark, but not past an EOF. */
  ghost function InOrder(r: Rcv): seq<byte>
    requires Readable(r)
    decreases r.received - r.read
  {
    if r.read == r.received || r.eof || r.q[r.read + 1].op == EOF then []
    else r.q[r.read + 1].data[r.offset..] + InOrder(Pass(r))
  }

  /** A read of at most `max` bytes returns the first `max` of the stream, or all there
      is, and leaves the rest. */
  ghost predicate TakesPrefix(r: Rcv, max: nat)
    requires Readable(r)
  {
    var (r1, bytes) := Consume(r, max);
    Readable(r1) && |bytes| == Min(max, |InOrder(r)|) && InOrder(r) == bytes + InOrder(r1)
  }

  lemma TakeNothing(r: Rcv, max: nat)
    requires Readable(r) && (max == 0 || r.read == r.received || r.eof || r.q[r.read + 1].op == EOF)
    ensures TakesPrefix(r, max)
  {}

  /** Part of the next packet. */
  lemma TakePart(r: Rcv, max: nat)
    requires Readable(r) && r.read < r.received && !r.eof && r.q[r.read + 1].op != EOF && max > 0
    requires r.offset + max < |r.q[r.read + 1].data|
    ensures TakesPrefix(r, max)
  {
    var data := r.q[r.read + 1].data;
    var r1 := r.(offset := r.offset + max);
    assert Pass(r1) == Pass(r);
    assert data[r.offset..] == data[r.offset..r.offset + max] + data[r1.offset..];
    Regroup(data[r.offset..r.offset + max], data[r1.offset..], InOrder(Pass(r)));
  }

  /** All of the next packet, and then a read of what is behind it. */
  lemma TakeWhole(r: Rcv, max: nat)
    requires Readable(r) && r.read < r.received && !r.eof && r.q[r.read + 1].op != EOF && max > 0
    requires |r.q[r.read + 1].data| - r.offset <= max
    requires TakesPrefix(Pass(r), max - (|r.q[r.read + 1].data| - r.offset))
    ensures TakesPrefix(r, max)
  {
    var bytes := r.q[r.read + 1].data[r.offset..];
    assert bytes == r.q[r.read + 1].data[r.offset..r.offset + |bytes|];
    var (r1, rest) := Consume(Pass(r), max - |bytes|);
    assert Consume(r, max) == (r1, bytes + rest);
    assert InOrder(r) == bytes + InOrder(Pass(r));
    hide Consume; hide InOrder; hide Readable;
    Regroup(bytes, rest, InOrder(r1));
  }

  lemma {:induction false} ConsumeTakesPrefix(r: Rcv, max: nat)
    requires Readable(r)
    ensures TakesPrefix(r, max)
    decreases r.received - r.read
  {
    if max == 0 || r.read == r.received || r.eof || r.q[r.read + 1].op == EOF {
      TakeNothing(r, max);
    } else if r.offset + max < |r.q[r.read + 1].data| {
      TakePart(r, max);
    } else {
      ConsumeTakesPrefix(Pass(r), max - (|r.q[r.read + 1].data| - r.offset));
      TakeWhole(r, max);
    }
  }

  /** What a series of reads returns, one after the other. */
  ghost function ConsumeAll(r: Rcv, sizes: seq<nat>): (Rcv, seq<byte>)
    requires Readable(r)
    decreases |sizes|
  {
    if sizes == [] then (r, [])
    else
      ConsumeTakesPrefix(r, sizes[0]);
      var (r1, bytes) := Consume(r, sizes[0]);
      var (r2, rest) := ConsumeAll(r1, sizes[1..]);
      (r2, bytes + rest)
  }

  function Sum(sizes: seq<nat>): nat {
    if sizes == [] then 0 else sizes[0] + Sum(sizes[1..])
  }

  /** However the reads are sized, they return the same bytes: as many of the stream as
      they asked for in total. */
  lemma {:induction false} ReadSizesDoNotMatter(r: Rcv, sizes: seq<nat>)
    requires Readable(r)
    ensures var bytes := ConsumeAll(r, sizes).1;
      && bytes == InOrder(r)[..Min(Sum(sizes), |InOrder(r)|)]
      && bytes == Consume(r, Sum(sizes)).1
    decreases |sizes|
  {
    ConsumeTakesPrefix(r, Sum(sizes));
    if sizes != [] {
      ConsumeTakesPrefix(r, sizes[0]);
      ReadSizesDoNotMatter(Consume(r, sizes[0]).0, sizes[1..]);
    }
  }
}
