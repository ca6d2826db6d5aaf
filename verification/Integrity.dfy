/** End-to-end stream integrity, window safety and graceful close: every step of either
    end of the network keeps the invariant that links the two.
  */
module Integrity {
  import opened PacketNumbers
  import opened Packets
  import opened Connection
  import opened Streams
  import opened Network

  // ---------------------------------------------------------------- As a sender

  lemma MaybeSendEofLinked(c: Conn, r: Rcv)
    requires SndOk(c.snd) && Linked(c, r)
    ensures Linked(MaybeSendEof(c).c, r)
  {}

  /** Marks as the peer means them, or so old that they are ignored as never sent. */
  predicate MarksFrom(s: Snd, r: Rcv, ack: u16, receipt: u16) {
    var a, n := Unwrap(s.Sent(), ack), Unwrap(s.Sent(), receipt);
    a > s.Sent() || n > s.Sent() || (a <= r.read && n <= r.received)
  }

  /** The peer's marks move the sender's marks to true values, and if they acknowledge
      the EOF the peer's user has had everything. */
  lemma ProcessAckLinked(c: Conn, r: Rcv, ack: u16, receipt: u16)
    requires SndOk(c.snd) && Linked(c, r) && c.phase.Open? && MarksFrom(c.snd, r, ack, receipt)
    ensures Linked(ProcessAck(c, ack, receipt).c, r)
  {
    var a, n := Unwrap(c.snd.Sent(), ack), Unwrap(c.snd.Sent(), receipt);
    if a <= c.snd.Sent() && n <= c.snd.Sent() {
      MoveMarksLinked(c, r, a, n);
      var c1 := c.(snd := MoveMarks(c.snd, a, n));
      MaybeSendEofLinked(c1, r);
      hide Unwrap; hide Holds; hide MarksTrue; hide SndOk; hide MoveMarks; hide MaybeSendEof;
      assert c.snd.eofSent && a == c.snd.Sent() ==> Linked(SetClosed(c1, Done, FINISHED), r);
    }
  }

  lemma MoveMarksLinked(c: Conn, r: Rcv, a: int, n: int)
    requires SndOk(c.snd) && Linked(c, r) && c.phase.Open?
    requires a <= c.snd.Sent() && n <= c.snd.Sent() && a <= r.read && n <= r.received
    ensures var c1 := c.(snd := MoveMarks(c.snd, a, n));
      SndOk(c1.snd) && Linked(c1, r)
  {}

  lemma SendLinked(c: Conn, r: Rcv, data: seq<byte>)
    requires SndOk(c.snd) && Linked(c, r)
    ensures Linked(Send(c, data).c, r)
  {
    var taken := data[..Accepted(c, data)];
    if taken != [] {
      var ps := Segments(taken);
      assert MAX_DATA * (|ps| - 1) < |taken| <= MAX_DATA * c.snd.Available();
    }
  }

  lemma FinishLinked(c: Conn, r: Rcv)
    requires SndOk(c.snd) && Linked(c, r)
    ensures Linked(Finish(c).c, r)
  {
    if c.phase.Open? && !c.snd.eofWanted {
      var c1 := c.(snd := c.snd.(eofWanted := true));
      assert SndOk(c1.snd) && Linked(c1, r);
      MaybeSendEofLinked(c1, r);
    }
  }

  /** Closing for any other reason claims nothing about the peer. */
  lemma SetClosedLinked(c: Conn, r: Rcv, kind: CloseKind, text: seq<byte>)
    requires Linked(c, r) && c.phase.Open? && !kind.NotClosed? && (kind.Done? ==> Clip(text) != FINISHED)
    ensures Linked(SetClosed(c, kind, text), r)
  {}

  lemma TickLinked(c: Conn, r: Rcv, t: Clock)
    requires Ok(c) && Linked(c, r) && !c.phase.RfcSent?
    ensures Linked(Tick(c, t).c, r)
  {
    if c.phase.Open? {
      if t.hostDown {
        SetClosedLinked(c, r, TimedOut, STOPPED_RESPONDING);
      } else if c.snd.eofWanted && t.finishExpired {
        assert |Clip(FINISHED_UNACKED)| != |FINISHED|;
        SetClosedLinked(Emit(c, []).c, r, Done, FINISHED_UNACKED);
      } else {
        TickKeepsSnd(c, t);
      }
    }
  }

  lemma TickKeepsSnd(c: Conn, t: Clock)
    requires Ok(c) && c.phase.Open? && !t.hostDown && !(c.snd.eofWanted && t.finishExpired)
    ensures var c1 := Tick(c, t).c;
      c1.snd == c.snd && c1.rcv == c.rcv && c1.phase == c.phase && c1.kind == c.kind && c1.reason == c.reason
  {}

  /** A fresh mark is read as itself or as a number never sent. */
  lemma MarkIsRead(sent: int, mark: int)
    requires sent - MODULUS < mark <= sent
    ensures Unwrap(sent, Wrap(mark)) == mark || Unwrap(sent, Wrap(mark)) > sent
  {
    if mark > sent - HALF { UnwrapIsInverse(sent, mark); } else { UnwrapOfOld(sent, mark); }
  }

  /** What a fresh message from the peer is read as. */
  lemma WireIsTrue(c: Conn, y: Side, m: Msg)
    requires SideOk(y) && Linked(c, y.c.rcv) && Truthful(m, y.c) && Fresh(c, m)
    ensures |Wire(m).data| <= MAX_DATA && Wire(m).op != OPN
    ensures (m.Controlled? && m.pkt.op != RFC) || m.Sense? ==>
      MarksFrom(c.snd, y.c.rcv, Wire(m).ack, Wire(m).ack)
    ensures m.Status? ==>
      && Wire(m).op == STS && |Wire(m).data| == 4 && Get16(Wire(m).data, 2) == y.c.rcv.window
      && MarksFrom(c.snd, y.c.rcv, Wire(m).ack, Get16(Wire(m).data, 0))
  {
    if m.Controlled? {
      assert PktOk(m.pkt);
      MarkIsRead(c.snd.Sent(), m.ack);
    } else if m.Status? {
      MarkIsRead(c.snd.Sent(), m.ack);
      MarkIsRead(c.snd.Sent(), m.receipt);
      Get16OfPut16(Wrap(m.receipt), m.window);
    } else if m.Sense? {
      MarkIsRead(c.snd.Sent(), m.ack);
    }
  }

  lemma DataLinked(c: Conn, r: Rcv, f: Frame)
    requires Ok(c) && Linked(c, r) && c.phase.Open? && MarksFrom(c.snd, r, f.ack, f.ack)
    ensures Linked(InputData(c, f).c, r)
  {
    ProcessAckOk(c, f.ack, f.ack);
    ProcessAckLinked(c, r, f.ack, f.ack);
    QueueInputKeepsSnd(ProcessAck(c, f.ack, f.ack).c, f.num, Pkt(f.op, f.data));
  }

  lemma QueueInputKeepsSnd(c: Conn, num: u16, p: Pkt)
    requires Ok(c)
    ensures var c1 := QueueInput(c, num, p).c;
      c1.snd == c.snd && c1.phase == c.phase && c1.kind == c.kind && c1.reason == c.reason
  {}

  lemma StsLinked(c: Conn, r: Rcv, f: Frame, late: set<int>)
    requires Ok(c) && Linked(c, r) && c.phase.Open? && |f.data| >= 4
    requires MarksFrom(c.snd, r, f.ack, Get16(f.data, 0)) && Get16(f.data, 2) <= r.window
    ensures Linked(InputSts(c, f, late).c, r)
  {
    var c1 := SetWindow(c, f);
    assert SndOk(c1.snd) && Linked(c1, r);
    ProcessAckLinked(c1, r, f.ack, Get16(f.data, 0));
    StsKeepsSnd(c, f, late);
    hide InputSts; hide ProcessAck; hide Ok; hide SndOk; hide Holds;
  }

  lemma StsKeepsSnd(c: Conn, f: Frame, late: set<int>)
    requires Ok(c) && |f.data| >= 4
    ensures var c1 := ProcessAck(SetWindow(c, f), f.ack, Get16(f.data, 0)).c;
      var c2 := InputSts(c, f, late).c;
      c2 == c1.(lastAck := c2.lastAck, ackDue := c2.ackDue)
  {
    ProcessAckOk(SetWindow(c, f), f.ack, Get16(f.data, 0));
    RetransmitKeeps(ProcessAck(SetWindow(c, f), f.ack, Get16(f.data, 0)).c, late);
  }

  lemma RetransmitKeeps(c: Conn, late: set<int>)
    requires SndOk(c.snd)
    ensures var c1 := Retransmit(c, late).c; c1 == c.(lastAck := c1.lastAck, ackDue := c1.ackDue)
  {}

  lemma SnsLinked(c: Conn, r: Rcv, f: Frame)
    requires Ok(c) && Linked(c, r) && c.phase.Open? && MarksFrom(c.snd, r, f.ack, f.ack)
    ensures Linked(InputSns(c, f).c, r)
  {
    ProcessAckLinked(c, r, f.ack, f.ack);
  }

  lemma InputLinked(c: Conn, y: Side, m: Msg, late: set<int>)
    requires Ok(c) && SideOk(y) && Linked(c, y.c.rcv) && Truthful(m, y.c) && Fresh(c, m)
    requires !c.phase.RfcSent?
    ensures Linked(Input(c, Wire(m), late).c, y.c.rcv)
  {
    WireIsTrue(c, y, m);
    var f, r := Wire(m), y.c.rcv;
    if c.phase.Open? && !Connectionless(f.op) {
      match m
      case Controlled(_, _, _) => DataLinked(c, r, f);
      case Status(_, _, _) => StsLinked(c, r, f, late);
      case Sense(_) => SnsLinked(c, r, f);
      case Close(_, text) => SetClosedLinked(c, r, ByCls, f.data);
      case Lost(text) => SetClosedLinked(c, r, ByLos, f.data);
    }
  }

  lemma RecvLinked(c: Conn, r: Rcv, max: nat)
    requires Ok(c) && Linked(c, r)
    ensures Linked(Recv(c, max).c, r)
  {}

  lemma ReleaseLinked(c: Conn, r: Rcv, text: seq<byte>)
    requires Linked(c, r)
    ensures Linked(Release(c, text).c, r)
  {}

  lemma OutcomeLinked(x: Side, y: Side, act: Action)
    requires SideOk(x) && SideOk(y) && Linked(x.c, y.c.rcv) && Enabled(x, y, act)
    ensures Linked(Outcome(x.c, act).c, y.c.rcv)
  {
    hide Send; hide Recv; hide Connection.Finish; hide Tick; hide Connection.Release; hide Input;
    match act
    case Write(data) => SendLinked(x.c, y.c.rcv, data);
    case Read(max) => RecvLinked(x.c, y.c.rcv, max);
    case Shut => FinishLinked(x.c, y.c.rcv);
    case LetGo(text) => ReleaseLinked(x.c, y.c.rcv, text);
    case Timer(t) => TickLinked(x.c, y.c.rcv, t);
    case Resend(late) => RetransmitKeeps(x.c, late);
    case Deliver(m, late) => InputLinked(x.c, y, m, late);
  }

  /** A sender's step leaves the bytes already delivered what they were. */
  lemma DeliveredStays(s: Snd, s1: Snd, r: Rcv)
    requires Readable(r) && Holds(s, r) && Holds(s1, r) && s1.base == s.base && s.log <= s1.log
    ensures Delivered(s1, r) == Delivered(s, r)
  {
    assert s1.log[..r.read - s.base] == s.log[..r.read - s.base];
  }

  // ---------------------------------------------------------------- As a receiver

  /** A read returns the bytes that follow those delivered so far. */
  ghost predicate Delivers(s: Snd, r: Rcv, max: nat)
    requires Readable(r) && Holds(s, r)
  {
    var (r1, bytes) := Consume(r, max);
    Readable(r1) && Holds(s, r1) && Delivered(s, r1) == Delivered(s, r) + bytes
  }

  lemma {:induction false} ConsumeDelivers(s: Snd, r: Rcv, max: nat)
    requires SndOk(s) && Readable(r) && Holds(s, r)
    ensures Delivers(s, r, max)
    decreases r.received - r.read
  {
    if max == 0 || r.read == r.received || r.eof {
    } else if r.q[r.read + 1].op == EOF {
      EofDelivers(s, r, max);
    } else if r.offset + max < |r.q[r.read + 1].data| {
      PartDelivers(s, r, max);
    } else {
      assert PktOk(s.Nth(r.read + 1));
      PassDelivers(s, r);
      ConsumeDelivers(s, Pass(r), max - (|r.q[r.read + 1].data| - r.offset));
      WholeDelivers(s, r, max);
    }
  }

  lemma EofDelivers(s: Snd, r: Rcv, max: nat)
    requires SndOk(s) && Readable(r) && Holds(s, r) && r.read < r.received && !r.eof
    requires max > 0 && r.q[r.read + 1].op == EOF
    ensures Delivers(s, r, max)
  {
    var k := r.read - s.base;
    assert s.log[k] == r.q[r.read + 1];
    assert s.log[..k + 1] == s.log[..k] + [s.log[k]];
    PayloadAppend(s.log[..k], [s.log[k]]);
  }

  lemma PassDelivers(s: Snd, r: Rcv)
    requires SndOk(s) && Readable(r) && Holds(s, r) && r.read < r.received && !r.eof
    requires r.q[r.read + 1].op != EOF
    ensures Readable(Pass(r)) && Holds(s, Pass(r))
    ensures r.q[r.read + 1].op >= DAT ==>
      Delivered(s, Pass(r)) == Delivered(s, r) + r.q[r.read + 1].data[r.offset..]
  {
    var k := r.read - s.base;
    assert s.log[k] == r.q[r.read + 1];
    assert s.log[..k + 1] == s.log[..k] + [s.log[k]];
    PayloadAppend(s.log[..k], [s.log[k]]);
    var data := s.log[k].data;
    assert data == data[..r.offset] + data[r.offset..];
    Regroup(Payload(s.log[..k]), data[..r.offset], data[r.offset..]);
  }

  lemma TakeAll(r: Rcv, max: nat)
    requires Readable(r) && r.read < r.received && !r.eof
    requires max > 0 && r.q[r.read + 1].op != EOF && |r.q[r.read + 1].data| - r.offset <= max
    requires Readable(Pass(r))
    ensures var bytes := r.q[r.read + 1].data[r.offset..];
      Consume(r, max) == Joined(bytes, Consume(Pass(r), max - |bytes|))
  {
    var bytes := r.q[r.read + 1].data[r.offset..];
    assert bytes == r.q[r.read + 1].data[r.offset..r.offset + |bytes|];
  }

  lemma WholeDelivers(s: Snd, r: Rcv, max: nat)
    requires Readable(r) && Holds(s, r) && r.read < r.received && !r.eof
    requires max > 0 && r.q[r.read + 1].op >= DAT && |r.q[r.read + 1].data| - r.offset <= max
    requires Readable(Pass(r)) && Holds(s, Pass(r))
    requires Delivered(s, Pass(r)) == Delivered(s, r) + r.q[r.read + 1].data[r.offset..]
    requires Delivers(s, Pass(r), max - (|r.q[r.read + 1].data| - r.offset))
    ensures Delivers(s, r, max)
  {
    var bytes := r.q[r.read + 1].data[r.offset..];
    var (r1, rest) := Consume(Pass(r), max - |bytes|);
    TakeAll(r, max);
    hide Consume; hide Delivered; hide Holds;
    assert Delivered(s, r1) == (Delivered(s, r) + bytes) + rest;
    Regroup(Delivered(s, r), bytes, rest);
  }

  lemma PartDelivers(s: Snd, r: Rcv, max: nat)
    requires Readable(r) && Holds(s, r) && r.read < r.received && !r.eof
    requires max > 0 && r.q[r.read + 1].op != EOF && r.offset + max < |r.q[r.read + 1].data|
    ensures Delivers(s, r, max)
  {
    var data, r1 := r.q[r.read + 1].data, r.(offset := r.offset + max);
    TakeSome(r, max);
    assert s.base <= r.read;
    hide Consume; hide Payload; hide Holds; hide Readable;
    Rejoin(Payload(s.log[..r.read - s.base]), data, r.offset, max);
  }

  lemma Rejoin(before: seq<byte>, data: seq<byte>, i: nat, n: nat)
    requires i + n <= |data|
    ensures (before + data[..i]) + data[i..i + n] == before + data[..i + n]
    ensures before + [] == before
  {}

  lemma TakeSome(r: Rcv, max: nat)
    requires Readable(r) && r.read < r.received && !r.eof
    requires max > 0 && r.q[r.read + 1].op != EOF && r.offset + max < |r.q[r.read + 1].data|
    ensures var r1 := r.(offset := r.offset + max);
      && Readable(r1) && Consume(r, max) == (r1, r.q[r.read + 1].data[r.offset..r1.offset])
      && forall s :: Holds(s, r) ==> Holds(s, r1)
  {}

  /** A receiver that only moves forward keeps the link. */
  lemma LinkGrows(c: Conn, r: Rcv, r1: Rcv)
    requires Linked(c, r) && Holds(c.snd, r1)
    requires r.read <= r1.read <= r1.received && r.received <= r1.received && r1.window == r.window
    ensures Linked(c, r1)
  {}

  /** Queueing a packet the peer really numbered keeps the link. */
  lemma EnqueueHolds(s: Snd, r: Rcv, n: int)
    requires SndOk(s) && RcvOk(r) && Holds(s, r)
    requires r.received < n <= s.Sent() && n <= r.read + r.window && n !in r.q && IsInput(s.Nth(n))
    ensures var r1 := Enqueue(r, n, s.Nth(n));
      && r1.read == r.read && r1.received >= r.received && r1.window == r.window && r1.offset == r.offset
      && Readable(r1) && Holds(s, r1)
      && (r.offset > 0 ==> r1.q[r.read + 1] == r.q[r.read + 1])
  {
    EnqueueOk(r, n, s.Nth(n));
    AdvanceRuns(r.q[n := s.Nth(n)], r.received, r.read + r.window);
  }

  lemma EnqueueDelivers(s: Snd, r: Rcv, n: int)
    requires SndOk(s) && RcvOk(r) && Holds(s, r)
    requires r.received < n <= s.Sent() && n <= r.read + r.window && n !in r.q && IsInput(s.Nth(n))
    ensures var r1 := Enqueue(r, n, s.Nth(n));
      Readable(r1) && Holds(s, r1) && Delivered(s, r1) == Delivered(s, r)
  {
    EnqueueHolds(s, r, n);
  }

  /** The receiving half after a message from the peer. */
  lemma InputDelivers(y: Side, x: Side, m: Msg, late: set<int>)
    requires SideOk(x) && SideOk(y) && Linked(y.c, x.c.rcv) && Linked(x.c, y.c.rcv)
    requires Truthful(m, y.c) && Fresh(x.c, m)
    ensures ReceiverStep(y.c, x.c.rcv, Input(x.c, Wire(m), late).c.rcv)
  {
    WireIsTrue(x.c, y, m);
    if x.c.phase.Open? && m.Controlled? && m.pkt.op != RFC {
      DataDelivers(y.c, x.c, m);
    } else if x.c.phase.Open? && m.Status? {
      StsKeepsRcv(x.c, Wire(m), late);
    } else if x.c.phase.Open? && m.Sense? {
      ProcessAckOk(x.c, Wire(m).ack, Wire(m).ack);
    }
  }

  lemma StsKeepsRcv(c: Conn, f: Frame, late: set<int>)
    requires Ok(c)
    ensures InputSts(c, f, late).c.rcv == c.rcv
  {
    if |f.data| >= 4 { ProcessAckOk(SetWindow(c, f), f.ack, Get16(f.data, 0)); }
  }

  /** The link is kept and nothing is delivered or taken back. */
  ghost predicate ReceiverStep(c: Conn, r: Rcv, r1: Rcv)
    requires Readable(r) && Holds(c.snd, r)
  {
    Readable(r1) && Linked(c, r1) && Delivered(c.snd, r1) == Delivered(c.snd, r)
  }

  lemma DataDelivers(peer: Conn, c: Conn, m: Msg)
    requires Ok(peer) && Ok(c) && Linked(peer, c.rcv)
    requires m.Controlled? && m.pkt.op != RFC && Truthful(m, peer) && Fresh(c, m)
    ensures ReceiverStep(peer, c.rcv, InputData(c, Wire(m)).c.rcv)
  {
    var f := Wire(m);
    ProcessAckOk(c, f.ack, f.ack);
    var c1 := ProcessAck(c, f.ack, f.ack).c;
    if c1.phase.Open? {
      if m.num > c.rcv.received - HALF {
        UnwrapIsInverse(c.rcv.received, m.num);
      } else {
        UnwrapOfOld(c.rcv.received, m.num);
      }
      QueueDelivers(peer, c1, m.num);
    }
  }

  lemma QueueDelivers(peer: Conn, c: Conn, n: int)
    requires SndOk(peer.snd) && Ok(c) && Linked(peer, c.rcv)
    requires peer.snd.base < n <= peer.snd.Sent() && peer.snd.Nth(n).op != RFC
    requires var n1 := Unwrap(c.rcv.received, Wrap(n)); n1 == n || n1 > c.rcv.read + c.rcv.window
    ensures ReceiverStep(peer, c.rcv, QueueInput(c, Wrap(n), peer.snd.Nth(n)).c.rcv)
  {
    var r, p := c.rcv, peer.snd.Nth(n);
    if Unwrap(r.received, Wrap(n)) == n && r.received < n && n !in r.q {
      EnqueueHolds(peer.snd, r, n);
      EnqueueDelivers(peer.snd, r, n);
      LinkGrows(peer, r, Enqueue(r, n, p));
    }
  }

  lemma OutcomeDelivers(y: Side, x: Side, act: Action)
    requires SideOk(x) && SideOk(y) && Linked(y.c, x.c.rcv) && Linked(x.c, y.c.rcv) && Enabled(x, y, act)
    requires !act.Read?
    ensures ReceiverStep(y.c, x.c.rcv, Outcome(x.c, act).c.rcv)
  {
    if act.Deliver? {
      InputDelivers(y, x, act.m, act.late);
    } else {
      OutcomeKeepsRcv(x, act);
    }
  }

  lemma OutcomeKeepsRcv(x: Side, act: Action)
    requires Ok(x.c) && !act.Read? && !act.Deliver?
    ensures Outcome(x.c, act).c.rcv == x.c.rcv
  {}

  lemma ReadDelivers(peer: Conn, r: Rcv, max: nat)
    requires Ok(peer) && RcvOk(r) && Linked(peer, r)
    ensures var (r1, bytes) := Consume(r, max);
      RcvOk(r1) && Linked(peer, r1) && Delivered(peer.snd, r1) == Delivered(peer.snd, r) + bytes
  {
    ConsumeOk(r, max);
    ConsumeDelivers(peer.snd, r, max);
    ConsumeFrame(r, max);
    LinkGrows(peer, r, Consume(r, max).0);
  }

  // ---------------------------------------------------------------- Both ends

  /** A step of x, for the stream from x to y. */
  lemma StepAsSender(x: Side, y: Side, act: Action)
    requires SideOk(x) && SideOk(y) && Cross(x, y) && Enabled(x, y, act)
    ensures Cross(Do(x, act), y)
  {
    DoKeepsSide(x, act);
    OutcomeLinked(x, y, act);
    DeliveredStays(x.c.snd, Do(x, act).c.snd, y.c.rcv);
  }

  /** A step of x, for the stream from y to x. */
  lemma StepAsReceiver(x: Side, y: Side, act: Action)
    requires SideOk(x) && SideOk(y) && Cross(y, x) && Cross(x, y) && Enabled(x, y, act)
    ensures Cross(y, Do(x, act))
  {
    DoKeepsSide(x, act);
    if act.Read? {
      ReadStep(x, y, act.max);
    } else {
      OutcomeDelivers(y, x, act);
    }
  }

  lemma ReadStep(x: Side, y: Side, max: nat)
    requires Ok(x.c) && SideOk(y) && Cross(y, x) && Ok(Do(x, Read(max)).c)
    ensures Cross(y, Do(x, Read(max)))
  {
    ReadDelivers(y.c, x.c.rcv, max);
    RecvRcv(x.c, max);
  }

  lemma RecvRcv(c: Conn, max: nat)
    requires Ok(c)
    ensures Recv(c, max).c.rcv == if c.phase.Free? then c.rcv else Consume(c.rcv, max).0
  {}

  lemma InitialInv(s: System)
    requires Initial(s)
    ensures Inv(s)
  {
    assert s.a.c.snd.log[..s.b.c.rcv.read - s.a.c.snd.base] == s.a.c.snd.log;
    assert s.b.c.snd.log[..s.a.c.rcv.read - s.b.c.snd.base] == s.b.c.snd.log;
  }

  lemma PlayKeepsInv(s: System, e: Event)
    requires Inv(s) && CanPlay(s, e)
    ensures Inv(Play(s, e))
  {
    var (x, y) := if e.byA then (s.a, s.b) else (s.b, s.a);
    DoKeepsSide(x, e.act);
    StepAsSender(x, y, e.act);
    StepAsReceiver(x, y, e.act);
  }

  lemma {:induction false} RunKeepsInv(states: seq<System>, events: seq<Event>, i: nat)
    requires Run(states, events) && i < |states|
    ensures Inv(states[i])
  {
    if i == 0 {
      InitialInv(states[0]);
    } else {
      RunKeepsInv(states, events, i - 1);
      PlayKeepsInv(states[i - 1], events[i - 1]);
    }
  }

  // ---------------------------------------------------------------- Main results

  /** What has been delivered is a prefix of what was written, and at least everything
      the sender has an acknowledgement for. */
  lemma DeliveredIsPrefix(s: Snd, r: Rcv)
    requires SndOk(s) && Readable(r) && Holds(s, r)
    ensures Delivered(s, r) <= Payload(s.log)
    ensures s.acked <= r.read ==> Payload(s.log[..s.acked - s.base]) <= Delivered(s, r)
    ensures r.eof || (r.read == s.Sent() && r.offset == 0) ==> Delivered(s, r) == Payload(s.log)
  {
    var k := r.read - s.base;
    PayloadSplits(s.log, k);
    if r.offset > 0 {
      PartialIsPrefix(s, r);
    } else if k == |s.log| {
      assert s.log[..k] == s.log;
    }
    if s.acked <= r.read {
      AckedIsPrefix(s.log, k, s.acked - s.base);
    }
  }

  lemma AckedIsPrefix(log: seq<Pkt>, k: nat, j: nat)
    requires j <= k <= |log|
    ensures Payload(log[..j]) <= Payload(log[..k])
  {
    assert log[..k][..j] == log[..j];
    PayloadSplits(log[..k], j);
  }

  lemma PayloadSplits(log: seq<Pkt>, k: nat)
    requires k <= |log|
    ensures Payload(log) == Payload(log[..k]) + Payload(log[k..])
  {
    assert log == log[..k] + log[k..];
    PayloadAppend(log[..k], log[k..]);
  }

  lemma PartialIsPrefix(s: Snd, r: Rcv)
    requires SndOk(s) && Readable(r) && Holds(s, r) && r.offset > 0
    ensures Delivered(s, r) <= Payload(s.log)
  {
    var k := r.read - s.base;
    assert s.log[k] == r.q[r.read + 1] && PktOk(s.log[k]);
    PayloadSplits(s.log, k);
    assert s.log[k..][0] == s.log[k];
    assert s.log[k].data == s.log[k].data[..r.offset] + s.log[k].data[r.offset..];
  }

  /** End-to-end stream integrity: in every state of every run the bytes returned to each
      reader are a prefix of the bytes accepted from the writer at the other end. */
  lemma StreamIntegrity(states: seq<System>, events: seq<Event>, i: nat)
    requires Run(states, events) && i < |states|
    ensures states[i].b.got <= states[i].a.wrote
    ensures states[i].a.got <= states[i].b.wrote
  {
    RunKeepsInv(states, events, i);
    DeliveredIsPrefix(states[i].a.c.snd, states[i].b.c.rcv);
    DeliveredIsPrefix(states[i].b.c.snd, states[i].a.c.rcv);
  }

  /** The stream from x to y, as far as the numbers go. */
  ghost predicate InWindow(x: Side, y: Side) {
    var s, r := x.c.snd, y.c.rcv;
    && r.read <= r.received <= s.Sent() <= r.read + r.window
    && (x.c.phase.Open? ==>
        && s.acked <= r.read && s.acked <= s.receipt <= r.received
        && s.Sent() - s.acked <= MAX_WINDOW)
    && (forall m :: m in x.sent && m.Controlled? ==> m.num <= r.read + r.window)
  }

  /** Counter order and window safety: marks never run ahead of what they stand for, and
      nothing in flight is beyond the receiver's window. */
  lemma WindowSafety(states: seq<System>, events: seq<Event>, i: nat)
    requires Run(states, events) && i < |states|
    ensures InWindow(states[i].a, states[i].b) && InWindow(states[i].b, states[i].a)
  {
    RunKeepsInv(states, events, i);
  }

  /** y takes x's packet m for one over its window exactly when it is 2^15 or more numbers behind
      what y has received. */
  ghost predicate OverIsOld(x: Side, y: Side, m: Msg) {
    var r := y.c.rcv;
    m in x.sent && m.Controlled? && Fresh(y.c, m) ==>
      (Unwrap(r.received, Wrap(m.num)) > r.read + r.window <==> m.num <= r.received - HALF)
  }

  lemma CrossOverIsOld(x: Side, y: Side, m: Msg)
    requires SideOk(x) && Cross(x, y)
    ensures OverIsOld(x, y, m)
  {
    var r := y.c.rcv;
    if m in x.sent && m.Controlled? && Fresh(y.c, m) {
      assert Truthful(m, x.c);
      if m.num > r.received - HALF { UnwrapIsInverse(r.received, m.num); } else { UnwrapOfOld(r.received, m.num); }
    }
  }

  /** The over-window branch is for stale packets only, whose data is then not queued. */
  lemma OverWindowIsStale(states: seq<System>, events: seq<Event>, i: nat, m: Msg)
    requires Run(states, events) && i < |states|
    ensures OverIsOld(states[i].a, states[i].b, m) && OverIsOld(states[i].b, states[i].a, m)
  {
    RunKeepsInv(states, events, i);
    CrossOverIsOld(states[i].a, states[i].b, m);
    CrossOverIsOld(states[i].b, states[i].a, m);
  }

  /** An acknowledgement is end to end: the other user has consumed every byte the sender
      has had acknowledged. */
  ghost predicate AckedIsConsumed(x: Side, y: Side) {
    var s := x.c.snd;
    x.c.phase.Open? ==>
      && s.base <= s.acked <= s.Sent()
      && Payload(s.log[..s.acked - s.base]) <= y.got
      && (s.acked == s.Sent() ==> y.got == x.wrote)
  }

  lemma CrossAcked(x: Side, y: Side)
    requires SideOk(x) && Cross(x, y)
    ensures AckedIsConsumed(x, y)
  {
    DeliveredIsPrefix(x.c.snd, y.c.rcv);
  }

  lemma AcknowledgedIsConsumed(states: seq<System>, events: seq<Event>, i: nat)
    requires Run(states, events) && i < |states|
    ensures AckedIsConsumed(states[i].a, states[i].b) && AckedIsConsumed(states[i].b, states[i].a)
  {
    RunKeepsInv(states, events, i);
    CrossAcked(states[i].a, states[i].b);
    CrossAcked(states[i].b, states[i].a);
  }

  /** The EOF is the last thing numbered, and there is at most one. */
  ghost predicate EofIsLast(x: Side) {
    forall m, m1 | m in x.sent && m1 in x.sent && m.Controlled? && m1.Controlled? ::
      m.pkt.op == EOF && m1.num >= m.num ==> m1.num == m.num && m1.pkt == m.pkt
  }

  /** When x has closed because its EOF was acknowledged, y's user has consumed every byte
      ever written and has seen the EOF; and whoever has seen the EOF has had every byte. */
  ghost predicate Graceful(x: Side, y: Side) {
    && (Finished(x.c) ==> y.got == x.wrote && y.c.rcv.eof)
    && (y.c.rcv.eof ==> y.got == x.wrote && x.c.snd.eofSent)
    && EofIsLast(x)
  }

  lemma CrossGraceful(x: Side, y: Side)
    requires SideOk(x) && Cross(x, y)
    ensures Graceful(x, y)
  {
    var s := x.c.snd;
    DeliveredIsPrefix(s, y.c.rcv);
    forall m | m in x.sent && m.Controlled? && m.pkt.op == EOF ensures m.num == s.Sent() {
      assert s.log[m.num - s.base - 1].op == EOF;
    }
  }

  lemma GracefulClose(states: seq<System>, events: seq<Event>, i: nat)
    requires Run(states, events) && i < |states|
    ensures Graceful(states[i].a, states[i].b) && Graceful(states[i].b, states[i].a)
  {
    RunKeepsInv(states, events, i);
    CrossGraceful(states[i].a, states[i].b);
    CrossGraceful(states[i].b, states[i].a);
  }

  /** Why `Fresh` cannot be weakened for packet numbers: a packet exactly 2^16 behind a
      number the window has room for is taken for that number, whatever it holds. */
  lemma StalePacketIsMistaken(c: Conn, n: int, p: Pkt)
    requires Ok(c) && c.phase.Open? && IsInput(p)
    requires c.rcv.received < n <= c.rcv.read + c.rcv.window && n !in c.rcv.q
    ensures !Fresh(c, Controlled(n - MODULUS, c.snd.Sent(), p))
    ensures n in Enqueue(c.rcv, n, p).q && Enqueue(c.rcv, n, p).q[n] == p
    ensures QueueInput(c, Wrap(n - MODULUS), p).c.rcv == Enqueue(c.rcv, n, p)
  {
    ModuloShift(n, 1);
    UnwrapIsInverse(c.rcv.received, n);
  }

  /** Nor for acknowledgements: one exactly 2^16 behind the last number sent acknowledges
      everything. */
  lemma StaleAckIsMistaken(c: Conn)
    requires Ok(c) && c.phase.Open? && !c.snd.eofWanted
    ensures !Fresh(c, Sense(c.snd.Sent() - MODULUS))
    ensures var ack := Wrap(c.snd.Sent() - MODULUS);
      ProcessAck(c, ack, ack).c.snd == c.snd.(acked := c.snd.Sent(), receipt := c.snd.Sent())
  {
    ModuloShift(c.snd.Sent(), 1);
    UnwrapIsInverse(c.snd.Sent(), c.snd.Sent());
  }

  // ---------------------------------------------------------------- The handshake

  /** The client's side when its RFC has been sent. */
  ghost function Asking(first: u16, window: u16, contact: seq<byte>): (x: Side)
    requires 1 <= window <= RING && |contact| <= MAX_DATA
    ensures Ok(x.c)
  {
    OpeningOk(first, window, contact);
    var rfc := Opening(first, window, contact);
    Side(rfc.c, set m | m in rfc.msgs, [], [])
  }

  /** A side after some steps, and whether it has been waiting for an answer all the while. */
  ghost function Waited(x: Side, acts: seq<Action>): (w: Side)
    requires Ok(x.c)
    ensures Ok(w.c)
    decreases |acts|
  {
    if acts == [] then x
    else
      DoOk(x, acts[0]);
      Waited(Do(x, acts[0]), acts[1..])
  }

  ghost predicate StillAsking(x: Side, acts: seq<Action>)
    requires Ok(x.c)
    decreases |acts|
  {
    acts == [] ||
    (Do(x, acts[0]).c.phase.RfcSent? && (DoOk(x, acts[0]); StillAsking(Do(x, acts[0]), acts[1..])))
  }

  lemma TicksRepeatTheRfc(first: u16, window: u16, contact: seq<byte>, late: set<int>)
    requires 1 <= window <= RING && |contact| <= MAX_DATA
    ensures var x := Asking(first, window, contact); After(x, Retransmit(x.c, late)) == x
  {
    var x := Asking(first, window, contact);
    var c := x.c;
    assert c.snd.receipt == first - 1 && c.snd.Sent() == first;
    assert Ascending(first, first, late) == [];
    var o := Retransmit(c, late);
    assert o.c == c;
    forall m | m in o.msgs ensures m in x.sent {
      assert m == Transmission(c, first);
    }
    assert After(x, o).sent == x.sent;
  }

  /** Until it is answered or gives up, a client changes nothing and says nothing but its RFC. */
  lemma WaitingIsIdle(first: u16, window: u16, contact: seq<byte>, act: Action)
    requires 1 <= window <= RING && |contact| <= MAX_DATA
    ensures var x := Asking(first, window, contact);
      Do(x, act).c.phase.RfcSent? ==> Do(x, act) == x
  {
    var x := Asking(first, window, contact);
    match act
    case Timer(t) => TicksRepeatTheRfc(first, window, contact, t.late);
    case Resend(late) => TicksRepeatTheRfc(first, window, contact, late);
    case Deliver(m, late) =>
      hide ProcessAck;
      assert Do(x, act).c.phase.RfcSent? ==> Outcome(x.c, act).msgs == [];
    case _ =>
  }

  lemma {:induction false} WaitingLong(first: u16, window: u16, contact: seq<byte>, acts: seq<Action>)
    requires 1 <= window <= RING && |contact| <= MAX_DATA
    ensures var x := Asking(first, window, contact);
      StillAsking(x, acts) ==> Waited(x, acts) == x
    decreases |acts|
  {
    hide Opening; hide Do;
    if acts != [] {
      WaitingIsIdle(first, window, contact, acts[0]);
      WaitingLong(first, window, contact, acts[1..]);
    }
  }

  lemma AskingSays(first: u16, window: u16, contact: seq<byte>)
    requires 1 <= window <= RING && |contact| <= MAX_DATA
    ensures var x := Asking(first, window, contact);
      && x.c.snd.log == [Pkt(RFC, contact)] && Payload(x.c.snd.log) == []
      && x.c.snd.base == first - 1 && x.c.rcv.window == window
      && x.sent == {Controlled(first, 0, Pkt(RFC, contact))}
  {
    assert Payload([Pkt(RFC, contact)]) == Bytes(Pkt(RFC, contact)) + Payload([]);
  }

  /** The client's side after an OPN has come. */
  ghost function Greeted(x: Side, f: Frame): Side
    requires Ok(x.c)
  {
    After(x, Input(x.c, f, {}))
  }

  lemma OpnOpens(first: u16, window: u16, contact: seq<byte>, f: Frame)
    requires 1 <= window <= RING && |contact| <= MAX_DATA
    requires f.op == OPN && 4 <= |f.data| <= MAX_DATA && f.ack == first && Get16(f.data, 0) == first
    ensures var x := Asking(first, window, contact);
      var x1 := Greeted(x, f);
      && x1.wrote == x1.got == [] && x1.sent == x.sent + {Status(f.num, f.num, window)}
      && x1.c == x.c.(phase := Open, lastAck := f.num, ackDue := false,
                      rcv := x.c.rcv.(read := f.num, received := f.num),
                      snd := x.c.snd.(acked := first, receipt := first, window := Min(Get16(f.data, 2), MAX_WINDOW)))
  {
    var c := Asking(first, window, contact).c;
    UnwrapIsInverse(first, first);
    var c1 := Opened(c, f);
    assert c1.snd.Sent() == first;
    assert MoveMarks(c1.snd, first, first) == c1.snd.(acked := first, receipt := first);
    assert InputRfcSent(c, f).msgs == [] + [Status(f.num, f.num, window)];
  }

  /** However long the client has waited and repeated its RFC, an OPN that acknowledges it leaves the
      two ends matched, so that the runs of this module may start there.  The peer has numbered
      nothing after the OPN, and the window it announced is no larger than its own. */
  lemma HandshakeMatches(first: u16, window: u16, contact: seq<byte>, acts: seq<Action>, f: Frame, y: Side)
    requires 1 <= window <= RING && |contact| <= MAX_DATA
    requires StillAsking(Asking(first, window, contact), acts)
    requires f.op == OPN && 4 <= |f.data| <= MAX_DATA && f.ack == first && Get16(f.data, 0) == first
    requires SideOk(y) && y.c.phase.Open? && y.c.kind.NotClosed? && y.wrote == [] && y.got == []
    requires var s := y.c.snd;
      s.acked == s.receipt == s.Sent() == f.num && s.window <= window && !s.eofWanted && !s.eofSent
    requires var r := y.c.rcv;
      r.read == r.received == first && r.q == map[] && r.offset == 0 && !r.eof && Get16(f.data, 2) <= r.window
    ensures Initial(System(Greeted(Waited(Asking(first, window, contact), acts), f), y))
  {
    WaitingLong(first, window, contact, acts);
    GreetedMatches(first, window, contact, f, y);
  }

  lemma GreetedMatches(first: u16, window: u16, contact: seq<byte>, f: Frame, y: Side)
    requires 1 <= window <= RING && |contact| <= MAX_DATA
    requires f.op == OPN && 4 <= |f.data| <= MAX_DATA && f.ack == first && Get16(f.data, 0) == first
    requires SideOk(y) && y.c.phase.Open? && y.c.kind.NotClosed? && y.wrote == [] && y.got == []
    requires var s := y.c.snd;
      s.acked == s.receipt == s.Sent() == f.num && s.window <= window && !s.eofWanted && !s.eofSent
    requires var r := y.c.rcv;
      r.read == r.received == first && r.q == map[] && r.offset == 0 && !r.eof && Get16(f.data, 2) <= r.window
    ensures Initial(System(Greeted(Asking(first, window, contact), f), y))
  {
    var x := Asking(first, window, contact);
    OpnOpens(first, window, contact, f);
    InputOk(x.c, f, {});
    hide Input; hide Greeted; hide Wire;
    GreetedIsOk(first, window, contact, f);
    hide SideOk;
  }

  lemma GreetedIsOk(first: u16, window: u16, contact: seq<byte>, f: Frame)
    requires 1 <= window <= RING && |contact| <= MAX_DATA
    requires f.op == OPN && 4 <= |f.data| <= MAX_DATA && f.ack == first && Get16(f.data, 0) == first
    ensures SideOk(Greeted(Asking(first, window, contact), f))
  {
    var x := Asking(first, window, contact);
    OpnOpens(first, window, contact, f);
    InputOk(x.c, f, {});
    AskingSays(first, window, contact);
    hide Input; hide Greeted; hide Ok; hide Asking;
    var x1 := Greeted(x, f);
    forall m | m in x1.sent ensures Truthful(m, x1.c) {
      assert m == Controlled(first, 0, Pkt(RFC, contact)) || m == Status(f.num, f.num, window);
    }
  }

  // ---------------------------------------------------------------- Acknowledgements

  /** Some of the messages acknowledges everything through n. */
  ghost predicate Tells(ms: seq<Msg>, n: int) {
    exists i :: 0 <= i < |ms| && !ms[i].Lost? && ms[i].ack == n
  }

  /** In every state of every run, an open side has consumed less than half a window that it
      has not told its peer about, and if it has consumed anything an STS is due. */
  lemma ConsumptionIsAdvertised(states: seq<System>, events: seq<Event>, i: nat)
    requires Run(states, events) && i < |states|
    ensures states[i].a.c.phase.Open? ==> AckKept(states[i].a.c)
    ensures states[i].b.c.phase.Open? ==> AckKept(states[i].b.c)
  {
    RunKeepsInv(states, events, i);
  }

  /** A read that takes the total to half a window tells the peer at once. */
  lemma HalfWindowTellsAtOnce(c: Conn, max: nat)
    requires Ok(c) && c.phase.Open?
    ensures var o := Recv(c, max);
      o.c.rcv.read > c.rcv.read && o.c.rcv.read - c.lastAck >= (c.rcv.window + 1) / 2 ==> Tells(o.msgs, o.c.rcv.read)
  {
    ConsumeFrame(c.rcv, max);
    var o := Recv(c, max);
    if o.msgs != [] {
      assert o.msgs[0] == Status(o.c.rcv.read, o.c.rcv.received, o.c.rcv.window);
    }
  }

  /** Whatever is left is told by the first tick at which the STS is due. */
  lemma DueTickTells(c: Conn, t: Clock)
    requires Ok(c) && c.phase.Open? && c.rcv.read != c.lastAck && t.ackExpired
    ensures var o := Tick(c, t);
      o.c.phase.Open? ==> Tells(o.msgs, c.rcv.read) && o.c.lastAck == c.rcv.read
  {
    var o := Tick(c, t);
    if o.c.phase.Open? {
      var again := Retransmit(c, t.late);
      if again.msgs == [] {
        var sts := SendStatus(again.c);
        assert o.msgs[0] == sts.msgs[0];
      } else {
        assert o.msgs[0] == again.msgs[0];
        assert !o.msgs[0].Lost? && o.msgs[0].ack == c.rcv.read;
      }
    }
  }
}
