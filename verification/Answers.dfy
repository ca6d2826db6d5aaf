/** What each step of a connection does and says, in true numbers: how an acknowledgement moves
    the marks, where a packet goes and when it is reported, what is answered, when a connection
    closes and what it leaves to be read as the reason.
  */
module Answers {
  import opened PacketNumbers
  import opened Packets
  import opened Connection
  import opened Streams
  import opened Network
  import opened Repeats

  // ---------------------------------------------------------------- Acknowledgements

  /** The marks a and r are numbers that c may have sent, as far as 16 bits can say. */
  predicate Near(c: Conn, a: int, r: int) {
    c.snd.Sent() - HALF < a <= c.snd.Sent() && c.snd.Sent() - HALF < r <= c.snd.Sent()
  }

  /** c1 has noted that the peer has consumed everything through a and received everything
      through r, and nothing else has changed in what it has sent so far. */
  ghost predicate Noted(c: Conn, c1: Conn, a: int, r: int) {
    && (c1.snd.acked == if a > c.snd.acked then a else c.snd.acked)
    && c1.snd.receipt >= c.snd.receipt && c1.snd.receipt >= a && c1.snd.receipt >= r
    && (c1.snd.receipt == c.snd.receipt || c1.snd.receipt == a || c1.snd.receipt == r)
    && c1.snd.base == c.snd.base && c1.snd.window == c.snd.window && c1.snd.eofWanted == c.snd.eofWanted
  }

  /** c has a number to give to the EOF it wants to send. */
  predicate EofDue(c: Conn) {
    c.snd.eofWanted && !c.snd.eofSent && c.snd.base + |c.snd.log| - c.snd.acked < c.snd.window
  }

  /** The EOF has been numbered, and the message is it. */
  ghost predicate EofGone(c: Conn, c1: Conn, msgs: seq<Msg>) {
    && c1.snd.log == c.snd.log + [Pkt(EOF, [])] && c1.snd.eofSent && c1.snd.eofNum == c.snd.Sent() + 1
    && msgs == [Controlled(c.snd.Sent() + 1, c.rcv.read, Pkt(EOF, []))]
  }

  ghost predicate NoEof(c: Conn, c1: Conn, msgs: seq<Msg>) {
    c1.snd.log == c.snd.log && c1.snd.eofSent == c.snd.eofSent && c1.snd.eofNum == c.snd.eofNum && msgs == []
  }

  ghost predicate ClosedWith(c: Conn, c1: Conn, kind: CloseKind, text: seq<byte>) {
    && c1.phase.Closed? && c1.kind == kind && c1.rcv == c.rcv && c1.snd.log == c.snd.log
    && c1.reason == (if |text| <= 488 then text else text[..488])
    && c1.snd.acked == c1.snd.receipt == c.snd.Sent() && !c1.ackDue
  }

  /** An acknowledgement of the EOF closes the connection; any other one moves the marks, and
      sends the EOF if that makes room for it. */
  ghost predicate Acknowledged(c: Conn, o: Out, a: int, r: int) {
    var acked := if a > c.snd.acked then a else c.snd.acked;
    if c.snd.eofSent && acked == c.snd.Sent() then
      ClosedWith(c, o.c, Done, Ascii("Finished")) && o.msgs == [Close(c.rcv.read, Ascii("Finished"))]
    else
      && o.c.phase.Open? && o.c.rcv == c.rcv && Noted(c, o.c, a, r)
      && (if EofDue(c.(snd := c.snd.(acked := acked))) then EofGone(c, o.c, o.msgs) else NoEof(c, o.c, o.msgs))
  }

  lemma AckMoves(c: Conn, a: int, r: int)
    requires Ok(c) && c.phase.Open? && Near(c, a, r)
    ensures Acknowledged(c, ProcessAck(c, Wrap(a), Wrap(r)), a, r)
  {
    UnwrapIsInverse(c.snd.Sent(), a);
    UnwrapIsInverse(c.snd.Sent(), r);
    var c1 := c.(snd := MoveMarks(c.snd, a, r));
    assert Noted(c, c1, a, r);
    EofGoes(c1);
    hide Unwrap; hide Wrap; hide RcvOk; hide MaybeSendEof; hide EofGone; hide NoEof; hide EofDue; hide MoveMarks;
  }

  /** The EOF is numbered and sent exactly when it is wanted, has not been sent and has room. */
  lemma EofGoes(c: Conn)
    requires c.phase.Open?
    ensures var o := MaybeSendEof(c);
      && (if EofDue(c) then EofGone(c, o.c, o.msgs) else NoEof(c, o.c, o.msgs))
      && o.c.phase.Open? && o.c.rcv == c.rcv
      && o.c.snd == c.snd.(log := o.c.snd.log, eofSent := o.c.snd.eofSent, eofNum := o.c.snd.eofNum)
  {}

  /** Marks for numbers that were never sent are ignored. */
  lemma AbsurdAckIsIgnored(c: Conn, a: int, r: int)
    requires c.snd.Sent() < a <= c.snd.Sent() + HALF || c.snd.Sent() < r <= c.snd.Sent() + HALF
    ensures ProcessAck(c, Wrap(a), Wrap(r)) == Out(c, [])
  {
    if c.snd.Sent() < a <= c.snd.Sent() + HALF { UnwrapIsInverse(c.snd.Sent(), a); }
    if c.snd.Sent() < r <= c.snd.Sent() + HALF { UnwrapIsInverse(c.snd.Sent(), r); }
    hide Unwrap; hide Wrap;
  }

  // ---------------------------------------------------------------- Data

  /** The packet n is one that c is waiting for. */
  predicate Awaited(r: Rcv, n: int) { r.received < n <= r.read + r.window && n !in r.q }

  /** The report of what has been consumed and received. */
  function Report(c: Conn): Msg { Status(c.rcv.read, c.rcv.received, c.rcv.window) }

  /** The queue with packet n in it, and its in-order mark moved on. */
  ghost predicate Queued(r: Rcv, r1: Rcv, n: int, p: Pkt) {
    && r1 == r.(q := r.q[n := p], received := r1.received)
    && r.received <= r1.received && (forall k :: r.received < k <= r1.received ==> k in r1.q)
    && (forall k :: r.received < k < r1.received ==> r1.q[k].op != EOF)
    && (r1.received + 1 !in r1.q || (r1.received > r.received && r1.q[r1.received].op == EOF))
  }

  /** An awaited packet is put where it belongs and everything behind it is kept; the in-order mark
      then stands before the next gap, or at an EOF.  The peer hears of a gap before it, and of any
      packet that is not awaited. */
  ghost predicate Taken(c: Conn, o: Out, n: int, p: Pkt) {
    var r, r1 := c.rcv, o.c.rcv;
    if Awaited(r, n) then
      Queued(r, r1, n, p) && o.msgs == if r1.received < n then [Report(o.c)] else []
    else r1 == r && o.msgs == [Report(c)]
  }

  lemma PacketIsTaken(c: Conn, n: int, p: Pkt)
    requires Ok(c) && c.rcv.received - HALF < n <= c.rcv.received + HALF
    ensures var o := QueueInput(c, Wrap(n), p); Taken(c, o, n, p) && o.c.snd == c.snd && o.c.phase == c.phase
  {
    UnwrapIsInverse(c.rcv.received, n);
    if Awaited(c.rcv, n) { EnqueueRuns(c.rcv, n, p); }
    hide Unwrap; hide Wrap; hide SndOk; hide Enqueue; hide Longest; hide Readable;
  }

  lemma EnqueueRuns(r: Rcv, n: int, p: Pkt)
    requires RcvOk(r) && r.received < n <= r.read + r.window
    ensures Queued(r, Enqueue(r, n, p), n, p)
  {
    AdvanceRuns(r.q[n := p], r.received, r.read + r.window);
  }

  /** A packet of the peer's stream first acknowledges and then, unless that was the last word, is
      taken. */
  lemma DataIsTaken(c: Conn, n: int, a: int, p: Pkt, late: set<int>) returns (o: Out, o1: Out)
    requires Ok(c) && c.phase.Open? && IsInput(p) && Near(c, a, a)
    requires c.rcv.received - HALF < n <= c.rcv.received + HALF
    ensures Acknowledged(c, o, a, a) && Ok(o.c)
    ensures o.c.phase.Open? ==> Taken(o.c, o1, n, p) && o1.c.snd == o.c.snd && o1.c.phase.Open?
    ensures Input(c, Frame(p.op, Wrap(n), Wrap(a), p.data), late) ==
      if o.c.phase.Open? then Out(o1.c, o.msgs + o1.msgs) else o
  {
    o := ProcessAck(c, Wrap(a), Wrap(a));
    AckMoves(c, a, a);
    ProcessAckOk(c, Wrap(a), Wrap(a));
    o1 := if o.c.phase.Open? then QueueInput(o.c, Wrap(n), p) else o;
    if o.c.phase.Open? { PacketIsTaken(o.c, n, p); }
    hide ProcessAck; hide QueueInput; hide Acknowledged; hide Taken; hide Ok;
  }

  /** The packet that comes next makes its bytes readable at once. */
  lemma NextIsReadable(c: Conn, o: Out, p: Pkt)
    requires Ok(c) && c.phase.Open? && Taken(c, o, c.rcv.received + 1, p) && p.op >= DAT && |p.data| <= MAX_DATA
    requires Awaited(c.rcv, c.rcv.received + 1) && EofFree(c.rcv)
    ensures Readable(o.c.rcv) && InOrder(c.rcv) + p.data <= InOrder(o.c.rcv) && o.msgs == []
  {
    var r, r1 := c.rcv, o.c.rcv;
    RunsOnFurther(r, r1);
  }

  /** No EOF is among what is in order. */
  ghost predicate EofFree(r: Rcv)
    requires Readable(r)
  {
    !r.eof && forall n :: r.read < n <= r.received ==> r.q[n].op != EOF
  }

  lemma {:induction false} RunsOnFurther(r: Rcv, r1: Rcv)
    requires Readable(r) && Readable(r1) && EofFree(r)
    requires r1.read == r.read && r1.offset == r.offset && !r1.eof && r.received < r1.received
    requires forall n :: r.read < n <= r.received ==> r1.q[n] == r.q[n]
    requires r1.q[r.received + 1].op >= DAT
    ensures InOrder(r) + r1.q[r.received + 1].data <= InOrder(r1)
    decreases r.received - r.read
  {
    var data := r1.q[r.received + 1].data;
    if r.read < r.received {
      RunsOnFurther(Pass(r), Pass(r1));
      assert InOrder(r) == r.q[r.read + 1].data[r.offset..] + InOrder(Pass(r));
      assert InOrder(r1) == r.q[r.read + 1].data[r.offset..] + InOrder(Pass(r1));
      hide InOrder; hide Readable;
      Regroup(r.q[r.read + 1].data[r.offset..], InOrder(Pass(r)), data);
    } else {
      assert r1.q[r.read + 1].data[0..] == r1.q[r.read + 1].data;
    }
  }

  /** The four bytes of a report: the received number and the window, each low byte first. */
  lemma ReportBytes(c: Conn)
    ensures var f := Wire(Report(c));
      && f.op == 7 && f.num == 0 && f.ack == Wrap(c.rcv.read)
      && f.data == [Wrap(c.rcv.received) % 256, Wrap(c.rcv.received) / 256, c.rcv.window % 256, c.rcv.window / 256]
  {}

  // ---------------------------------------------------------------- Other frames

  /** A side that is asked what it has received says so, if the acknowledgement in the question does
      not end the connection. */
  lemma SenseIsAnswered(c: Conn, a: int, late: set<int>) returns (o: Out)
    requires Ok(c) && c.phase.Open? && Near(c, a, a)
    ensures Acknowledged(c, o, a, a)
    ensures var o1 := Input(c, Wire(Sense(a)), late);
      if o.c.phase.Open? then
        o1.c.snd == o.c.snd && o1.c.rcv == c.rcv && o1.c.phase.Open? && o1.msgs == o.msgs + [Report(o.c)]
      else o1 == o
  {
    o := ProcessAck(c, Wrap(a), Wrap(a));
    AckMoves(c, a, a);
    hide ProcessAck; hide Wrap; hide Ok;
  }

  /** A report sets the window, moves the marks and has repeated what they leave out. */
  lemma ReportIsHeeded(c: Conn, a: int, r: int, window: u16, late: set<int>) returns (o: Out)
    requires Ok(c) && c.phase.Open? && Near(c, a, r)
    ensures var c1 := c.(snd := c.snd.(window := if window <= 50 then window else 50));
      Ok(c1) && Acknowledged(c1, o, a, r) && Ok(o.c)
    ensures var o1 := Input(c, Wire(Status(a, r, window)), late);
      if o.c.phase.Open? then
        o1.c.snd == o.c.snd && o1.c.rcv == c.rcv && o1.c.phase.Open? &&
        exists repeats :: o1.msgs == o.msgs + repeats && Repeated(o.c, late, repeats)
      else o1 == o
  {
    var f := Wire(Status(a, r, window));
    Get16OfPut16(Wrap(r), window);
    SetWindowOk(c, f);
    var c1 := SetWindow(c, f);
    o := ProcessAck(c1, Wrap(a), Wrap(r));
    AckMoves(c1, a, r);
    ProcessAckOk(c1, Wrap(a), Wrap(r));
    if o.c.phase.Open? {
      RetransmitRepeats(o.c, late);
      assert Input(c, f, late).msgs == o.msgs + Retransmit(o.c, late).msgs;
    }
    hide ProcessAck; hide Wrap; hide Ok; hide Retransmit; hide Get16; hide Put16;
  }

  ghost predicate Unmoved(c: Conn, c1: Conn) {
    c1 == c.(lastAck := c1.lastAck, ackDue := c1.ackDue)
  }

  /** The answers of a connection that is open, apart from data and marks: a repeated OPN is answered
      with a report, a CLS or LOS closes, and what is left is ignored. */
  lemma OthersAreAnswered(c: Conn, f: Frame, late: set<int>)
    requires Ok(c) && c.phase.Open? && |f.data| <= MAX_DATA
    requires f.op < DAT && f.op != EOF && f.op != STS && f.op != SNS
    ensures var o := Input(c, f, late);
      if f.op == OPN then Unmoved(c, o.c) && o.msgs == [Report(c)]
      else if f.op == CLS then ClosedWith(c, o.c, ByCls, f.data) && o.msgs == []
      else if f.op == LOS then ClosedWith(c, o.c, ByLos, f.data) && o.msgs == []
      else o == Out(c, [])
  {}

  /** A connection that is closed, or not in use, answers what is not itself an answer with an LOS. */
  lemma ClosedAnswers(c: Conn, f: Frame, late: set<int>)
    requires Ok(c) && (c.phase.Closed? || c.phase.Free?) && |f.data| <= MAX_DATA
    requires f.op !in {RFC, BRD, RUT, MNT, LSN}
    ensures var o := Input(c, f, late);
      && o.c == c
      && o.msgs == if f.op in {ANS, CLS, FWD, LOS} || (c.phase.Closed? && f.op == STS) then []
                   else [Lost(Ascii(if c.phase.Closed? then "Connection in invalid state" else "No such connection"))]
  {}

  /** What may come instead of an OPN closes the connection with what it says. */
  lemma RfcMayFail(c: Conn, f: Frame, late: set<int>)
    requires Ok(c) && c.phase.RfcSent? && |f.data| <= MAX_DATA && f.op != OPN
    ensures var o := Input(c, f, late);
      && o.msgs == []
      && if f.op == CLS then ClosedWith(c, o.c, ByCls, f.data)
         else if f.op == LOS then ClosedWith(c, o.c, ByLos, f.data)
         else if f.op == ANS then ClosedWith(c, o.c, ByAns, f.data)
         else if f.op == FWD then
           ClosedWith(c, o.c, ByLos,
                      Ascii("Forwarded to host ") + Octal(f.ack) + Ascii(" (forwarding is not supported)"))
         else o.c == c
  {}

  // ---------------------------------------------------------------- The user's side

  /** A write is accepted as far as the window has room for full packets. */
  lemma WriteIsAccepted(c: Conn, data: seq<byte>)
    ensures var room := c.snd.window - (c.snd.base + |c.snd.log| - c.snd.acked);
      var n := Accepted(c, data);
      if !c.phase.Open? || c.snd.eofWanted || room <= 0 then n == 0
      else if |data| <= 488 * room then n == |data|
      else n == 488 * room
  {}

  /** Every packet that a write numbers is sent at once, in order; they carry the accepted bytes,
      and all but the last are full. */
  lemma WriteIsSent(c: Conn, data: seq<byte>)
    requires Ok(c)
    ensures var o := Send(c, data);
      && c.snd.log <= o.c.snd.log
      && var ps := o.c.snd.log[|c.snd.log|..];
      && |o.msgs| == |ps|
      && (forall i :: 0 <= i < |ps| ==> o.msgs[i] == Controlled(c.snd.Sent() + 1 + i, c.rcv.read, ps[i]))
      && (forall i :: 0 <= i < |ps| ==> ps[i].op == DAT)
      && (forall i :: 0 <= i < |ps| - 1 ==> |ps[i].data| == 488)
  {
    var taken := data[..Accepted(c, data)];
    if taken != [] {
      SegmentsAreFull(taken);
      var o := Send(c, data);
      var c1 := c.(snd := c.snd.(log := c.snd.log + Segments(taken)));
      assert o.msgs == Transmissions(c1, c.snd.Sent());
      assert o.c.snd.log[|c.snd.log|..] == Segments(taken);
      forall i | 0 <= i < |o.msgs|
        ensures o.msgs[i] == Controlled(c.snd.Sent() + 1 + i, c.rcv.read, Segments(taken)[i])
      {
        assert o.msgs[i] == Transmission(c1, c.snd.Sent() + 1 + i);
      }
    }
  }

  lemma {:induction false} SegmentsAreFull(data: seq<byte>)
    ensures forall i :: 0 <= i < |Segments(data)| - 1 ==> |Segments(data)[i].data| == 488
    decreases |data|
  {
    if data != [] { SegmentsAreFull(data[Min(|data|, MAX_DATA)..]); }
  }

  /** Finishing notes the wish, and sends the EOF at once if it has room. */
  lemma FinishSends(c: Conn)
    requires Ok(c)
    ensures var o := Finish(c);
      if c.phase.Open? && !c.snd.eofWanted then
        var c1 := c.(snd := c.snd.(eofWanted := true));
        && o.c.phase.Open? && o.c.snd.eofWanted && o.c.rcv == c.rcv && o.c.snd.acked == c.snd.acked
        && if EofDue(c1) then EofGone(c1, o.c, o.msgs) else NoEof(c1, o.c, o.msgs)
      else o == Out(c, [])
  {
    if c.phase.Open? { EofGoes(c.(snd := c.snd.(eofWanted := true))); }
    hide MaybeSendEof;
  }

  /** The reader who reaches the EOF has the peer told at once. */
  lemma EofIsReported(c: Conn, max: nat)
    requires Ok(c) && c.phase.Open?
    ensures var o := Recv(c, max); !c.rcv.eof && o.c.rcv.eof ==> o.msgs == [Report(o.c)]
  {
    if !c.rcv.eof { EofMoves(c.rcv, max); }
    hide Consume;
  }

  lemma {:induction false} EofMoves(r: Rcv, max: nat)
    requires Readable(r) && !r.eof
    ensures Consume(r, max).0.eof ==> Consume(r, max).0.read > r.read
    ensures Consume(r, max).0.read >= r.read
    decreases r.received - r.read
  {
    if max > 0 && r.read < r.received && r.q[r.read + 1].op != EOF {
      var take := Min(|r.q[r.read + 1].data| - r.offset, max);
      if r.offset + take == |r.q[r.read + 1].data| { EofMoves(Pass(r), max - take); }
    }
  }

  lemma ReleaseTells(c: Conn, text: seq<byte>)
    ensures var o := Release(c, text);
      && o.c.phase.Free? && o.c.snd == c.snd && o.c.rcv == c.rcv
      && o.msgs == if c.phase.Open? then [Close(c.rcv.read, text)] else []
  {}

  // ---------------------------------------------------------------- Timers

  /** The four ways in which a tick ends a connection or leaves it alone. */
  lemma TickGivesUp(c: Conn, t: Clock)
    requires Ok(c)
    ensures var o := Tick(c, t);
      && (c.phase.RfcSent? && t.rfcExpired ==>
          ClosedWith(c, o.c, TimedOut, Ascii("Host not responding")) && o.msgs == [])
      && (c.phase.Open? && t.hostDown ==>
          ClosedWith(c, o.c, TimedOut, Ascii("Host stopped responding")) && o.msgs == [])
      && (c.phase.Open? && !t.hostDown && c.snd.eofWanted && t.finishExpired ==>
          && ClosedWith(c, o.c, Done, Ascii("Finished (EOF not acknowledged)"))
          && o.msgs == [Close(c.rcv.read, Ascii("Finished (EOF not acknowledged)"))])
      && (c.phase.Closed? || c.phase.Free? ==> o == Out(c, []))
  {}

  /** A tick of an open connection that goes on repeats what is late; reports if that is due and no
      repeated packet has done so already; and asks for a report if the peer has not acknowledged
      everything, has shut its window or has long been silent. */
  lemma TickSays(c: Conn, t: Clock) returns (repeats: seq<Msg>)
    requires Ok(c) && c.phase.Open? && !t.hostDown && !(c.snd.eofWanted && t.finishExpired)
    ensures Repeated(c, t.late, repeats) && Unmoved(c, Tick(c, t).c)
    ensures Tick(c, t).msgs == repeats
      + (if repeats == [] && c.ackDue && t.ackExpired then [Report(c)] else [])
      + (if t.probe && (c.snd.acked != c.snd.Sent() || c.snd.window == 0 || t.lonely) then [Sense(c.rcv.read)] else [])
  {
    RetransmitRepeats(c, t.late);
    repeats := Retransmit(c, t.late).msgs;
  }
}
