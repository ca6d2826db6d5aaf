/** What no step takes back: bytes that are in order, and the end of a stream. */
module Lasting {
  import opened PacketNumbers
  import opened Packets
  import opened Connection
  import opened Streams
  import opened Network
  import opened Integrity

  /** More has arrived, and nothing has been consumed. */
  ghost predicate Arrived(r: Rcv, r1: Rcv) {
    && Readable(r) && Readable(r1)
    && r1.read == r.read && r1.offset == r.offset && r1.eof == r.eof && r.received <= r1.received
    && forall n :: r.read < n <= r.received ==> r1.q[n] == r.q[n]
  }

  lemma {:induction false} ArrivalsExtend(r: Rcv, r1: Rcv)
    requires Arrived(r, r1)
    ensures InOrder(r) <= InOrder(r1)
    decreases r.received - r.read
  {
    if r.read < r.received && !r.eof && r.q[r.read + 1].op != EOF {
      ArrivalsExtend(Pass(r), Pass(r1));
    }
  }

  lemma DataArrives(c: Conn, f: Frame)
    requires Ok(c) && |f.data| <= MAX_DATA && (f.op >= DAT || f.op == EOF)
    ensures Arrived(c.rcv, InputData(c, f).c.rcv)
  {
    hide ProcessAck;
    ProcessAckOk(c, f.ack, f.ack);
    var o := ProcessAck(c, f.ack, f.ack);
    if o.c.phase.Open? {
      PacketArrives(o.c, f.num, Pkt(f.op, f.data));
    }
  }

  lemma PacketArrives(c: Conn, num: u16, p: Pkt)
    requires Ok(c) && c.phase.Open? && IsInput(p)
    ensures Arrived(c.rcv, QueueInput(c, num, p).c.rcv)
  {
    QueueInputOk(c, num, p);
  }

  /** In every phase a frame adds to what has arrived, or begins the stream, or leaves it. */
  lemma InputArrives(c: Conn, f: Frame, late: set<int>)
    requires Ok(c)
    ensures var r1 := Input(c, f, late).c.rcv; Arrived(c.rcv, r1) || (c.phase.RfcSent? && InOrder(c.rcv) == [])
  {
    hide ProcessAck; hide InputData; hide InputSts; hide RcvOk;
    RcvIsReadable(c);
    if |f.data| <= MAX_DATA && !Connectionless(f.op) && c.phase.Open? {
      if f.op >= DAT || f.op == EOF {
        DataArrives(c, f);
      } else {
        StsKeepsRcv(c, f, late);
        ProcessAckOk(c, f.ack, f.ack);
      }
    }
  }

  lemma RcvIsReadable(c: Conn)
    requires Ok(c)
    ensures Readable(c.rcv) && Arrived(c.rcv, c.rcv)
  {}

  /** Whatever a side does but read, and however its connection closes, the bytes that were there
      to be read stay there, and others may follow them. */
  lemma StepsKeepTheStream(x: Side, act: Action)
    requires Ok(x.c) && !act.Read?
    ensures Ok(Do(x, act).c) && InOrder(x.c.rcv) <= InOrder(Do(x, act).c.rcv)
  {
    DoOk(x, act);
    hide Input;
    if act.Deliver? {
      InputArrives(x.c, Wire(act.m), act.late);
      if Arrived(x.c.rcv, Do(x, act).c.rcv) { ArrivalsExtend(x.c.rcv, Do(x, act).c.rcv); }
    } else {
      OutcomeKeepsRcv(x, act);
    }
  }

  /** The end of the stream stays reached, and reads return nothing more. */
  lemma EofStays(x: Side, act: Action)
    requires SideOk(x) && x.c.rcv.eof
    ensures Do(x, act).c.rcv.eof && Do(x, act).got == x.got
  {
    hide Input;
    if act.Deliver? {
      InputArrives(x.c, Wire(act.m), act.late);
    } else if act.Read? {
      ConsumeFrame(x.c.rcv, act.max);
      RecvRcv(x.c, act.max);
    } else {
      OutcomeKeepsRcv(x, act);
    }
  }

  ghost predicate EofKept(x: Side, x1: Side) { x.c.rcv.eof ==> x1.c.rcv.eof && x1.got == x.got }

  lemma EventKeepsEof(s: System, e: Event)
    requires Inv(s) && CanPlay(s, e)
    ensures EofKept(s.a, Play(s, e).a) && EofKept(s.b, Play(s, e).b)
  {
    hide Do;
    var x := if e.byA then s.a else s.b;
    if x.c.rcv.eof { EofStays(x, e.act); }
  }

  lemma StepKeepsEof(states: seq<System>, events: seq<Event>, j: nat)
    requires Run(states, events) && 0 < j < |states|
    ensures EofKept(states[j - 1].a, states[j].a) && EofKept(states[j - 1].b, states[j].b)
  {
    hide EofKept; hide Do;
    RunKeepsInv(states, events, j - 1);
    EventKeepsEof(states[j - 1], events[j - 1]);
  }

  /** Once a reader has reached the peer's EOF it has read all it ever will, whatever is still to
      arrive, at every later moment of the run. */
  lemma {:induction false} EofIsFinal(states: seq<System>, events: seq<Event>, i: nat, j: nat)
    requires Run(states, events) && i <= j < |states|
    ensures EofKept(states[i].a, states[j].a) && EofKept(states[i].b, states[j].b)
    decreases j
  {
    hide Run;
    if i < j {
      EofIsFinal(states, events, i, j - 1);
      StepKeepsEof(states, events, j);
    }
  }
}
