/** Two connections joined by a network that may lose, duplicate, delay and reorder.

    Each side is one endpoint of an open connection.  Everything a side ever sends stays
    available to the other one for ever, so a message may be delivered never, once or
    many times, in any order; the only promise is that no delivered number is so old that
    its 16 bits have come round to mean a number in use (`Fresh`).
  */
module Network {
  import opened PacketNumbers
  import opened Packets
  import opened Connection
  import opened Streams

  /** One endpoint: its connection, what it has put on the wire, the bytes its user's
      writes were accepted for, and the bytes its user's reads returned. */
  datatype Side = Side(c: Conn, sent: set<Msg>, wrote: seq<byte>, got: seq<byte>)

  datatype System = System(a: Side, b: Side)

  datatype Action =
    | Write(data: seq<byte>)
    | Read(max: nat)
    | Shut
    | LetGo(text: seq<byte>)
    | Timer(t: Clock)
    | Resend(late: set<int>)
    | Deliver(m: Msg, late: set<int>)

  function After(x: Side, o: Out): Side {
    x.(c := o.c, sent := x.sent + set m | m in o.msgs)
  }

  /** What a step does to the connection. */
  function Outcome(c: Conn, act: Action): Out
    requires Ok(c)
  {
    match act
    case Write(data) => Send(c, data)
    case Read(max) => Recv(c, max)
    case Shut => Finish(c)
    case LetGo(text) => Release(c, text)
    case Timer(t) => Tick(c, t)
    case Resend(late) => if c.phase.RfcSent? || c.phase.Open? then Retransmit(c, late) else Out(c, [])
    case Deliver(m, late) => Input(c, Wire(m), late)
  }

  /** One endpoint takes one step. */
  function Do(x: Side, act: Action): Side
    requires Ok(x.c)
  {
    var x1 := After(x, Outcome(x.c, act));
    match act
    case Write(data) => x1.(wrote := x.wrote + data[..Accepted(x.c, data)])
    case Read(max) => x1.(got := x.got + if x.c.phase.Free? then [] else Consume(x.c.rcv, max).1)
    case _ => x1
  }

  /** No number in the message is so old that it has come round again: the packet number
      is less than 2^16 behind the end of the receiver's window, and the acknowledgement
      and receipt less than 2^16 behind the last number their reader has sent. */
  predicate Fresh(c: Conn, m: Msg) {
    match m
    case Controlled(num, ack, _) =>
      num > c.rcv.read + c.rcv.window - MODULUS && ack > c.snd.Sent() - MODULUS
    case Status(ack, receipt, _) =>
      ack > c.snd.Sent() - MODULUS && receipt > c.snd.Sent() - MODULUS
    case Sense(ack) => ack > c.snd.Sent() - MODULUS
    case Close(_, _) => true
    case Lost(_) => true
  }

  predicate Enabled(x: Side, y: Side, act: Action) {
    act.Deliver? ==> act.m in y.sent && Fresh(x.c, act.m)
  }

  datatype Event = Event(byA: bool, act: Action)

  ghost predicate CanPlay(s: System, e: Event) {
    && Ok(s.a.c) && Ok(s.b.c)
    && (if e.byA then Enabled(s.a, s.b, e.act) else Enabled(s.b, s.a, e.act))
  }

  function Play(s: System, e: Event): System
    requires CanPlay(s, e)
  {
    if e.byA then s.(a := Do(s.a, e.act)) else s.(b := Do(s.b, e.act))
  }

  /** A run: states, each reached from the one before by an enabled event. */
  ghost predicate Run(states: seq<System>, events: seq<Event>) {
    && |states| == |events| + 1
    && Initial(states[0])
    && (forall i :: 0 <= i < |events| ==>
        CanPlay(states[i], events[i]) && states[i + 1] == Play(states[i], events[i]))
  }

  /** Both ends open, each expecting what the other will number next. */
  ghost predicate Initial(s: System) {
    && SideOk(s.a) && SideOk(s.b)
    && Matched(s.a, s.b) && Matched(s.b, s.a)
  }

  ghost predicate Matched(x: Side, y: Side) {
    var s, r := x.c.snd, y.c.rcv;
    && x.c.phase.Open? && x.c.kind.NotClosed?
    && s.acked == s.receipt == s.Sent() == r.read == r.received
    && s.window <= r.window && !s.eofWanted && !s.eofSent
    && r.q == map[] && r.offset == 0 && !r.eof
    && x.wrote == [] && y.got == []
  }

  // ---------------------------------------------------------------- The invariant

  /** What a message says about its sender was true when it was sent and stays true. */
  ghost predicate Truthful(m: Msg, c: Conn) {
    match m
    case Controlled(num, ack, pkt) =>
      c.snd.base < num <= c.snd.Sent() && pkt == c.snd.Nth(num) && ack <= c.rcv.read
    case Status(ack, receipt, window) =>
      ack <= c.rcv.read && receipt <= c.rcv.received && window == c.rcv.window
    case Sense(ack) => ack <= c.rcv.read
    case Close(_, _) => true
    case Lost(_) => true
  }

  ghost predicate SideOk(x: Side) {
    && Ok(x.c) && !x.c.phase.RfcSent?
    && (forall m :: m in x.sent ==> Truthful(m, x.c))
    && x.wrote == Payload(x.c.snd.log)
  }

  /** The receiving half holds packets of the sending half and nothing else. */
  ghost predicate Holds(s: Snd, r: Rcv) {
    && s.base <= r.read <= r.received <= s.Sent() <= r.read + r.window
    && (forall n :: n in r.q ==> s.base < n <= s.Sent() && r.q[n] == s.Nth(n) && r.q[n].op != RFC)
    && (r.eof <==> s.eofSent && r.read == s.Sent())
  }

  /** The sender's marks lag behind the receiver's. */
  ghost predicate MarksTrue(c: Conn, r: Rcv) {
    c.phase.Open? ==>
      && c.snd.acked <= r.read
      && c.snd.receipt <= r.received
      && c.snd.window <= r.window
  }

  /** The connection was closed because its EOF was acknowledged. */
  predicate Finished(c: Conn) {
    c.kind.Done? && c.reason == FINISHED
  }

  ghost predicate Linked(c: Conn, r: Rcv) {
    && Holds(c.snd, r)
    && MarksTrue(c, r)
    && (c.phase.Open? ==> c.kind.NotClosed?)
    && (Finished(c) ==> c.snd.eofSent && r.read == c.snd.Sent())
  }

  /** The stream bytes up to the consumed mark. */
  ghost function Delivered(s: Snd, r: Rcv): seq<byte>
    requires Holds(s, r) && Readable(r)
  {
    Payload(s.log[..r.read - s.base]) +
    (if r.offset > 0 then r.q[r.read + 1].data[..r.offset] else [])
  }

  ghost predicate Cross(x: Side, y: Side) {
    && Ok(y.c)
    && Linked(x.c, y.c.rcv)
    && y.got == Delivered(x.c.snd, y.c.rcv)
  }

  ghost predicate Inv(s: System) {
    SideOk(s.a) && SideOk(s.b) && Cross(s.a, s.b) && Cross(s.b, s.a)
  }

  // ---------------------------------------------------------------- A side's own promises

  ghost predicate Grows(c: Conn, c1: Conn) {
    && c1.snd.base == c.snd.base && c.snd.log <= c1.snd.log
    && c.rcv.read <= c1.rcv.read && c.rcv.received <= c1.rcv.received
    && c1.rcv.window == c.rcv.window
    && (!c.phase.RfcSent? ==> !c1.phase.RfcSent?)
  }

  ghost predicate Honest(c: Conn, o: Out) {
    Grows(c, o.c) && forall m :: m in o.msgs ==> Truthful(m, o.c)
  }

  lemma TruthStays(m: Msg, c: Conn, c1: Conn)
    requires Truthful(m, c) && Grows(c, c1)
    ensures Truthful(m, c1)
  {}

  lemma ChainHonest(c: Conn, o: Out, o1: Out)
    requires Honest(c, o) && Honest(o.c, o1)
    ensures Honest(c, Chain(o, o1))
  {
    forall m | m in o.msgs ensures Truthful(m, o1.c) { TruthStays(m, o.c, o1.c); }
  }

  lemma ProcessAckHonest(c: Conn, ack: u16, receipt: u16)
    requires Ok(c)
    ensures Honest(c, ProcessAck(c, ack, receipt))
  {}

  lemma QueueInputHonest(c: Conn, num: u16, p: Pkt)
    requires Ok(c)
    ensures Honest(c, QueueInput(c, num, p))
  {}

  lemma RetransmitHonest(c: Conn, late: set<int>)
    requires Ok(c)
    ensures Honest(c, Retransmit(c, late))
  {}

  lemma InputHonest(c: Conn, f: Frame, late: set<int>)
    requires Ok(c) && !c.phase.RfcSent?
    ensures Honest(c, Input(c, f, late))
  {
    if |f.data| <= MAX_DATA && !Connectionless(f.op) && c.phase.Open? {
      if f.op >= DAT || f.op == EOF {
        DataHonest(c, f);
      } else if f.op == STS {
        StsHonest(c, f, late);
      } else if f.op == SNS {
        SnsHonest(c, f);
      }
    }
  }

  lemma DataHonest(c: Conn, f: Frame)
    requires Ok(c)
    ensures Honest(c, InputData(c, f))
  {
    ProcessAckOk(c, f.ack, f.ack);
    ProcessAckHonest(c, f.ack, f.ack);
    var o := ProcessAck(c, f.ack, f.ack);
    QueueInputHonest(o.c, f.num, Pkt(f.op, f.data));
    ChainHonest(c, o, QueueInput(o.c, f.num, Pkt(f.op, f.data)));
  }

  lemma StsHonest(c: Conn, f: Frame, late: set<int>)
    requires Ok(c)
    ensures Honest(c, InputSts(c, f, late))
  {
    if |f.data| >= 4 {
      var c1 := SetWindow(c, f);
      ProcessAckOk(c1, f.ack, Get16(f.data, 0));
      ProcessAckHonest(c1, f.ack, Get16(f.data, 0));
      var o := ProcessAck(c1, f.ack, Get16(f.data, 0));
      RetransmitHonest(o.c, late);
      ChainHonest(c1, o, Retransmit(o.c, late));
    }
  }

  lemma SnsHonest(c: Conn, f: Frame)
    requires Ok(c)
    ensures Honest(c, InputSns(c, f))
  {
    ProcessAckHonest(c, f.ack, f.ack);
    var o := ProcessAck(c, f.ack, f.ack);
    ChainHonest(c, o, SendStatus(o.c));
  }

  lemma TickHonest(c: Conn, t: Clock)
    requires Ok(c) && !c.phase.RfcSent?
    ensures Honest(c, Tick(c, t))
  {
    if c.phase.Open? && !t.hostDown && !(c.snd.eofWanted && t.finishExpired) {
      var o := Retransmit(c, t.late);
      RetransmitHonest(c, t.late);
      var o1 := if o.c.ackDue && t.ackExpired then Chain(o, SendStatus(o.c)) else o;
      ChainHonest(c, o, SendStatus(o.c));
      ChainHonest(c, o1, Probe(o1.c, t));
    }
  }

  lemma SendHonest(c: Conn, data: seq<byte>)
    requires Ok(c)
    ensures Honest(c, Send(c, data))
  {
    var o := Send(c, data);
    var c1 := c.(snd := o.c.snd);
    forall m | m in o.msgs ensures Truthful(m, o.c) {
      var i :| 0 <= i < |o.msgs| && o.msgs[i] == m;
      assert m == Transmission(c1, c.snd.Sent() + 1 + i) == Transmission(o.c, c.snd.Sent() + 1 + i);
    }
  }

  lemma RecvHonest(c: Conn, max: nat)
    requires Ok(c)
    ensures Honest(c, Recv(c, max))
  {
    ConsumeFrame(c.rcv, max);
  }

  /** Whatever a side does, what it has said stays true. */
  lemma DoKeepsSide(x: Side, act: Action)
    requires SideOk(x)
    ensures SideOk(Do(x, act)) && Grows(x.c, Do(x, act).c)
  {
    var o := Outcome(x.c, act);
    OutcomeGood(x, act);
    forall m | m in x.sent ensures Truthful(m, o.c) { TruthStays(m, x.c, o.c); }
    WroteStays(x, act);
  }

  /** Only writes add stream bytes; every other step numbers at most an EOF. */
  lemma WroteStays(x: Side, act: Action)
    requires SideOk(x)
    ensures Do(x, act).wrote == Payload(Do(x, act).c.snd.log)
  {
    match act
    case Write(data) => SendAppends(x.c, data);
    case Deliver(m, late) =>
      InputLog(x.c, Wire(m), late);
      hide Input; hide Ok;
      EofAddsNothing(x.c, Do(x, act).c);
    case _ =>
      EofAddsNothing(x.c, Do(x, act).c);
  }

  predicate SameStream(c: Conn, c1: Conn) {
    c1.snd.log == c.snd.log || c1.snd.log == c.snd.log + [Pkt(EOF, [])]
  }

  lemma EofAddsNothing(c: Conn, c1: Conn)
    requires SameStream(c, c1)
    ensures Payload(c1.snd.log) == Payload(c.snd.log)
  {
    PayloadAppend(c.snd.log, [Pkt(EOF, [])]);
  }

  lemma InputLog(c: Conn, f: Frame, late: set<int>)
    requires Ok(c) && !c.phase.RfcSent?
    ensures SameStream(c, Input(c, f, late).c)
  {
    if |f.data| <= MAX_DATA && !Connectionless(f.op) && c.phase.Open? {
      if f.op >= DAT || f.op == EOF {
        DataLog(c, f);
      } else if f.op == STS {
        StsLog(c, f, late);
      } else if f.op == SNS {
        ProcessAckLog(c, f.ack, f.ack);
      }
    }
  }

  lemma DataLog(c: Conn, f: Frame)
    requires Ok(c)
    ensures SameStream(c, InputData(c, f).c)
  {
    ProcessAckLog(c, f.ack, f.ack);
  }

  lemma StsLog(c: Conn, f: Frame, late: set<int>)
    requires Ok(c)
    ensures SameStream(c, InputSts(c, f, late).c)
  {
    if |f.data| >= 4 { ProcessAckLog(SetWindow(c, f), f.ack, Get16(f.data, 0)); }
  }

  lemma ProcessAckLog(c: Conn, ack: u16, receipt: u16)
    ensures SameStream(c, ProcessAck(c, ack, receipt).c)
  {}

  /** A step that keeps the state well formed and says nothing untrue. */
  ghost predicate GoodStep(c: Conn, o: Out) {
    Ok(o.c) && Honest(c, o)
  }

  /** No step in any phase spoils a connection. */
  lemma DoOk(x: Side, act: Action)
    requires Ok(x.c)
    ensures Ok(Do(x, act).c)
  {
    match act
    case Write(data) => SendOk(x.c, data);
    case Read(max) => RecvOk(x.c, max);
    case Shut => FinishOk(x.c);
    case LetGo(text) =>
    case Timer(t) => TickOk(x.c, t);
    case Resend(late) => RetransmitOk(x.c, late);
    case Deliver(m, late) => InputOk(x.c, Wire(m), late);
  }

  lemma SendGood(c: Conn, data: seq<byte>)
    requires Ok(c)
    ensures GoodStep(c, Send(c, data))
  {
    SendOk(c, data);
    SendHonest(c, data);
  }

  lemma RecvGood(c: Conn, max: nat)
    requires Ok(c)
    ensures GoodStep(c, Recv(c, max))
  {
    RecvOk(c, max);
    RecvHonest(c, max);
  }

  lemma FinishGood(c: Conn)
    requires Ok(c)
    ensures GoodStep(c, Finish(c))
  {
    FinishOk(c);
  }

  lemma ReleaseGood(c: Conn, text: seq<byte>)
    requires Ok(c)
    ensures GoodStep(c, Release(c, text))
  {}

  lemma TickGood(c: Conn, t: Clock)
    requires Ok(c) && !c.phase.RfcSent?
    ensures GoodStep(c, Tick(c, t))
  {
    TickOk(c, t);
    TickHonest(c, t);
  }

  lemma RetransmitGood(c: Conn, late: set<int>)
    requires Ok(c)
    ensures GoodStep(c, Retransmit(c, late)) && GoodStep(c, Out(c, []))
  {
    RetransmitOk(c, late);
    RetransmitHonest(c, late);
  }

  lemma InputGood(c: Conn, f: Frame, late: set<int>)
    requires Ok(c) && !c.phase.RfcSent?
    ensures GoodStep(c, Input(c, f, late))
  {
    InputOk(c, f, late);
    InputHonest(c, f, late);
  }

  lemma OutcomeGood(x: Side, act: Action)
    requires SideOk(x)
    ensures GoodStep(x.c, Outcome(x.c, act))
  {
    match act
    case Write(data) => SendGood(x.c, data);
    case Read(max) => RecvGood(x.c, max);
    case Shut => FinishGood(x.c);
    case LetGo(text) => ReleaseGood(x.c, text);
    case Timer(t) => TickGood(x.c, t);
    case Resend(late) => RetransmitGood(x.c, late);
    case Deliver(m, late) => InputGood(x.c, Wire(m), late);
  }
}
