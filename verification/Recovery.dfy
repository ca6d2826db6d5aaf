/** Nothing is ever lost for good.  From every state that a run can reach, even if everything then
    in flight is lost, what is repeated from there on is enough to bring the reader everything that
    has been written and, when the writer has finished, both ends to a close.
  */
module Recovery {
  import opened PacketNumbers
  import opened Packets
  import opened Connection
  import opened Streams
  import opened Network
  import opened Integrity
  import opened Lasting
  import opened Repeats
  import opened Answers

  // ---------------------------------------------------------------- Ways on from a state

  /** The events lead from s to t. */
  ghost predicate Leads(s: System, events: seq<Event>, t: System)
    decreases |events|
  {
    if events == [] then s == t
    else CanPlay(s, events[0]) && Leads(Play(s, events[0]), events[1..], t)
  }

  lemma {:induction false} LeadsOn(s: System, events: seq<Event>, t: System, more: seq<Event>, u: System)
    requires Leads(s, events, t) && Leads(t, more, u)
    ensures Leads(s, events + more, u)
    decreases |events|
  {
    hide CanPlay; hide Play;
    if events == [] {
      assert events + more == more;
    } else {
      LeadsOn(Play(s, events[0]), events[1..], t, more, u);
      assert (events + more)[0] == events[0] && (events + more)[1..] == events[1..] + more;
    }
  }

  lemma LeadsOnce(s: System, e: Event)
    requires CanPlay(s, e)
    ensures Leads(s, [e], Play(s, e))
  {}

  /** The same state after everything that was in flight has been lost: only what is sent from now
      on can be delivered. */
  function AllLost(s: System): System {
    System(s.a.(sent := {}), s.b.(sent := {}))
  }

  lemma LossKeepsInv(s: System)
    requires Inv(s)
    ensures Inv(AllLost(s))
  {}

  // ---------------------------------------------------------------- States that can go on

  /** What x has yet to bring to y is stream. */
  ghost predicate StreamAhead(x: Conn, y: Conn) {
    forall i :: 0 <= i < |x.snd.log| && x.snd.base + i + 1 > y.rcv.read ==> x.snd.log[i].op != RFC
  }

  /** Two open ends of which x still brings its stream to y: it has not reached y's EOF, whose
      acknowledgement would close y. */
  ghost predicate Going(x: Side, y: Side) {
    && Inv(System(x, y)) && x.c.phase.Open? && y.c.phase.Open?
    && StreamAhead(x.c, y.c) && !x.c.rcv.eof
  }

  /** The number after the in-order mark is not there yet. */
  lemma NextIsMissing(x: Side, y: Side)
    requires Going(x, y) && y.c.rcv.received < x.c.snd.Sent()
    ensures Awaited(y.c.rcv, y.c.rcv.received + 1)
  {
    var s, r := x.c.snd, y.c.rcv;
    assert r.received in r.q ==> r.q[r.received] == s.Nth(r.received);
  }

  /** What x acknowledges is within y's reach and leaves y open. */
  lemma AckIsNear(x: Side, y: Side)
    requires Going(x, y)
    ensures Near(y.c, x.c.rcv.read, x.c.rcv.read) && y.c.snd.acked <= x.c.rcv.read
    ensures y.c.snd.eofSent ==> x.c.rcv.read < y.c.snd.Sent()
  {}

  /** The packet that y waits for next, as x repeats it. */
  function Next(x: Side, y: Side): Msg
    requires Going(x, y) && y.c.rcv.received < x.c.snd.Sent()
  {
    Packet(x.c, y.c.rcv.received + 1)
  }

  lemma NextIsInput(x: Side, y: Side)
    requires Going(x, y) && y.c.rcv.received < x.c.snd.Sent()
    ensures IsInput(Next(x, y).pkt) && Fresh(y.c, Next(x, y))
  {
    var n := y.c.rcv.received + 1;
    assert x.c.snd.log[n - x.c.snd.base - 1] == Next(x, y).pkt;
    assert x.c.snd.base + (n - x.c.snd.base - 1) + 1 > y.c.rcv.read;
  }

  lemma NextIsTaken(x: Side, y: Side)
    requires Going(x, y) && y.c.rcv.received < x.c.snd.Sent()
    ensures var c1 := Input(y.c, Wire(Next(x, y)), {}).c;
      && c1.phase.Open? && c1.rcv.received > y.c.rcv.received && c1.rcv.read == y.c.rcv.read
  {
    hide Input; hide Wrap;
    assert Ok(y.c) && y.c.phase.Open?;
    hide Inv; hide StreamAhead;
    var m, n := Next(x, y), y.c.rcv.received + 1;
    AckIsNear(x, y);
    NextIsInput(x, y);
    NextIsMissing(x, y);
    assert Wire(m) == Frame(m.pkt.op, Wrap(n), Wrap(x.c.rcv.read), m.pkt.data);
    hide Going; hide Ok; hide Packet;
    NextComes(y.c, x.c.rcv.read, m.pkt);
  }

  /** The packet after the in-order mark, with an acknowledgement that does not end the connection. */
  lemma NextComes(c: Conn, a: int, p: Pkt)
    requires Ok(c) && c.phase.Open? && Near(c, a, a) && c.snd.acked <= a && (c.snd.eofSent ==> a < c.snd.Sent())
    requires IsInput(p) && Awaited(c.rcv, c.rcv.received + 1)
    ensures var c1 := Input(c, Frame(p.op, Wrap(c.rcv.received + 1), Wrap(a), p.data), {}).c;
      c1.phase.Open? && c1.rcv.received > c.rcv.received && c1.rcv.read == c.rcv.read
  {
    hide Input; hide Ok; hide Wrap; hide Queued;
    var o, o1 := DataIsTaken(c, c.rcv.received + 1, a, p, {});
    assert o.c.phase.Open? && o.c.rcv == c.rcv;
    hide Acknowledged;
    assert Queued(c.rcv, o1.c.rcv, c.rcv.received + 1, p);
    QueuedMoves(c.rcv, o1.c.rcv, p);
  }

  lemma QueuedMoves(r: Rcv, r1: Rcv, p: Pkt)
    requires Queued(r, r1, r.received + 1, p)
    ensures r1.received > r.received && r1.read == r.read
  {}

  /** One packet gets through. */
  lemma PacketGetsThrough(x: Side, y: Side)
    requires Going(x, y) && y.c.rcv.received < x.c.snd.Sent() && Next(x, y) in x.sent
    ensures var e := Event(false, Deliver(Next(x, y), {}));
      && CanPlay(System(x, y), e)
      && var t := Play(System(x, y), e);
      t.a == x && Going(x, t.b) && t.b.got == y.got && t.b.c.rcv.received > y.c.rcv.received
  {
    assert Ok(x.c) && Ok(y.c);
    hide Input; hide Wire; hide Packet; hide Fresh; hide SideOk; hide Cross;
    var e := Event(false, Deliver(Next(x, y), {}));
    NextIsInput(x, y);
    NextIsTaken(x, y);
    PlayKeepsInv(System(x, y), e);
    hide Inv;
  }

  /** All that x still has to bring is among what it has said. */
  ghost predicate AllSaid(x: Side)
    requires Ok(x.c)
  {
    forall n :: Unreceipted(x.c, n) ==> Packet(x.c, n) in x.sent
  }

  /** If all that x has to bring is on its way, then all of it can arrive. */
  lemma {:induction false} AllGetsThrough(x: Side, y: Side) returns (events: seq<Event>, y1: Side)
    requires Going(x, y) && AllSaid(x)
    ensures Leads(System(x, y), events, System(x, y1))
    ensures Going(x, y1) && y1.got == y.got && y1.c.rcv.received == x.c.snd.Sent()
    decreases x.c.snd.Sent() - y.c.rcv.received
  {
    if y.c.rcv.received == x.c.snd.Sent() {
      events, y1 := [], y;
    } else {
      assert Unreceipted(x.c, y.c.rcv.received + 1);
      PacketGetsThrough(x, y);
      var e := Event(false, Deliver(Next(x, y), {}));
      var t := Play(System(x, y), e);
      hide Play; hide CanPlay; hide Packet; hide Leads; hide AllSaid;
      events, y1 := AllGetsThrough(x, t.b);
      LeadsOnce(System(x, y), e);
      LeadsOn(System(x, y), [e], t, events, System(x, y1));
      events := [e] + events;
    }
  }

  /** x repeats everything that is not receipted. */
  lemma RepeatsAll(x: Side, y: Side)
    requires Going(x, y)
    ensures var e := Event(true, Resend(AllUnreceipted(x.c)));
      && CanPlay(System(x, y), e)
      && var t := Play(System(x, y), e);
      && t.b == y && Going(t.a, y) && AllSaid(t.a)
      && t.a.c.snd == x.c.snd && t.a.wrote == x.wrote
  {
    var e := Event(true, Resend(AllUnreceipted(x.c)));
    PlayKeepsInv(System(x, y), e);
    ResendSays(x);
    hide Do; hide Inv; hide AllSaid;
  }

  lemma ResendSays(x: Side)
    requires Ok(x.c) && x.c.phase.Open?
    ensures var x1 := Do(x, Resend(AllUnreceipted(x.c)));
      && Ok(x1.c) && AllSaid(x1) && x1.c.snd == x.c.snd && x1.c.rcv == x.c.rcv && x1.c.phase.Open?
      && x1.wrote == x.wrote
  {
    DoOk(x, Resend(AllUnreceipted(x.c)));
    RetransmitRepeats(x.c, AllUnreceipted(x.c));
    hide Retransmit; hide Ok; hide Unreceipted;
    var x1 := Do(x, Resend(AllUnreceipted(x.c)));
    forall n | Unreceipted(x1.c, n) ensures Packet(x1.c, n) in x1.sent { NumbersAgree(x.c, x1.c, n); }
  }

  lemma NumbersAgree(c: Conn, c1: Conn, n: int)
    requires SndOk(c.snd) && c1.snd == c.snd && c1.rcv == c.rcv && Unreceipted(c1, n)
    ensures n in AllUnreceipted(c) && Unreceipted(c, n) && Packet(c1, n) == Packet(c, n)
  {}

  lemma {:induction false} ReadsToTheEnd(r: Rcv, max: nat)
    requires Readable(r) && |Consume(r, max).1| < max
    ensures var r1 := Consume(r, max).0; r1.eof || (r1.read == r1.received && r1.offset == 0)
    decreases r.received - r.read
  {
    if r.read < r.received && !r.eof && r.q[r.read + 1].op != EOF {
      var take := Min(|r.q[r.read + 1].data| - r.offset, max);
      if r.offset + take == |r.q[r.read + 1].data| { ReadsToTheEnd(Pass(r), max - take); }
    }
  }

  /** A reader to whom everything has got through reads all that was written. */
  lemma ReadsAll(x: Side, y: Side) returns (e: Event)
    requires Going(x, y) && y.c.rcv.received == x.c.snd.Sent()
    ensures CanPlay(System(x, y), e)
    ensures var t := Play(System(x, y), e);
      && t.a == x && Going(x, t.b) && t.b.got == x.wrote
      && t.b.c.rcv.read == t.b.c.rcv.received == x.c.snd.Sent()
  {
    var r, max := y.c.rcv, |InOrder(y.c.rcv)| + 1;
    e := Event(false, Read(max));
    ConsumeTakesPrefix(r, max);
    ReadsToTheEnd(r, max);
    ConsumeFrame(r, max);
    PlayKeepsInv(System(x, y), e);
    var y1 := Play(System(x, y), e).b;
    RecvRcv(y.c, max);
    DeliveredIsPrefix(x.c.snd, y1.c.rcv);
  }

  // ---------------------------------------------------------------- The writer learns of it

  /** The tick of a quiet connection that asks its peer how far it is. */
  const ASK: Clock := Clock(false, false, false, {}, false, true, true)

  /** x asks y for a report. */
  lemma Asks(x: Side, y: Side)
    requires Going(x, y)
    ensures var e := Event(true, Timer(ASK));
      && CanPlay(System(x, y), e)
      && var t := Play(System(x, y), e);
      && t.b == y && Going(t.a, y) && Sense(x.c.rcv.read) in t.a.sent && t.a.wrote == x.wrote
      && t.a.c.snd == x.c.snd && t.a.c.rcv == x.c.rcv
  {
    var e := Event(true, Timer(ASK));
    PlayKeepsInv(System(x, y), e);
    var repeats := TickSays(x.c, ASK);
    assert Sense(x.c.rcv.read) in Tick(x.c, ASK).msgs;
    hide Tick; hide Inv;
  }

  /** y answers. */
  lemma Reports(x: Side, y: Side)
    requires Going(x, y) && Sense(x.c.rcv.read) in x.sent
    ensures var e := Event(false, Deliver(Sense(x.c.rcv.read), {}));
      && CanPlay(System(x, y), e)
      && var t := Play(System(x, y), e);
      && t.a == x && Going(x, t.b) && Report(t.b.c) in t.b.sent && t.b.got == y.got && t.b.c.rcv == y.c.rcv
  {
    var e := Event(false, Deliver(Sense(x.c.rcv.read), {}));
    AckIsNear(x, y);
    PlayKeepsInv(System(x, y), e);
    SenseIsHeard(y.c, x.c.rcv.read);
    hide Input; hide Inv; hide Wire; hide Near;
  }

  lemma SenseIsHeard(c: Conn, a: int)
    requires Ok(c) && c.phase.Open? && Near(c, a, a) && c.snd.acked <= a && (c.snd.eofSent ==> a < c.snd.Sent())
    ensures var o := Input(c, Wire(Sense(a)), {}); o.c.phase.Open? && o.c.rcv == c.rcv && Report(o.c) in o.msgs
  {
    var o := SenseIsAnswered(c, a, {});
    hide Input; hide Wire; hide Ok; hide EofGone; hide NoEof; hide EofDue; hide Noted;
    assert o.c.phase.Open? && o.c.rcv == c.rcv;
  }

  /** What x knows and does once it has heard that y has consumed everything: it is finished if that
      was its EOF, and otherwise sends the EOF if it wants to. */
  ghost predicate Settled(c: Conn, c1: Conn, said: set<Msg>) {
    if c.snd.eofSent then c1.phase.Closed? && Finished(c1)
    else
      && c1.phase.Open? && c1.rcv == c.rcv && SndOk(c1.snd) && c1.snd.base == c.snd.base
      && (forall n :: Unreceipted(c1, n) ==> Packet(c1, n) in said)
      && c1.snd.log == c.snd.log + (if c.snd.eofWanted then [Pkt(EOF, [])] else [])
      && c1.snd.eofSent == c.snd.eofWanted
  }

  lemma LearnsAll(c: Conn, window: u16)
    requires Ok(c) && c.phase.Open? && window >= 1
    ensures var o := Input(c, Wire(Status(c.snd.Sent(), c.snd.Sent(), window)), {});
      Settled(c, o.c, set m | m in o.msgs)
  {
    var n := c.snd.Sent();
    var o := ReportIsHeeded(c, n, n, window, {});
    var c1 := c.(snd := c.snd.(window := if window <= 50 then window else 50));
    var o1 := Input(c, Wire(Status(n, n, window)), {});
    hide Input; hide Wire;
    AllAcknowledged(c1, o);
    hide Ok; hide Acknowledged; hide EofDue;
    if o.c.phase.Open? { SettledSays(c1, o, o1); }
  }

  /** The acknowledgement of everything sent. */
  lemma AllAcknowledged(c: Conn, o: Out)
    requires Ok(c) && c.snd.window >= 1 && Acknowledged(c, o, c.snd.Sent(), c.snd.Sent())
    ensures Settled(c, o.c, set m | m in o.msgs)
  {
    assert !c.snd.eofSent ==> (EofDue(c.(snd := c.snd.(acked := c.snd.Sent()))) <==> c.snd.eofWanted);
  }

  lemma SettledSays(c: Conn, o: Out, o1: Out)
    requires Settled(c, o.c, set m | m in o.msgs) && o.c.phase.Open?
    requires o1.c.snd == o.c.snd && o1.c.rcv == o.c.rcv && o1.c.phase.Open? && o.msgs <= o1.msgs
    ensures Settled(c, o1.c, set m | m in o1.msgs)
  {
    forall n | Unreceipted(o1.c, n) ensures Packet(o1.c, n) in o1.msgs {
      assert Packet(o1.c, n) == Packet(o.c, n) && Unreceipted(o.c, n);
    }
  }

  lemma HearsOf(x: Side, y: Side)
    requires Going(x, y) && Report(y.c) in y.sent && y.c.rcv.read == x.c.snd.Sent()
    ensures var e := Event(true, Deliver(Report(y.c), {}));
      && CanPlay(System(x, y), e)
      && var t := Play(System(x, y), e);
      && t.b == y && Inv(t) && Settled(x.c, t.a.c, t.a.sent) && t.a.wrote == x.wrote
  {
    var e := Event(true, Deliver(Report(y.c), {}));
    var r := y.c.rcv;
    PlayKeepsInv(System(x, y), e);
    LearnsAll(x.c, r.window);
    hide Input; hide Inv; hide Wire;
  }

  /** Asking, answering and hearing of it. */
  lemma Settles(x: Side, y: Side) returns (events: seq<Event>, t: System)
    requires Going(x, y) && y.c.rcv.read == x.c.snd.Sent()
    ensures Leads(System(x, y), events, t) && Inv(t) && Settled(x.c, t.a.c, t.a.sent)
    ensures t.a.wrote == x.wrote && t.b.got == y.got && t.b.c.rcv == y.c.rcv && t.b.c.phase.Open?
  {
    var e1, e2 := Event(true, Timer(ASK)), Event(false, Deliver(Sense(x.c.rcv.read), {}));
    Asks(x, y);
    var t1 := Play(System(x, y), e1);
    Reports(t1.a, y);
    var t2 := Play(t1, e2);
    var e3 := Event(true, Deliver(Report(t2.b.c), {}));
    HearsOf(t2.a, t2.b);
    t := Play(t2, e3);
    SettledSame(x.c, t2.a.c, t.a.c, t.a.sent);
    ThreeLead(System(x, y), e1, t1, e2, t2, e3, t);
    hide Play; hide CanPlay; hide Inv; hide Leads;
    events := [e1, e2, e3];
  }

  lemma SettledSame(c: Conn, c0: Conn, c1: Conn, said: set<Msg>)
    requires c0.snd == c.snd && c0.rcv == c.rcv && Settled(c0, c1, said)
    ensures Settled(c, c1, said)
  {}

  lemma ThreeLead(s: System, e1: Event, t1: System, e2: Event, t2: System, e3: Event, t: System)
    requires CanPlay(s, e1) && t1 == Play(s, e1) && CanPlay(t1, e2) && t2 == Play(t1, e2)
    requires CanPlay(t2, e3) && t == Play(t2, e3)
    ensures Leads(s, [e1, e2, e3], t)
  {
    hide CanPlay; hide Play;
    assert [e1, e2, e3][1..] == [e2, e3] && [e2, e3][1..] == [e3] && [e3][1..] == [];
    assert Leads(t2, [e3], t);
    assert Leads(t1, [e2, e3], t);
  }

  // ---------------------------------------------------------------- Both together

  /** From a state in which all that x has to bring is on its way, y can read it all. */
  lemma ArrivesAndIsRead(x: Side, y: Side) returns (events: seq<Event>, y1: Side)
    requires Going(x, y) && AllSaid(x)
    ensures Leads(System(x, y), events, System(x, y1)) && Going(x, y1)
    ensures y1.got == x.wrote && y1.c.rcv.read == x.c.snd.Sent()
  {
    var y0, e;
    events, y0 := AllGetsThrough(x, y);
    e := ReadsAll(x, y0);
    y1 := Play(System(x, y0), e).b;
    LeadsOnce(System(x, y0), e);
    hide Play; hide Going; hide AllSaid; hide Leads; hide CanPlay;
    LeadsOn(System(x, y), events, System(x, y0), [e], System(x, y1));
    events := events + [e];
  }

  /** Whatever has been lost, once x repeats what is not receipted y can read all that was written. */
  lemma Recovers(x: Side, y: Side) returns (events: seq<Event>, x1: Side, y1: Side)
    requires Going(x, y)
    ensures Leads(System(x, y), events, System(x1, y1)) && Going(x1, y1)
    ensures x1.wrote == x.wrote && y1.got == x.wrote && x1.c.snd == x.c.snd && y1.c.rcv.read == x.c.snd.Sent()
  {
    var e := Event(true, Resend(AllUnreceipted(x.c)));
    RepeatsAll(x, y);
    x1 := Play(System(x, y), e).a;
    LeadsOnce(System(x, y), e);
    hide Play; hide Going; hide AllSaid; hide Leads; hide CanPlay;
    events, y1 := ArrivesAndIsRead(x1, y);
    LeadsOn(System(x, y), [e], System(x1, y), events, System(x1, y1));
    events := [e] + events;
  }

  /** And if x has finished, it can close as finished, with y at the end of the stream. */
  lemma Finishes(x: Side, y: Side) returns (events: seq<Event>, t: System)
    requires Going(x, y) && x.c.snd.eofWanted
    ensures Leads(System(x, y), events, t)
    ensures t.a.c.phase.Closed? && Finished(t.a.c) && t.b.c.rcv.eof && t.b.got == t.a.wrote == x.wrote
  {
    var x1: Side, y1: Side, more: seq<Event>;
    events, x1, y1 := Recovers(x, y);
    more, t := Settles(x1, y1);
    LeadsOn(System(x, y), events, System(x1, y1), more, t);
    events := events + more;
    if !x.c.snd.eofSent {
      SentEof(x1, y1, t);
      more, y1 := ArrivesAndIsRead(t.a, t.b);
      LeadsOn(System(x, y), events, t, more, System(t.a, y1));
      events, x1 := events + more, t.a;
      more, t := Settles(x1, y1);
      LeadsOn(System(x, y), events, System(x1, y1), more, t);
      events := events + more;
    }
    EndIsReached(x1, y1, t);
  }

  lemma SentEof(x: Side, y: Side, t: System)
    requires Going(x, y) && x.c.snd.eofWanted && !x.c.snd.eofSent && y.c.rcv.read == x.c.snd.Sent()
    requires Inv(t) && Settled(x.c, t.a.c, t.a.sent) && t.b.c.rcv == y.c.rcv && t.b.c.phase.Open?
    ensures Going(t.a, t.b) && AllSaid(t.a) && t.a.c.snd.eofSent
  {}

  lemma EndIsReached(x: Side, y: Side, t: System)
    requires Going(x, y) && x.c.snd.eofSent && y.c.rcv.read == x.c.snd.Sent()
    requires Settled(x.c, t.a.c, t.a.sent) && t.b.c.rcv == y.c.rcv
    ensures t.a.c.phase.Closed? && Finished(t.a.c) && t.b.c.rcv.eof
  {}

  // ---------------------------------------------------------------- Every reachable state

  /** After the RFC nothing is numbered but data and the EOF. */
  ghost predicate StreamFollows(c: Conn, c1: Conn) {
    && c1.snd.base == c.snd.base && c.snd.log <= c1.snd.log
    && forall i :: |c.snd.log| <= i < |c1.snd.log| ==> c1.snd.log[i].op != RFC
  }

  lemma StreamIsNumbered(x: Side, act: Action)
    requires SideOk(x)
    ensures StreamFollows(x.c, Do(x, act).c)
  {
    DoKeepsSide(x, act);
    if act.Write? {
      WriteIsSent(x.c, act.data);
      WriteFollows(x.c, act.data);
    } else {
      OthersAddEof(x, act);
    }
  }

  lemma WriteFollows(c: Conn, data: seq<byte>)
    requires Ok(c)
    ensures StreamFollows(c, Send(c, data).c)
  {
    WriteIsSent(c, data);
    var log, log1 := c.snd.log, Send(c, data).c.snd.log;
    forall i | |log| <= i < |log1| ensures log1[i].op != RFC { assert log1[i] == log1[|log|..][i - |log|]; }
  }

  lemma OthersAddEof(x: Side, act: Action)
    requires SideOk(x) && !act.Write?
    ensures SameStream(x.c, Do(x, act).c)
  {
    if act.Deliver? { InputLog(x.c, Wire(act.m), act.late); }
    hide Input;
  }

  lemma AheadStays(x: Side, y: Side, x1: Side, y1: Side)
    requires StreamAhead(x.c, y.c) && StreamFollows(x.c, x1.c) && y.c.rcv.read <= y1.c.rcv.read
    requires Inv(System(x, y))
    ensures StreamAhead(x1.c, y1.c)
  {}

  lemma NothingFollows(c: Conn)
    ensures StreamFollows(c, c)
  {}

  lemma PlayKeepsAhead(s: System, e: Event)
    requires Inv(s) && CanPlay(s, e) && StreamAhead(s.a.c, s.b.c) && StreamAhead(s.b.c, s.a.c)
    ensures var t := Play(s, e); Inv(t) && StreamAhead(t.a.c, t.b.c) && StreamAhead(t.b.c, t.a.c)
  {
    var x := if e.byA then s.a else s.b;
    PlayKeepsInv(s, e);
    StreamIsNumbered(x, e.act);
    DoKeepsSide(x, e.act);
    NothingFollows(s.a.c);
    NothingFollows(s.b.c);
    var t := Play(s, e);
    hide Do; hide StreamAhead; hide StreamFollows; hide SideOk; hide Cross; hide CanPlay;
    AheadStays(s.a, s.b, t.a, t.b);
    AheadStays(s.b, s.a, t.b, t.a);
  }

  lemma {:induction false} RunKeepsAhead(states: seq<System>, events: seq<Event>, i: nat)
    requires Run(states, events) && i < |states|
    ensures Inv(states[i]) && StreamAhead(states[i].a.c, states[i].b.c) && StreamAhead(states[i].b.c, states[i].a.c)
  {
    hide Play; hide CanPlay; hide StreamAhead;
    RunKeepsInv(states, events, i);
    if i == 0 {
      InitialIsAhead(states[0]);
    } else {
      RunKeepsAhead(states, events, i - 1);
      PlayKeepsAhead(states[i - 1], events[i - 1]);
    }
  }

  lemma InitialIsAhead(s: System)
    requires Initial(s)
    ensures StreamAhead(s.a.c, s.b.c) && StreamAhead(s.b.c, s.a.c)
  {}

  // ---------------------------------------------------------------- A reader's end

  /** Every numbered packet says what its sender has consumed by now. */
  ghost predicate Current(c: Conn, msgs: seq<Msg>) {
    forall m :: m in msgs && m.Controlled? ==> m.ack == c.rcv.read
  }

  lemma SaysCurrent(x: Side, act: Action)
    requires SideOk(x)
    ensures Current(x.c, Outcome(x.c, act).msgs)
  {
    match act
    case Write(data) => WriteIsSent(x.c, data);
    case Deliver(m, late) => InputSaysCurrent(x.c, Wire(m), late);
    case _ =>
  }

  lemma InputSaysCurrent(c: Conn, f: Frame, late: set<int>)
    requires Ok(c) && !c.phase.RfcSent?
    ensures Current(c, Input(c, f, late).msgs)
  {
    if |f.data| <= MAX_DATA && !Connectionless(f.op) && c.phase.Open? {
      AckIsCurrent(c, f.ack, f.ack);
      if f.op == STS {
        StsSaysCurrent(c, f, late);
      }
      hide ProcessAck; hide InputSts; hide SndOk; hide RcvOk; hide Enqueue;
    }
  }

  lemma StsSaysCurrent(c: Conn, f: Frame, late: set<int>)
    requires Ok(c) && c.phase.Open?
    ensures Current(c, InputSts(c, f, late).msgs)
  {
    if |f.data| >= 4 {
      SetWindowOk(c, f);
      AckIsCurrent(SetWindow(c, f), f.ack, Get16(f.data, 0));
    }
    hide ProcessAck; hide SndOk; hide RcvOk;
  }

  lemma AckIsCurrent(c: Conn, ack: u16, receipt: u16)
    requires Ok(c) && c.phase.Open?
    ensures var o := ProcessAck(c, ack, receipt); Ok(o.c) && o.c.rcv == c.rcv && Current(c, o.msgs)
  {
    ProcessAckOk(c, ack, receipt);
    hide Unwrap; hide Ok;
  }

  /** All that y has read or could read now. */
  ghost function InHand(y: Side): seq<byte>
    requires Ok(y.c)
  {
    y.got + InOrder(y.c.rcv)
  }

  /** x has consumed y's EOF and says so in every packet, so that y takes none; y has no more than
      `all` in hand. */
  ghost predicate CutOff(x: Side, y: Side, all: seq<byte>) {
    && Inv(System(x, y)) && x.c.rcv.eof && InHand(y) == all
    && forall m :: m in x.sent && m.Controlled? ==> m.ack == x.c.rcv.read
  }

  lemma CutOffSpeaks(x: Side, y: Side, all: seq<byte>, act: Action)
    requires CutOff(x, y, all) && CanPlay(System(x, y), Event(true, act))
    ensures CutOff(Do(x, act), y, all)
  {
    PlayKeepsInv(System(x, y), Event(true, act));
    SaysCurrent(x, act);
    DoKeepsSide(x, act);
    EofStays(x, act);
    EofReadStays(x, act);
    hide Inv; hide Outcome; hide SideOk; hide Grows;
  }

  lemma EofReadStays(x: Side, act: Action)
    requires SideOk(x) && x.c.rcv.eof
    ensures Do(x, act).c.rcv.read == x.c.rcv.read
  {
    if act.Deliver? {
      InputArrives(x.c, Wire(act.m), act.late);
    } else if act.Read? {
      ConsumeFrame(x.c.rcv, act.max);
      RecvRcv(x.c, act.max);
    } else {
      OutcomeKeepsRcv(x, act);
    }
    hide Input;
  }

  lemma CutOffHears(x: Side, y: Side, all: seq<byte>, act: Action)
    requires CutOff(x, y, all) && CanPlay(System(x, y), Event(false, act))
    ensures CutOff(x, Do(y, act), all)
  {
    PlayKeepsInv(System(x, y), Event(false, act));
    InHandStays(x, y, all, act);
    hide Inv; hide InHand; hide Do;
  }

  lemma InHandStays(x: Side, y: Side, all: seq<byte>, act: Action)
    requires CutOff(x, y, all) && CanPlay(System(x, y), Event(false, act)) && Ok(Do(y, act).c)
    ensures InHand(Do(y, act)) == all
  {
    match act
    case Read(max) => ReadingKeepsInHand(y, max);
    case Deliver(m, late) => RefusesAll(x, y, all, m, late);
    case _ => OutcomeKeepsRcv(y, act);
  }

  lemma ReadingKeepsInHand(y: Side, max: nat)
    requires Ok(y.c) && Ok(Do(y, Read(max)).c)
    ensures InHand(Do(y, Read(max))) == InHand(y)
  {
    var (r1, bytes) := Consume(y.c.rcv, max);
    ConsumeTakesPrefix(y.c.rcv, max);
    RecvRcv(y.c, max);
    Regroup(y.got, bytes, InOrder(r1));
  }

  /** A packet that acknowledges y's EOF closes y, which takes nothing more. */
  lemma RefusesAll(x: Side, y: Side, all: seq<byte>, m: Msg, late: set<int>)
    requires CutOff(x, y, all) && m in x.sent && Fresh(y.c, m)
    ensures Input(y.c, Wire(m), late).c.rcv == y.c.rcv
  {
    if y.c.phase.Open? && m.Controlled? && m.pkt.op != RFC {
      RefusesData(x, y, all, m, late);
    } else {
      WireIsTrue(y.c, x, m);
      StsKeepsRcv(y.c, Wire(m), late);
      ProcessAckOk(y.c, Wire(m).ack, Wire(m).ack);
    }
  }

  lemma RefusesData(x: Side, y: Side, all: seq<byte>, m: Msg, late: set<int>)
    requires CutOff(x, y, all) && m in x.sent && m.Controlled? && m.pkt.op != RFC && y.c.phase.Open?
    ensures Input(y.c, Wire(m), late).c.rcv == y.c.rcv
  {
    assert Truthful(m, x.c) && m.pkt == x.c.snd.log[m.num - x.c.snd.base - 1];
    var a := m.ack;
    assert y.c.snd.eofSent && a == y.c.snd.Sent();
    AckMoves(y.c, a, a);
    ProcessAckOk(y.c, Wrap(a), Wrap(a));
    hide ProcessAck; hide Inv;
  }

  lemma {:induction false} CutOffForGood(s: System, events: seq<Event>, t: System, all: seq<byte>)
    requires CutOff(s.a, s.b, all) && Leads(s, events, t)
    ensures CutOff(t.a, t.b, all)
    decreases |events|
  {
    if events != [] {
      var e := events[0];
      if e.byA { CutOffSpeaks(s.a, s.b, all, e.act); } else { CutOffHears(s.a, s.b, all, e.act); }
      hide CutOff; hide Do; hide CanPlay;
      CutOffForGood(Play(s, e), events[1..], t, all);
    }
  }

  /** What is in hand is a prefix of what was written. */
  lemma InHandIsPrefix(x: Side, y: Side)
    requires Inv(System(x, y))
    ensures InHand(y) <= x.wrote
  {
    var max := |InOrder(y.c.rcv)|;
    ConsumeTakesPrefix(y.c.rcv, max);
    ReadDelivers(x.c, y.c.rcv, max);
    DeliveredIsPrefix(x.c.snd, Consume(y.c.rcv, max).0);
    hide Consume; hide InOrder;
  }

  // ---------------------------------------------------------------- Main results

  /** Some way on brings b all that a has written by now. */
  ghost predicate CanRecover(s: System) {
    exists more, t :: Leads(AllLost(s), more, t) && s.a.wrote <= t.b.got
  }

  /** However much has been lost on the way, two ends that are open can bring the reader at b all that
      has been written at a, if and only if a's user has not reached the end of b's stream, or b
      has everything already: a packet that acknowledges b's EOF closes b before its data is looked
      at.  The same holds from b to a. */
  lemma LossIsRecovered(states: seq<System>, events: seq<Event>, i: nat)
    requires Run(states, events) && i < |states| && states[i].a.c.phase.Open? && states[i].b.c.phase.Open?
    ensures Ok(states[i].a.c) && Ok(states[i].b.c)
    ensures CanRecover(states[i]) <==> !states[i].a.c.rcv.eof || InHand(states[i].b) == states[i].a.wrote
    ensures CanRecover(Swapped(states[i])) <==> !states[i].b.c.rcv.eof || InHand(states[i].a) == states[i].b.wrote
  {
    RunKeepsAhead(states, events, i);
    hide Run; hide CanRecover; hide InHand; hide StreamAhead;
    RecoversIff(states[i]);
    RecoversIff(Swapped(states[i]));
  }

  /** The same two ends seen from the other one. */
  function Swapped(s: System): System { System(s.b, s.a) }

  lemma RecoversIff(s: System)
    requires Inv(s) && StreamAhead(s.a.c, s.b.c) && s.a.c.phase.Open? && s.b.c.phase.Open?
    ensures CanRecover(s) <==> !s.a.c.rcv.eof || InHand(s.b) == s.a.wrote
  {
    var s0 := AllLost(s);
    LossKeepsInv(s);
    if !s.a.c.rcv.eof {
      var more, x1, y1 := Recovers(s0.a, s0.b);
      assert Leads(s0, more, System(x1, y1));
    } else if InHand(s.b) == s.a.wrote {
      var e := ReadsInHand(s0);
      LeadsOnce(s0, e);
    } else if CanRecover(s) {
      OnlyIfInHand(s);
      assert false;
    }
  }

  lemma OnlyIfInHand(s: System)
    requires Inv(s) && s.a.c.rcv.eof && CanRecover(s)
    ensures InHand(s.b) == s.a.wrote
  {
    var s0 := AllLost(s);
    LossKeepsInv(s);
    var more, t :| Leads(s0, more, t) && s.a.wrote <= t.b.got;
    CutOffForGood(s0, more, t, InHand(s.b));
    InHandIsPrefix(s.a, s.b);
    assert InHand(t.b) == InHand(s.b);
  }

  lemma ReadsInHand(s: System) returns (e: Event)
    requires Inv(s) && s.b.c.phase.Open?
    ensures CanPlay(s, e) && InHand(s.b) <= Play(s, e).b.got
  {
    var max := |InOrder(s.b.c.rcv)|;
    e := Event(false, Read(max));
    ConsumeTakesPrefix(s.b.c.rcv, max);
  }

  /** And if a has finished, both can come to a close: a closes as finished, and b has read all that
      was written and its end. */
  lemma FinishIsReached(states: seq<System>, events: seq<Event>, i: nat) returns (more: seq<Event>, t: System)
    requires Run(states, events) && i < |states| && states[i].a.c.phase.Open? && states[i].b.c.phase.Open?
    requires states[i].a.c.snd.eofWanted && !states[i].a.c.rcv.eof
    ensures Leads(AllLost(states[i]), more, t)
    ensures t.a.c.phase.Closed? && Finished(t.a.c) && t.b.c.rcv.eof && t.b.got == t.a.wrote == states[i].a.wrote
  {
    RunKeepsAhead(states, events, i);
    LossKeepsInv(states[i]);
    hide Run;
    var s := AllLost(states[i]);
    more, t := Finishes(s.a, s.b);
  }
}
