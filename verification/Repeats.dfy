/** What is sent again: every unreceipted packet that has waited long enough, each once and in
    order.  Nothing here depends on how the repeating is done.
  */
module Repeats {
  import opened PacketNumbers
  import opened Packets
  import opened Connection

  /** The n-th packet of c, with the acknowledgement that c gives now. */
  function Packet(c: Conn, n: int): Msg
    requires c.snd.base < n <= c.snd.Sent()
  {
    Controlled(n, c.rcv.read, c.snd.log[n - c.snd.base - 1])
  }

  ghost predicate Unreceipted(c: Conn, n: int) { c.snd.receipt < n <= c.snd.Sent() }

  ghost function AllUnreceipted(c: Conn): set<int> {
    set n | c.snd.receipt < n <= c.snd.Sent() && Unreceipted(c, n)
  }

  /** The messages are the unreceipted packets of `late`: all of them, nothing else, and in
      ascending order, so that none comes twice. */
  ghost predicate Repeated(c: Conn, late: set<int>, msgs: seq<Msg>)
    requires SndOk(c.snd)
  {
    && (forall n :: Unreceipted(c, n) && n in late ==> Packet(c, n) in msgs)
    && (forall i :: 0 <= i < |msgs| ==>
        msgs[i].Controlled? && Unreceipted(c, msgs[i].num) && msgs[i].num in late && msgs[i] == Packet(c, msgs[i].num))
    && (forall i, j :: 0 <= i < j < |msgs| ==> msgs[i].num < msgs[j].num)
  }

  /** Numbers that ascend. */
  predicate Sorted(ns: seq<int>) { forall i, j :: 0 <= i < j < |ns| ==> ns[i] < ns[j] }

  lemma {:induction false} AscendingIsAll(lo: int, hi: int, late: set<int>)
    requires lo <= hi
    ensures Sorted(Ascending(lo, hi, late))
    ensures forall n :: lo < n <= hi && n in late ==> n in Ascending(lo, hi, late)
    decreases hi - lo
  {
    if lo < hi {
      AscendingIsAll(lo + 1, hi, late);
      var rest := Ascending(lo + 1, hi, late);
      assert Ascending(lo, hi, late) == (if lo + 1 in late then [lo + 1] else []) + rest;
      forall n | lo < n <= hi && n in late ensures n in Ascending(lo, hi, late) {
        if n > lo + 1 { assert n in rest; }
      }
    }
  }

  lemma RetransmitRepeats(c: Conn, late: set<int>)
    requires SndOk(c.snd)
    ensures Repeated(c, late, Retransmit(c, late).msgs)
    ensures Retransmit(c, late).c.snd == c.snd && Retransmit(c, late).c.rcv == c.rcv
    ensures Retransmit(c, late).c.phase == c.phase
  {
    var due, ms := Ascending(c.snd.receipt, c.snd.Sent(), late), Retransmit(c, late).msgs;
    AscendingIsAll(c.snd.receipt, c.snd.Sent(), late);
    RetransmitsDue(c, late);
    hide Retransmit; hide Ascending; hide SndOk;
    forall n | Unreceipted(c, n) && n in late ensures Packet(c, n) in ms {
      var i :| 0 <= i < |due| && due[i] == n;
      assert ms[i] == Packet(c, n);
    }
  }

  lemma RetransmitsDue(c: Conn, late: set<int>)
    requires SndOk(c.snd)
    ensures var due, o := Ascending(c.snd.receipt, c.snd.Sent(), late), Retransmit(c, late);
      && |o.msgs| == |due| && (forall i :: 0 <= i < |due| ==> o.msgs[i] == Packet(c, due[i]))
      && o.c.snd == c.snd && o.c.rcv == c.rcv && o.c.phase == c.phase
  {}

  /** No numbered packet is among the messages. */
  predicate Unnumbered(msgs: seq<Msg>) { forall i :: 0 <= i < |msgs| ==> !msgs[i].Controlled? }

  /** A tick of a waiting or open connection that does not give up repeats what is late, before
      it says anything else. */
  lemma TickRepeats(c: Conn, t: Clock) returns (k: nat)
    requires Ok(c)
    requires (c.phase.RfcSent? && !t.rfcExpired) ||
             (c.phase.Open? && !t.hostDown && !(c.snd.eofWanted && t.finishExpired))
    ensures var ms := Tick(c, t).msgs;
      k <= |ms| && Repeated(c, t.late, ms[..k]) && Unnumbered(ms[k..]) && Tick(c, t).c.phase == c.phase
  {
    var o := Retransmit(c, t.late);
    RetransmitRepeats(c, t.late);
    hide Retransmit; hide Repeated; hide SndOk; hide RcvOk; hide SetClosed;
    k := |o.msgs|;
    var ms := Tick(c, t).msgs;
    assert ms[..k] == o.msgs;
  }

  /** An STS that does not end the connection is answered, after its marks have been noted, by
      the packets that they leave unreceipted and that have waited long enough; before them only
      an EOF may go out that now has room. */
  lemma StsRepeats(c: Conn, f: Frame, late: set<int>) returns (k: nat)
    requires Ok(c) && c.phase.Open? && f.op == STS && 4 <= |f.data| <= MAX_DATA
    requires Input(c, f, late).c.phase.Open?
    ensures var o := Input(c, f, late);
      && Ok(o.c) && k <= |o.msgs| && Repeated(o.c, late, o.msgs[k..]) && o.c.rcv == c.rcv
      && (o.msgs[..k] == [] || o.msgs[..k] == [Controlled(o.c.snd.Sent(), c.rcv.read, Pkt(EOF, []))])
      && o.c.snd.log == c.snd.log + if k > 0 then [Pkt(EOF, [])] else []
  {
    SetWindowOk(c, f);
    var c1 := SetWindow(c, f);
    ProcessAckOk(c1, f.ack, Get16(f.data, 0));
    var o := ProcessAck(c1, f.ack, Get16(f.data, 0));
    AckSays(c1, f.ack, Get16(f.data, 0));
    InputOk(c, f, late);
    RetransmitRepeats(o.c, late);
    k := |o.msgs|;
    var o1 := Input(c, f, late);
    assert o1 == Chain(o, Retransmit(o.c, late));
    hide ProcessAck; hide Retransmit; hide Input;
    assert o1.msgs[k..] == Retransmit(o.c, late).msgs && o1.msgs[..k] == o.msgs;
    SameRepeated(o.c, o1.c, late, o1.msgs[k..]);
  }

  lemma SameRepeated(c: Conn, c1: Conn, late: set<int>, ms: seq<Msg>)
    requires SndOk(c.snd) && c1.snd == c.snd && c1.rcv == c.rcv && Repeated(c, late, ms)
    ensures Repeated(c1, late, ms)
  {
    assert forall n | Unreceipted(c, n) :: Packet(c1, n) == Packet(c, n);
    assert forall n :: Unreceipted(c1, n) <==> Unreceipted(c, n);
  }

  /** An acknowledgement that leaves the connection open says nothing, or sends the EOF. */
  lemma AckSays(c: Conn, ack: u16, receipt: u16)
    requires Ok(c) && c.phase.Open?
    ensures var o := ProcessAck(c, ack, receipt);
      && o.c.rcv == c.rcv
      && (o.c.phase.Open? ==>
          || (o.msgs == [] && o.c.snd.log == c.snd.log)
          || (o.msgs == [Controlled(o.c.snd.Sent(), c.rcv.read, Pkt(EOF, []))] &&
              o.c.snd.log == c.snd.log + [Pkt(EOF, [])]))
  {
    hide Unwrap; hide RcvOk;
  }
}
