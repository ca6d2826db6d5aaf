/** The connection record: 16-bit counters and two 64-slot rings, updated in place.

    The ghost field `view` is the same connection over unbounded numbers, and `said` the
    messages it has handed to the link layer.  Every method is proved to take `view` and
    `said` exactly one step of the simple form (module Connection).
  */
module ChaosConnection {
  import opened PacketNumbers
  import opened Packets
  import opened Connection
  import opened Rings
  import opened Repeats

  const RETRANSMIT_MS := 500
  const STS_RETRANSMIT_MS := 100
  const ACK_DELAY_MS := 30
  const PROBE_MS := 5000
  const LONELY_MS := 60000
  const HOST_DOWN_MS := 90000
  const RFC_TIMEOUT_MS := 20000
  const FINISH_TIMEOUT_MS := 10000

  /** Of `total` bytes, `sent` have gone out in room - left packets, all of them full but
      perhaps the one that ends the write. */
  ghost predicate Filling(room: int, left: int, total: nat, sent: nat) {
    && sent <= total && left <= room && (left < room ==> left >= 0)
    && MAX_DATA * (room - left - 1) < sent <= MAX_DATA * (room - left)
    && (sent < total ==> sent == MAX_DATA * (room - left))
  }

  lemma FillingStep(room: int, left: int, total: nat, sent: nat)
    requires Filling(room, left, total, sent) && sent < total && left > 0
    ensures sent % MAX_DATA == 0
    ensures Filling(room, left - 1, total, sent + Min(total - sent, MAX_DATA))
  {}

  lemma FillingStarts(room: int, total: nat)
    ensures Filling(room, room, total, 0)
  {}

  lemma FillingDone(room: int, left: int, total: nat, sent: nat)
    requires Filling(room, left, total, sent) && (sent == total || left <= 0)
    ensures sent == Min(total, if room <= 0 then 0 else room * MAX_DATA)
  {}

  class ChaosConn {
    var state: Phase
    var closeKind: CloseKind
    var reason: seq<byte>

    var sentNum: u16
    var ackedNum: u16
    var receiptNum: u16
    var remoteWindow: u16
    const sendq: array<Slot>
    var eofWanted: bool
    var eofSent: bool
    var eofNum: u16
    var finishStartMs: Millis

    var readNum: u16
    var receivedNum: u16
    var lastAckSent: u16
    var localWindow: u16
    const rcvq: array<Slot>
    var eofReceived: bool
    var ackDueMs: nat

    var openedMs: Millis
    var lastHeardMs: Millis
    var lastProbeMs: Millis

    /** The frames handed to the link layer, in order. */
    var wire: seq<Frame>

    ghost var view: Conn
    ghost var said: seq<Msg>

    /** The record and `view` describe the same connection. */
    ghost predicate Repr()
      reads this, sendq, rcvq
    {
      && sendq != rcvq && sendq.Length == rcvq.Length == RING
      && Scalars()
      && SendRing(sendq[..], view.snd)
      && RcvRing(rcvq[..], view.rcv)
      && wire == WireAll(said)
    }

    ghost predicate Scalars()
      reads this
    {
      && state == view.phase && closeKind == view.kind && reason == view.reason
      && sentNum == Wrap(view.snd.Sent())
      && ackedNum == Wrap(view.snd.acked)
      && receiptNum == Wrap(view.snd.receipt)
      && remoteWindow == view.snd.window
      && eofWanted == view.snd.eofWanted && eofSent == view.snd.eofSent
      && eofNum == Wrap(view.snd.eofNum)
      && readNum == Wrap(view.rcv.read)
      && receivedNum == Wrap(view.rcv.received)
      && lastAckSent == Wrap(view.lastAck)
      && localWindow == view.rcv.window
      && eofReceived == view.rcv.eof
      && (ackDueMs != 0) == view.ackDue
    }

    lemma StateIsPhase()
      requires Repr()
      ensures state == view.phase && sendq.Length == rcvq.Length == RING && sendq != rcvq
    {
      hide SendRing; hide RcvRing; hide WireAll; hide Wrap;
    }

    lemma SendNumbers()
      requires Repr()
      ensures sentNum == Wrap(view.snd.Sent()) && ackedNum == Wrap(view.snd.acked)
      ensures receiptNum == Wrap(view.snd.receipt)
      ensures remoteWindow == view.snd.window && eofNum == Wrap(view.snd.eofNum)
      ensures eofWanted == view.snd.eofWanted && eofSent == view.snd.eofSent
    {
      hide SendRing; hide RcvRing; hide WireAll; hide Wrap;
    }

    lemma ReceiveNumbers()
      requires Repr()
      ensures readNum == Wrap(view.rcv.read) && receivedNum == Wrap(view.rcv.received)
      ensures lastAckSent == Wrap(view.lastAck) && localWindow == view.rcv.window
      ensures eofReceived == view.rcv.eof && (ackDueMs != 0) == view.ackDue
    {
      hide SendRing; hide RcvRing; hide WireAll; hide Wrap;
    }

    ghost predicate Valid()
      reads this, sendq, rcvq
    {
      Repr() && Ok(view)
    }

    /** `view` and `said` have taken the step `o` from the given earlier values. */
    ghost predicate Took(before: seq<Msg>, o: Out)
      reads this
    {
      view == o.c && said == before + o.msgs
    }

    /** The unreceipted packets last sent at least `minAge` before `now`. */
    ghost function Late(now: Millis, minAge: nat): set<int>
      reads this`view, sendq
      requires sendq.Length == RING
    {
      LateIn(sendq[..], view.snd, now, minAge)
    }

    // -------------------------------------------------------------- Sending

    method SendRaw(op: byte, num: u16, ack: u16, data: seq<byte>, ghost m: Msg)
      requires Repr() && Frame(op, num, ack, Clip(data)) == Wire(m)
      modifies this`wire, this`said
      ensures Repr() && said == old(said) + [m]
    {
      hide SendRing; hide RcvRing; hide Clip; hide Wire; hide Wrap;
      WireAllAppend(said, [m]);
      wire := wire + [Frame(op, num, ack, Clip(data))];
      said := said + [m];
    }

    /** Whatever is sent settles a pending STS. */
    method Settle()
      requires Repr()
      modifies this`view, this`lastAckSent, this`ackDueMs
      ensures Repr() && view == old(view).(lastAck := old(view).rcv.read, ackDue := false) && ackDueMs == 0
    {
      hide SendRing; hide RcvRing; hide WireAll; hide Wrap;
      lastAckSent, ackDueMs := readNum, 0;
      view := view.(lastAck := view.rcv.read, ackDue := false);
    }

    method SendFrame(op: byte, num: u16, ack: u16, data: seq<byte>, ghost m: Msg)
      requires Repr() && Frame(op, num, ack, Clip(data)) == Wire(m)
      modifies this`wire, this`said, this`view, this`lastAckSent, this`ackDueMs
      ensures Repr() && Took(old(said), Emit(old(view), [m])) && ackDueMs == 0
    {
      hide Repr; hide Wire; hide Clip;
      Settle();
      SendRaw(op, num, ack, data, m);
    }

    /** An uncontrolled packet carries the last consumed number. */
    method SendUnc(op: byte, num: u16, data: seq<byte>, ghost m: Msg)
      requires Repr() && Frame(op, num, readNum, Clip(data)) == Wire(m)
      modifies this`wire, this`said, this`view, this`lastAckSent, this`ackDueMs
      ensures Repr() && Took(old(said), Emit(old(view), [m]))
    {
      hide Repr;
      SendFrame(op, num, readNum, data, m);
    }

    method SendSts()
      requires Repr()
      modifies this`wire, this`said, this`view, this`lastAckSent, this`ackDueMs
      ensures Repr() && Took(old(said), SendStatus(old(view)))
    {
      ReceiveNumbers();
      hide Repr;
      SendUnc(STS, 0, Put16(receivedNum) + Put16(localWindow),
              Status(view.rcv.read, view.rcv.received, view.rcv.window));
    }

    method Stamp(k: nat, now: Millis)
      requires Repr() && k < RING
      modifies sendq
      ensures Repr() && sendq[..] == old(sendq[..])[k := old(sendq[k]).(sentAtMs := now)]
    {
      hide SendRing; hide RcvRing; hide WireAll; hide Wrap;
      SendRingStamp(sendq[..], view.snd, k, now);
      sendq[k] := sendq[k].(sentAtMs := now);
    }

    /** Sends the packet in slot k, which is number n. */
    method Transmit(k: nat, now: Millis, ghost n: int)
      requires Repr() && k < RING && sendq[k].present && k == Index(Wrap(n))
      requires view.snd.base < n <= view.snd.Sent() && PktOk(view.snd.Nth(n))
      requires sendq[k].num == Wrap(n) && Pkt(sendq[k].op, sendq[k].data) == view.snd.Nth(n)
      modifies this`wire, this`said, this`view, this`lastAckSent, this`ackDueMs, sendq
      ensures Repr() && Took(old(said), Emit(old(view), [Transmission(old(view), n)])) && ackDueMs == 0
      ensures sendq[..] == old(sendq[..])[k := old(sendq[k]).(sentAtMs := now)]
    {
      StateIsPhase();
      ReceiveNumbers();
      hide Repr; hide Index;
      Stamp(k, now);
      var p := sendq[k];
      SendFrame(p.op, p.num, if p.op == RFC then 0 else readNum, p.data, Transmission(view, n));
    }

    /** Numbers a packet and sends it; its slot is free because at most 50 packets are
        unacknowledged. */
    method SendControlledPkt(op: byte, data: seq<byte>, now: Millis)
      requires Repr() && PktOk(Pkt(op, data))
      requires view.snd.base <= view.snd.receipt <= view.snd.Sent() && view.snd.Sent() - view.snd.receipt < RING
      modifies this`wire, this`said, this`view, this`lastAckSent, this`ackDueMs, this`sentNum, sendq
      ensures Repr() && Took(old(said), SendControlled(old(view), Pkt(op, data)))
      ensures sendq[Index(sentNum)].sentAtMs == now
      ensures forall i :: 0 <= i < RING && i != Index(sentNum) ==> sendq[i] == old(sendq[i])
    {
      hide SendRing; hide RcvRing; hide WireAll;
      ghost var s := view.snd;
      WrapStep(s.Sent());
      sentNum := SeqInc(sentNum);
      var k := Index(sentNum);
      var p := Slot(true, op, sentNum, data, 0, sendq[k].sentAtMs);
      SendRingPush(sendq[..], s, p);
      sendq[k] := p;
      view := view.(snd := s.(log := s.log + [Pkt(op, data)]));
      Transmit(k, now, view.snd.Sent());
    }

    /** Goes through the unreceipted numbers in order and sends again those whose last
        transmission is at least `minAge` old. */
    method Retransmit(now: Millis, minAge: nat)
      requires Valid()
      modifies this`wire, this`said, this`view, this`lastAckSent, this`ackDueMs, sendq
      ensures Valid() && Took(old(said), Connection.Retransmit(old(view), old(Late(now, minAge))))
      ensures ackDueMs == 0 || ackDueMs == old(ackDueMs)
      ensures Stamped(old(sendq[..]), sendq[..], old(view).snd.receipt, old(view).snd.Sent(),
                      old(Late(now, minAge)), now)
    {
      hide Connection.RetransmitTo; hide Untouched; hide Stamped; hide WireAll; hide SeqLt;
      hide SendRing; hide RcvRing; hide RcvOk;
      ghost var c, late, before, slots := view, Late(now, minAge), said, sendq[..];
      RetransmitOk(c, late);
      RetransmitNone(c, late);
      ghost var at := c.snd.receipt + 1;
      UntouchedAtFirst(slots, at, c.snd.Sent());
      StampedAtFirst(slots, c.snd.receipt, late, now);
      NextNumber(c.snd, c.snd.receipt);
      var n := SeqInc(receiptNum);
      while !SeqLt(sentNum, n)
        invariant c.snd.receipt < at <= c.snd.Sent() + 1 && n == Wrap(at)
        invariant SeqLt(sentNum, n) <==> at > c.snd.Sent()
        invariant Repr() && view.snd == c.snd && (ackDueMs == 0 || ackDueMs == old(ackDueMs))
        invariant Took(before, RetransmitTo(c, at - 1, late))
        invariant Untouched(slots, sendq[..], at, c.snd.Sent())
        invariant Stamped(slots, sendq[..], c.snd.receipt, at - 1, late, now)
        decreases c.snd.Sent() - at
      {
        RetransmitOne(n, now, minAge, at, c, late, before, slots);
        NextNumber(c.snd, at);
        at, n := at + 1, SeqInc(n);
      }
    }

    /** One number on, and whether that is past the last one. */
    lemma NextNumber(s: Snd, at: int)
      requires SndOk(s) && s.receipt <= at <= s.Sent()
      ensures SeqInc(Wrap(at)) == Wrap(at + 1)
      ensures SeqLt(Wrap(s.Sent()), Wrap(at + 1)) <==> at + 1 > s.Sent()
    {
      WrapStep(at);
      LtIsExact(s.Sent(), at + 1);
    }

    method RetransmitOne(n: u16, now: Millis, minAge: nat,
                         ghost at: int, ghost c: Conn, ghost late: set<int>, ghost before: seq<Msg>,
                         ghost slots: seq<Slot>)
      requires Repr() && SndOk(c.snd) && view.snd == c.snd && c.snd.receipt < at <= c.snd.Sent() && n == Wrap(at)
      requires Took(before, RetransmitTo(c, at - 1, late)) && |slots| == RING
      requires late == LateIn(slots, c.snd, now, minAge) && Untouched(slots, sendq[..], at, c.snd.Sent())
      requires Stamped(slots, sendq[..], c.snd.receipt, at - 1, late, now)
      modifies this`wire, this`said, this`view, this`lastAckSent, this`ackDueMs, sendq
      ensures Repr() && view.snd == c.snd && (ackDueMs == 0 || ackDueMs == old(ackDueMs))
      ensures Took(before, RetransmitTo(c, at, late)) && Untouched(slots, sendq[..], at + 1, c.snd.Sent())
      ensures Stamped(slots, sendq[..], c.snd.receipt, at, late, now)
    {
      StateIsPhase();
      RetransmitStep(c, at - 1, late);
      SendSlotAt(sendq[..], c.snd, at);
      hide Connection.RetransmitTo; hide Elapsed; hide Untouched; hide Stamped; hide Repr; hide Index;
      ghost var slots1 := sendq[..];
      UntouchedAfter(slots, slots1, slots1, at, c.snd.Sent());
      var k := Index(n);
      if !sendq[k].present || sendq[k].num != n { return; }
      if Elapsed(now, sendq[k].sentAtMs) < minAge {
        StampedAfter(slots, slots1, slots1, c.snd.receipt, at, late, now);
        return;
      }
      Transmit(k, now, at);
      UntouchedAfter(slots, slots1, sendq[..], at, c.snd.Sent());
      StampedAfter(slots, slots1, sendq[..], c.snd.receipt, at, late, now);
    }

    /** No packet counts as sent at another time than before. */
    twostate predicate SameTimes()
      reads sendq
    {
      forall i :: 0 <= i < sendq.Length ==> sendq[i].sentAtMs == old(sendq[i].sentAtMs)
    }

    method EmptySendq()
      requires sendq.Length == RING
      modifies sendq
      ensures AllEmpty(sendq[..]) && SameTimes()
    {
      for i := 0 to RING
        invariant forall j :: 0 <= j < i ==> !sendq[j].present
        invariant forall j :: 0 <= j < RING ==> sendq[j].sentAtMs == old(sendq[j].sentAtMs)
      {
        sendq[i] := sendq[i].(present := false);
      }
    }

    /** Forgets everything that is not receipted. */
    method Forget()
      requires Repr() && view.snd.base <= view.snd.Sent()
      modifies this`receiptNum, this`ackedNum, this`view, sendq
      ensures Repr() && SameTimes()
      ensures view == old(view).(snd := old(view).snd.(receipt := old(view).snd.Sent(), acked := old(view).snd.Sent()))
    {
      hide SendRing; hide RcvRing; hide WireAll; hide AllEmpty; hide Wrap;
      EmptySendq();
      receiptNum, ackedNum := sentNum, sentNum;
      view := view.(snd := view.snd.(receipt := view.snd.Sent(), acked := view.snd.Sent()));
      SendRingEmpty(sendq[..], view.snd);
    }

    method SetClosed(kind: CloseKind, text: seq<byte>)
      requires Repr() && view.snd.base <= view.snd.Sent()
      modifies this`state, this`closeKind, this`reason, this`receiptNum, this`ackedNum, this`ackDueMs, this`view, sendq
      ensures Repr() && Took(old(said), Out(Connection.SetClosed(old(view), kind, text), [])) && SameTimes()
    {
      hide Repr; hide Clip;
      Forget();
      MarkClosed(kind, text);
    }

    method MarkClosed(kind: CloseKind, text: seq<byte>)
      requires Repr()
      modifies this`state, this`closeKind, this`reason, this`ackDueMs, this`view
      ensures Repr()
      ensures view == old(view).(phase := Closed, kind := kind, reason := Clip(text), ackDue := false)
    {
      hide SendRing; hide RcvRing; hide Clip; hide WireAll; hide Wrap;
      state, closeKind, reason, ackDueMs := Closed, kind, Clip(text), 0;
      view := view.(phase := Closed, kind := kind, reason := Clip(text), ackDue := false);
      assert Scalars();
    }

    method CloseCls(text: seq<byte>, kind: CloseKind)
      requires Repr() && view.snd.base <= view.snd.Sent()
      modifies this`state, this`closeKind, this`reason, this`receiptNum, this`ackedNum, this`ackDueMs, this`view,
        this`wire, this`said, this`lastAckSent, sendq
      ensures Repr() && Took(old(said), Connection.CloseCls(old(view), text, kind)) && SameTimes()
    {
      ReceiveNumbers();
      hide Repr;
      SendUnc(CLS, 0, text, Close(view.rcv.read, text));
      SetClosed(kind, text);
    }

    function WindowAvailable(): int
      reads this
    {
      remoteWindow - SeqDiff(sentNum, ackedNum)
    }

    lemma WindowIsTrue()
      requires Scalars() && SndOk(view.snd)
      ensures WindowAvailable() == view.snd.Available()
    {
      DiffIsExact(view.snd.Sent(), view.snd.acked);
    }

    method MaybeSendEof(now: Millis)
      requires Valid()
      modifies this`wire, this`said, this`view, this`lastAckSent, this`ackDueMs, this`sentNum, this`eofSent,
        this`eofNum, sendq
      ensures Valid() && Took(old(said), Connection.MaybeSendEof(old(view)))
      ensures TimesKept(old(sendq[..]), old(view).snd, sendq[..], view.snd, now)
    {
      MaybeSendEofOk(view);
      StateIsPhase();
      SendNumbers();
      WindowIsTrue();
      hide Repr; hide RcvOk;
      if state.Open? && eofWanted && !eofSent && WindowAvailable() > 0 {
        SendControlledPkt(EOF, [], now);
        NoteEof();
      }
    }

    method NoteEof()
      requires Repr()
      modifies this`eofSent, this`eofNum, this`view
      ensures Repr() && view == old(view).(snd := old(view).snd.(eofSent := true, eofNum := old(view).snd.Sent()))
    {
      hide SendRing; hide RcvRing; hide WireAll; hide Wrap;
      SendRingSame(sendq[..], view.snd, view.snd.(eofSent := true, eofNum := view.snd.Sent()));
      eofSent, eofNum := true, sentNum;
      view := view.(snd := view.snd.(eofSent := true, eofNum := view.snd.Sent()));
    }

    /** Empties the slots a receipt covers. */
    method EmptySlots(receipt: u16, ghost upTo: int)
      requires Repr() && SndOk(view.snd)
      requires view.snd.receipt <= upTo <= view.snd.Sent() && receipt == Wrap(upTo)
      modifies this`view, sendq
      ensures SendRing(sendq[..], view.snd) && RcvRing(rcvq[..], view.rcv) && SameTimes()
      ensures view == old(view).(snd := old(view).snd.(receipt := upTo))
    {
      hide SendRing; hide RcvRing; hide WireAll; hide SeqLt; hide SeqInc;
      ghost var c := view;
      ghost var at := c.snd.receipt + 1;
      WrapStep(c.snd.receipt);
      LtIsExact(upTo, at);
      var n := SeqInc(receiptNum);
      while !SeqLt(receipt, n)
        invariant c.snd.receipt < at <= upTo + 1 && n == Wrap(at)
        invariant SeqLt(receipt, n) <==> at > upTo
        invariant view == c.(snd := c.snd.(receipt := at - 1))
        invariant SendRing(sendq[..], view.snd) && RcvRing(rcvq[..], view.rcv) && SameTimes()
        decreases upTo - at
      {
        SendRingPop(sendq[..], view.snd);
        var k := Index(n);
        sendq[k] := sendq[k].(present := false);
        view := view.(snd := view.snd.(receipt := at));
        at := at + 1;
        WrapStep(at - 1);
        LtIsExact(upTo, at);
        n := SeqInc(n);
      }
    }

    method Discard(receipt: u16, ghost upTo: int)
      requires Repr() && SndOk(view.snd)
      requires view.snd.receipt <= upTo <= view.snd.Sent() && receipt == Wrap(upTo)
      modifies this`receiptNum, this`view, sendq
      ensures Repr() && view == old(view).(snd := old(view).snd.(receipt := upTo)) && SameTimes()
    {
      hide SendRing; hide RcvRing; hide WireAll; hide Wrap;
      EmptySlots(receipt, upTo);
      receiptNum := receipt;
    }

    /** What the modular comparisons of an acknowledgement decide. */
    lemma MarksCompare(s: Snd, ack: u16, receipt: u16)
      requires SndOk(s)
      ensures var a, r := Unwrap(s.Sent(), ack), Unwrap(s.Sent(), receipt);
        && (SeqLt(Wrap(s.Sent()), ack) <==> a > s.Sent())
        && (SeqLt(Wrap(s.Sent()), receipt) <==> r > s.Sent())
        && (a <= s.Sent() && r <= s.Sent() ==>
            && Wrap(Max(a, r)) == (if SeqLt(receipt, ack) then ack else receipt)
            && (SeqLt(Wrap(s.receipt), Wrap(Max(a, r))) <==> s.receipt < Max(a, r))
            && (SeqLt(Wrap(s.acked), ack) <==> s.acked < a))
    {
      var a, r := Unwrap(s.Sent(), ack), Unwrap(s.Sent(), receipt);
      LtUnwrap(s.Sent(), ack);
      LtUnwrap(s.Sent(), receipt);
      if a <= s.Sent() && r <= s.Sent() {
        LtIsExact(r, a);
        LtIsExact(s.receipt, Max(a, r));
        LtIsExact(s.acked, a);
      }
    }

    /** Moves the marks, unless they speak of numbers never sent. */
    method MoveMarks(ack: u16, receipt: u16) returns (heeded: bool)
      requires Repr() && SndOk(view.snd)
      modifies this`receiptNum, this`ackedNum, this`view, sendq
      ensures Repr()
      ensures var s := old(view).snd;
        var a, r := Unwrap(s.Sent(), ack), Unwrap(s.Sent(), receipt);
        && (heeded <==> a <= s.Sent() && r <= s.Sent())
        && view == if heeded then old(view).(snd := Connection.MoveMarks(s, a, r)) else old(view)
      ensures forall i :: 0 <= i < RING ==> sendq[i].sentAtMs == old(sendq[i].sentAtMs)
    {
      hide SendRing; hide RcvRing; hide WireAll; hide SeqLt;
      ghost var s := view.snd;
      ghost var a, r := Unwrap(s.Sent(), ack), Unwrap(s.Sent(), receipt);
      MarksCompare(s, ack, receipt);
      if SeqLt(sentNum, ack) || SeqLt(sentNum, receipt) { return false; }
      var upTo := if SeqLt(receipt, ack) then ack else receipt;
      if SeqLt(receiptNum, upTo) {
        Discard(upTo, Max(a, r));
      }
      if SeqLt(ackedNum, ack) {
        Acknowledge(ack, a);
      }
      return true;
    }

    method Acknowledge(ack: u16, ghost a: int)
      requires Repr() && ack == Wrap(a)
      modifies this`ackedNum, this`view
      ensures Repr() && view == old(view).(snd := old(view).snd.(acked := a))
    {
      hide SendRing; hide RcvRing; hide WireAll;
      SendRingSame(sendq[..], view.snd, view.snd.(acked := a));
      ackedNum := ack;
      view := view.(snd := view.snd.(acked := a));
    }

    method ProcessAck(ack: u16, receipt: u16, now: Millis)
      requires Valid()
      modifies this`state, this`closeKind, this`reason, this`receiptNum, this`ackedNum, this`ackDueMs, this`view,
        this`wire, this`said, this`lastAckSent, this`sentNum, this`eofSent, this`eofNum, sendq
      ensures Valid() && Took(old(said), Connection.ProcessAck(old(view), ack, receipt))
      ensures TimesKept(old(sendq[..]), old(view).snd, sendq[..], view.snd, now)
    {
      ghost var c := view;
      ProcessAckOk(c, ack, receipt);
      var heeded := MoveMarks(ack, receipt);
      if !heeded { return; }
      MarksOk(c, ack, receipt);
      if eofSent && !SeqLt(ackedNum, eofNum) && state.Open? {
        CloseCls(FINISHED, Done);
      } else {
        MaybeSendEof(now);
      }
    }

    lemma MarksOk(c: Conn, ack: u16, receipt: u16)
      requires Ok(c)
      ensures var a, r := Unwrap(c.snd.Sent(), ack), Unwrap(c.snd.Sent(), receipt);
        a <= c.snd.Sent() && r <= c.snd.Sent() ==>
          var c1 := c.(snd := Connection.MoveMarks(c.snd, a, r));
          && Ok(c1)
          && (c1.snd.eofSent ==> (SeqLt(Wrap(c1.snd.acked), Wrap(c1.snd.eofNum)) <==> c1.snd.acked < c1.snd.eofNum))
    {
      var a, r := Unwrap(c.snd.Sent(), ack), Unwrap(c.snd.Sent(), receipt);
      if a <= c.snd.Sent() && r <= c.snd.Sent() && c.snd.eofSent {
        LtIsExact(Max(c.snd.acked, a), c.snd.eofNum);
      }
    }

    // -------------------------------------------------------------- The user's side

    function SendRoom(): nat
      reads this
    {
      if !state.Open? || eofWanted || WindowAvailable() <= 0 then 0 else WindowAvailable() * MAX_DATA
    }

    method Send(data: seq<byte>, now: Millis) returns (sent: nat)
      requires Valid()
      modifies this`wire, this`said, this`view, this`lastAckSent, this`ackDueMs, this`sentNum, sendq
      ensures Valid() && Took(old(said), Connection.Send(old(view), data))
      ensures sent == Min(|data|, old(SendRoom())) == Accepted(old(view), data)
    {
      ghost var c := view;
      WindowIsTrue();
      SendOk(c, data);
      if !state.Open? || eofWanted {
        assert data[..0] == [];
        return 0;
      }
      sent := SendSegments(data, now);
    }

    method SendSegments(data: seq<byte>, now: Millis) returns (sent: nat)
      requires Valid() && state.Open? && !eofWanted
      modifies this`wire, this`said, this`view, this`lastAckSent, this`ackDueMs, this`sentNum, sendq
      ensures sent == Accepted(old(view), data)
      ensures Repr() && Took(old(said), SendUpTo(old(view), data[..sent]))
    {
      assert !view.snd.eofSent;
      hide Connection.SendUpTo; hide SendRing; hide RcvRing; hide WireAll; hide SndOk; hide RcvOk; hide Filling;
      ghost var c, before := view, said;
      WindowIsTrue();
      SendUpToNothing(c);
      FillingStarts(c.snd.Available(), |data|);
      sent := 0;
      assert data[..0] == [];
      while sent < |data| && WindowAvailable() > 0
        invariant sent <= |data| && SndOk(view.snd) && !view.snd.eofSent && WindowAvailable() == view.snd.Available()
        invariant Filling(c.snd.Available(), view.snd.Available(), |data|, sent)
        invariant Repr() && Took(before, SendUpTo(c, data[..sent]))
        decreases |data| - sent
      {
        sent := SendNext(data, sent, now, c, before);
      }
      FillingDone(c.snd.Available(), view.snd.Available(), |data|, sent);
    }

    /** One more packet of a write of `data` that began at `c` and has sent the first `sent` bytes. */
    method SendNext(data: seq<byte>, sent: nat, now: Millis, ghost c: Conn, ghost before: seq<Msg>)
      returns (sent1: nat)
      requires sent < |data| && Repr() && Took(before, SendUpTo(c, data[..sent]))
      requires SndOk(view.snd) && !view.snd.eofSent && view.snd.Available() > 0
      requires Filling(c.snd.Available(), view.snd.Available(), |data|, sent)
      modifies this`wire, this`said, this`view, this`lastAckSent, this`ackDueMs, this`sentNum, sendq
      ensures sent < sent1 <= |data| && Repr() && Took(before, SendUpTo(c, data[..sent1]))
      ensures SndOk(view.snd) && !view.snd.eofSent && WindowAvailable() == view.snd.Available()
      ensures Filling(c.snd.Available(), view.snd.Available(), |data|, sent1)
    {
      hide Repr; hide SndOk; hide Connection.SendUpTo; hide Filling;
      FillingStep(c.snd.Available(), view.snd.Available(), |data|, sent);
      sent1 := sent + Min(|data| - sent, MAX_DATA);
      var part := data[sent..sent1];
      assert data[..sent] + part == data[..sent1];
      SendPart(part, now, c, before, data[..sent]);
    }

    method SendPart(part: seq<byte>, now: Millis, ghost c: Conn, ghost before: seq<Msg>, ghost done: seq<byte>)
      requires Repr() && Took(before, SendUpTo(c, done)) && |done| % MAX_DATA == 0 && 0 < |part| <= MAX_DATA
      requires SndOk(view.snd) && !view.snd.eofSent && view.snd.Available() > 0
      modifies this`wire, this`said, this`view, this`lastAckSent, this`ackDueMs, this`sentNum, sendq
      ensures Repr() && Took(before, SendUpTo(c, done + part))
      ensures SndOk(view.snd) && !view.snd.eofSent
      ensures WindowAvailable() == view.snd.Available() == old(view).snd.Available() - 1
    {
      SendUpToStep(c, done, part);
      SendControlledOk(view, Pkt(DAT, part));
      assert view.snd.base <= view.snd.receipt <= view.snd.Sent() && view.snd.Sent() - view.snd.receipt < RING;
      hide Repr; hide SndOk; hide Connection.SendUpTo;
      SendControlledPkt(DAT, part, now);
      WindowIsTrueOf();
    }

    lemma WindowIsTrueOf()
      requires Repr() && SndOk(view.snd)
      ensures WindowAvailable() == view.snd.Available()
    {
      hide SendRing; hide RcvRing; hide WireAll;
      WindowIsTrue();
    }

    method Finish(now: Millis)
      requires Valid()
      modifies this`wire, this`said, this`view, this`lastAckSent, this`ackDueMs, this`sentNum, this`eofSent,
        this`eofNum, this`eofWanted, this`finishStartMs, sendq
      ensures Valid() && Took(old(said), Connection.Finish(old(view)))
      ensures finishStartMs == if old(state).Open? && !old(eofWanted) then now else old(finishStartMs)
    {
      if !state.Open? || eofWanted { return; }
      SendRingSame(sendq[..], view.snd, view.snd.(eofWanted := true));
      eofWanted := true;
      finishStartMs := now;
      view := view.(snd := view.snd.(eofWanted := true));
      MaybeSendEof(now);
    }

    method Recv(max: nat, now: Millis) returns (buf: seq<byte>)
      requires Valid()
      modifies this`wire, this`said, this`view, this`lastAckSent, this`ackDueMs, this`readNum, this`eofReceived, rcvq
      ensures Valid() && Took(old(said), Connection.Recv(old(view), max))
      ensures ackDueMs == 0 || ackDueMs == if old(ackDueMs) != 0 then old(ackDueMs) else now + ACK_DELAY_MS
      ensures buf == if old(view).phase.Free? then [] else Consume(old(view).rcv, max).1
    {
      hide SendRing; hide RcvRing; hide WireAll; hide Consume;
      buf := [];
      if state.Free? { return; }
      ghost var c, before := view, said;
      RecvOk(c, max);
      ConsumeFrame(c.rcv, max);
      var advanced;
      advanced, buf := Take(max);
      if advanced && state.Open? {
        AckDistance(c, view.rcv.read);
        if SeqDiff(readNum, lastAckSent) >= (localWindow + 1) / 2 || eofReceived {
          SendSts();
        } else if ackDueMs == 0 {
          DelayAck(now);
        }
      }
    }

    method DelayAck(now: Millis)
      requires Repr()
      modifies this`ackDueMs, this`view
      ensures Repr() && view == old(view).(ackDue := true) && ackDueMs == now + ACK_DELAY_MS
    {
      hide SendRing; hide RcvRing; hide WireAll; hide Wrap;
      ackDueMs := now + ACK_DELAY_MS;
      view := view.(ackDue := true);
    }

    lemma AckDistance(c: Conn, read: int)
      requires Ok(c) && c.phase.Open? && c.rcv.read <= read <= c.rcv.received
      ensures SeqDiff(Wrap(read), Wrap(c.lastAck)) == read - c.lastAck
    {
      DiffIsExact(read, c.lastAck);
    }

    /** The consuming loop: whether any packet was let go of, and the bytes. */
    method Take(max: nat) returns (advanced: bool, got: seq<byte>)
      requires Valid()
      modifies this`view, this`readNum, this`eofReceived, rcvq
      ensures Repr() && view == old(view).(rcv := Consume(old(view).rcv, max).0)
      ensures got == Consume(old(view).rcv, max).1
      ensures advanced <==> view.rcv.read != old(view).rcv.read
    {
      hide SendRing; hide RcvRing; hide WireAll; hide Consuming; hide Consume; hide Bite; hide Longest;
      ghost var r0 := view.rcv;
      got, advanced := [], false;
      ConsumingStarts(r0, max);
      WrapEqual(r0.read, r0.received);
      while |got| < max && readNum != receivedNum && !eofReceived
        invariant Repr() && view == old(view).(rcv := view.rcv) && RcvOk(view.rcv)
        invariant |got| <= max && Consuming(r0, max, got, view.rcv)
        invariant r0.read <= view.rcv.read && (advanced <==> view.rcv.read != r0.read)
        invariant readNum == receivedNum <==> view.rcv.read == view.rcv.received
        decreases view.rcv.received - view.rcv.read, max - |got|
      {
        ConsumingGoesOn(r0, max, got, view.rcv);
        ConsumeBites(view.rcv, max - |got|);
        BiteOk(view.rcv, max - |got|);
        var whole, bytes := TakeNext(max - |got|);
        got := got + bytes;
        if !whole { break; }
        advanced := true;
        WrapEqual(view.rcv.read, view.rcv.received);
      }
      ConsumingEnds(r0, max, got, view.rcv);
    }

    /** Takes at most `max` bytes from the next packet, and lets go of it when it is used
        up or is the EOF. */
    method TakeNext(max: nat) returns (whole: bool, bytes: seq<byte>)
      requires Repr() && RcvOk(view.rcv) && view.rcv.read < view.rcv.received && !view.rcv.eof && max > 0
      modifies this`view, this`readNum, this`eofReceived, rcvq
      ensures Repr() && view == old(view).(rcv := Bite(old(view).rcv, max).0)
      ensures bytes == Bite(old(view).rcv, max).1
      ensures whole <==> view.rcv.read == old(view).rcv.read + 1
      ensures !whole ==> |bytes| == max && view.rcv.read == old(view).rcv.read
    {
      StateIsPhase();
      ReceiveNumbers();
      ghost var v := view.rcv;
      var num := SeqInc(readNum);
      WrapStep(v.read);
      var k := Index(num);
      RcvSlotAt(rcvq[..], v, v.read + 1);
      hide Repr; hide RcvOk; hide Index; hide Wrap;
      var p := rcvq[k];
      bytes := [];
      if p.op == EOF {
        LetGo(num, true);
        return true, bytes;
      }
      var take := Min(|p.data| - p.offset, max);
      bytes := p.data[p.offset..p.offset + take];
      ReadPart(k, p.offset + take);
      if p.offset + take < |p.data| { return false, bytes; }
      LetGo(num, false);
      return true, bytes;
    }

    /** Notes how much of the next packet has been read. */
    method ReadPart(k: nat, offset: nat)
      requires Repr() && view.rcv.read + 1 in view.rcv.q && k == Index(Wrap(view.rcv.read + 1))
      modifies this`view, rcvq
      ensures Repr() && view == old(view).(rcv := old(view).rcv.(offset := offset))
    {
      hide SendRing; hide RcvRing; hide WireAll; hide Wrap; hide Index;
      RcvRingPart(rcvq[..], view.rcv, offset);
      rcvq[k] := rcvq[k].(offset := offset);
      view := view.(rcv := view.rcv.(offset := offset));
    }

    /** Empties the slot of the next packet, which has been read or is the EOF. */
    method LetGo(num: u16, eof: bool)
      requires Repr() && view.rcv.read + 1 in view.rcv.q && num == Wrap(view.rcv.read + 1)
      requires forall n :: n in view.rcv.q ==> n <= view.rcv.read + RING
      modifies this`view, this`readNum, this`eofReceived, rcvq
      ensures Repr()
      ensures view == old(view).(rcv := if eof then Pass(old(view).rcv).(eof := true) else Pass(old(view).rcv))
    {
      hide SendRing; hide RcvRing; hide WireAll; hide Wrap; hide Index;
      RcvRingPass(rcvq[..], view.rcv);
      ghost var r := if eof then Pass(view.rcv).(eof := true) else Pass(view.rcv);
      rcvq[Index(num)] := rcvq[Index(num)].(present := false);
      RcvRingSame(rcvq[..], Pass(view.rcv), r);
      readNum, eofReceived := num, eofReceived || eof;
      view := view.(rcv := r);
    }

    // -------------------------------------------------------------- Input

    /** Moves the in-order mark over anything now contiguous, stopping at an EOF. */
    method FindMark()
      requires Repr() && view.rcv.read <= view.rcv.received <= view.rcv.read + view.rcv.window <= view.rcv.read + RING
      requires forall k :: k in view.rcv.q ==> k <= view.rcv.read + view.rcv.window
      modifies this`receivedNum, this`view
      ensures var r := old(view).rcv;
        view == old(view).(rcv := r.(received := Advance(r.q, r.received, r.read + r.window)))
      ensures receivedNum == Wrap(view.rcv.received)
    {
      hide SendRing; hide RcvRing; hide WireAll;
      ghost var r := view.rcv;
      ghost var limit := r.read + r.window;
      while true
        invariant view == old(view).(rcv := r.(received := view.rcv.received)) && receivedNum == Wrap(view.rcv.received)
        invariant r.read <= view.rcv.received <= limit
        invariant Advance(r.q, r.received, limit) == Advance(r.q, view.rcv.received, limit)
        decreases limit - view.rcv.received
      {
        ghost var n := view.rcv.received + 1;
        WrapStep(n - 1);
        var next := SeqInc(receivedNum);
        RcvSlotTest(rcvq[..], r, n);
        var q := rcvq[Index(next)];
        if !q.present || q.num != next { break; }
        receivedNum := next;
        view := view.(rcv := r.(received := n));
        if q.op == EOF { break; }
      }
    }

    method AdvanceMark()
      requires Repr() && view.rcv.read <= view.rcv.received <= view.rcv.read + view.rcv.window <= view.rcv.read + RING
      requires forall k :: k in view.rcv.q ==> k <= view.rcv.read + view.rcv.window
      modifies this`receivedNum, this`view
      ensures Repr() && var r := old(view).rcv;
        view == old(view).(rcv := r.(received := Advance(r.q, r.received, r.read + r.window)))
    {
      hide SendRing; hide RcvRing; hide WireAll; hide Advance; hide Wrap;
      ghost var r := view.rcv;
      FindMark();
      RcvRingSame(rcvq[..], r, view.rcv);
    }

    method Store(num: u16, op: byte, data: seq<byte>, ghost n: int)
      requires Repr() && RcvOk(view.rcv) && num == Wrap(n) && n !in view.rcv.q
      requires view.rcv.received < n <= view.rcv.read + view.rcv.window
      modifies this`view, this`receivedNum, rcvq
      ensures Repr() && view == old(view).(rcv := Enqueue(old(view).rcv, n, Pkt(op, data)))
    {
      var k := Index(num);
      var p := Slot(true, op, num, data, 0, rcvq[k].sentAtMs);
      RcvRingPut(rcvq[..], view.rcv, n, p);
      rcvq[k] := p;
      view := view.(rcv := view.rcv.(q := view.rcv.q[n := Pkt(op, data)]));
      AdvanceMark();
    }

    /** Whether a packet is wanted: neither a duplicate nor over the window. */
    method Wanted(num: u16, ghost n: int) returns (wanted: bool)
      requires Repr() && RcvOk(view.rcv) && n == Unwrap(view.rcv.received, num)
      ensures wanted <==> view.rcv.received < n <= view.rcv.read + view.rcv.window && n !in view.rcv.q
    {
      ghost var r := view.rcv;
      LtUnwrap(r.received, num);
      if !SeqLt(receivedNum, num) { return false; }              // a duplicate
      DiffIsExact(n, r.read);
      if SeqDiff(num, readNum) > localWindow { return false; }   // over the window
      var k := Index(num);
      RcvSlotAt(rcvq[..], r, n);
      return !(rcvq[k].present && rcvq[k].num == num);           // a duplicate out of order
    }

    /** Tells the peer when something before packet n is missing. */
    method ReportGap(num: u16, ghost n: int)
      requires Repr() && num == Wrap(n) && -HALF <= view.rcv.received - n < HALF
      modifies this`wire, this`said, this`view, this`lastAckSent, this`ackDueMs
      ensures Repr()
      ensures Took(old(said), if n > old(view).rcv.received then SendStatus(old(view)) else Out(old(view), []))
    {
      hide SendRing; hide RcvRing; hide WireAll;
      LtIsExact(view.rcv.received, n);
      if num != receivedNum && SeqLt(receivedNum, num) {
        SendSts();
      }
    }

    method QueueInput(num: u16, op: byte, data: seq<byte>)
      requires Valid() && state.Open? && IsInput(Pkt(op, data))
      modifies this`wire, this`said, this`view, this`lastAckSent, this`ackDueMs, this`receivedNum, rcvq
      ensures Valid() && Took(old(said), Connection.QueueInput(old(view), num, Pkt(op, data)))
    {
      StateIsPhase();
      hide Repr; hide Longest; hide Enqueue; hide SendStatus;
      ghost var r, n := view.rcv, Unwrap(view.rcv.received, num);
      QueueInputOk(view, num, Pkt(op, data));
      var wanted := Wanted(num, n);
      if !wanted {
        SendSts();
        return;
      }
      Store(num, op, data, n);
      EnqueueOk(r, n, Pkt(op, data));
      EnqueueMoves(r, n, Pkt(op, data));
      ReportGap(num, n);
    }

    lemma EnqueueMoves(r: Rcv, n: int, p: Pkt)
      requires RcvOk(r) && IsInput(p) && r.received < n <= r.read + r.window
      ensures -HALF <= Enqueue(r, n, p).received - n < HALF
    {
      EnqueueOk(r, n, p);
    }

    /** Malformed, or of a kind that does not belong to a connection. */
    predicate Ignored(f: Frame) { |f.data| > MAX_DATA || Connectionless(f.op) }

    /** One frame that has been matched to this record.  Whatever it is, the peer has been heard. */
    method Input(f: Frame, now: Millis)
      requires Valid()
      modifies this`state, this`closeKind, this`reason, this`receiptNum, this`ackedNum, this`ackDueMs, this`view,
        this`wire, this`said, this`lastAckSent, this`sentNum, this`eofSent, this`eofNum, this`readNum,
        this`receivedNum, this`remoteWindow, this`lastHeardMs, sendq, rcvq
      ensures Valid()
      ensures Took(old(said), Connection.Input(old(view), f, old(Late(now, STS_RETRANSMIT_MS))))
      ensures lastHeardMs == if old(state).Free? || Ignored(f) then old(lastHeardMs) else now
    {
      StateIsPhase();
      hide Repr; hide Ok; hide Connection.InputRfcSent; hide Connection.InputOpen; hide Late;
      if Ignored(f) { return; }
      match state
      case Free =>
        if !IsReply(f.op) { SendLos(NO_CONNECTION); }
      case RfcSent =>
        lastHeardMs := now;
        InputRfcSent(f, now);
      case Open =>
        lastHeardMs := now;
        InputOpen(f, now);
      case Closed =>
        lastHeardMs := now;
        if !(IsReply(f.op) || f.op == STS) { SendLos(INVALID_STATE); }
    }

    method SendLos(text: seq<byte>)
      requires Valid()
      modifies this`wire, this`said
      ensures Valid() && Took(old(said), Out(old(view), [Lost(text)]))
    {
      SendRaw(LOS, 0, 0, text, Lost(text));
    }

    /** The peer's OPN sets the receiving half going. */
    method Establish(num: u16, window: u16)
      requires Valid() && state.RfcSent?
      modifies this`state, this`lastAckSent, this`readNum, this`receivedNum, this`remoteWindow, this`view
      ensures Repr()
      ensures view == old(view).(phase := Open, lastAck := num,
                rcv := old(view).rcv.(read := num, received := num),
                snd := old(view).snd.(window := Min(window, MAX_WINDOW)))
    {
      assert view.rcv.q == map[];
      hide Repr; hide Ok;
      StartAfter(num);
      AcceptOpen(window);
    }

    method StartAfter(num: u16)
      requires Repr() && view.rcv.q == map[]
      modifies this`lastAckSent, this`readNum, this`receivedNum, this`view
      ensures Repr() && view == old(view).(lastAck := num, rcv := old(view).rcv.(read := num, received := num))
    {
      hide SendRing; hide RcvRing; hide WireAll; hide Wrap;
      WrapsToItself(num);
      EmptyRing(rcvq[..], view.rcv, view.rcv.(read := num, received := num));
      readNum, receivedNum, lastAckSent := num, num, num;
      view := view.(lastAck := num, rcv := view.rcv.(read := num, received := num));
      assert Scalars();
    }

    lemma WrapsToItself(num: u16)
      ensures Wrap(num) == num
    {}

    method AcceptOpen(window: u16)
      requires Repr()
      modifies this`state, this`remoteWindow, this`view
      ensures Repr()
      ensures view == old(view).(phase := Open, snd := old(view).snd.(window := Min(window, MAX_WINDOW)))
    {
      hide SendRing; hide RcvRing; hide WireAll; hide Wrap;
      SendRingSame(sendq[..], view.snd, view.snd.(window := Min(window, MAX_WINDOW)));
      remoteWindow := Min(window, MAX_WINDOW);
      state := Open;
      view := view.(phase := Open, snd := view.snd.(window := Min(window, MAX_WINDOW)));
    }

    lemma EmptyRing(slots: seq<Slot>, r: Rcv, r1: Rcv)
      requires RcvRing(slots, r) && r.q == map[] && r1.q == map[]
      ensures RcvRing(slots, r1)
    {
      forall i | 0 <= i < RING ensures RcvSlotOk(slots[i], r1, i) {
        assert RcvSlotOk(slots[i], r, i);
      }
    }

    method InputRfcSent(f: Frame, now: Millis)
      requires Valid() && state.RfcSent? && |f.data| <= MAX_DATA
      modifies this`state, this`closeKind, this`reason, this`receiptNum, this`ackedNum, this`ackDueMs, this`view,
        this`wire, this`said, this`lastAckSent, this`sentNum, this`eofSent, this`eofNum, this`readNum,
        this`receivedNum, this`remoteWindow, sendq
      ensures Valid() && Took(old(said), Connection.InputRfcSent(old(view), f))
    {
      InputRfcSentOk(view, f);
      StateIsPhase();
      hide Repr; hide Ok; hide Connection.ProcessAck; hide SendStatus; hide Clip; hide TimesKept;
      if f.op == OPN {
        if |f.data| < 4 { return; }
        Greet(f, now);
      } else if f.op == CLS {
        SetClosed(ByCls, f.data);
      } else if f.op == LOS {
        SetClosed(ByLos, f.data);
      } else if f.op == ANS {
        SetClosed(ByAns, f.data);
      } else if f.op == FWD {
        SetClosed(ByLos, ForwardText(f.ack));
      }
    }

    /** The OPN that answers the RFC is itself answered by an STS. */
    method Greet(f: Frame, now: Millis)
      requires Valid() && state.RfcSent? && f.op == OPN && 4 <= |f.data| <= MAX_DATA
      modifies this`state, this`closeKind, this`reason, this`receiptNum, this`ackedNum, this`ackDueMs, this`view,
        this`wire, this`said, this`lastAckSent, this`sentNum, this`eofSent, this`eofNum, this`readNum,
        this`receivedNum, this`remoteWindow, sendq
      ensures Repr() && Took(old(said), Connection.InputRfcSent(old(view), f))
    {
      OpenedOk(view, f);
      hide Repr; hide Connection.ProcessAck; hide SendStatus; hide Ok;
      Establish(f.num, Get16(f.data, 2));
      assert view == Opened(old(view), f);
      hide Opened;
      AckAndTell(f.ack, Get16(f.data, 0), now);
    }

    method AckAndTell(ack: u16, receipt: u16, now: Millis)
      requires Valid()
      modifies this`state, this`closeKind, this`reason, this`receiptNum, this`ackedNum, this`ackDueMs, this`view,
        this`wire, this`said, this`lastAckSent, this`sentNum, this`eofSent, this`eofNum, sendq
      ensures Repr()
      ensures var o := Connection.ProcessAck(old(view), ack, receipt); Took(old(said), Chain(o, SendStatus(o.c)))
    {
      hide Repr; hide Connection.ProcessAck; hide TimesKept; hide SendStatus; hide Ok;
      ProcessAck(ack, receipt, now);
      SendSts();
    }

    method InputOpen(f: Frame, now: Millis)
      requires Valid() && state.Open? && |f.data| <= MAX_DATA
      modifies this`state, this`closeKind, this`reason, this`receiptNum, this`ackedNum, this`ackDueMs, this`view,
        this`wire, this`said, this`lastAckSent, this`sentNum, this`eofSent, this`eofNum,
        this`receivedNum, this`remoteWindow, sendq, rcvq
      ensures Valid()
      ensures Took(old(said), Connection.InputOpen(old(view), f, old(Late(now, STS_RETRANSMIT_MS))))
    {
      StateIsPhase();
      hide Repr; hide Connection.InputData; hide Connection.InputSts; hide Connection.InputSns; hide Ok;
      if f.op >= DAT || f.op == EOF {
        InputData(f, now);
      } else if f.op == STS {
        InputSts(f, now);
      } else if f.op == SNS {
        InputSns(f, now);
      } else {
        InputOther(f);
      }
    }

    /** The frames without a mark that counts. */
    method InputOther(f: Frame)
      requires Valid() && state.Open? && |f.data| <= MAX_DATA
      requires f.op < DAT && f.op != EOF && f.op != STS && f.op != SNS
      modifies this`state, this`closeKind, this`reason, this`receiptNum, this`ackedNum, this`ackDueMs, this`view,
        this`wire, this`said, this`lastAckSent, sendq
      ensures Valid() && Took(old(said), Connection.InputOpen(old(view), f, {}))
    {
      StateIsPhase();
      hide Repr; hide Ok;
      if f.op == OPN {
        SendStatusOk(view);
        SendSts();                                     // the peer missed our STS
      } else if f.op == CLS {
        SetClosedOk(view, ByCls, f.data);
        SetClosed(ByCls, f.data);
      } else if f.op == LOS {
        SetClosedOk(view, ByLos, f.data);
        SetClosed(ByLos, f.data);
      }
    }

    method InputSns(f: Frame, now: Millis)
      requires Valid()
      modifies this`state, this`closeKind, this`reason, this`receiptNum, this`ackedNum, this`ackDueMs, this`view,
        this`wire, this`said, this`lastAckSent, this`sentNum, this`eofSent, this`eofNum, sendq
      ensures Valid() && Took(old(said), Connection.InputSns(old(view), f))
    {
      hide Repr; hide Connection.ProcessAck; hide TimesKept;
      ProcessAck(f.ack, f.ack, now);
      StateIsPhase();
      if state.Open? {
        SendStatusOk(view);
        SendSts();
      }
    }

    method InputData(f: Frame, now: Millis)
      requires Valid() && |f.data| <= MAX_DATA && (f.op >= DAT || f.op == EOF)
      modifies this`state, this`closeKind, this`reason, this`receiptNum, this`ackedNum, this`ackDueMs, this`view,
        this`wire, this`said, this`lastAckSent, this`sentNum, this`eofSent, this`eofNum,
        this`receivedNum, sendq, rcvq
      ensures Valid() && Took(old(said), Connection.InputData(old(view), f))
    {
      hide Repr; hide Connection.ProcessAck; hide Connection.QueueInput; hide TimesKept;
      ProcessAck(f.ack, f.ack, now);
      StateIsPhase();
      if state.Open? {
        QueueInput(f.num, f.op, f.data);
      }
    }

    method AdoptWindow(f: Frame)
      requires Valid() && |f.data| >= 4
      modifies this`remoteWindow, this`view
      ensures Valid() && view == SetWindow(old(view), f)
    {
      SetWindowOk(view, f);
      remoteWindow := Min(Get16(f.data, 2), MAX_WINDOW);
      SendRingSame(sendq[..], view.snd, SetWindow(view, f).snd);
      view := SetWindow(view, f);
    }

    method InputSts(f: Frame, now: Millis)
      requires Valid() && state.Open?
      modifies this`state, this`closeKind, this`reason, this`receiptNum, this`ackedNum, this`ackDueMs, this`view,
        this`wire, this`said, this`lastAckSent, this`sentNum, this`eofSent, this`eofNum,
        this`remoteWindow, sendq
      ensures Valid()
      ensures Took(old(said), Connection.InputSts(old(view), f, old(Late(now, STS_RETRANSMIT_MS))))
    {
      StateIsPhase();
      hide Repr; hide Connection.ProcessAck; hide Connection.Retransmit; hide Ok;
      if |f.data| < 4 { return; }
      SetWindowOk(view, f);
      ghost var late := Late(now, STS_RETRANSMIT_MS);
      AdoptWindow(f);
      RepeatUnreceipted(f.ack, Get16(f.data, 0), now, late);
    }

    /** After an acknowledgement, what it does not cover is probably lost. */
    method RepeatUnreceipted(ack: u16, receipt: u16, now: Millis, ghost late: set<int>)
      requires Valid() && sendq.Length == RING && late == Late(now, STS_RETRANSMIT_MS)
      modifies this`state, this`closeKind, this`reason, this`receiptNum, this`ackedNum, this`ackDueMs, this`view,
        this`wire, this`said, this`lastAckSent, this`sentNum, this`eofSent, this`eofNum, sendq
      ensures Valid() && Ok(Connection.ProcessAck(old(view), ack, receipt).c)
      ensures var o := Connection.ProcessAck(old(view), ack, receipt);
        Took(old(said), if o.c.phase.Open? then Chain(o, Connection.Retransmit(o.c, late)) else o)
    {
      hide Repr; hide Connection.ProcessAck; hide Connection.Retransmit; hide RcvOk; hide Late;
      ProcessAckOk(view, ack, receipt);
      AcknowledgeTimed(ack, receipt, now, late);
      StateIsPhase();
      if state.Open? {
        Retransmit(now, STS_RETRANSMIT_MS);
      }
    }

    /** An acknowledgement does not make a packet late. */
    method AcknowledgeTimed(ack: u16, receipt: u16, now: Millis, ghost late: set<int>)
      requires Valid() && sendq.Length == RING && late == Late(now, STS_RETRANSMIT_MS)
      modifies this`state, this`closeKind, this`reason, this`receiptNum, this`ackedNum, this`ackDueMs, this`view,
        this`wire, this`said, this`lastAckSent, this`sentNum, this`eofSent, this`eofNum, sendq
      ensures Valid() && Took(old(said), Connection.ProcessAck(old(view), ack, receipt))
      ensures Connection.Retransmit(view, Late(now, STS_RETRANSMIT_MS)) == Connection.Retransmit(view, late)
    {
      hide Repr; hide Connection.ProcessAck; hide Connection.Retransmit; hide RcvOk; hide Elapsed;
      ghost var c, slots := view, sendq[..];
      ReceiptMovesOn(view, ack, receipt);
      ProcessAck(ack, receipt, now);
      LateKept(slots, c.snd, sendq[..], view, now, STS_RETRANSMIT_MS);
    }

    // -------------------------------------------------------------- Timers

    ghost function ClockAt(now: Millis): Clock
      reads this, sendq
      requires sendq.Length == RING
    {
      Clock(Elapsed(now, openedMs) >= RFC_TIMEOUT_MS,
            Elapsed(now, lastHeardMs) >= HOST_DOWN_MS,
            Elapsed(now, finishStartMs) >= FINISH_TIMEOUT_MS,
            Late(now, RETRANSMIT_MS),
            now >= ackDueMs,
            Elapsed(now, lastProbeMs) >= PROBE_MS,
            Elapsed(now, lastHeardMs) >= LONELY_MS)
    }

    /** What the clock says, in milliseconds since the things it looks at. */
    lemma ClockReads(now: Millis)
      requires sendq.Length == RING
      requires openedMs <= now && lastHeardMs <= now && finishStartMs <= now && lastProbeMs <= now
      ensures var t := ClockAt(now);
        && (t.rfcExpired <==> now - openedMs >= 20_000) && (t.hostDown <==> now - lastHeardMs >= 90_000)
        && (t.finishExpired <==> now - finishStartMs >= 10_000) && (t.ackExpired <==> now >= ackDueMs)
        && (t.probe <==> now - lastProbeMs >= 5_000) && (t.lonely <==> now - lastHeardMs >= 60_000)
      ensures forall n :: n in ClockAt(now).late <==>
        && view.snd.receipt < n <= view.snd.Sent()
        && (sendq[Index(Wrap(n))].sentAtMs <= now ==> now - sendq[Index(Wrap(n))].sentAtMs >= 500)
    {}

    method Tick(now: Millis)
      requires Valid()
      modifies this`state, this`closeKind, this`reason, this`receiptNum, this`ackedNum, this`ackDueMs, this`view,
        this`wire, this`said, this`lastAckSent, this`lastProbeMs, sendq
      ensures Valid() && Took(old(said), Connection.Tick(old(view), old(ClockAt(now))))
      ensures lastProbeMs == if old(state).Open? && state.Open? && Elapsed(now, old(lastProbeMs)) >= PROBE_MS then now
                             else old(lastProbeMs)
    {
      if state.RfcSent? {
        if Elapsed(now, openedMs) >= RFC_TIMEOUT_MS {
          SetClosedOk(view, TimedOut, NOT_RESPONDING);
          SetClosed(TimedOut, NOT_RESPONDING);
        } else {
          Retransmit(now, RETRANSMIT_MS);
        }
      } else if state.Open? {
        TickOpen(now);
      }
    }

    method TickOpen(now: Millis)
      requires Valid() && state.Open?
      modifies this`state, this`closeKind, this`reason, this`receiptNum, this`ackedNum, this`ackDueMs, this`view,
        this`wire, this`said, this`lastAckSent, this`lastProbeMs, sendq
      ensures Valid() && Took(old(said), Connection.Tick(old(view), old(ClockAt(now))))
      ensures lastProbeMs == if state.Open? && Elapsed(now, old(lastProbeMs)) >= PROBE_MS then now
                             else old(lastProbeMs)
    {
      hide Connection.RetransmitTo; hide Connection.Probe; hide Elapsed; hide SendRing; hide RcvRing; hide RcvOk;
      hide WireAll; hide Clip;
      ghost var t := ClockAt(now);
      StateIsPhase();
      TickOk(view, t);
      hide Repr;
      var heard := Elapsed(now, lastHeardMs);
      if heard >= HOST_DOWN_MS {
        SetClosed(TimedOut, STOPPED_RESPONDING);
        return;
      }
      if eofWanted && Elapsed(now, finishStartMs) >= FINISH_TIMEOUT_MS {
        CloseCls(FINISHED_UNACKED, Done);
        return;
      }
      Remind(now, heard, t);
    }

    /** Repeats what is late, settles a due acknowledgement and asks after a silent peer. */
    method Remind(now: Millis, heard: nat, ghost t: Clock)
      requires Valid() && t == ClockAt(now) && heard == Elapsed(now, lastHeardMs)
      modifies this`wire, this`said, this`view, this`lastAckSent, this`ackDueMs, this`lastProbeMs, sendq
      ensures Repr()
      ensures var o := Connection.Retransmit(old(view), t.late);
              var o1 := if o.c.ackDue && t.ackExpired then Chain(o, SendStatus(o.c)) else o;
              Took(old(said), Chain(o1, Probe(o1.c, t)))
      ensures lastProbeMs == if Elapsed(now, old(lastProbeMs)) >= PROBE_MS then now else old(lastProbeMs)
    {
      hide Repr; hide Connection.Retransmit; hide Connection.Probe; hide Elapsed; hide Ok; hide SndOk;
      StateIsPhase();
      RetransmitIsOk(view, t.late);
      RepeatAndSettle(now);
      ProbeIfDue(now, heard, t);
    }

    lemma RetransmitIsOk(c: Conn, late: set<int>)
      requires Ok(c)
      ensures SndOk(c.snd) && Connection.Retransmit(c, late).c.snd == c.snd
    {}

    method RepeatAndSettle(now: Millis)
      requires Valid() && sendq.Length == RING
      modifies this`wire, this`said, this`view, this`lastAckSent, this`ackDueMs, sendq
      ensures Repr() && SndOk(old(view).snd)
      ensures var o := Connection.Retransmit(old(view), old(Late(now, RETRANSMIT_MS)));
              Took(old(said), if o.c.ackDue && now >= old(ackDueMs) then Chain(o, SendStatus(o.c)) else o)
    {
      hide Repr; hide Connection.Retransmit; hide SndOk; hide RcvOk; hide Late;
      ReceiveNumbers();
      Retransmit(now, RETRANSMIT_MS);
      ReceiveNumbers();
      SettleIfDue(now);
    }

    method SettleIfDue(now: Millis)
      requires Repr()
      modifies this`wire, this`said, this`view, this`lastAckSent, this`ackDueMs
      ensures Repr() && view.snd == old(view).snd
      ensures Took(old(said), if old(view).ackDue && now >= old(ackDueMs) then SendStatus(old(view))
                              else Out(old(view), []))
    {
      ReceiveNumbers();
      hide Repr;
      if ackDueMs != 0 && now >= ackDueMs {
        SendSts();
      }
    }

    method ProbeIfDue(now: Millis, heard: nat, ghost t: Clock)
      requires Repr() && SndOk(view.snd)
      requires t.probe == (Elapsed(now, lastProbeMs) >= PROBE_MS) && t.lonely == (heard >= LONELY_MS)
      modifies this`wire, this`said, this`view, this`lastAckSent, this`ackDueMs, this`lastProbeMs
      ensures Repr() && Took(old(said), Probe(old(view), t))
      ensures lastProbeMs == if t.probe then now else old(lastProbeMs)
    {
      if Elapsed(now, lastProbeMs) >= PROBE_MS {
        lastProbeMs := now;
        MarksDiffer();
        if ackedNum != sentNum || remoteWindow == 0 || heard >= LONELY_MS {
          SendUnc(SNS, 0, [], Sense(view.rcv.read));
        }
      }
    }

    lemma MarksDiffer()
      requires Repr() && SndOk(view.snd)
      ensures ackedNum != sentNum <==> view.snd.acked != view.snd.Sent()
    {
      WrapEqual(view.snd.Sent(), view.snd.acked);
    }

    /** The peer's address has just been learned: send again all it may have missed. */
    method PeerLearned(now: Millis)
      requires Valid()
      modifies this`wire, this`said, this`view, this`lastAckSent, this`ackDueMs, sendq
      ensures Valid()
      ensures Took(old(said), if old(state).RfcSent? || old(state).Open?
                              then Connection.Retransmit(old(view), old(Late(now, 0))) else Out(old(view), []))
      ensures old(state).RfcSent? || old(state).Open? ==>
                Repeated(old(view), AllUnreceipted(old(view)), said[|old(said)|..])
    {
      StateIsPhase();
      hide Repr; hide Repeated; hide Connection.Retransmit;
      if state.RfcSent? || state.Open? {
        AllAreLate(now);
        RetransmitRepeats(view, Late(now, 0));
        Retransmit(now, 0);
      }
    }

    lemma AllAreLate(now: Millis)
      requires sendq.Length == RING
      ensures Late(now, 0) == AllUnreceipted(view)
    {}

    // -------------------------------------------------------------- Life cycle

    method Release(text: seq<byte>)
      requires Valid()
      modifies this`wire, this`said, this`view, this`lastAckSent, this`ackDueMs, this`state
      ensures Valid() && Took(old(said), Connection.Release(old(view), text))
    {
      if state.Open? {
        SendUnc(CLS, 0, text, Close(view.rcv.read, text));
      }
      state := Free;
      view := view.(phase := Free);
    }

    /** A fresh record whose RFC has just been sent. */
    constructor (first: u16, window: u16, contact: seq<byte>, now: Millis)
      requires 1 <= window <= RING && |contact| <= MAX_DATA
      ensures Valid() && fresh(sendq) && fresh(rcvq)
      ensures Took([], Opening(first, window, contact)) && openedMs == lastHeardMs == lastProbeMs == now
    {
      state, closeKind, reason := RfcSent, NotClosed, [];
      sendq := new Slot[RING](_ => EMPTY);
      rcvq := new Slot[RING](_ => EMPTY);
      sentNum, ackedNum, receiptNum := Wrap(first - 1), Wrap(first - 1), Wrap(first - 1);
      remoteWindow := 1;
      eofWanted, eofSent, eofNum, finishStartMs := false, false, 0, 0;
      readNum, receivedNum, lastAckSent, localWindow := 0, 0, 0, window;
      eofReceived, ackDueMs := false, 0;
      openedMs, lastHeardMs, lastProbeMs := now, now, now;
      wire, said := [], [];
      view := Conn(RfcSent, NotClosed, [], Snd(first - 1, [], first - 1, first - 1, 1, false, false, 0),
                   Rcv(0, 0, window, map[], 0, false), 0, false);
      new;
      OpeningOk(first, window, contact);
      SendControlledPkt(RFC, contact, now);
    }
  }
}
