/** One connection of the Chaosnet NCP over unbounded packet numbers.

    This is the simple form of the protocol: the sender is the list of everything it
    ever numbered plus two marks, the receiver a map from packet number to packet.
    The record with its rings and 16-bit counters (ChaosConn) refines it, and the
    two-ended theorems are about it.
  */
module Connection {
  import opened PacketNumbers
  import opened Packets

  const RING: int := 64
  const MAX_WINDOW: int := 50

  datatype Phase = Free | RfcSent | Open | Closed
  datatype CloseKind = NotClosed | ByCls | ByLos | ByAns | TimedOut | Done

  /** Sending half.  `log` is every controlled packet ever numbered; the first one
      bears `base + 1`. */
  datatype Snd = Snd(base: int, log: seq<Pkt>, acked: int, receipt: int, window: nat,
                     eofWanted: bool, eofSent: bool, eofNum: int)
  {
    function Sent(): int { base + |log| }

    function Nth(n: int): Pkt
      requires base < n <= Sent()
    {
      log[n - base - 1]
    }

    function Available(): int { window - (Sent() - acked) }
  }

  /** Receiving half.  `q` holds what has arrived and is not consumed; `offset` bytes of
      packet `read + 1` have been consumed. */
  datatype Rcv = Rcv(read: int, received: int, window: u16, q: map<int, Pkt>, offset: nat, eof: bool)

  datatype Conn = Conn(phase: Phase, kind: CloseKind, reason: seq<byte>,
                       snd: Snd, rcv: Rcv, lastAck: int, ackDue: bool)

  /** A new state and the messages sent on the way to it. */
  datatype Out = Out(c: Conn, msgs: seq<Msg>)

  function Chain(first: Out, second: Out): Out {
    Out(second.c, first.msgs + second.msgs)
  }

  function Min(a: int, b: int): int { if a <= b then a else b }
  function Max(a: int, b: int): int { if a >= b then a else b }

  // ---------------------------------------------------------------- Well-formed states

  ghost predicate SndOk(s: Snd) {
    && s.base <= s.acked <= s.receipt <= s.Sent()
    && s.Sent() - s.acked <= MAX_WINDOW
    && s.window <= MAX_WINDOW
    && (s.eofSent ==> s.eofWanted && s.log != [] && s.log[|s.log| - 1].op == EOF && s.eofNum == s.Sent())
    && (forall i :: 0 <= i < |s.log| ==> PktOk(s.log[i]))
    && (forall i :: 0 <= i < |s.log| && s.log[i].op == EOF ==> s.eofSent && i == |s.log| - 1)
  }

  predicate PktOk(p: Pkt) {
    |p.data| <= MAX_DATA && (p.op == RFC || p.op == EOF || p.op >= DAT)
  }

  predicate IsInput(p: Pkt) {
    |p.data| <= MAX_DATA && (p.op == EOF || p.op >= DAT)
  }

  ghost predicate RcvOk(r: Rcv) {
    && Readable(r)
    && 1 <= r.window <= RING
    && r.received <= r.read + r.window
    && (forall n :: n in r.q ==> r.read < n <= r.read + r.window && IsInput(r.q[n]))
    && Longest(r)
  }

  /** Everything up to `received` is there to be read. */
  ghost predicate Readable(r: Rcv) {
    && r.read <= r.received
    && (forall n :: r.read < n <= r.received ==> n in r.q)
    && (r.offset > 0 ==>
        r.read < r.received && r.q[r.read + 1].op != EOF && r.offset < |r.q[r.read + 1].data|)
  }

  /** `received` ends the longest run without gaps, unless an EOF ends the run there. */
  ghost predicate Longest(r: Rcv) {
    || r.received + 1 !in r.q
    || (r.received in r.q && r.q[r.received].op == EOF)
    || (r.received == r.read && r.eof)
  }

  ghost predicate Ok(c: Conn) {
    && SndOk(c.snd)
    && RcvOk(c.rcv)
    && (c.phase.RfcSent? ==>
        && c.rcv.q == map[] && c.rcv.read == c.rcv.received == c.lastAck && !c.rcv.eof
        && !c.snd.eofWanted)
    && (c.phase.Closed? ==> c.snd.acked == c.snd.Sent() && !c.ackDue)
    && (c.phase.Open? ==> AckKept(c))
    && |c.reason| <= MAX_DATA
  }

  /** What the user consumed and the peer has not been told is less than half a window,
      and an STS is due to tell it. */
  ghost predicate AckKept(c: Conn) {
    && 0 <= c.rcv.read - c.lastAck < (c.rcv.window + 1) / 2
    && (c.rcv.read != c.lastAck ==> c.ackDue)
  }

  // ---------------------------------------------------------------- Sending

  /** Everything sent carries the last consumed number, which settles a pending STS. */
  function Emit(c: Conn, msgs: seq<Msg>): Out {
    Out(c.(lastAck := c.rcv.read, ackDue := false), msgs)
  }

  function SendStatus(c: Conn): Out {
    Emit(c, [Status(c.rcv.read, c.rcv.received, c.rcv.window)])
  }

  function Transmission(c: Conn, n: int): Msg
    requires c.snd.base < n <= c.snd.Sent()
  {
    Controlled(n, c.rcv.read, c.snd.Nth(n))
  }

  function SendControlled(c: Conn, p: Pkt): Out {
    var c1 := c.(snd := c.snd.(log := c.snd.log + [p]));
    Emit(c1, [Transmission(c1, c1.snd.Sent())])
  }

  /** The numbers of (lo, hi] that are in `late`, ascending. */
  function Ascending(lo: int, hi: int, late: set<int>): (ns: seq<int>)
    requires lo <= hi
    ensures forall i :: 0 <= i < |ns| ==> lo < ns[i] <= hi && ns[i] in late
    decreases hi - lo
  {
    if lo == hi then [] else (if lo + 1 in late then [lo + 1] else []) + Ascending(lo + 1, hi, late)
  }

  lemma {:induction false} AscendingStep(lo: int, hi: int, late: set<int>)
    requires lo <= hi
    ensures Ascending(lo, hi + 1, late) == Ascending(lo, hi, late) + (if hi + 1 in late then [hi + 1] else [])
    decreases hi - lo
  {
    if lo < hi {
      AscendingStep(lo + 1, hi, late);
    }
  }

  /** Sends again whatever is not receipted and has waited long enough (`late`). */
  function Retransmit(c: Conn, late: set<int>): Out
    requires SndOk(c.snd)
  {
    RetransmitTo(c, c.snd.Sent(), late)
  }

  /** The same for the numbers up to `hi`. */
  function RetransmitTo(c: Conn, hi: int, late: set<int>): Out
    requires c.snd.base <= c.snd.receipt <= hi <= c.snd.Sent()
  {
    var due := Ascending(c.snd.receipt, hi, late);
    if due == [] then Out(c, [])
    else Emit(c, seq(|due|, i requires 0 <= i < |due| => Transmission(c, due[i])))
  }

  /** Only the unreceipted part of `late` matters. */
  lemma {:induction false} AscendingLocal(lo: int, hi: int, late: set<int>, late1: set<int>)
    requires lo <= hi && forall n :: lo < n <= hi ==> (n in late <==> n in late1)
    ensures Ascending(lo, hi, late) == Ascending(lo, hi, late1)
    decreases hi - lo
  {
    if lo < hi { AscendingLocal(lo + 1, hi, late, late1); }
  }

  lemma RetransmitNone(c: Conn, late: set<int>)
    requires SndOk(c.snd)
    ensures RetransmitTo(c, c.snd.receipt, late) == Out(c, [])
  {}

  lemma RetransmitStep(c: Conn, hi: int, late: set<int>)
    requires c.snd.base <= c.snd.receipt <= hi < c.snd.Sent()
    ensures var o := RetransmitTo(c, hi, late);
      RetransmitTo(c, hi + 1, late) ==
        if hi + 1 in late then Chain(o, Emit(o.c, [Transmission(o.c, hi + 1)])) else o
  {
    AscendingStep(c.snd.receipt, hi, late);
  }

  /** Closing forgets what was not receipted but keeps what was received. */
  function SetClosed(c: Conn, kind: CloseKind, text: seq<byte>): Conn {
    c.(phase := Closed, kind := kind, reason := Clip(text),
       snd := c.snd.(receipt := c.snd.Sent(), acked := c.snd.Sent()), ackDue := false)
  }

  function CloseCls(c: Conn, text: seq<byte>, kind: CloseKind): Out {
    var o := Emit(c, [Close(c.rcv.read, text)]);
    Out(SetClosed(o.c, kind, text), o.msgs)
  }

  function MaybeSendEof(c: Conn): Out {
    if c.phase.Open? && c.snd.eofWanted && !c.snd.eofSent && c.snd.Available() > 0 then
      var o := SendControlled(c, Pkt(EOF, []));
      Out(o.c.(snd := o.c.snd.(eofSent := true, eofNum := o.c.snd.Sent())), o.msgs)
    else Out(c, [])
  }

  /** The marks after an acknowledgement through `a` and a receipt through `r`: an
      acknowledgement implies a receipt, and marks only move forward. */
  function MoveMarks(s: Snd, a: int, r: int): Snd {
    s.(receipt := Max(s.receipt, Max(a, r)), acked := Max(s.acked, a))
  }

  /** Numbers never sent are ignored. */
  function ProcessAck(c: Conn, ack: u16, receipt: u16): Out {
    var sent := c.snd.Sent();
    var a, r := Unwrap(sent, ack), Unwrap(sent, receipt);
    if a > sent || r > sent then Out(c, [])
    else
      var s := MoveMarks(c.snd, a, r);
      var c1 := c.(snd := s);
      if s.eofSent && s.acked >= s.eofNum && c.phase.Open? then
        CloseCls(c1, FINISHED, Done)
      else MaybeSendEof(c1)
  }

  const FINISHED: seq<byte> := Ascii("Finished")

  // ---------------------------------------------------------------- The user's side

  function SendRoom(c: Conn): nat {
    if !c.phase.Open? || c.snd.eofWanted || c.snd.Available() <= 0 then 0
    else c.snd.Available() * MAX_DATA
  }

  /** A byte string cut into packets of at most MAX_DATA bytes. */
  function Segments(data: seq<byte>): (ps: seq<Pkt>)
    ensures forall i :: 0 <= i < |ps| ==> ps[i].op == DAT && 0 < |ps[i].data| <= MAX_DATA
    ensures MAX_DATA * (|ps| - 1) < |data| <= MAX_DATA * |ps|  || (data == [] && ps == [])
  {
    if data == [] then []
    else
      var n := Min(|data|, MAX_DATA);
      [Pkt(DAT, data[..n])] + Segments(data[n..])
  }

  /** Queues as much of `data` as the window has room for. */
  function Accepted(c: Conn, data: seq<byte>): nat {
    Min(|data|, SendRoom(c))
  }

  function Send(c: Conn, data: seq<byte>): Out {
    SendUpTo(c, data[..Accepted(c, data)])
  }

  /** Numbers and sends all of `data`, whatever the window. */
  function SendUpTo(c: Conn, data: seq<byte>): Out {
    if data == [] then Out(c, [])
    else
      var c1 := c.(snd := c.snd.(log := c.snd.log + Segments(data)));
      Emit(c1, Transmissions(c1, c.snd.Sent()))
  }

  /** First transmissions of everything numbered above `from`. */
  function Transmissions(c: Conn, from: int): seq<Msg>
    requires c.snd.base <= from <= c.snd.Sent()
  {
    seq(c.snd.Sent() - from, i requires 0 <= i < c.snd.Sent() - from => Transmission(c, from + 1 + i))
  }

  /** One more packet of a write. */
  lemma {:induction false} SegmentsStep(data: seq<byte>, more: seq<byte>)
    requires |data| % MAX_DATA == 0 && 0 < |more| <= MAX_DATA
    ensures Segments(data + more) == Segments(data) + [Pkt(DAT, more)]
    decreases |data|
  {
    if data == [] {
      assert data + more == more && more[..|more|] == more && more[|more|..] == [];
    } else {
      var first, rest := data[..MAX_DATA], data[MAX_DATA..];
      SegmentsStep(rest, more);
      assert (data + more)[..MAX_DATA] == first && (data + more)[MAX_DATA..] == rest + more;
      Cut(data);
      Cut(data + more);
      Shift(Pkt(DAT, first), Segments(rest), Pkt(DAT, more));
    }
  }

  lemma Cut(data: seq<byte>)
    requires MAX_DATA <= |data|
    ensures Segments(data) == [Pkt(DAT, data[..MAX_DATA])] + Segments(data[MAX_DATA..])
  {}

  lemma Shift<T>(x: T, s: seq<T>, y: T)
    ensures [x] + (s + [y]) == ([x] + s) + [y]
  {}

  lemma TransmissionsStep(c: Conn, from: int, p: Pkt)
    requires c.snd.base <= from <= c.snd.Sent()
    ensures var c1 := c.(snd := c.snd.(log := c.snd.log + [p]));
      Transmissions(c1, from) == Transmissions(c, from) + [Transmission(c1, c1.snd.Sent())]
  {
    var c1 := c.(snd := c.snd.(log := c.snd.log + [p]));
    var all, most := Transmissions(c1, from), Transmissions(c, from);
    forall i | 0 <= i < |most| ensures all[i] == most[i] {
      assert all[i] == Transmission(c1, from + 1 + i) && most[i] == Transmission(c, from + 1 + i);
    }
    assert all == most + [Transmission(c1, c1.snd.Sent())];
  }

  lemma SendUpToNothing(c: Conn)
    ensures SendUpTo(c, []) == Out(c, [])
  {}

  lemma SendUpToStep(c: Conn, data: seq<byte>, more: seq<byte>)
    requires |data| % MAX_DATA == 0 && 0 < |more| <= MAX_DATA
    ensures var o := SendUpTo(c, data);
      SendUpTo(c, data + more) == Chain(o, SendControlled(o.c, Pkt(DAT, more)))
  {
    SegmentsStep(data, more);
    var ps, p := Segments(data), Pkt(DAT, more);
    assert c.snd.log + (ps + [p]) == (c.snd.log + ps) + [p];
    var c1 := c.(snd := c.snd.(log := c.snd.log + ps));
    var c2 := c1.(snd := c1.snd.(log := c1.snd.log + [p]));
    TransmissionsStep(c1, c.snd.Sent(), p);
    var o, last := SendUpTo(c, data), [Transmission(c2, c2.snd.Sent())];
    if data == [] {
      assert c.snd.log + [] == c.snd.log;
    }
    assert o.msgs == Transmissions(c1, c.snd.Sent());
    assert o.c.snd == c1.snd;
    SendControlledAs(o.c, c2, p);
    assert SendUpTo(c, data + more) == Emit(c2, o.msgs + last);
    var o1 := SendControlled(o.c, p);
    assert o1.msgs == last && o1.c == Emit(c2, o.msgs + last).c;
    assert Chain(o, o1) == Emit(c2, o.msgs + last);
  }

  /** The marks of the receiving half that a transmission settles do not matter to it. */
  lemma SendControlledAs(c: Conn, c2: Conn, p: Pkt)
    requires c2.snd == c.snd.(log := c.snd.log + [p])
    requires c2 == c.(snd := c2.snd, lastAck := c2.lastAck, ackDue := c2.ackDue)
    ensures SendControlled(c, p) == Emit(c2, [Transmission(c2, c2.snd.Sent())])
  {}

  function Finish(c: Conn): Out {
    if !c.phase.Open? || c.snd.eofWanted then Out(c, [])
    else MaybeSendEof(c.(snd := c.snd.(eofWanted := true)))
  }

  /** Consumes at most `max` bytes in order; stops for good at the peer's EOF. */
  function Consume(r: Rcv, max: nat): (Rcv, seq<byte>)
    requires Readable(r)
    decreases r.received - r.read
  {
    if max == 0 || r.read == r.received || r.eof then (r, [])
    else
      var p := r.q[r.read + 1];
      if p.op == EOF then (Pass(r).(eof := true), [])
      else
        var take := Min(|p.data| - r.offset, max);
        var bytes := p.data[r.offset..r.offset + take];
        if r.offset + take < |p.data| then (r.(offset := r.offset + take), bytes)
        else
          var (r1, rest) := Consume(Pass(r), max - take);
          (r1, bytes + rest)
  }

  /** A read from the next packet alone. */
  function Bite(r: Rcv, max: nat): (Rcv, seq<byte>)
    requires Readable(r) && r.read < r.received && !r.eof
  {
    var p := r.q[r.read + 1];
    if p.op == EOF then (Pass(r).(eof := true), [])
    else
      var take := Min(|p.data| - r.offset, max);
      var bytes := p.data[r.offset..r.offset + take];
      (if r.offset + take < |p.data| then r.(offset := r.offset + take) else Pass(r), bytes)
  }

  function Joined(got: seq<byte>, r: (Rcv, seq<byte>)): (Rcv, seq<byte>) {
    (r.0, got + r.1)
  }

  /** A read goes packet by packet. */
  lemma ConsumeBites(r: Rcv, max: nat)
    requires Readable(r) && r.read < r.received && !r.eof && max > 0
    ensures var (r1, bytes) := Bite(r, max);
      Readable(r1) && |bytes| <= max && Consume(r, max) == Joined(bytes, Consume(r1, max - |bytes|))
  {
    var (r1, bytes) := Bite(r, max);
    assert bytes + [] == bytes;
  }

  /** A read of `max` bytes from r0 that has got this far comes out as if it had not begun. */
  ghost predicate Consuming(r0: Rcv, max: nat, got: seq<byte>, r: Rcv)
    requires Readable(r0)
  {
    Readable(r) && |got| <= max && Consume(r0, max) == Joined(got, Consume(r, max - |got|))
  }

  lemma ConsumingStarts(r0: Rcv, max: nat)
    requires Readable(r0)
    ensures Consuming(r0, max, [], r0)
  {
    assert [] + Consume(r0, max).1 == Consume(r0, max).1;
  }

  lemma ConsumingGoesOn(r0: Rcv, max: nat, got: seq<byte>, r: Rcv)
    requires Readable(r0) && Consuming(r0, max, got, r)
    requires |got| < max && r.read < r.received && !r.eof
    ensures Consuming(r0, max, got + Bite(r, max - |got|).1, Bite(r, max - |got|).0)
  {
    hide Consume; hide Bite; hide Readable; hide Joined;
    ConsumeBites(r, max - |got|);
    var (r1, bytes) := Bite(r, max - |got|);
    JoinedTwice(got, bytes, Consume(r1, max - |got| - |bytes|));
  }

  lemma JoinedTwice(a: seq<byte>, b: seq<byte>, r: (Rcv, seq<byte>))
    ensures Joined(a, Joined(b, r)) == Joined(a + b, r)
  {
    assert a + (b + r.1) == (a + b) + r.1;
  }

  lemma ConsumingEnds(r0: Rcv, max: nat, got: seq<byte>, r: Rcv)
    requires Readable(r0) && Consuming(r0, max, got, r)
    requires |got| == max || r.read == r.received || r.eof
    ensures Consume(r0, max) == (r, got)
  {
    assert got + [] == got;
  }

  lemma BiteOk(r: Rcv, max: nat)
    requires RcvOk(r) && r.read < r.received && !r.eof && max > 0
    ensures RcvOk(Bite(r, max).0) && Bite(r, max).0.received == r.received
    ensures Bite(r, max).0.read >= r.read
  {
    PassOk(r);
  }

  /** Lets go of packet `read + 1`. */
  function Pass(r: Rcv): Rcv {
    r.(read := r.read + 1, q := r.q - {r.read + 1}, offset := 0)
  }

  lemma PassOk(r: Rcv)
    requires RcvOk(r) && r.read < r.received && !r.eof
    ensures r.q[r.read + 1].op != EOF ==> RcvOk(Pass(r))
    ensures r.q[r.read + 1].op == EOF ==> RcvOk(Pass(r).(eof := true))
  {}

  function Recv(c: Conn, max: nat): Out
    requires Ok(c)
  {
    var r := Consume(c.rcv, max).0;
    var c1 := c.(rcv := r);
    if c.phase.Free? then Out(c, [])
    else if r.read == c.rcv.read || !c.phase.Open? then Out(c1, [])
    else if r.read - c.lastAck >= (r.window + 1) / 2 || r.eof then SendStatus(c1)
    else Out(c1.(ackDue := true), [])
  }

  // ---------------------------------------------------------------- Input

  function Advance(q: map<int, Pkt>, received: int, limit: int): (n: int)
    requires forall k :: k in q ==> k <= limit
    ensures received <= n
    decreases limit - received
  {
    if received + 1 !in q then received
    else if q[received + 1].op == EOF then received + 1
    else Advance(q, received + 1, limit)
  }

  function QueueInput(c: Conn, num: u16, p: Pkt): Out
    requires RcvOk(c.rcv)
  {
    var r := c.rcv;
    var n := Unwrap(r.received, num);
    if n <= r.received || n > r.read + r.window || n in r.q then SendStatus(c)
    else
      var c1 := c.(rcv := Enqueue(r, n, p));
      if n > c1.rcv.received then SendStatus(c1) else Out(c1, [])
  }

  const NO_CONNECTION: seq<byte> := Ascii("No such connection")
  const INVALID_STATE: seq<byte> := Ascii("Connection in invalid state")

  predicate Connectionless(op: byte) {
    op == RFC || op == BRD || op == RUT || op == MNT || op == LSN
  }

  predicate IsReply(op: byte) {
    op == ANS || op == CLS || op == FWD || op == LOS
  }

  /** One frame from the peer, after it has been matched to this connection.  `late` says
      which packets were last sent long enough ago to be repeated on an STS.  A frame
      with more data than a packet can hold is malformed and ignored, and the opcodes
      that do not belong to a connection are dealt with before one is looked up. */
  function Input(c: Conn, f: Frame, late: set<int>): Out
    requires Ok(c)
  {
    if |f.data| > MAX_DATA || Connectionless(f.op) then Out(c, []) else
    match c.phase
    case Free => if IsReply(f.op) then Out(c, []) else Out(c, [Lost(NO_CONNECTION)])
    case RfcSent => InputRfcSent(c, f)
    case Open => InputOpen(c, f, late)
    case Closed =>
      if IsReply(f.op) || f.op == STS then Out(c, []) else Out(c, [Lost(INVALID_STATE)])
  }

  function Opened(c: Conn, f: Frame): Conn
    requires |f.data| >= 4
  {
    c.(phase := Open, lastAck := f.num,
       rcv := c.rcv.(read := f.num, received := f.num),
       snd := c.snd.(window := Min(Get16(f.data, 2), MAX_WINDOW)))
  }

  function InputRfcSent(c: Conn, f: Frame): Out {
    if f.op == OPN then
      if |f.data| < 4 then Out(c, [])
      else
        var o := ProcessAck(Opened(c, f), f.ack, Get16(f.data, 0));
        Chain(o, SendStatus(o.c))
    else if f.op == CLS then Out(SetClosed(c, ByCls, f.data), [])
    else if f.op == LOS then Out(SetClosed(c, ByLos, f.data), [])
    else if f.op == ANS then Out(SetClosed(c, ByAns, f.data), [])
    else if f.op == FWD then Out(SetClosed(c, ByLos, ForwardText(f.ack)), [])
    else Out(c, [])
  }

  function InputOpen(c: Conn, f: Frame, late: set<int>): Out
    requires Ok(c) && c.phase.Open? && |f.data| <= MAX_DATA
  {
    if f.op >= DAT || f.op == EOF then InputData(c, f)
    else if f.op == STS then InputSts(c, f, late)
    else if f.op == SNS then InputSns(c, f)
    else if f.op == OPN then SendStatus(c)
    else if f.op == CLS then Out(SetClosed(c, ByCls, f.data), [])
    else if f.op == LOS then Out(SetClosed(c, ByLos, f.data), [])
    else Out(c, [])
  }

  function InputData(c: Conn, f: Frame): Out
    requires Ok(c)
  {
    ProcessAckOk(c, f.ack, f.ack);
    var o := ProcessAck(c, f.ack, f.ack);
    if o.c.phase.Open? then Chain(o, QueueInput(o.c, f.num, Pkt(f.op, f.data))) else o
  }

  function SetWindow(c: Conn, f: Frame): Conn
    requires |f.data| >= 4
  {
    c.(snd := c.snd.(window := Min(Get16(f.data, 2), MAX_WINDOW)))
  }

  function InputSts(c: Conn, f: Frame, late: set<int>): Out
    requires Ok(c)
  {
    if |f.data| < 4 then Out(c, [])
    else
      ProcessAckOk(SetWindow(c, f), f.ack, Get16(f.data, 0));
      var o := ProcessAck(SetWindow(c, f), f.ack, Get16(f.data, 0));
      if o.c.phase.Open? then Chain(o, Retransmit(o.c, late)) else o
  }

  function InputSns(c: Conn, f: Frame): Out {
    var o := ProcessAck(c, f.ack, f.ack);
    if o.c.phase.Open? then Chain(o, SendStatus(o.c)) else o
  }

  // ---------------------------------------------------------------- Timers

  /** What the clock says about a connection at one tick. */
  datatype Clock = Clock(rfcExpired: bool, hostDown: bool, finishExpired: bool,
                         late: set<int>, ackExpired: bool, probe: bool, lonely: bool)

  const NOT_RESPONDING: seq<byte> := Ascii("Host not responding")
  const STOPPED_RESPONDING: seq<byte> := Ascii("Host stopped responding")
  const FINISHED_UNACKED: seq<byte> := Ascii("Finished (EOF not acknowledged)")

  function Tick(c: Conn, t: Clock): Out
    requires Ok(c)
  {
    if c.phase.RfcSent? then
      if t.rfcExpired then Out(SetClosed(c, TimedOut, NOT_RESPONDING), []) else Retransmit(c, t.late)
    else if !c.phase.Open? then Out(c, [])
    else if t.hostDown then Out(SetClosed(c, TimedOut, STOPPED_RESPONDING), [])
    else if c.snd.eofWanted && t.finishExpired then CloseCls(c, FINISHED_UNACKED, Done)
    else
      var o := Retransmit(c, t.late);
      var o1 := if o.c.ackDue && t.ackExpired then Chain(o, SendStatus(o.c)) else o;
      Chain(o1, Probe(o1.c, t))
  }

  /** Asks the peer for its status while something is unacknowledged, its window is shut
      or it has long been silent. */
  function Probe(c: Conn, t: Clock): Out {
    if t.probe && (c.snd.acked != c.snd.Sent() || c.snd.window == 0 || t.lonely)
    then Emit(c, [Sense(c.rcv.read)]) else Out(c, [])
  }

  /** The user lets go of the connection. */
  function Release(c: Conn, text: seq<byte>): Out {
    var o := if c.phase.Open? then Emit(c, [Close(c.rcv.read, text)]) else Out(c, []);
    Out(o.c.(phase := Free), o.msgs)
  }

  /** The client's first state: a connection whose RFC has just been sent. */
  function Opening(first: u16, window: u16, contact: seq<byte>): Out {
    SendControlled(Conn(RfcSent, NotClosed, [],
                        Snd(first - 1, [], first - 1, first - 1, 1, false, false, 0),
                        Rcv(0, 0, window, map[], 0, false), 0, false),
                   Pkt(RFC, contact))
  }

  // ---------------------------------------------------------------- Every step keeps Ok

  lemma SendControlledOk(c: Conn, p: Pkt)
    requires SndOk(c.snd) && PktOk(p) && !c.snd.eofSent && p.op != EOF && c.snd.Available() > 0
    ensures SndOk(SendControlled(c, p).c.snd)
  {}

  lemma MaybeSendEofOk(c: Conn)
    requires Ok(c)
    ensures Ok(MaybeSendEof(c).c)
  {}

  lemma SetClosedOk(c: Conn, kind: CloseKind, text: seq<byte>)
    requires Ok(c)
    ensures Ok(SetClosed(c, kind, text))
  {}

  lemma ProcessAckOk(c: Conn, ack: u16, receipt: u16)
    requires Ok(c)
    ensures Ok(ProcessAck(c, ack, receipt).c)
    ensures ProcessAck(c, ack, receipt).c.rcv == c.rcv
  {
    var sent := c.snd.Sent();
    var a, r := Unwrap(sent, ack), Unwrap(sent, receipt);
    if a <= sent && r <= sent {
      var c1 := c.(snd := MoveMarks(c.snd, a, r));
      assert Ok(c1);
      MaybeSendEofOk(c1);
    }
  }

  lemma SetWindowOk(c: Conn, f: Frame)
    requires Ok(c) && |f.data| >= 4
    ensures Ok(SetWindow(c, f))
  {}

  lemma ReceiptMovesOn(c: Conn, ack: u16, receipt: u16)
    requires SndOk(c.snd)
    ensures ProcessAck(c, ack, receipt).c.snd.receipt >= c.snd.receipt
  {}

  lemma SendOk(c: Conn, data: seq<byte>)
    requires Ok(c)
    ensures Ok(Send(c, data).c)
  {
    var taken := data[..Accepted(c, data)];
    if taken != [] {
      var ps := Segments(taken);
      assert MAX_DATA * (|ps| - 1) < |taken| <= MAX_DATA * c.snd.Available();
      var s := c.snd.(log := c.snd.log + ps);
      assert Send(c, data).c.snd == s;
      forall i | 0 <= i < |s.log| ensures PktOk(s.log[i]) && s.log[i].op != EOF {
        if i < |c.snd.log| { assert s.log[i] == c.snd.log[i]; } else { assert s.log[i] == ps[i - |c.snd.log|]; }
      }
    }
  }

  lemma FinishOk(c: Conn)
    requires Ok(c)
    ensures Ok(Finish(c).c)
  {
    if c.phase.Open? && !c.snd.eofWanted {
      MaybeSendEofOk(c.(snd := c.snd.(eofWanted := true)));
    }
  }

  lemma {:induction false} ConsumeOk(r: Rcv, max: nat)
    requires RcvOk(r)
    ensures RcvOk(Consume(r, max).0)
    decreases r.received - r.read
  {
    if max == 0 || r.read == r.received || r.eof {
    } else {
      PassOk(r);
      var p := r.q[r.read + 1];
      var take := Min(|p.data| - r.offset, max);
      if p.op != EOF && r.offset + take == |p.data| {
        ConsumeOk(Pass(r), max - take);
      }
    }
  }

  lemma RecvOk(c: Conn, max: nat)
    requires Ok(c)
    ensures Ok(Recv(c, max).c)
  {
    ConsumeOk(c.rcv, max);
    ConsumeFrame(c.rcv, max);
  }

  lemma {:induction false} ConsumeFrame(r: Rcv, max: nat)
    requires RcvOk(r)
    ensures var r1 := Consume(r, max).0;
      && r.read <= r1.read <= r1.received == r.received && r1.window == r.window
      && (r.eof ==> r1 == r)
    decreases r.received - r.read
  {
    if max > 0 && r.read < r.received && !r.eof {
      PassOk(r);
      var p := r.q[r.read + 1];
      var take := Min(|p.data| - r.offset, max);
      if p.op != EOF && r.offset + take == |p.data| {
        ConsumeFrame(Pass(r), max - take);
      }
    }
  }

  lemma {:induction false} AdvanceRuns(q: map<int, Pkt>, received: int, limit: int)
    requires forall k :: k in q ==> k <= limit
    ensures var n := Advance(q, received, limit);
      && (forall k :: received < k <= n ==> k in q)
      && (forall k :: received < k < n ==> q[k].op != EOF)
      && (n + 1 !in q || (n > received && q[n].op == EOF))
    decreases limit - received
  {
    if received + 1 in q && q[received + 1].op != EOF {
      AdvanceRuns(q, received + 1, limit);
    }
  }

  /** The receiving half after packet `n` has been put into it. */
  function Enqueue(r: Rcv, n: int, p: Pkt): Rcv
    requires RcvOk(r) && r.read < n <= r.read + r.window
  {
    var q := r.q[n := p];
    r.(q := q, received := Advance(q, r.received, r.read + r.window))
  }

  lemma EnqueueOk(r: Rcv, n: int, p: Pkt)
    requires RcvOk(r) && IsInput(p) && r.received < n <= r.read + r.window
    ensures RcvOk(Enqueue(r, n, p))
  {
    AdvanceRuns(r.q[n := p], r.received, r.read + r.window);
  }

  lemma QueueInputOk(c: Conn, num: u16, p: Pkt)
    requires Ok(c) && c.phase.Open? && IsInput(p)
    ensures Ok(QueueInput(c, num, p).c)
  {
    var n := Unwrap(c.rcv.received, num);
    if c.rcv.received < n <= c.rcv.read + c.rcv.window && n !in c.rcv.q {
      EnqueueOk(c.rcv, n, p);
    }
  }

  lemma InputOk(c: Conn, f: Frame, late: set<int>)
    requires Ok(c)
    ensures Ok(Input(c, f, late).c)
  {
    if |f.data| <= MAX_DATA && !Connectionless(f.op) {
      if c.phase.RfcSent? {
        InputRfcSentOk(c, f);
      } else if c.phase.Open? {
        InputOpenOk(c, f, late);
      }
    }
  }

  lemma OpenedOk(c: Conn, f: Frame)
    requires Ok(c) && c.phase.RfcSent? && |f.data| >= 4
    ensures Ok(Opened(c, f))
  {}

  lemma InputRfcSentOk(c: Conn, f: Frame)
    requires Ok(c) && c.phase.RfcSent?
    ensures Ok(InputRfcSent(c, f).c)
  {
    if f.op == OPN && |f.data| >= 4 {
      OpenedOk(c, f);
      ProcessAckOk(Opened(c, f), f.ack, Get16(f.data, 0));
    }
  }

  lemma InputOpenOk(c: Conn, f: Frame, late: set<int>)
    requires Ok(c) && c.phase.Open? && |f.data| <= MAX_DATA
    ensures Ok(InputOpen(c, f, late).c)
  {
    if f.op >= DAT || f.op == EOF {
      InputDataOk(c, f);
    } else if f.op == STS {
      InputStsOk(c, f, late);
    } else if f.op == SNS {
      InputSnsOk(c, f);
    } else if f.op == OPN {
      SendStatusOk(c);
    } else {
      SetClosedOk(c, if f.op == CLS then ByCls else ByLos, f.data);
    }
  }

  lemma InputDataOk(c: Conn, f: Frame)
    requires Ok(c) && |f.data| <= MAX_DATA && (f.op >= DAT || f.op == EOF)
    ensures Ok(InputData(c, f).c)
  {
    ProcessAckOk(c, f.ack, f.ack);
    var o := ProcessAck(c, f.ack, f.ack);
    if o.c.phase.Open? { QueueInputOk(o.c, f.num, Pkt(f.op, f.data)); }
  }

  lemma InputStsOk(c: Conn, f: Frame, late: set<int>)
    requires Ok(c)
    ensures Ok(InputSts(c, f, late).c)
  {
    if |f.data| >= 4 {
      ProcessAckOk(SetWindow(c, f), f.ack, Get16(f.data, 0));
      RetransmitOk(ProcessAck(SetWindow(c, f), f.ack, Get16(f.data, 0)).c, late);
    }
  }

  lemma InputSnsOk(c: Conn, f: Frame)
    requires Ok(c)
    ensures Ok(InputSns(c, f).c)
  {
    ProcessAckOk(c, f.ack, f.ack);
    SendStatusOk(ProcessAck(c, f.ack, f.ack).c);
  }

  lemma SendStatusOk(c: Conn)
    requires Ok(c)
    ensures Ok(SendStatus(c).c)
  {}

  lemma RetransmitOk(c: Conn, late: set<int>)
    requires Ok(c)
    ensures Ok(Retransmit(c, late).c)
  {}

  lemma TickOk(c: Conn, t: Clock)
    requires Ok(c)
    ensures Ok(Tick(c, t).c)
  {
    var o := Retransmit(c, t.late);
    var o1 := if o.c.ackDue && t.ackExpired then Chain(o, SendStatus(o.c)) else o;
    RetransmitOk(c, t.late);
    SendStatusOk(o.c);
    ProbeOk(o1.c, t);
    GivenUpOk(c, t);
    hide Ok; hide Probe; hide SetClosed; hide CloseCls; hide Retransmit;
  }

  lemma ProbeOk(c: Conn, t: Clock)
    requires Ok(c)
    ensures Ok(Probe(c, t).c)
  {
    hide SndOk; hide RcvOk;
  }

  /** The three ways in which a tick gives up. */
  lemma GivenUpOk(c: Conn, t: Clock)
    requires Ok(c)
    ensures c.phase.RfcSent? ==> Ok(SetClosed(c, TimedOut, NOT_RESPONDING))
    ensures c.phase.Open? ==> Ok(SetClosed(c, TimedOut, STOPPED_RESPONDING))
    ensures c.phase.Open? ==> Ok(CloseCls(c, FINISHED_UNACKED, Done).c)
  {}

  lemma OpeningOk(first: u16, window: u16, contact: seq<byte>)
    requires 1 <= window <= RING && |contact| <= MAX_DATA
    ensures Ok(Opening(first, window, contact).c)
  {}
}
