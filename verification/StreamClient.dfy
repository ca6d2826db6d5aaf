/** One client of the stream socket: a request line, then a bridge between two byte streams.

    The ghost fields remember the whole conversation: `intake` what the bytes read from the
    client amount to, `due` everything ever put into the output buffer, and `told` what the
    socket has taken of it.
  */
module StreamClients {
  import opened PacketNumbers
  import opened Packets
  import opened Connection
  import opened Streams
  import opened Rings
  import opened ChaosConnection
  import opened Network
  import opened Integrity
  import opened Endpoints
  import opened RequestLines

  const OUTBUF := 8192
  const INBUF := 4096
  const LINE_READ := 256

  datatype ClientState = Gone | AtLine | WaitOpn | Streaming | Draining

  /** What one read of the socket comes to, and one write. */
  datatype ReadResult = Got(chunk: seq<byte>) | NotYet | Hangup | ReadFailed
  datatype WriteResult = Put(n: nat) | Full | WriteFailed

  /** How many bytes a socket takes, as far as it goes, and whether it then breaks. */
  function Offered(writes: seq<WriteResult>): nat {
    if writes == [] || !writes[0].Put? then 0 else writes[0].n + Offered(writes[1..])
  }

  predicate Breaks(writes: seq<WriteResult>) {
    writes != [] && (if writes[0].Put? then Breaks(writes[1..]) else writes[0].WriteFailed?)
  }

  predicate SocketFails(writes: seq<WriteResult>) { exists i :: 0 <= i < |writes| && writes[i] == WriteFailed }

  /** What the daemon knows when a request arrives, and what chaos_open would find. */
  datatype Daemon = Daemon(hosts: seq<HostEntry>, myAddr: u16, first: u16, window: u16, tableFull: bool)

  const ONLY_RFC: seq<byte> := Ascii("Only RFC <host> <contact> [args] is supported")
  const USAGE: seq<byte> := Ascii("Usage: RFC <host> <contact> [args]")
  const OWN_ADDRESS: seq<byte> := Ascii("That is chaosd's own address")
  const NO_ROOM: seq<byte> := Ascii("Too many connections, or contact too long")
  const LINE_TOO_LONG: seq<byte> := Ascii("Request line too long")
  const VANISHED: seq<byte> := Ascii("Connection vanished")

  const ABORTED: seq<byte> := Ascii("Connection aborted by user")
  const CLOSED_BY_USER: seq<byte> := Ascii("Connection closed by user")
  const CLOSED: seq<byte> := Ascii("Connection closed")
  const REQUEST_FAILED: seq<byte> := Ascii("Request failed")

  datatype Verdict = Refuse(text: seq<byte>) | Connect(addr: u16, contact: seq<byte>)

  /** What becomes of a request line. */
  function Judge(d: Daemon, request: seq<byte>): Verdict {
    match Parse(request)
    case NotRfc => Refuse(ONLY_RFC)
    case Incomplete => Refuse(USAGE)
    case Rfc(host, contact) =>
      match Resolve(d.hosts, host)
      case Unknown =>
        var text := Ascii("Unknown host ") + host;
        Refuse(if |text| <= 127 then text else text[..127])
      case Host(addr) =>
        if addr == d.myAddr then Refuse(OWN_ADDRESS)
        else if |contact| > MAX_DATA || d.tableFull then Refuse(NO_ROOM)
        else Connect(addr, contact)
  }

  /** The stream read from the client is what the connection took and what is held. */
  ghost predicate Bridged(e: Endpoint?, k: Intake, skipLf: bool, held: seq<byte>)
    reads e
  {
    e != null && k.Passing? && k.skipLf == skipLf && k.stream == e.side.wrote + held
  }

  /** How a connection that never opened is reported. */
  function Reported(kind: CloseKind, reason: seq<byte>): seq<byte> {
    match kind
    case ByCls => StatusLine(CLS_VERB, reason)
    case ByAns => AnsLine(|reason|) + reason
    case TimedOut => StatusLine(LOS_VERB, Ascii("Timed out: ") + reason)
    case _ => StatusLine(LOS_VERB, reason)
  }

  function Report(c: Conn): seq<byte> { Reported(c.kind, c.reason) }

  /** The client is told by which kind of packet its request failed and with what reason, made printable
      or, for an answer, as it came behind its length. */
  lemma ReportSays(c: Conn)
    ensures c.kind.ByAns? ==> AnswerShown(Report(c), c.reason)
    ensures c.kind.ByCls? ==> LineShown(Report(c), Ascii("CLS"), c.reason)
    ensures c.kind.TimedOut? ==> LineShown(Report(c), Ascii("LOS"), Ascii("Timed out: ") + c.reason)
    ensures !c.kind.ByAns? && !c.kind.ByCls? && !c.kind.TimedOut? ==> LineShown(Report(c), Ascii("LOS"), c.reason)
  {
    Verbs();
    hide StatusLine; hide LineShown; hide AnswerShown; hide Ascii;
    match c.kind
    case ByAns => AnswerIsShown(c.reason);
    case ByCls => LineIsShown(CLS_VERB, c.reason);
    case TimedOut => LineIsShown(LOS_VERB, Ascii("Timed out: ") + c.reason);
    case _ => LineIsShown(LOS_VERB, c.reason);
  }

  lemma Verbs()
    ensures Ascii("CLS") == CLS_VERB && Ascii("LOS") == LOS_VERB
  {}

  /** A verb, a space and the text, each byte as a line can show it and blanks at the end left out. */
  ghost predicate LineShown(line: seq<byte>, verb: seq<byte>, text: seq<byte>) {
    && |line| >= 5 && line[..3] == verb && line[|line| - 2..] == [13, 10]
    && forall i :: 0 <= i < |text| && i < 513 ==>
         if 4 + i < |line| - 2 then line[4 + i] == Shown(text[i]) else Shown(text[i]) == 0x20
  }

  ghost predicate AnswerShown(line: seq<byte>, text: seq<byte>) {
    exists digits :: line == Ascii("ANS ") + digits + [13, 10] + text && DecimalValue(digits) == |text|
  }

  lemma LineIsShown(verb: seq<byte>, text: seq<byte>)
    requires |verb| == 3 && verb[2] > 0x20
    ensures LineShown(StatusLine(verb, text), verb, text)
  {
    StatusShowsText(verb, text);
    EndsInCrLf(verb, text);
    hide StatusLine;
  }

  lemma AnswerIsShown(text: seq<byte>)
    ensures AnswerShown(AnsLine(|text|) + text, text)
  {
    DecimalReadsBack(|text|);
    hide DecimalValue; hide Decimal;
    assert AnsLine(|text|) + text == Ascii("ANS ") + Decimal(|text|) + [13, 10] + text;
  }

  lemma OpnLineIsShort(addr: u16)
    ensures |OpnLine(addr)| < 64
  {
    OctalIsShort(addr);
  }

  lemma EndsInCrLf(verb: seq<byte>, text: seq<byte>)
    requires |verb| == 3
    ensures var l := StatusLine(verb, text); |l| >= 2 && l[|l| - 2..] == [13, 10]
  {}

  /** A request opens a connection exactly when it names a host that is known and is not this one, a
      contact that fits a packet, and there is room. */
  lemma ConnectsWhenItCan(d: Daemon, request: seq<byte>, a: u16, contact: seq<byte>)
    ensures Judge(d, request) == Connect(a, contact) <==>
      && a != d.myAddr && |contact| <= 488 && !d.tableFull
      && exists host :: Parse(request) == Rfc(host, contact) && Resolve(d.hosts, host) == Host(a)
  {
    hide Parse; hide Resolve;
    if Judge(d, request) == Connect(a, contact) {
      var host := Parse(request).host;
      assert Parse(request) == Rfc(host, contact);
    }
  }

  lemma ReportFits(c: Conn)
    requires |c.reason| <= MAX_DATA
    ensures |Report(c)| <= 1024
  {
    StatusFits(CLS_VERB, c.reason);
    StatusFits(LOS_VERB, c.reason);
    StatusFits(LOS_VERB, Ascii("Timed out: ") + c.reason);
    DecimalIsShort(|c.reason|);
  }

  lemma MovesOver(wrote: seq<byte>, held: seq<byte>, n: nat)
    requires n <= |held|
    ensures (wrote + held[..n]) + held[n..] == wrote + held
  {}

  lemma NoRoomTakesNone(r: Rcv)
    requires Readable(r)
    ensures PassedOut(r, r, OUTBUF, [])
  {}

  /** Of what was pending the socket has been given the first bytes, as many as it takes or all there
      were; it is alive unless it broke before all was written. */
  ghost predicate Flushed(told0: seq<byte>, pending0: seq<byte>, writes: seq<WriteResult>,
                          told: seq<byte>, pending: seq<byte>, alive: bool)
  {
    var n := Min(|pending0|, Offered(writes));
    && told == told0 + pending0[..n] && pending == pending0[n..]
    && (alive <==> !(Breaks(writes) && Offered(writes) < |pending0|))
  }

  /** The same on the way, with `rest` of the writes still to come. */
  ghost predicate Flushing(told0: seq<byte>, pending0: seq<byte>, writes: seq<WriteResult>,
                           told: seq<byte>, pending: seq<byte>, rest: seq<WriteResult>)
  {
    && |pending| <= |pending0|
    && var n := |pending0| - |pending|;
    && told == told0 + pending0[..n] && pending == pending0[n..]
    && (Breaks(writes) <==> Breaks(rest))
    && Min(|pending0|, Offered(writes)) == n + Min(|pending|, Offered(rest))
    && (Offered(writes) < |pending0| <==> Offered(rest) < |pending|)
  }

  lemma BeginsToFlush(told0: seq<byte>, pending0: seq<byte>, writes: seq<WriteResult>)
    ensures Flushing(told0, pending0, writes, told0, pending0, writes[0..])
  {
    assert writes[0..] == writes && told0 + pending0[..0] == told0;
  }
  lemma FlushesMore(told0: seq<byte>, pending0: seq<byte>, writes: seq<WriteResult>,
                    told: seq<byte>, pending: seq<byte>, rest: seq<WriteResult>)
    requires Flushing(told0, pending0, writes, told, pending, rest) && rest != [] && rest[0].Put?
    ensures var n := Min(rest[0].n, |pending|);
      Flushing(told0, pending0, writes, told + pending[..n], pending[n..], rest[1..])
  {
    var n, m := |pending0| - |pending|, Min(rest[0].n, |pending|);
    assert pending0[..n + m] == pending0[..n] + pending[..m];
    assert told0 + (pending0[..n] + pending[..m]) == told + pending[..m];
    assert pending[m..] == pending0[n + m..];
  }

  lemma StopsFlushing(told0: seq<byte>, pending0: seq<byte>, writes: seq<WriteResult>,
                      told: seq<byte>, pending: seq<byte>, rest: seq<WriteResult>, alive: bool)
    requires Flushing(told0, pending0, writes, told, pending, rest)
    requires pending == [] || rest == [] || !rest[0].Put?
    requires alive == (pending == [] || rest == [] || !rest[0].WriteFailed?)
    ensures Flushed(told0, pending0, writes, told, pending, alive) && TookOffer(told0, pending0, writes, told)
  {}

  /** The bytes that a turn takes from a connection when `pending` bytes are still to be written: those in
      order, as far as the output buffer has room. */
  ghost function NextBytes(r: Rcv, pending: nat): seq<byte>
    requires Readable(r) && pending <= OUTBUF
  {
    InOrder(r)[..Min(OUTBUF - pending, |InOrder(r)|)]
  }

  /** Exactly those bytes have been taken. */
  ghost predicate PassedOut(r: Rcv, r1: Rcv, pending: nat, bytes: seq<byte>) {
    && Readable(r) && Readable(r1) && pending <= OUTBUF
    && bytes == NextBytes(r, pending) && InOrder(r1) == InOrder(r)[|bytes|..]
  }

  lemma TookNext(r: Rcv, r1: Rcv, pending: nat, buf: seq<byte>)
    requires pending <= OUTBUF && TookPrefix(r, r1, OUTBUF - pending, buf)
    ensures PassedOut(r, r1, pending, buf)
  {}

  /** What one turn of the bridge does between a client and its connection: the connection
      accepts what it has room for of the bytes held; the bytes in order, as many as fit, are put behind
      those pending; and of all these the client gets as many as its socket takes. */
  ghost predicate Turned(s0: Midway, x: Side, told: seq<byte>, writes: seq<WriteResult>) {
    && Readable(s0.x.c.rcv) && |s0.pending| <= OUTBUF
    && var bytes := NextBytes(s0.x.c.rcv, |s0.pending|);
    && x.wrote == s0.x.wrote + s0.held[..Accepted(s0.x.c, s0.held)] && x.got == s0.x.got + bytes
    && TookOffer(s0.told, s0.pending + bytes, writes, told)
  }

  /** The bytes on their way through a bridge: its connection, what is held for it, what is pending for
      the client and what the client has been told. */
  datatype Midway = Midway(x: Side, held: seq<byte>, pending: seq<byte>, told: seq<byte>)

  /** The socket has taken what it offered to take of the bytes. */
  ghost predicate TookOffer(told0: seq<byte>, bytes: seq<byte>, writes: seq<WriteResult>, told: seq<byte>) {
    told == told0 + bytes[..Min(|bytes|, Offered(writes))]
  }

  /** A client whose socket takes all it is given has been told, after one turn, all that was pending
      and all that was in order, as far as the output buffer has room. */
  lemma WillingSocketIsTold(s0: Midway, x: Side, told: seq<byte>, writes: seq<WriteResult>)
    requires Turned(s0, x, told, writes) && Offered(writes) >= OUTBUF
    ensures var inOrder := InOrder(s0.x.c.rcv);
      told == s0.told + s0.pending +
        if |s0.pending| + |inOrder| <= OUTBUF then inOrder else inOrder[..OUTBUF - |s0.pending|]
  {
    hide InOrder; hide Readable; hide Offered; hide Accepted;
    var r, pending := s0.x.c.rcv, s0.pending;
    var inOrder, bytes := InOrder(r), NextBytes(r, |pending|);
    assert bytes == if |pending| + |inOrder| <= OUTBUF then inOrder else inOrder[..OUTBUF - |pending|];
    assert (pending + bytes)[..|pending + bytes|] == pending + bytes;
    Regroup(s0.told, pending, bytes);
  }

  lemma TurnIs(s0: Midway, r1: Rcv, bytes: seq<byte>, x: Side, told: seq<byte>, writes: seq<WriteResult>)
    requires PassedOut(s0.x.c.rcv, r1, |s0.pending|, bytes) && TookOffer(s0.told, s0.pending + bytes, writes, told)
    requires x.wrote == s0.x.wrote + s0.held[..Accepted(s0.x.c, s0.held)] && x.got == s0.x.got + bytes
    ensures Turned(s0, x, told, writes)
  {}

  class StreamClient {
    var state: ClientState
    var ep: Endpoint?
    var addr: u16
    const line: array<byte>
    var lineLen: nat
    const inq: array<byte>
    var inLen: nat
    const out: array<byte>
    var outOff: nat
    var outLen: nat
    var sockEof: bool
    var finished: bool
    var wrShut: bool
    var skipLf: bool

    ghost var intake: Intake
    ghost var due: seq<byte>
    ghost var told: seq<byte>

    // -------------------------------------------------------------- State

    ghost predicate Buffers()
      reads this
    {
      && line != inq && inq != out && out != line
      && line.Length == LINE_MAX && inq.Length == INBUF && out.Length == OUTBUF
      && lineLen < LINE_MAX && inLen <= INBUF && outOff <= outLen <= OUTBUF
    }

    /** Read from the client and not yet sent. */
    ghost function Held(): seq<byte>
      reads this, inq
      requires inLen <= inq.Length
    {
      inq[..inLen]
    }

    /** Put into the output buffer and not yet written. */
    ghost function Pending(): seq<byte>
      reads this, out
      requires outOff <= outLen <= out.Length
    {
      out[outOff..outLen]
    }

    ghost function Now(): Midway
      reads this, ep, inq, out
      requires Buffers() && ep != null
    {
      Midway(ep.side, Held(), Pending(), told)
    }

    ghost function Link(): set<object>
      reads this
    {
      if ep == null then {} else {ep, ep.conn, ep.conn.sendq, ep.conn.rcvq}
    }

    ghost function Objects(): set<object>
      reads this
    {
      {this, line, inq, out} + Link()
    }

    ghost predicate Apart()
      reads this
    {
      this !in Link() && line !in Link() && inq !in Link() && out !in Link()
    }

    ghost predicate Phase()
      reads this, Objects()
      requires Buffers()
    {
      match state
      case Gone => ep == null
      case AtLine =>
        && ep == null && intake == Reading(line[..lineLen]) && inLen == 0 && due == []
        && !sockEof && !finished && !skipLf
      case WaitOpn =>
        && Bridged(ep, intake, skipLf, Held()) && ep.side.wrote == [] && ep.side.got == [] && due == []
        && !sockEof && !finished
      case Streaming =>
        && Bridged(ep, intake, skipLf, Held()) && due == OpnLine(addr) + ep.side.got
        && (finished ==> sockEof && inLen == 0)
      case Draining => true
    }

    ghost predicate Valid()
      reads this, Objects()
    {
      && Buffers() && Apart() && (ep == null || ep.Valid()) && told <= due
      && (state != Gone ==> due == told + Pending())
      && Phase()
    }

    constructor ()
      ensures Valid() && state == AtLine && intake == Reading([]) && due == [] && told == []
      ensures fresh(line) && fresh(inq) && fresh(out)
    {
      state, ep, addr := AtLine, null, 0;
      line, inq, out := new byte[LINE_MAX](_ => 0), new byte[INBUF](_ => 0), new byte[OUTBUF](_ => 0);
      lineLen, inLen, outOff, outLen := 0, 0, 0, 0;
      sockEof, finished, wrShut, skipLf := false, false, false, false;
      intake, due, told := Reading([]), [], [];
    }

    // -------------------------------------------------------------- Buffers

    /** Moves what is pending to the front. */
    method OutCompact()
      requires Buffers()
      modifies this`outOff, this`outLen, out
      ensures Buffers() && outOff == 0 && Pending() == old(Pending())
    {
      if outOff > 0 {
        forall i | 0 <= i < outLen - outOff {
          out[i] := out[outOff + i];
        }
        outLen, outOff := outLen - outOff, 0;
      }
    }

    /** Appends as much of the data as there is room for. */
    method OutAppend(data: seq<byte>)
      requires Buffers()
      modifies this`outOff, this`outLen, out
      ensures Buffers()
      ensures Pending() == old(Pending()) + data[..Min(|data|, OUTBUF - |old(Pending())|)]
    {
      OutCompact();
      var n := |data|;
      if n > OUTBUF - outLen { n := OUTBUF - outLen; }
      PutBehind(data[..n]);
    }

    /** Puts bytes behind those pending; there is room for them. */
    method PutBehind(data: seq<byte>)
      requires Buffers() && outLen + |data| <= OUTBUF
      modifies this`outLen, out
      ensures Buffers() && Pending() == old(Pending()) + data
    {
      forall i | 0 <= i < |data| {
        out[outLen + i] := data[i];
      }
      outLen := outLen + |data|;
    }

    /** Puts bytes behind those held; there is room for them. */
    method InPut(data: seq<byte>)
      requires Buffers() && inLen + |data| <= INBUF
      modifies this`inLen, inq
      ensures Buffers() && Held() == old(Held()) + data
    {
      forall i | 0 <= i < |data| {
        inq[inLen + i] := data[i];
      }
      inLen := inLen + |data|;
    }

    /** Drops the first n bytes held. */
    method InDrop(n: nat)
      requires Buffers() && n <= inLen
      modifies this`inLen, inq
      ensures Buffers() && Held() == old(Held())[n..]
    {
      forall i | 0 <= i < inLen - n {
        inq[i] := inq[n + i];
      }
      inLen := inLen - n;
    }

    // -------------------------------------------------------------- Closing

    /** Releases the connection and forgets the client. */
    method ClientClose(reason: seq<byte>)
      requires Buffers() && Apart() && (ep == null || ep.Valid())
      modifies this`state, this`ep, this`lineLen, this`inLen, this`outOff, this`outLen, this`addr,
        this`sockEof, this`finished, this`wrShut, this`skipLf, Link()
      ensures Buffers() && Apart() && state == Gone && ep == null && !wrShut
      ensures old(ep) != null ==>
                old(ep).Valid() && old(ep).side == Do(old(ep.side), LetGo(reason)) &&
                old(ep).StreamsKept() && old(ep).side.c.rcv == old(ep.side.c.rcv)
    {
      hide Do; hide Endpoint.Valid;
      if ep != null {
        ep.Release(reason);
      }
      Reset();
    }

    /** The same for a client that is served. */
    method Leave(reason: seq<byte>)
      requires Valid()
      modifies this`state, this`ep, this`lineLen, this`inLen, this`outOff, this`outLen, this`addr,
        this`sockEof, this`finished, this`wrShut, this`skipLf, Link()
      ensures Valid() && state == Gone && !wrShut
      ensures old(ep) != null ==> old(ep).StreamsKept() && old(ep).side.c.rcv == old(ep.side.c.rcv)
    {
      hide Do; hide Endpoint.Valid; hide OpnLine; hide Bridged;
      ClientClose(reason);
    }

    method Reset()
      requires Buffers()
      modifies this`state, this`ep, this`lineLen, this`inLen, this`outOff, this`outLen, this`addr,
        this`sockEof, this`finished, this`wrShut, this`skipLf
      ensures Buffers() && Apart() && state == Gone && ep == null && !wrShut
    {
      lineLen, inLen, outOff, outLen, addr := 0, 0, 0, 0, 0;
      sockEof, finished, wrShut, skipLf := false, false, false, false;
      state, ep := Gone, null;
    }

    /** Adds a line to what is due; the whole of it fits. */
    method Say(text: seq<byte>)
      requires Buffers() && |Pending()| + |text| <= OUTBUF && told <= due
      modifies this`outOff, this`outLen, this`due, out
      ensures Buffers() && told <= due && due == old(due) + text && Pending() == old(Pending()) + text
    {
      OutAppend(text);
      assert text[..|text|] == text;
      due := due + text;
    }

    /** Nothing is pending. */
    ghost predicate Quiet()
      reads this, Objects()
    {
      Buffers() && Apart() && (ep == null || ep.Valid()) && due == told && Pending() == []
    }

    /** Tells the client why its request failed. */
    method FailClient(verb: seq<byte>, text: seq<byte>)
      requires Quiet() && |verb| == 3
      modifies this`outOff, this`outLen, this`state, this`due, out
      ensures Valid() && state == Draining && due == old(due) + StatusLine(verb, text)
    {
      hide StatusLine; hide Bridged; hide Endpoint.Valid; hide OpnLine;
      StatusFits(verb, text);
      Say(StatusLine(verb, text));
      state := Draining;
    }

    // -------------------------------------------------------------- The request line

    /** The line has just ended, and what came behind it is held. */
    ghost predicate LineDone()
      reads this, Objects()
    {
      && Buffers() && state == AtLine && ep == null && due == [] && told == [] && Pending() == []
      && !sockEof && !finished
      && intake == Passing(line[..lineLen], Held(), skipLf)
    }

    method HandleRequest(d: Daemon, now: Millis)
      requires LineDone() && 1 <= d.window <= RING
      modifies this`state, this`ep, this`addr, this`outOff, this`outLen, this`due, out
      ensures Valid() && (ep != null ==> fresh(ep) && fresh(Link()))
      ensures match Judge(d, intake.request)
              case Refuse(text) => state == Draining && due == StatusLine(LOS_VERB, text)
              case Connect(a, contact) =>
                state == WaitOpn && addr == a && ep.side.c == Opening(d.first, d.window, contact).c
    {
      hide StatusLine; hide Parse; hide Resolve; hide OpnLine; hide Endpoint.Valid; hide Opening; hide ChaosConn.Valid;
      var r := ReadRequest(line[..lineLen]);
      if r.NotRfc? { FailClient(LOS_VERB, ONLY_RFC); return; }
      if r.Incomplete? { FailClient(LOS_VERB, USAGE); return; }
      var found := Resolve(d.hosts, r.host);
      if found.Unknown? {
        var text := Ascii("Unknown host ") + r.host;
        FailClient(LOS_VERB, if |text| <= 127 then text else text[..127]);
        return;
      }
      if found.addr == d.myAddr { FailClient(LOS_VERB, OWN_ADDRESS); return; }
      if |r.contact| > MAX_DATA || d.tableFull { FailClient(LOS_VERB, NO_ROOM); return; }
      SendRfc(found.addr, r.contact, d, now);
    }

    /** Opens the connection that the request asks for. */
    method SendRfc(a: u16, contact: seq<byte>, d: Daemon, now: Millis)
      requires LineDone() && 1 <= d.window <= RING && |contact| <= MAX_DATA
      modifies this`state, this`ep, this`addr
      ensures Valid() && ep != null && fresh(ep) && fresh(Link())
      ensures state == WaitOpn && addr == a && ep.side.c == Opening(d.first, d.window, contact).c
    {
      hide OpnLine; hide Opening; hide ChaosConn.Valid; hide Endpoint.Valid;
      var conn := new ChaosConn(d.first, d.window, contact, now);
      var e := new Endpoint(conn);
      addr, ep, state := a, e, WaitOpn;
    }

    /** Takes bytes read while the request line is not complete. */
    method LineInput(buf: seq<byte>, d: Daemon, now: Millis)
      requires Valid() && state == AtLine && |buf| <= LINE_READ && 1 <= d.window <= RING
      modifies this, line, inq, out
      ensures Valid() && intake == Feed(old(intake), buf) && (ep != null ==> fresh(ep) && fresh(Link()))
      ensures match intake
              case Reading(_) => state == AtLine && due == []
              case TooLong => state == Draining && due == StatusLine(LOS_VERB, LINE_TOO_LONG)
              case Passing(request, _, _) =>
                match Judge(d, request)
                case Refuse(text) => state == Draining && due == StatusLine(LOS_VERB, text)
                case Connect(a, contact) =>
                  state == WaitOpn && addr == a && ep.side.c == Opening(d.first, d.window, contact).c
    {
      hide StatusLine; hide Judge; hide OpnLine; hide Opening; hide Endpoint.Valid;
      ghost var line0 := line[..lineLen];
      var i := 0;
      while i < |buf|
        invariant i <= |buf| && Valid() && state == AtLine && told == [] && ep == null
        invariant Scan(line0, buf) == Scan(line[..lineLen], buf[i..])
      {
        if buf[i] == CR || buf[i] == LF {
          EndLine(buf, i);
          HandleRequest(d, now);
          return;
        }
        if lineLen >= LINE_MAX - 1 {
          intake := TooLong;
          FailClient(LOS_VERB, LINE_TOO_LONG);
          return;
        }
        assert buf[i..][1..] == buf[i + 1..];
        AddToLine(buf[i]);
        i := i + 1;
      }
    }

    method AddToLine(b: byte)
      requires Valid() && state == AtLine && lineLen < LINE_MAX - 1
      modifies this`lineLen, this`intake, line
      ensures Valid() && line[..lineLen] == old(line[..lineLen]) + [b]
    {
      ghost var before := line[..lineLen];
      line[lineLen] := b;
      assert line[..lineLen + 1] == before + [b];
      lineLen := lineLen + 1;
      intake := Reading(line[..lineLen]);
    }

    /** The byte at i ends the line; what is behind it, and not its LF, is stream data. */
    method EndLine(buf: seq<byte>, i: nat)
      requires Valid() && state == AtLine && told == [] && i < |buf| <= LINE_READ && (buf[i] == CR || buf[i] == LF)
      modifies this`skipLf, this`inLen, this`intake, inq
      ensures LineDone() && intake == LineEnded(line[..lineLen], buf[i], buf[i + 1..])
    {
      HoldRest(buf, i);
      assert LineEnded(line[..lineLen], buf[i], buf[i + 1..]) == Passing(line[..lineLen], Held(), skipLf);
      hide LineEnded;
      intake := Passing(line[..lineLen], Held(), skipLf);
    }

    method HoldRest(buf: seq<byte>, i: nat)
      requires Buffers() && inLen == 0 && i < |buf| <= LINE_READ && (buf[i] == CR || buf[i] == LF)
      modifies this`skipLf, this`inLen, inq
      ensures Buffers()
      ensures forall l :: LineEnded(l, buf[i], buf[i + 1..]) == Passing(l, Held(), skipLf)
    {
      skipLf := buf[i] == CR;
      var j := i + 1;
      if j < |buf| && skipLf && buf[j] == LF {
        j := j + 1;
        skipLf := false;
      }
      if j < |buf| {
        InPut(buf[j..]);
        skipLf := false;
      }
      assert i + 1 < |buf| ==> buf[i + 1..][1..] == buf[i + 2..];
    }

    // -------------------------------------------------------------- Reading and writing

    /** When the daemon asks for the socket to be readable. */
    predicate Wants()
      reads this, Objects()
    {
      match state
      case AtLine => true
      case WaitOpn => inLen < INBUF
      case Streaming => !sockEof && inLen == 0 && ep != null && ep.conn.SendRoom() > 0
      case _ => false
    }

    /** Stream bytes: an LF right behind the line's CR still belongs to the line. */
    method TakeStream(chunk: seq<byte>)
      requires Valid() && (state == WaitOpn || state == Streaming) && !finished && 0 < |chunk| <= INBUF - inLen
      modifies this`inLen, this`skipLf, this`intake, inq
      ensures Valid() && intake == Feed(old(intake), chunk)
    {
      hide OpnLine; hide Endpoint.Valid;
      ghost var stream, held := intake.stream, Held();
      var data := chunk;
      if skipLf {
        skipLf := false;
        if data[0] == LF { data := data[1..]; }
      }
      intake := Feed(intake, chunk);
      InPut(data);
      Regroup(ep.side.wrote, held, data);
    }

    method ClientRead(r: ReadResult, d: Daemon, now: Millis)
      requires Valid() && Wants() && 1 <= d.window <= RING
      requires r.Got? ==> 0 < |r.chunk| <= if state == AtLine then LINE_READ else INBUF - inLen
      modifies Objects()
      ensures Valid() && intake == if r.Got? then Feed(old(intake), r.chunk) else old(intake)
      ensures r == NotYet ==> state == old(state)
      ensures r == Hangup ==> if old(state) == Streaming then state == Streaming && sockEof else state == Gone
      ensures r == ReadFailed ==> state == Gone
    {
      hide OpnLine; hide Endpoint.Valid; hide Feed; hide Judge; hide Opening; hide ChaosConn.SendRoom;
      match r
      case NotYet =>
      case ReadFailed => ClientClose(ABORTED);
      case Hangup =>
        if state == AtLine || state == WaitOpn {
          ClientClose(ABORTED);
        } else {
          sockEof := true;
        }
      case Got(chunk) =>
        if state == AtLine {
          LineInput(chunk, d, now);
        } else {
          TakeStream(chunk);
        }
    }

    /** Writes what is pending until the socket takes no more or all is written. */
    method Flush(writes: seq<WriteResult>) returns (alive: bool)
      requires Valid() && state != Gone
      modifies this`told, this`outOff, this`outLen
      ensures Valid() && old(told) <= told
      ensures Flushed(old(told), old(Pending()), writes, told, Pending(), alive)
      ensures TookOffer(old(told), old(Pending()), writes, told)
      ensures alive ==> (outLen == 0 <==> told == due)
      ensures !alive ==> SocketFails(writes)
    {
      hide OpnLine; hide Endpoint.Valid; hide SocketFails; hide Flushed; hide TookOffer;
      alive := WriteOut(writes);
    }

    method WriteOut(writes: seq<WriteResult>) returns (alive: bool)
      requires Buffers() && told <= due && due == told + Pending()
      modifies this`told, this`outOff, this`outLen
      ensures Buffers() && told <= due && due == told + Pending() && old(told) <= told
      ensures Flushed(old(told), old(Pending()), writes, told, Pending(), alive)
      ensures TookOffer(old(told), old(Pending()), writes, told)
      ensures alive ==> (outLen == 0 <==> told == due)
      ensures !alive ==> SocketFails(writes)
    {
      hide Flushed; hide Flushing; hide Breaks; hide Offered; hide TookOffer;
      ghost var told0, pending := told, Pending();
      var i := 0;
      BeginsToFlush(told0, pending, writes);
      while outOff < outLen && i < |writes|
        invariant i <= |writes| && Buffers() && told <= due && due == told + Pending() && told0 <= told
        invariant Flushing(told0, pending, writes, told, Pending(), writes[i..])
      {
        assert writes[i..] != [] && writes[i..][0] == writes[i];
        if writes[i] == Full {
          StopsFlushing(told0, pending, writes, told, Pending(), writes[i..], true);
          return true;
        }
        if writes[i] == WriteFailed {
          StopsFlushing(told0, pending, writes, told, Pending(), writes[i..], false);
          return false;
        }
        var n := Min(writes[i].n, outLen - outOff);
        FlushesMore(told0, pending, writes, told, Pending(), writes[i..]);
        assert writes[i..][1..] == writes[i + 1..];
        Wrote(n);
        i := i + 1;
      }
      StopsFlushing(told0, pending, writes, told, Pending(), writes[i..], true);
      if outOff == outLen {
        outOff, outLen := 0, 0;
      }
      return true;
    }

    method Wrote(n: nat)
      requires Buffers() && due == told + Pending() && n <= outLen - outOff
      modifies this`told, this`outOff
      ensures Buffers() && due == told + Pending() && told <= due && old(told) <= told
      ensures told == old(told) + old(Pending())[..n] && Pending() == old(Pending())[n..]
    {
      assert Pending() == out[outOff..outOff + n] + out[outOff + n..outLen];
      told := told + out[outOff..outOff + n];
      outOff := outOff + n;
    }

    method ClientWrite(writes: seq<WriteResult>)
      requires Valid() && state != Gone
      modifies Objects()
      ensures Valid() && due == old(due) && old(told) <= told
      ensures !SocketFails(writes) ==> state == old(state)
      ensures TookOffer(old(told), old(Pending()), writes, told)
    {
      hide Valid; hide SocketFails; hide Flushed; hide TookOffer;
      var alive := Flush(writes);
      if !alive {
        Leave(CLOSED_BY_USER);
      }
    }

    // -------------------------------------------------------------- The bridge

    /** Socket to chaos: sends what is held as far as the window allows, and the EOF once the
        client has shut its side and nothing of it is held back. */
    method PassIn(now: Millis)
      requires Valid() && state == Streaming
      modifies this`inLen, this`finished, inq, ep, ep.conn, ep.conn.sendq
      ensures Valid() && ep.side.got == old(ep.side.got) && ep.side.wrote + Held() == old(ep.side.wrote + Held())
      ensures ep.side.c.phase == old(ep.side.c.phase) && ep.side.c.rcv == old(ep.side.c.rcv)
      ensures finished != old(finished) ==> sockEof && ep.side.wrote == intake.stream && ep.side.c.snd.eofWanted
      ensures var n := Accepted(old(ep.side.c), old(Held()));
        ep.side.wrote == old(ep.side.wrote) + old(Held())[..n] && Held() == old(Held())[n..]
      ensures finished <==> old(finished) || (sockEof && Held() == [] && ep.side.c.phase.Open?)
    {
      ep.StateIsPhase();
      assert ep != null && (ep.conn.state.Open? <==> ep.side.c.phase.Open?);
      hide OpnLine; hide Do; hide Endpoint.Valid; hide Bridged; hide Accepted;
      if inLen > 0 && ep.conn.state.Open? {
        SendHeld(now);
      }
      if sockEof && inLen == 0 && !finished && ep.conn.state.Open? {
        FinishStream(now);
      }
    }

    method SendHeld(now: Millis)
      requires Valid() && state == Streaming && inLen > 0
      modifies this`inLen, inq, ep, ep.conn, ep.conn.sendq
      ensures Valid() && ep.side.got == old(ep.side.got) && ep.side.wrote + Held() == old(ep.side.wrote + Held())
      ensures ep.side.c.phase == old(ep.side.c.phase) && ep.side.c.rcv == old(ep.side.c.rcv)
      ensures var n := Accepted(old(ep.side.c), old(Held()));
        ep.side.wrote == old(ep.side.wrote) + old(Held())[..n] && Held() == old(Held())[n..]
    {
      hide OpnLine; hide Do; hide ChaosConn.Valid;
      ghost var wrote, held := ep.side.wrote, Held();
      var n := ep.Send(inq[..inLen], now);
      InDrop(n);
      MovesOver(wrote, held, n);
    }

    method FinishStream(now: Millis)
      requires Valid() && state == Streaming && sockEof && inLen == 0
      modifies this`finished, ep, ep.conn, ep.conn.sendq
      ensures Valid() && finished && ep.StreamsKept() && ep.side.wrote == intake.stream
      ensures ep.side.c.phase.Open? ==> ep.side.c.snd.eofWanted
      ensures ep.side.c.phase == old(ep.side.c.phase) && ep.side.c.rcv == old(ep.side.c.rcv)
    {
      hide OpnLine; hide Do; hide ChaosConn.Valid;
      ep.Finish(now);
      finished := true;
      assert ep.side.wrote + [] == ep.side.wrote;
    }

    /** Chaos to socket: reads as much as the output buffer has room for. */
    method PassOut(now: Millis) returns (ghost bytes: seq<byte>)
      requires Valid() && state == Streaming && !ep.side.c.phase.Free?
      modifies this`outOff, this`outLen, this`due, out, ep, ep.conn, ep.conn.rcvq
      ensures Valid() && ep.side.wrote == old(ep.side.wrote)
      ensures ep.side.c.phase == old(ep.side.c.phase) && ep.side.c.snd == old(ep.side.c.snd)
      ensures PassedOut(old(ep.side.c.rcv), ep.side.c.rcv, |old(Pending())|, bytes)
      ensures ep.side.got == old(ep.side.got) + bytes && due == old(due) + bytes && Pending() == old(Pending()) + bytes
    {
      assert ep != null;
      hide OpnLine; hide Do; hide Endpoint.Valid; hide PassedOut; hide TookPrefix; hide Bridged;
      ghost var r := ep.side.c.rcv;
      if outLen - outOff < OUTBUF {
        var buf := ReadOut(now);
        TookNext(r, ep.side.c.rcv, |old(Pending())|, buf);
        return buf;
      }
      ep.IsReadable();
      NoRoomTakesNone(r);
      assert Pending() + [] == Pending() && due + [] == due && ep.side.got + [] == ep.side.got;
      return [];
    }

    /** Moves what is pending to the front and reads into the rest of the output buffer. */
    method ReadOut(now: Millis) returns (buf: seq<byte>)
      requires Valid() && state == Streaming && !ep.side.c.phase.Free? && outLen - outOff < OUTBUF
      modifies this`outOff, this`outLen, this`due, out, ep, ep.conn, ep.conn.rcvq
      ensures Valid() && ep.side.wrote == old(ep.side.wrote)
      ensures ep.side.c.phase == old(ep.side.c.phase) && ep.side.c.snd == old(ep.side.c.snd)
      ensures TookPrefix(old(ep.side.c.rcv), ep.side.c.rcv, OUTBUF - |old(Pending())|, buf)
      ensures ep.side.got == old(ep.side.got) + buf && due == old(due) + buf && Pending() == old(Pending()) + buf
    {
      hide OpnLine; hide Do; hide ChaosConn.Valid; hide TookPrefix;
      OutCompact();
      ghost var got := ep.side.got;
      buf := ep.Recv(OUTBUF - outLen, now);
      assert (OpnLine(addr) + got) + buf == OpnLine(addr) + (got + buf);
      Say(buf);
    }

    /** Passes the peer's EOF on once all before it is written. */
    method ShutIfDone()
      requires Valid() && state == Streaming && (outLen == 0 <==> told == due)
      modifies this`wrShut
      ensures Valid() && (wrShut <==> old(wrShut) || (told == due && ep.side.c.rcv.eof))
    {
      hide OpnLine; hide SendRing; hide RcvRing; hide WireAll; hide Ok; hide Wrap;
      if ep.conn.eofReceived && outLen == 0 && !wrShut {
        wrShut := true;
      }
    }

    /** The connection was closed and has nothing left to read. */
    ghost predicate Spent(e: Endpoint, phase0: Phase)
      reads e
    {
      phase0.Closed? && !(e.side.c.rcv.read < e.side.c.rcv.received && !e.side.c.rcv.eof)
    }

    /** Ends the client once the connection is closed and nothing of its stream is left anywhere. */
    method CloseIfDone(ghost e: Endpoint)
      requires Valid() && state == Streaming && ep == e && (outLen == 0 <==> told == due)
      modifies Objects()
      ensures Valid() && due == old(due) && told == old(told)
      ensures e.StreamsKept() && e.side.c.rcv == old(e.side.c.rcv)
      ensures state == Gone || (state == Streaming && ep == e && wrShut == old(wrShut))
      ensures state == Gone <==> Spent(e, old(e.side.c.phase)) && told == due
      ensures state == Gone ==> e.AllRead() && !wrShut
    {
      hide Valid; hide InOrder; hide Readable;
      var spent := IsSpent(e);
      if spent && outLen == 0 {
        Leave(CLOSED);
      }
    }

    method IsSpent(ghost e: Endpoint) returns (spent: bool)
      requires Valid() && state == Streaming && ep == e
      ensures spent <==> Spent(e, e.side.c.phase)
      ensures spent ==> e.AllRead()
    {
      hide OpnLine; hide Endpoint.Valid; hide Endpoint.AllRead; hide Bridged;
      ep.StateIsPhase();
      if !ep.conn.state.Closed? { return false; }
      var ready := ep.RecvReady();
      return !ready;
    }

    /** Shuts the socket's write side or ends the client when nothing is left to write. */
    method EndIfDone(ghost e: Endpoint)
      requires Valid() && state == Streaming && ep == e && (outLen == 0 <==> told == due)
      modifies Objects()
      ensures Valid() && due == old(due) && told == old(told)
      ensures e.StreamsKept() && e.side.c.rcv == old(e.side.c.rcv)
      ensures Ends(e, old(e.side.c.phase), old(wrShut), [])
    {
      hide Valid; hide Endpoint.AllRead;
      ShutIfDone();
      CloseIfDone(e);
    }

    method Exchange(now: Millis) returns (ghost bytes: seq<byte>)
      requires Valid() && state == Streaming && !ep.side.c.phase.Free?
      modifies this`inLen, this`finished, this`outOff, this`outLen, this`due, inq, out,
        ep, ep.conn, ep.conn.sendq, ep.conn.rcvq
      ensures Valid() && ep.side.c.phase == old(ep.side.c.phase) && due == OpnLine(addr) + ep.side.got
      ensures PassedOut(old(ep.side.c.rcv), ep.side.c.rcv, |old(Pending())|, bytes)
      ensures ep.side.wrote == old(ep.side.wrote) + old(Held())[..Accepted(old(ep.side.c), old(Held()))]
      ensures ep.side.got == old(ep.side.got) + bytes && Pending() == old(Pending()) + bytes
    {
      hide OpnLine; hide Do; hide Endpoint.Valid; hide PassedOut; hide Accepted;
      PassIn(now);
      bytes := PassOut(now);
    }

    /** How a turn ends on the connection e: the socket is shut exactly when all is written and the peer's
        EOF is reached; and unless the socket failed the client ends exactly when the connection is
        closed, nothing in order is unread and all that is due is written. */
    ghost predicate Ends(e: Endpoint, phase0: Phase, shut0: bool, writes: seq<WriteResult>)
      reads this, e
    {
      && (state == Gone || (state == Streaming && ep == e))
      && (wrShut <==> state == Streaming && (shut0 || (told == due && e.side.c.rcv.eof)))
      && (!SocketFails(writes) ==> (state == Gone <==> Spent(e, phase0) && told == due))
      && (!SocketFails(writes) && state == Gone ==> e.AllRead())
    }

    /** Writes what is due, and ends the client if that was all there will be. */
    method Settle(writes: seq<WriteResult>, ghost e: Endpoint)
      requires Valid() && state == Streaming && ep == e && Buffers()
      modifies Objects()
      ensures Valid() && due == old(due) && old(told) <= told && e.StreamsKept()
      ensures TookOffer(old(told), old(Pending()), writes, told)
      ensures Ends(e, old(e.side.c.phase), old(wrShut), writes)
    {
      hide Valid; hide Buffers; hide Endpoint.AllRead; hide Flushed; hide TookOffer; hide Spent;
      var alive := Flush(writes);
      if !alive {
        Leave(CLOSED_BY_USER);
      } else {
        EndIfDone(e);
      }
    }

    /** One turn of the bridge on a live connection. */
    method Turn(now: Millis, writes: seq<WriteResult>)
      requires Valid() && state == Streaming && !ep.side.c.phase.Free?
      modifies Objects()
      ensures Valid() && old(told) <= told && due == OpnLine(old(addr)) + old(ep).side.got
      ensures Turned(old(Now()), old(ep).side, told, writes)
      ensures Ends(old(ep), old(ep.side.c.phase), old(wrShut), writes)
    {
      assert ep != null && Apart() && Buffers();
      ghost var e, s0 := ep, Now();
      hide Valid; hide OpnLine; hide Do; hide Endpoint.Valid; hide Endpoint.AllRead; hide SocketFails;
      hide TookOffer; hide Accepted; hide PassedOut; hide Turned; hide Ends;
      ghost var bytes := Exchange(now);
      ghost var r1 := ep.side.c.rcv;
      Settle(writes, e);
      TurnIs(s0, r1, bytes, e.side, told, writes);
    }

    method StreamService(now: Millis, writes: seq<WriteResult>)
      requires Valid() && state == Streaming
      modifies Objects()
      ensures Valid() && Served(old(state), old(ep), old(addr), old(ep.side.c.phase), writes)
      ensures !old(ep.side.c.phase).Free? ==>
                Turned(old(Now()), old(ep).side, told, writes)
      ensures old(told) <= told && (state == Gone || ep == old(ep))
      ensures old(ep.side.c.phase).Free? <==> state == Draining
      ensures state == Draining ==> told == old(told) && due == old(due) && Buffers() && Pending() == old(Pending())
      ensures state != Draining ==> Ends(old(ep), old(ep.side.c.phase), old(wrShut), writes)
    {
      ep.StateIsPhase();
      hide OpnLine; hide Do; hide Endpoint.Valid; hide Endpoint.AllRead; hide SocketFails; hide Turned;
      if ep.conn.state.Free? {
        state := Draining;
      } else {
        hide Phase; hide Buffers;
        Turn(now, writes);
      }
    }

    /** What a turn of the bridge leaves: everything read from the connection is due to the
        client, and unless the socket failed the client ends only when the connection is
        closed, nothing in order is unread and all that is due is written. */
    ghost predicate Served(state0: ClientState, e: Endpoint?, a: u16, phase0: Phase, writes: seq<WriteResult>)
      reads this, e
    {
      && e != null
      && (!phase0.Free? && state0 == Streaming ==> due == OpnLine(a) + e.side.got)
      && (state == Gone && !SocketFails(writes) ==> told == due && (!phase0.Free? ==> phase0.Closed? && e.AllRead()))
    }

    // -------------------------------------------------------------- The state machine

    /** What is left for a client whose connection is gone is written, and then it ends. */
    ghost predicate Drained(told0: seq<byte>, pending0: seq<byte>, writes: seq<WriteResult>)
      reads this
    {
      && due == told0 + pending0 && TookOffer(told0, pending0, writes, told)
      && (state == Draining || state == Gone) && (!SocketFails(writes) ==> (state == Gone <==> told == due))
    }

    method Drain(writes: seq<WriteResult>)
      requires Valid() && state == Draining && Buffers() && due == told + Pending()
      modifies Objects()
      ensures Valid() && due == old(due) && old(told) <= told && Drained(old(told), old(Pending()), writes)
    {
      hide Valid; hide Buffers; hide SocketFails; hide Flushed; hide TookOffer;
      var alive := Flush(writes);
      if !alive {
        Leave(CLOSED_BY_USER);
      } else if outLen == 0 {
        Leave(REQUEST_FAILED);
      }
    }

    /** Tells the client how its connection ended before it opened. */
    method ReportClosed()
      requires Valid() && state == WaitOpn && ep.side.c.phase.Closed?
      modifies Objects()
      ensures Valid() && state == Draining && ep == null && due == Report(old(ep.side.c)) && told == []
    {
      hide OpnLine; hide Do; hide SendRing; hide RcvRing; hide Reported; hide SndOk; hide RcvOk; hide WireAll;
      hide Wrap;
      var text := Reported(ep.conn.closeKind, ep.conn.reason);
      ReportFits(ep.side.c);
      Say(text);
      LeaveConn();
    }

    method LeaveConn()
      requires Buffers() && Apart() && told <= due && due == told + Pending() && ep != null && ep.Valid()
      modifies this`ep, this`state, Link()
      ensures Valid() && state == Draining && ep == null
    {
      hide Do; hide Endpoint.Valid;
      ep.Release([]);
      ep := null;
      state := Draining;
    }

    method Vanish()
      requires Valid() && state == WaitOpn
      modifies this`outOff, this`outLen, this`state, this`due, out
      ensures Valid() && state == Draining && due == StatusLine(LOS_VERB, VANISHED) && told == []
    {
      hide StatusLine; hide Endpoint.Valid;
      FailClient(LOS_VERB, VANISHED);
      assert [] + StatusLine(LOS_VERB, VANISHED) == StatusLine(LOS_VERB, VANISHED);
    }

    /** The peer has answered: tells the client, and from here on its bytes are the stream. */
    method GreetClient()
      requires Valid() && state == WaitOpn
      modifies this`outOff, this`outLen, this`due, this`state, out
      ensures Valid() && state == Streaming && due == OpnLine(addr) == Pending() && told == [] && Held() == old(Held())
      ensures ep.side.wrote == [] && ep.side.got == []
    {
      hide Endpoint.Valid; hide OpnLine;
      OpnLineIsShort(addr);
      assert OpnLine(addr) + [] == OpnLine(addr);
      Say(OpnLine(addr));
      state := Streaming;
    }

    /** Advances the client as far as its connection and its socket allow. */
    method ClientService(now: Millis, writes: seq<WriteResult>)
      requires Valid()
      modifies Objects()
      ensures Valid() && old(told) <= told
      ensures old(state) == Streaming || (old(state) == WaitOpn && old(ep.side.c.phase).Open?) ==>
                Served(Streaming, old(ep), old(addr), old(ep.side.c.phase), writes)
      ensures old(state) == Streaming && !old(ep.side.c.phase).Free? ==>
                Turned(old(Now()), old(ep).side, told, writes)
      ensures old(state) == WaitOpn && old(ep.side.c.phase).Open? ==>
                Turned(old(Now()).(pending := OpnLine(old(addr))), old(ep).side, told, writes)
      ensures (old(state) == Streaming && !old(ep.side.c.phase).Free?) ||
              (old(state) == WaitOpn && old(ep.side.c.phase).Open?) ==>
                Ends(old(ep), old(ep.side.c.phase), old(wrShut), writes)
      ensures old(state) == Draining || (old(state) == Streaming && old(ep.side.c.phase).Free?) ==>
                Drained(old(told), old(Pending()), writes)
      ensures old(state) == WaitOpn && old(ep.side.c.phase).Closed? ==> Drained([], Report(old(ep.side.c)), writes)
      ensures old(state) == WaitOpn && old(ep.side.c.phase).Free? ==>
                Drained([], StatusLine(LOS_VERB, VANISHED), writes)
      ensures old(state) == WaitOpn && old(ep.side.c.phase).RfcSent? ==> state == WaitOpn && due == old(due)
    {
      if ep != null { ep.StateIsPhase(); }
      hide OpnLine; hide Do; hide Endpoint.Valid; hide Report; hide SocketFails;
      hide Turned; hide TookOffer; hide Ends; hide StatusLine; hide Bridged;
      if state == WaitOpn {
        match ep.conn.state
        case Free => Vanish();
        case RfcSent =>
        case Open =>
          GreetClient();
          StreamService(now, writes);
        case Closed => ReportClosed();
      } else if state == Streaming {
        StreamService(now, writes);
      }
      if state == Draining {
        assert told == [] ==> [] + Pending() == Pending() == due;
        Drain(writes);
      }
    }

    // -------------------------------------------------------------- Meanwhile

    /** A frame arrives for the client's connection; the client's buffers do not notice. */
    method Arrive(f: Frame, now: Millis, ghost m: Msg)
      requires Valid() && ep != null && f == Wire(m)
      modifies ep, ep.conn, ep.conn.sendq, ep.conn.rcvq
      ensures Valid() && ep.StreamsKept()
    {
      hide OpnLine; hide Do; hide ChaosConn.Valid;
      ep.Input(f, now, m);
    }

    method Tick(now: Millis)
      requires Valid() && ep != null
      modifies ep, ep.conn, ep.conn.sendq
      ensures Valid() && ep.StreamsKept()
    {
      hide OpnLine; hide Do; hide ChaosConn.Valid;
      ep.Tick(now);
    }
  }

  /** From one socket to the other: whatever the network between the two connections has done,
      the peer has read a prefix of what this client wrote behind its request line, and what
      this client was told behind its OPN line is a prefix of what the peer wrote. */
  lemma SocketToSocket(k: StreamClient, states: seq<System>, events: seq<Event>, i: nat)
    requires k.Valid() && k.state == Streaming
    requires Run(states, events) && i < |states| && states[i].a == k.ep.side
    ensures states[i].b.got <= k.intake.stream
    ensures k.told <= OpnLine(k.addr) + states[i].b.wrote
  {
    hide OpnLine; hide Run;
    StreamIntegrity(states, events, i);
    PrefixesJoin(states[i].b.got, k.ep.side.wrote, k.Held());
    var got, wrote := k.ep.side.got, states[i].b.wrote;
    assert OpnLine(k.addr) + wrote == (OpnLine(k.addr) + got) + wrote[|got|..];
    PrefixesJoin(k.told, k.due, wrote[|got|..]);
  }

  lemma PrefixesJoin(a: seq<byte>, b: seq<byte>, c: seq<byte>)
    requires a <= b
    ensures a <= b + c
  {}
}
