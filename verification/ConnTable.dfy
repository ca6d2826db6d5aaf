/** The table of connections: handles, indices and the dispatch of arriving packets. */
module ConnTables {
  import opened PacketNumbers
  import opened Packets
  import opened Connection
  import opened Network
  import opened RequestLines

  const CONNS := 32
  const CYCLE := 2047

  /** A slot of the table: the connection and the names it goes by. */
  datatype Record = Record(conn: Conn, localIndex: u16, remoteAddr: u16, remoteIndex: u16) {
    predicate Live() { !conn.phase.Free? }
  }

  const NO_CONN := Conn(Free, NotClosed, [], Snd(0, [], 0, 0, 0, false, false, 0),
                        Rcv(0, 0, 1, map[], 0, false), 0, false)
  const UNUSED := Record(NO_CONN, 0, 0, 0)

  /** A frame for the link layer, with the host and the two indices it is addressed by. */
  datatype Packet = Packet(dest: u16, destIndex: u16, srcIndex: u16, frame: Frame)

  /** A frame that has arrived, with the addresses of its header. */
  datatype Arrival = Arrival(src: u16, srcIndex: u16, destIndex: u16, frame: Frame)

  /** An RFC goes to index 0; everything else to the index the peer chose. */
  function Address(r: Record, m: Msg): Packet {
    Packet(r.remoteAddr, if m.Controlled? && m.pkt.op == RFC then 0 else r.remoteIndex, r.localIndex, Wire(m))
  }

  function AddressAll(r: Record, ms: seq<Msg>): seq<Packet> {
    seq(|ms|, i requires 0 <= i < |ms| => Address(r, ms[i]))
  }

  // ---------------------------------------------------------------- Phases

  predicate Onward(p: Phase, p1: Phase) {
    p == p1 || (p.RfcSent? && (p1.Open? || p1.Closed?)) || (p.Open? && p1.Closed?)
  }

  lemma ProcessAckOnward(c: Conn, ack: u16, receipt: u16)
    ensures Onward(c.phase, ProcessAck(c, ack, receipt).c.phase)
  {}

  lemma DataOnward(c: Conn, f: Frame)
    requires Ok(c)
    ensures Onward(c.phase, InputData(c, f).c.phase)
  {
    hide ProcessAck;
    ProcessAckOnward(c, f.ack, f.ack);
    ProcessAckOk(c, f.ack, f.ack);
  }

  lemma StsOnward(c: Conn, f: Frame, late: set<int>)
    requires Ok(c)
    ensures Onward(c.phase, InputSts(c, f, late).c.phase)
  {
    hide ProcessAck;
    if |f.data| >= 4 {
      ProcessAckOnward(SetWindow(c, f), f.ack, Get16(f.data, 0));
      ProcessAckOk(SetWindow(c, f), f.ack, Get16(f.data, 0));
    }
  }

  lemma InputOnward(c: Conn, f: Frame, late: set<int>)
    requires Ok(c)
    ensures Onward(c.phase, Input(c, f, late).c.phase)
  {
    hide ProcessAck; hide InputData; hide InputSts;
    if |f.data| <= MAX_DATA && !Connectionless(f.op) {
      if c.phase.RfcSent? && f.op == OPN && |f.data| >= 4 {
        ProcessAckOnward(Opened(c, f), f.ack, Get16(f.data, 0));
      } else if c.phase.Open? {
        DataOnward(c, f);
        StsOnward(c, f, late);
        ProcessAckOnward(c, f.ack, f.ack);
      }
    }
  }

  /** Until it is released, a connection only goes from RfcSent to Open to Closed. */
  lemma LifeGoesOnward(x: Side, act: Action)
    requires Ok(x.c) && !act.LetGo?
    ensures Onward(x.c.phase, Do(x, act).c.phase)
    ensures x.c.phase.RfcSent? && Do(x, act).c.phase.Open? ==>
              act.Deliver? && Wire(act.m).op == OPN && |Wire(act.m).data| >= 4
  {
    hide ProcessAck;
    match act
    case Write(data) =>
    case Read(max) =>
    case Shut =>
    case Timer(t) =>
    case Resend(late) =>
    case Deliver(m, late) => InputOnward(x.c, Wire(m), late);
  }

  // ---------------------------------------------------------------- Indices

  /** The index given at the n-th successful open holds 1 + n mod 2047 above its five bits of
      slot. */
  ghost predicate Given(opens: seq<u16>) {
    forall n: nat | n < |opens| :: opens[n] / CONNS == 1 + n % CYCLE
  }

  /** An index comes back only after 2047 opens or a multiple of that. */
  lemma IndexRecurs(opens: seq<u16>, m: nat, n: nat)
    requires Given(opens) && m < n < |opens| && opens[m] == opens[n]
    ensures n - m >= CYCLE && (n - m) % CYCLE == 0
  {
    assert opens[m] / CONNS == 1 + m % CYCLE && opens[n] / CONNS == 1 + n % CYCLE;
  }

  /** Slot h holds the connection of open number born[h]. */
  ghost predicate Named(r: Record, h: int, opens: seq<u16>, n: nat) {
    r.Live() ==> n < |opens| && r.localIndex == opens[n] && r.localIndex % CONNS == h
  }

  /** The record that a packet is for. */
  predicate Matches(r: Record, a: Arrival) {
    r.Live() && r.localIndex == a.destIndex && r.remoteAddr == a.src &&
    (r.conn.phase.RfcSent? || r.remoteIndex == a.srcIndex)
  }

  // ---------------------------------------------------------------- Requests from outside

  const STATUS_NAME: seq<byte> := Ascii("STATUS")
  const NO_SERVER: seq<byte> := Ascii("No server for contact name ")
  const STATUS_BYTES := 32

  /** The contact name of an RFC: what stands before its first space or NUL. */
  function Contact(data: seq<byte>): seq<byte> {
    if data == [] || data[0] == SPACE || data[0] == 0 then [] else [data[0]] + Contact(data[1..])
  }

  /** A host's name in 32 bytes, cut or filled up with zeros. */
  function NameField(name: seq<byte>): (field: seq<byte>)
    ensures |field| == STATUS_BYTES
    ensures forall i | 0 <= i < STATUS_BYTES :: field[i] == if i < |name| then name[i] else 0
  {
    seq(STATUS_BYTES, i requires 0 <= i < STATUS_BYTES => if i < |name| then name[i] else 0)
  }

  /** The program serves STATUS only, and without a connection. */
  function RfcAnswer(hostName: seq<byte>, a: Arrival): Packet {
    Packet(a.src, a.srcIndex, 0,
      if SameName(Contact(a.frame.data), STATUS_NAME) then Frame(ANS, 0, a.frame.num, NameField(hostName))
      else Frame(CLS, 0, a.frame.num, Clip(NO_SERVER + Contact(a.frame.data))))
  }

  /** The six letters of STATUS, each large or small. */
  predicate IsStatus(name: seq<byte>) {
    var letters: seq<seq<byte>> := [[83, 115], [84, 116], [65, 97], [84, 116], [85, 117], [83, 115]];
    |name| == 6 && forall i :: 0 <= i < 6 ==> name[i] in letters[i]
  }

  /** The first n bytes of a request are its contact name if a space, a NUL or nothing follows; the
      answer goes back to where the request came from and acknowledges it. */
  lemma RequestIsAnswered(hostName: seq<byte>, a: Arrival, n: nat)
    requires var data := a.frame.data;
      && n <= |data| && (forall i :: 0 <= i < n ==> data[i] != 32 && data[i] != 0)
      && (n < |data| ==> data[n] == 32 || data[n] == 0)
    ensures var name, answer := a.frame.data[..n], RfcAnswer(hostName, a);
      && answer.dest == a.src && answer.destIndex == a.srcIndex && answer.srcIndex == 0
      && answer.frame.num == 0 && answer.frame.ack == a.frame.num
      && if IsStatus(name) then
           answer.frame.op == ANS && |answer.frame.data| == 32 &&
           forall i :: 0 <= i < 32 ==> answer.frame.data[i] == if i < |hostName| then hostName[i] else 0
         else answer.frame.op == CLS && answer.frame.data == Clip(Ascii("No server for contact name ") + name)
  {
    ContactIs(a.frame.data, n);
    StatusHasSixLetters(a.frame.data[..n]);
    hide Contact; hide SameName; hide IsStatus;
  }

  lemma {:induction false} ContactIs(data: seq<byte>, n: nat)
    requires n <= |data| && (forall i :: 0 <= i < n ==> data[i] != 32 && data[i] != 0)
    requires n < |data| ==> data[n] == 32 || data[n] == 0
    ensures Contact(data) == data[..n]
    decreases n
  {
    if n > 0 {
      ContactIs(data[1..], n - 1);
      assert data[..n] == [data[0]] + data[1..][..n - 1];
    }
  }

  lemma StatusHasSixLetters(name: seq<byte>)
    ensures SameName(name, STATUS_NAME) <==> IsStatus(name)
  {
    assert STATUS_NAME == [83, 84, 65, 84, 85, 83];
    if |name| == 6 {
      assert SameName(name, STATUS_NAME) ==>
        forall i :: 0 <= i < 6 ==> Lower(name[i]) == Lower([83, 84, 65, 84, 85, 83][i]);
    }
  }

  /** What an arriving packet makes of the record it matches. */
  function Received(r: Record, a: Arrival, late: set<int>): (Record, seq<Packet>)
    requires Ok(r.conn)
  {
    var o := Input(r.conn, a.frame, late);
    var r1 := r.(conn := o.c, remoteIndex :=
      if r.conn.phase.RfcSent? && a.frame.op == OPN && 4 <= |a.frame.data| <= MAX_DATA then a.srcIndex
      else r.remoteIndex);
    (r1, AddressAll(r1, o.msgs))
  }

  /** A packet goes to the record's peer, from the record, at the index the peer answers to; only the
      RFC goes to no index. */
  predicate FromTo(r: Record, p: Packet) {
    && p.dest == r.remoteAddr && p.srcIndex == r.localIndex
    && p.destIndex == if p.frame.op == RFC then 0 else r.remoteIndex
  }

  /** An OPN that a waiting record takes. */
  predicate IsAnswer(r: Record, a: Arrival) {
    r.conn.phase.RfcSent? && a.frame.op == OPN && 4 <= |a.frame.data| <= MAX_DATA
  }

  /** The record keeps its names but for the index of its peer, which it notes from the OPN, and what
      it answers bears them. */
  ghost predicate NamesKept(r: Record, r1: Record, sent: seq<Packet>, a: Arrival) {
    && r1.localIndex == r.localIndex && r1.remoteAddr == r.remoteAddr
    && r1.remoteIndex == (if IsAnswer(r, a) then a.srcIndex else r.remoteIndex)
    && (forall i :: 0 <= i < |sent| ==> FromTo(r1, sent[i]))
  }

  /** After an OPN the connection is open, its report has gone to the index that the OPN came from, and
      whatever comes from there later is for it. */
  ghost predicate IsBound(r1: Record, a: Arrival, sent: seq<Packet>) {
    && r1.conn.phase.Open?
    && |sent| == 1 && sent[0].frame.op == STS
    && sent[0].dest == a.src && sent[0].destIndex == a.srcIndex && sent[0].srcIndex == a.destIndex
    && forall a1: Arrival ::
         a1.src == a.src && a1.srcIndex == a.srcIndex && a1.destIndex == a.destIndex ==> Matches(r1, a1)
  }

  lemma AnswersAreAddressed(r: Record, a: Arrival, late: set<int>)
    requires Ok(r.conn) && Matches(r, a)
    ensures var (r1, sent) := Received(r, a, late);
      NamesKept(r, r1, sent, a) && (IsAnswer(r, a) ==> IsBound(r1, a, sent))
  {
    var (r1, sent) := Received(r, a, late);
    var ms := Input(r.conn, a.frame, late).msgs;
    forall i | 0 <= i < |sent| ensures FromTo(r1, sent[i]) { assert sent[i] == Address(r1, ms[i]); }
    if IsAnswer(r, a) { AnswerIsReported(r.conn, a.frame, late); }
    hide Input;
  }

  lemma AnswerIsReported(c: Conn, f: Frame, late: set<int>)
    requires Ok(c) && c.phase.RfcSent? && f.op == OPN && 4 <= |f.data| <= MAX_DATA
    ensures var o := Input(c, f, late); o.c.phase.Open? && |o.msgs| == 1 && o.msgs[0].Status?
  {
    hide Unwrap;
  }

  class ConnTable {
    const conns: array<Record>
    const window: u16
    const hostName: seq<byte>
    var uniquizer: u16
    var initialPktNum: u16
    var wire: seq<Packet>

    ghost var opens: seq<u16>
    ghost var born: seq<nat>

    ghost predicate Valid()
      reads this, conns
    {
      && conns.Length == CONNS == |born| && 1 <= window <= RING
      && Given(opens) && uniquizer == 1 + |opens| % CYCLE
      && (forall h :: 0 <= h < CONNS && conns[h].Live() ==> Ok(conns[h].conn))
      && (forall h :: 0 <= h < CONNS ==> Named(conns[h], h, opens, born[h]))
    }

    constructor (window: u16, hostName: seq<byte>)
      requires 1 <= window <= RING
      ensures Valid() && opens == [] && wire == [] && fresh(conns) && forall h :: 0 <= h < CONNS ==> conns[h] == UNUSED
    {
      this.window, this.hostName := window, hostName;
      conns := new Record[CONNS](_ => UNUSED);
      uniquizer, initialPktNum, wire := 1, 0x0100, [];
      opens, born := [], seq(CONNS, _ => 0);
    }

    /** Live connections have different indices, none of them 0, each with its slot in the low
        five bits; and an index that was given to an earlier connection of the slot is not the
        present one unless 2047 opens lie between. */
    lemma IndicesAreDistinct(g: nat, h: nat, n: nat)
      requires Valid() && g < CONNS && h < CONNS && conns[g].Live() && conns[h].Live()
      ensures conns[g].localIndex != 0 && conns[g].localIndex % CONNS == g
      ensures g != h ==> conns[g].localIndex != conns[h].localIndex
      ensures n < |opens| && opens[n] == conns[g].localIndex && n != born[g] ==>
                (if n < born[g] then born[g] - n else n - born[g]) >= CYCLE
    {
      assert Named(conns[g], g, opens, born[g]) && Named(conns[h], h, opens, born[h]);
      assert opens[born[g]] / CONNS == 1 + born[g] % CYCLE;
      if n < |opens| && opens[n] == conns[g].localIndex {
        if n < born[g] {
          IndexRecurs(opens, n, born[g]);
        } else if born[g] < n {
          IndexRecurs(opens, born[g], n);
        }
      }
    }

    method FreeSlot() returns (h: nat)
      requires conns.Length == CONNS
      ensures h <= CONNS && (h < CONNS ==> !conns[h].Live()) && forall i :: 0 <= i < h ==> conns[i].Live()
    {
      h := 0;
      while h < CONNS && conns[h].Live()
        invariant h <= CONNS && forall i :: 0 <= i < h ==> conns[i].Live()
      {
        h := h + 1;
      }
    }

    /** Opens a connection in the first free slot; -1 when there is none or the contact name
        does not fit a packet. */
    method OpenConn(addr: u16, contact: seq<byte>) returns (handle: int)
      requires Valid()
      modifies this`uniquizer, this`initialPktNum, this`wire, this`opens, this`born, conns
      ensures Valid()
      ensures handle == -1 <==>
                |contact| == 0 || |contact| > MAX_DATA || forall i :: 0 <= i < CONNS ==> old(conns[i]).Live()
      ensures handle == -1 ==> conns[..] == old(conns[..]) && opens == old(opens) && wire == old(wire)
      ensures handle != -1 ==>
                0 <= handle < CONNS && !old(conns[handle]).Live() &&
                (forall i :: 0 <= i < handle ==> old(conns[i]).Live()) &&
                opens == old(opens) + [conns[handle].localIndex] &&
                conns[..] == old(conns[..])[handle := conns[handle]] &&
                var o := Opening(old(initialPktNum), window, contact);
                conns[handle].conn == o.c && conns[handle].remoteAddr == addr && conns[handle].remoteIndex == 0 &&
                wire == old(wire) +
                  [Packet(addr, 0, conns[handle].localIndex, Frame(RFC, old(initialPktNum), 0, contact))]
      ensures initialPktNum == if handle == -1 then old(initialPktNum) else (old(initialPktNum) + 0x100) % 0x1_0000
    {
      hide Opening; hide AddressAll;
      if |contact| == 0 || |contact| > MAX_DATA { return -1; }
      var h := FreeSlot();
      if h == CONNS { return -1; }
      Install(h, addr, contact);
      RfcIsAddressed(conns[h], old(initialPktNum), window, contact);
      return h;
    }

    lemma RfcIsAddressed(r: Record, first: u16, window: u16, contact: seq<byte>)
      requires r.remoteIndex == 0
      ensures AddressAll(r, Opening(first, window, contact).msgs) ==
        [Packet(r.remoteAddr, 0, r.localIndex, Frame(RFC, first, 0, contact))]
    {}

    /** Fills slot h with a new connection whose RFC goes out. */
    method Install(h: nat, addr: u16, contact: seq<byte>)
      requires Valid() && h < CONNS && |contact| <= MAX_DATA
      modifies this`uniquizer, this`initialPktNum, this`wire, this`opens, this`born, conns
      ensures Valid() && opens == old(opens) + [conns[h].localIndex]
      ensures conns[..] == old(conns[..])[h := conns[h]] && conns[h].remoteAddr == addr && conns[h].remoteIndex == 0
      ensures initialPktNum == (old(initialPktNum) + 0x100) % 0x1_0000
      ensures var o := Opening(old(initialPktNum), window, contact);
              conns[h].conn == o.c && wire == old(wire) + AddressAll(conns[h], o.msgs)
    {
      hide Opening; hide Ok; hide AddressAll; hide Given;
      var o := Opening(initialPktNum, window, contact);
      OpeningOk(initialPktNum, window, contact);
      var r := Record(o.c, uniquizer * CONNS + h, addr, 0);
      uniquizer := (uniquizer + 1) % 0x800;
      if uniquizer == 0 { uniquizer := 1; }
      initialPktNum := Wrap(initialPktNum + 0x0100);
      OpensOn(r.localIndex);
      ghost var opens0 := opens;
      opens, born := opens + [r.localIndex], born[h := |opens|];
      conns[h] := r;
      wire := wire + AddressAll(r, o.msgs);
      forall g | 0 <= g < CONNS ensures Named(conns[g], g, opens, born[g]) {
        assert g != h ==> Named(old(conns[g]), g, opens0, old(born)[g]);
      }
    }

    lemma OpensOn(index: u16)
      requires Given(opens) && index / CONNS == 1 + |opens| % CYCLE
      ensures Given(opens + [index])
    {}

    /** The record in slot h takes a step that leaves its names alone. */
    method Put(h: nat, r: Record, sent: seq<Packet>)
      requires Valid() && h < CONNS && conns[h].Live() && Ok(r.conn) && r.localIndex == conns[h].localIndex
      modifies this`wire, conns
      ensures Valid() && conns[..] == old(conns[..])[h := r] && wire == old(wire) + sent
    {
      hide Ok; hide Given;
      ghost var before := conns[..];
      conns[h] := r;
      wire := wire + sent;
      forall g | 0 <= g < CONNS ensures Named(conns[g], g, opens, born[g]) {
        assert Named(before[g], g, opens, born[g]);
      }
    }

    method ReadContact(data: seq<byte>) returns (contact: seq<byte>)
      ensures contact == Contact(data)
    {
      var n := 0;
      while n < |data| && data[n] != SPACE && data[n] != 0
        invariant n <= |data| && data[..n] + Contact(data[n..]) == Contact(data)
      {
        ContactStep(data, n);
        n := n + 1;
      }
      assert Contact(data[n..]) == [];
      return data[..n];
    }

    /** A request from outside touches no connection. */
    method HandleRfc(a: Arrival)
      modifies this`wire
      ensures wire == old(wire) + [RfcAnswer(hostName, a)]
    {
      hide SameName; hide NameField; hide Clip; hide Contact;
      var contact := ReadContact(a.frame.data);
      if SameName(contact, STATUS_NAME) {
        wire := wire + [Packet(a.src, a.srcIndex, 0, Frame(ANS, 0, a.frame.num, NameField(hostName)))];
      } else {
        wire := wire + [Packet(a.src, a.srcIndex, 0, Frame(CLS, 0, a.frame.num, Clip(NO_SERVER + contact)))];
      }
    }

    lemma ContactStep(data: seq<byte>, i: nat)
      requires i < |data| && data[i] != SPACE && data[i] != 0
      ensures data[..i] + Contact(data[i..]) == data[..i + 1] + Contact(data[i + 1..])
    {
      assert data[i..][1..] == data[i + 1..];
      assert data[..i + 1] == data[..i] + [data[i]];
    }

    /** The record changes as the frame says, and what it answers goes out, if they match. */
    ghost predicate Heeded(before: seq<Record>, wire0: seq<Packet>, h: int, a: Arrival, late: set<int>)
      reads this, conns
      requires conns.Length == CONNS == |before| && 0 <= h < CONNS
      requires Matches(before[h], a) ==> Ok(before[h].conn)
    {
      if Matches(before[h], a) && !Connectionless(a.frame.op) then
        conns[h] == Received(before[h], a, late).0 && wire == wire0 + Received(before[h], a, late).1
      else conns[h] == before[h]
    }

    /** A frame for this host.  It reaches the one connection whose names it bears, and no other. */
    method HandleChaos(a: Arrival, late: set<int>)
      requires Valid() && |a.frame.data| <= MAX_DATA
      modifies this`wire, conns
      ensures Valid()
      ensures forall h :: 0 <= h < CONNS ==> Heeded(old(conns[..]), old(wire), h, a, late)
      ensures forall h :: 0 <= h < CONNS && Matches(old(conns[h]), a) && !Connectionless(a.frame.op) ==>
                && old(wire) <= wire && NamesKept(old(conns[h]), conns[h], wire[|old(wire)|..], a)
                && (IsAnswer(old(conns[h]), a) ==> IsBound(conns[h], a, wire[|old(wire)|..]))
      ensures a.frame.op == RFC ==> wire == old(wire) + [RfcAnswer(hostName, a)]
      ensures a.frame.op != RFC && (forall h :: 0 <= h < CONNS ==> !Matches(old(conns[h]), a)) ==>
                wire == old(wire) + if Connectionless(a.frame.op) || IsReply(a.frame.op) then []
                                    else [Packet(a.src, a.srcIndex, a.destIndex, Wire(Lost(NO_CONNECTION)))]
    {
      hide Ok; hide Received; hide Given; hide RfcAnswer;
      if a.frame.op == RFC {
        HandleRfc(a);
        return;
      }
      if Connectionless(a.frame.op) { return; }
      var h := a.destIndex % CONNS;
      OnlyItsSlot(a);
      var r := conns[h];
      if !r.Live() || r.localIndex != a.destIndex || r.remoteAddr != a.src ||
         (!r.conn.phase.RfcSent? && r.remoteIndex != a.srcIndex) {
        if !IsReply(a.frame.op) {
          wire := wire + [Packet(a.src, a.srcIndex, a.destIndex, Wire(Lost(NO_CONNECTION)))];
        }
        return;
      }
      ReceivedOk(r, a, late);
      AnswersAreAddressed(r, a, late);
      hide NamesKept; hide IsBound;
      var (r1, sent) := Received(r, a, late);
      Put(h, r1, sent);
      assert wire[|old(wire)|..] == sent;
    }

    lemma ReceivedOk(r: Record, a: Arrival, late: set<int>)
      requires Ok(r.conn)
      ensures var (r1, _) := Received(r, a, late);
              Ok(r1.conn) && r1.localIndex == r.localIndex && r1.remoteAddr == r.remoteAddr &&
              Onward(r.conn.phase, r1.conn.phase) && (r1.remoteIndex != r.remoteIndex ==> r.conn.phase.RfcSent?)
    {
      hide Input;
      InputOk(r.conn, a.frame, late);
      InputOnward(r.conn, a.frame, late);
    }

    /** Only the slot that the low bits of the index name can match. */
    lemma OnlyItsSlot(a: Arrival)
      requires Valid()
      ensures forall h :: 0 <= h < CONNS && Matches(conns[h], a) ==> h == a.destIndex % CONNS
    {
      forall h | 0 <= h < CONNS && Matches(conns[h], a) ensures h == a.destIndex % CONNS {
        assert Named(conns[h], h, opens, born[h]);
      }
    }

    /** The CLS that tells a peer its connection is let go of, with as much of the reason as fits. */
    function Farewell(r: Record, text: seq<byte>): Packet {
      Packet(r.remoteAddr, r.remoteIndex, r.localIndex,
             Frame(CLS, 0, Wrap(r.conn.rcv.read), if |text| <= 488 then text else text[..488]))
    }

    /** Lets go of a connection; its slot is free, and its index will not be given again soon. */
    method ReleaseConn(handle: int, text: seq<byte>)
      requires Valid()
      modifies this`wire, conns
      ensures Valid()
      ensures !(0 <= handle < CONNS && old(conns[handle]).Live()) ==> conns[..] == old(conns[..]) && wire == old(wire)
      ensures 0 <= handle < CONNS && old(conns[handle]).Live() ==>
                conns[..] == old(conns[..])[handle := UNUSED] &&
                wire == old(wire) +
                  if old(conns[handle]).conn.phase.Open? then [Farewell(old(conns[handle]), text)] else []
    {
      assert forall r: Record | r.Live() ::
          AddressAll(r, Connection.Release(r.conn, text).msgs) ==
            if r.conn.phase.Open? then [Farewell(r, text)] else [];
      hide Ok; hide Given; hide AddressAll; hide Connection.Release;
      if handle < 0 || handle >= CONNS || !conns[handle].Live() { return; }
      wire := wire + AddressAll(conns[handle], Connection.Release(conns[handle].conn, text).msgs);
      ghost var before := conns[..];
      conns[handle] := UNUSED;
      forall g | 0 <= g < CONNS ensures Named(conns[g], g, opens, born[g]) {
        assert Named(before[g], g, opens, born[g]);
      }
    }
  }
}
