/** Chaosnet address resolution: a cache of 64 entries that every packet may teach. */
module ArpCaches {
  import opened PacketNumbers
  import opened Packets
  import opened Rings

  const ENTRIES := 64
  const RETRY_MS := 500
  const REFRESH_MS := 300000
  const ARP_FRAME := 38

  type Mac = m: seq<byte> | |m| == 6 witness [0, 0, 0, 0, 0, 0]

  const NO_MAC: Mac := [0, 0, 0, 0, 0, 0]
  const BROADCAST: Mac := [255, 255, 255, 255, 255, 255]

  datatype ArpEntry = ArpEntry(addr: u16, mac: Mac, valid: bool, requested: bool,
                               learnedMs: Millis, requestedMs: Millis)

  datatype Answer = Unknown | Known(mac: Mac)

  predicate Live(e: ArpEntry) { e.valid || e.requested }

  // ---------------------------------------------------------------- Frames

  datatype ArpFrame = ArpFrame(dst: Mac, src: Mac, op: byte, sha: Mac, spa: u16, tha: Mac, tpa: u16)

  /** Ethernet hardware, Chaos protocol, 6 and 2 bytes of address. */
  const ARP_HEAD: seq<byte> := [8, 6, 0, 1, 8, 4, 6, 2, 0]

  function Encode(f: ArpFrame): (bytes: seq<byte>)
    ensures |bytes| == ARP_FRAME
  {
    f.dst + f.src + ARP_HEAD + [f.op] + f.sha + Put16(f.spa) + f.tha + Put16(f.tpa)
  }

  /** The ARP part of any frame long enough to have one; a longer one is padded. */
  predicate IsArp(bytes: seq<byte>) {
    |bytes| >= ARP_FRAME && bytes[12..20] == [8, 6, 0, 1, 8, 4, 6, 2]
  }

  function Decode(bytes: seq<byte>): ArpFrame
    requires |bytes| >= ARP_FRAME
  {
    ArpFrame(bytes[..6], bytes[6..12], if bytes[20] == 0 then bytes[21] else 0,
             bytes[22..28], Get16(bytes, 28), bytes[30..36], Get16(bytes, 36))
  }

  lemma EncodeDecode(f: ArpFrame)
    ensures IsArp(Encode(f)) && Decode(Encode(f)) == f
  {
    var b := Encode(f);
    assert b[..6] == f.dst && b[6..12] == f.src && b[22..28] == f.sha && b[30..36] == f.tha;
    assert b[28..30] == Put16(f.spa) && b[36..38] == Put16(f.tpa);
  }

  /** Where each field stands: 14 bytes of Ethernet header, the kinds and sizes of the addresses, the
      opcode high byte first, and the addresses themselves, those of hosts low byte first. */
  lemma FrameLayout(f: ArpFrame)
    ensures var b := Encode(f);
      && b[0..6] == f.dst && b[6..12] == f.src && b[12..14] == [0x08, 0x06]
      && b[14..22] == [0, 1, 8, 4, 6, 2, 0, f.op]
      && b[22..28] == f.sha && b[28] == f.spa % 0x100 && b[29] == f.spa / 0x100
      && b[30..36] == f.tha && b[36] == f.tpa % 0x100 && b[37] == f.tpa / 0x100
  {
    var b := Encode(f);
    assert b[12..21] == ARP_HEAD && b[21] == f.op;
    assert b[28..30] == Put16(f.spa) && b[36..38] == Put16(f.tpa);
  }

  function Request(myMac: Mac, myAddr: u16, addr: u16): ArpFrame {
    ArpFrame(BROADCAST, myMac, 1, myMac, myAddr, NO_MAC, addr)
  }

  function Reply(myMac: Mac, myAddr: u16, mac: Mac, addr: u16): ArpFrame {
    ArpFrame(mac, myMac, 2, myMac, myAddr, mac, addr)
  }

  /** A request goes to everybody and leaves the MAC it asks for open; a reply goes to the asker alone and
      gives the MAC and address of the one asked. */
  lemma RequestAndReply(myMac: Mac, myAddr: u16, mac: Mac, addr: u16)
    ensures var b := Encode(Request(myMac, myAddr, addr));
      && b[0..6] == [255, 255, 255, 255, 255, 255] && b[6..12] == b[22..28] == myMac && b[21] == 1
      && Get16(b, 28) == myAddr && b[30..36] == [0, 0, 0, 0, 0, 0] && Get16(b, 36) == addr
    ensures var b := Encode(Reply(myMac, myAddr, mac, addr));
      && b[0..6] == b[30..36] == mac && b[6..12] == b[22..28] == myMac && b[21] == 2
      && Get16(b, 28) == myAddr && Get16(b, 36) == addr
  {
    FrameLayout(Request(myMac, myAddr, addr));
    FrameLayout(Reply(myMac, myAddr, mac, addr));
    hide Encode;
  }

  // ---------------------------------------------------------------- The table

  /** No address has two live entries. */
  ghost predicate OneEach(s: seq<ArpEntry>) {
    forall i, j :: 0 <= i < j < |s| && Live(s[i]) && Live(s[j]) ==> s[i].addr != s[j].addr
  }

  /** A valid entry holds what was last learned for its address, which is neither 0 nor ours. */
  ghost predicate Truthful(s: seq<ArpEntry>, taught: map<u16, Mac>, myAddr: u16) {
    forall e :: e in s && e.valid ==>
      e.addr in taught && taught[e.addr] == e.mac && e.addr != 0 && e.addr != myAddr
  }

  ghost predicate Knows(s: seq<ArpEntry>, addr: u16, mac: Mac) {
    exists e :: e in s && e.valid && e.addr == addr && e.mac == mac
  }

  ghost predicate HasLive(s: seq<ArpEntry>, addr: u16) {
    exists e :: e in s && Live(e) && e.addr == addr
  }

  ghost predicate HasFree(s: seq<ArpEntry>) {
    exists e :: e in s && !Live(e)
  }

  /** Slot i may be given to an address that has none: it is free, or none is free and it was
      learned longest ago. */
  ghost predicate MayEvict(s: seq<ArpEntry>, i: int) {
    && 0 <= i < |s|
    && (Live(s[i]) ==> forall e :: e in s ==> Live(e) && s[i].learnedMs <= e.learnedMs)
  }

  /** Nothing about other addresses was learned, and nothing was forgotten if `kept`. */
  ghost predicate OthersKept(s: seq<ArpEntry>, s1: seq<ArpEntry>, addr: u16, kept: bool) {
    forall b: u16, m: Mac :: b != addr ==>
      (Knows(s1, b, m) ==> Knows(s, b, m)) && (kept && Knows(s, b, m) ==> Knows(s1, b, m))
  }

  /** One slot is given to addr: its own, or one that may be evicted. */
  ghost predicate Given(s: seq<ArpEntry>, s1: seq<ArpEntry>, i: int, addr: u16) {
    && 0 <= i < |s| == |s1| && s1 == s[i := s1[i]] && s1[i].addr == addr
    && (if HasLive(s, addr) then Live(s[i]) && s[i].addr == addr else MayEvict(s, i))
  }

  lemma GivenKeeps(s: seq<ArpEntry>, s1: seq<ArpEntry>, i: int, addr: u16)
    requires OneEach(s) && Given(s, s1, i, addr)
    ensures OneEach(s1)
  {
    forall j, k | 0 <= j < k < |s1| && Live(s1[j]) && Live(s1[k]) ensures s1[j].addr != s1[k].addr {
      assert j != i ==> s[j] == s1[j] && s[j] in s;
      assert k != i ==> s[k] == s1[k] && s[k] in s;
    }
  }

  lemma GivenForgets(s: seq<ArpEntry>, s1: seq<ArpEntry>, i: int, addr: u16)
    requires Given(s, s1, i, addr)
    ensures OthersKept(s, s1, addr, HasLive(s, addr) || HasFree(s))
  {
    forall b: u16, m: Mac | b != addr && Knows(s1, b, m) ensures Knows(s, b, m) {
      var k :| 0 <= k < |s1| && s1[k].valid && s1[k].addr == b && s1[k].mac == m;
      assert s[k] == s1[k] && s[k] in s;
    }
    if HasLive(s, addr) || HasFree(s) {
      assert s[i].valid ==> s[i].addr == addr;
      forall b: u16, m: Mac | b != addr && Knows(s, b, m) ensures Knows(s1, b, m) {
        var k :| 0 <= k < |s| && s[k].valid && s[k].addr == b && s[k].mac == m;
        assert s1[k] == s[k] && s1[k] in s1;
      }
    }
  }

  lemma GivenTruthful(s: seq<ArpEntry>, s1: seq<ArpEntry>, i: int, addr: u16,
                      taught: map<u16, Mac>, taught1: map<u16, Mac>, myAddr: u16)
    requires Truthful(s, taught, myAddr) && Given(s, s1, i, addr) && OneEach(s1)
    requires taught1 == taught || (addr in taught1 && taught1 == taught[addr := taught1[addr]] && Live(s1[i]))
    requires s1[i].valid ==> addr in taught1 && taught1[addr] == s1[i].mac && addr != 0 && addr != myAddr
    ensures Truthful(s1, taught1, myAddr)
  {
    forall e | e in s1 && e.valid
      ensures e.addr in taught1 && taught1[e.addr] == e.mac && e.addr != 0 && e.addr != myAddr
    {
      var k :| 0 <= k < |s1| && s1[k] == e;
      if k != i {
        assert s[k] == e && e in s;
        assert Live(s1[i]) ==> e.addr != addr;
      }
    }
  }

  /** Whether a transmission to the address asks for it: unknown addresses every half second,
      known ones in the background when they are five minutes old. */
  predicate AskAgain(e: ArpEntry, now: Millis) {
    if e.valid then
      Elapsed(now, e.learnedMs) > REFRESH_MS && (!e.requested || Elapsed(now, e.requestedMs) >= RETRY_MS * 20)
    else !e.requested || Elapsed(now, e.requestedMs) >= RETRY_MS
  }

  /** In milliseconds: an address that is not known is asked for at most twice a second; one that is known,
      when it was learned more than five minutes ago, and then every ten seconds until it is answered. */
  lemma AskedWhenDue(e: ArpEntry, now: Millis)
    requires e.learnedMs <= now && e.requestedMs <= now
    ensures AskAgain(e, now) <==>
      if e.valid then now - e.learnedMs > 300_000 && (e.requested ==> now - e.requestedMs >= 10_000)
      else e.requested ==> now - e.requestedMs >= 500
  {}

  /** Slot i has been given to addr, which has just been learned. */
  ghost predicate LearnedIn(s: seq<ArpEntry>, s1: seq<ArpEntry>, i: int, addr: u16, mac: Mac, now: Millis) {
    && Given(s, s1, i, addr) && s1[i].valid && s1[i].mac == mac && s1[i].learnedMs == now && !s1[i].requested
  }

  class ArpCache {
    const arp: array<ArpEntry>
    const myAddr: u16
    const myMac: Mac
    /** The frames handed to the link layer. */
    var wire: seq<seq<byte>>
    /** What was last learned for each address. */
    ghost var taught: map<u16, Mac>

    ghost predicate Valid()
      reads this, arp
    {
      arp.Length == ENTRIES && OneEach(arp[..]) && Truthful(arp[..], taught, myAddr)
    }

    constructor (addr: u16, mac: Mac)
      ensures Valid() && myAddr == addr && myMac == mac && wire == [] && taught == map[] && fresh(arp)
    {
      myAddr, myMac := addr, mac;
      arp := new ArpEntry[ENTRIES](_ => ArpEntry(0, NO_MAC, false, false, 0, 0));
      wire, taught := [], map[];
    }

    method FindLive(addr: u16) returns (i: int)
      requires arp.Length == ENTRIES
      ensures HasLive(arp[..], addr) <==> i >= 0
      ensures -1 <= i < ENTRIES && (i >= 0 ==> Live(arp[i]) && arp[i].addr == addr)
    {
      i := 0;
      while i < ENTRIES
        invariant 0 <= i <= ENTRIES
        invariant forall j :: 0 <= j < i ==> !(Live(arp[j]) && arp[j].addr == addr)
      {
        if Live(arp[i]) && arp[i].addr == addr {
          assert arp[i] in arp[..];
          return;
        }
        i := i + 1;
      }
      i := -1;
    }

    /** The first free entry, or else the one learned longest ago. */
    method Victim() returns (victim: nat)
      requires arp.Length == ENTRIES
      ensures MayEvict(arp[..], victim)
    {
      victim := 0;
      var oldest: int := 0x1_0000_0000_0000_0000 - 1;
      var i := 0;
      while i < ENTRIES
        invariant 0 <= i <= ENTRIES && 0 <= victim < ENTRIES
        invariant i > 0 ==> victim < i && oldest == arp[victim].learnedMs
        invariant i == 0 ==> oldest > 0x4000_0000_0000_0000
        invariant forall j :: 0 <= j < i ==> Live(arp[j]) && oldest <= arp[j].learnedMs
      {
        if !Live(arp[i]) {
          victim := i;
          break;
        }
        if arp[i].learnedMs < oldest {
          oldest, victim := arp[i].learnedMs, i;
        }
        i := i + 1;
      }
    }

    method Find(addr: u16, create: bool) returns (i: int)
      requires arp.Length == ENTRIES
      modifies arp
      ensures !create && !HasLive(old(arp[..]), addr) ==> i == -1 && arp[..] == old(arp[..])
      ensures create || HasLive(old(arp[..]), addr) ==> Given(old(arp[..]), arp[..], i, addr) && i < ENTRIES
      ensures HasLive(old(arp[..]), addr) ==> arp[..] == old(arp[..])
      ensures create && !HasLive(old(arp[..]), addr) ==> !Live(arp[i])
    {
      i := FindLive(addr);
      if i >= 0 || !create { return; }
      i := Victim();
      arp[i] := ArpEntry(addr, NO_MAC, false, false, 0, 0);
    }

    method SendRequest(i: nat, now: Millis)
      requires i < arp.Length
      modifies this`wire, arp
      ensures wire == old(wire) + [Encode(Request(myMac, myAddr, old(arp[i]).addr))]
      ensures arp[..] == old(arp[..])[i := old(arp[i]).(requested := true, requestedMs := now)]
    {
      wire := wire + [Encode(Request(myMac, myAddr, arp[i].addr))];
      arp[i] := arp[i].(requested := true, requestedMs := now);
    }

    /** A packet shows an address and its MAC.  The result says that this is news, so that
        what was dropped for want of it is to be sent again. */
    method Learn(addr: u16, mac: Mac, now: Millis) returns (news: bool)
      requires Valid()
      modifies this`taught, arp
      ensures Valid() && taught == if addr == 0 || addr == myAddr then old(taught) else old(taught)[addr := mac]
      ensures addr == 0 || addr == myAddr ==> arp[..] == old(arp[..]) && !news
      ensures addr != 0 && addr != myAddr ==> Knows(arp[..], addr, mac) && (news <==> !Knows(old(arp[..]), addr, mac))
      ensures OthersKept(old(arp[..]), arp[..], addr, HasLive(old(arp[..]), addr) || HasFree(old(arp[..])))
      ensures addr != 0 && addr != myAddr ==> exists i :: LearnedIn(old(arp[..]), arp[..], i, addr, mac, now)
    {
      hide MayEvict;
      if addr == 0 || addr == myAddr { return false; }
      ghost var s := arp[..];
      var i := Find(addr, true);
      var e := arp[i];
      news := !(e.valid && e.mac == mac);
      NewsIsNew(s, i, addr, mac, e);
      arp[i] := e.(mac := mac, valid := true, requested := false, learnedMs := now);
      taught := taught[addr := mac];
      Adopted(s, i, addr, old(taught));
      assert arp[i] in arp[..];
      assert LearnedIn(s, arp[..], i, addr, mac, now);
    }

    lemma NewsIsNew(s: seq<ArpEntry>, i: nat, addr: u16, mac: Mac, e: ArpEntry)
      requires OneEach(s) && i < |s| && (if HasLive(s, addr) then e == s[i] && Live(e) && e.addr == addr else !Live(e))
      ensures Knows(s, addr, mac) <==> e.valid && e.mac == mac
    {
      if Knows(s, addr, mac) {
        var k :| 0 <= k < |s| && s[k].valid && s[k].addr == addr && s[k].mac == mac;
        assert s[k] in s;
      }
      if HasLive(s, addr) {
        assert s[i] in s;
      }
    }

    /** Slot i has been given to addr. */
    lemma Adopted(s: seq<ArpEntry>, i: nat, addr: u16, taught0: map<u16, Mac>)
      requires arp.Length == ENTRIES && OneEach(s) && Truthful(s, taught0, myAddr) && Given(s, arp[..], i, addr)
      requires taught == taught0 || (addr in taught && taught == taught0[addr := taught[addr]] && Live(arp[i]))
      requires arp[i].valid ==> addr in taught && taught[addr] == arp[i].mac && addr != 0 && addr != myAddr
      ensures Valid() && OthersKept(s, arp[..], addr, HasLive(s, addr) || HasFree(s))
    {
      hide OneEach; hide Truthful; hide OthersKept; hide MayEvict;
      GivenKeeps(s, arp[..], i, addr);
      GivenForgets(s, arp[..], i, addr);
      GivenTruthful(s, arp[..], i, addr, taught0, taught, myAddr);
    }

    /** What the cache says is what was last learned. */
    method Lookup(addr: u16) returns (answer: Answer)
      requires Valid()
      ensures answer.Known? ==> addr in taught && answer.mac == taught[addr] && addr != 0 && addr != myAddr
      ensures forall m :: answer == Known(m) <==> Knows(arp[..], addr, m)
    {
      ghost var s := arp[..];
      var i := FindLive(addr);
      if i < 0 || !arp[i].valid {
        NotKnown(s, i, addr);
        return Unknown;
      }
      forall m ensures arp[i].mac == m <==> Knows(s, addr, m) { NewsIsNew(s, i, addr, m, arp[i]); }
      assert arp[i] in s;
      return Known(arp[i].mac);
    }

    lemma NotKnown(s: seq<ArpEntry>, i: int, addr: u16)
      requires OneEach(s) && (i < 0 <==> !HasLive(s, addr)) && -1 <= i < |s|
      requires i >= 0 ==> Live(s[i]) && s[i].addr == addr && !s[i].valid
      ensures forall m :: !Knows(s, addr, m)
    {
      forall m ensures !Knows(s, addr, m) {
        if i >= 0 {
          NewsIsNew(s, i, addr, m, s[i]);
        }
      }
    }

    /** The MAC to send to, if it is known; asks for it, or for it again, when that is due. */
    method Resolve(addr: u16, now: Millis) returns (answer: Answer, ghost slot: nat, ghost asked: bool)
      requires Valid()
      modifies this`wire, arp
      ensures Valid() && slot < ENTRIES && arp[slot].addr == addr
      ensures forall m :: answer == Known(m) <==> Knows(old(arp[..]), addr, m)
      ensures answer.Known? ==> addr in taught && answer.mac == taught[addr]
      ensures asked <==> if HasLive(old(arp[..]), addr) then AskAgain(old(arp[slot]), now) else true
      ensures asked ==> arp[slot].requested && arp[slot].requestedMs == now
      ensures Given(old(arp[..]), arp[..], slot, addr)
      ensures HasLive(old(arp[..]), addr) ==>
                arp[slot] == if asked then old(arp[slot]).(requested := true, requestedMs := now) else old(arp[slot])
      ensures wire == old(wire) + if asked then [Encode(Request(myMac, myAddr, addr))] else []
      ensures OthersKept(old(arp[..]), arp[..], addr, HasLive(old(arp[..]), addr) || HasFree(old(arp[..])))
      ensures HasLive(arp[..], addr)
    {
      hide MayEvict; hide Elapsed; hide Encode; hide OthersKept;
      ghost var s := arp[..];
      var i := Find(addr, true);
      var e := arp[i];
      forall m ensures e.valid && e.mac == m <==> Knows(s, addr, m) { NewsIsNew(s, i, addr, m, e); }
      slot, asked := i, AskAgain(e, now);
      answer := if e.valid then Known(e.mac) else Unknown;
      if e.valid {
        assert e in s;
        if Elapsed(now, e.learnedMs) > REFRESH_MS && (!e.requested || Elapsed(now, e.requestedMs) >= RETRY_MS * 20) {
          SendRequest(i, now);
        }
      } else if !e.requested || Elapsed(now, e.requestedMs) >= RETRY_MS {
        SendRequest(i, now);
      }
      assert arp[..] == s[i := arp[i]];
      Adopted(s, i, addr, taught);
      assert arp[i] in arp[..];
    }

    /** An ARP frame teaches whatever it is, and a request for our address is answered. */
    method HandleArp(frame: seq<byte>, now: Millis)
      requires Valid()
      modifies this`taught, this`wire, arp
      ensures Valid() && (!IsArp(frame) ==> taught == old(taught) && wire == old(wire) && arp[..] == old(arp[..]))
      ensures IsArp(frame) ==>
                var f := Decode(frame);
                taught == (if f.spa == 0 || f.spa == myAddr then old(taught) else old(taught)[f.spa := f.sha]) &&
                (f.spa != 0 && f.spa != myAddr ==> Knows(arp[..], f.spa, f.sha)) &&
                wire == old(wire) +
                  if f.op == 1 && f.tpa == myAddr then [Encode(Reply(myMac, myAddr, f.sha, f.spa))] else []
    {
      hide Encode; hide OneEach; hide Truthful; hide OthersKept;
      if !IsArp(frame) { return; }
      var sha: Mac, spa, tpa := frame[22..28], Get16(frame, 28), Get16(frame, 36);
      var news := Learn(spa, sha, now);
      if frame[20] != 0 || frame[21] != 1 || tpa != myAddr { return; }
      wire := wire + [Encode(Reply(myMac, myAddr, sha, spa))];
    }

    /** A frame arrives; those that carry our own MAC are our own broadcasts coming back. */
    method Input(frame: seq<byte>, now: Millis)
      requires Valid()
      modifies this`taught, this`wire, arp
      ensures Valid()
      ensures !IsArp(frame) || frame[6..12] == myMac ==>
                taught == old(taught) && wire == old(wire) && arp[..] == old(arp[..])
      ensures IsArp(frame) && frame[6..12] != myMac ==>
                var f := Decode(frame);
                taught == (if f.spa == 0 || f.spa == myAddr then old(taught) else old(taught)[f.spa := f.sha]) &&
                (f.spa != 0 && f.spa != myAddr ==> Knows(arp[..], f.spa, f.sha)) &&
                wire == old(wire) +
                  if f.op == 1 && f.tpa == myAddr then [Encode(Reply(myMac, myAddr, f.sha, f.spa))] else []
    {
      hide Encode; hide OneEach; hide Truthful;
      if |frame| < 14 || frame[12..14] != [8, 6] || frame[6..12] == myMac {
        if IsArp(frame) {
          assert frame[12] == frame[12..20][0] && frame[13] == frame[12..20][1];
          assert frame[12..14] == [8, 6];
        }
        return;
      }
      HandleArp(frame, now);
    }

    /** A Chaos packet from our own subnet teaches the MAC it came from. */
    method HearPacket(source: u16, mac: Mac, now: Millis)
      requires Valid()
      modifies this`taught, arp
      ensures Valid()
      ensures taught == if source / 256 == myAddr / 256 && mac[0] % 2 == 0 && source != 0 && source != myAddr
                        then old(taught)[source := mac] else old(taught)
    {
      hide OneEach; hide Truthful; hide OthersKept;
      if source / 256 == myAddr / 256 && mac[0] % 2 == 0 {
        var news := Learn(source, mac, now);
      }
    }
  }

  /** A transmission to an address that asks for it acquaints both hosts by one request and its
      reply, whatever their caches hold; `asked` says whether it does. */
  method Acquaint(a: ArpCache, b: ArpCache, now: Millis) returns (asked: bool)
    requires a != b && a.arp != b.arp && a.Valid() && b.Valid()
    requires a.myAddr != b.myAddr && a.myAddr != 0 && b.myAddr != 0 && a.myMac != b.myMac
    modifies a, b, a.arp, b.arp
    ensures a.Valid() && b.Valid() && (!HasLive(old(a.arp[..]), b.myAddr) ==> asked)
    ensures asked ==> Knows(a.arp[..], b.myAddr, b.myMac) && Knows(b.arp[..], a.myAddr, a.myMac)
  {
    hide Encode; hide Decode; hide IsArp; hide OneEach; hide Truthful; hide OthersKept; hide HasLive; hide Knows;
    EncodeDecode(Request(a.myMac, a.myAddr, b.myAddr));
    EncodeDecode(Reply(b.myMac, b.myAddr, a.myMac, a.myAddr));
    SourceIs(Request(a.myMac, a.myAddr, b.myAddr));
    SourceIs(Reply(b.myMac, b.myAddr, a.myMac, a.myAddr));
    var before := |a.wire|;
    var answer, slot, due := a.Resolve(b.myAddr, now);
    asked := |a.wire| > before;
    if asked {
      b.Input(a.wire[|a.wire| - 1], now);
      a.Input(b.wire[|b.wire| - 1], now);
    }
  }

  lemma SourceIs(f: ArpFrame)
    ensures Encode(f)[6..12] == f.src
  {}
}
