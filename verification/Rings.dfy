/** The 64-slot packet rings: slot n mod 64 is for packet number n. */
module Rings {
  import opened PacketNumbers
  import opened Packets
  import opened Connection

  /** Milliseconds, far from overflowing the 64-bit word that holds them. */
  type Millis = x: int | 0 <= x < 0x4000_0000_0000_0000

  /** Unsigned 64-bit subtraction of times. */
  function Elapsed(now: Millis, since: Millis): nat {
    (now - since) % 0x1_0000_0000_0000_0000
  }

  /** One ring slot.  `offset` is used on the receive side, `sentAtMs` on the send side. */
  datatype Slot = Slot(present: bool, op: byte, num: u16, data: seq<byte>, offset: nat, sentAtMs: Millis)

  const EMPTY: Slot := Slot(false, 0, 0, [], 0, 0)

  function Index(num: u16): (i: int)
    ensures 0 <= i < RING
  {
    num % RING
  }

  /** The only number of (hi - 64, hi] that belongs in slot i. */
  function Resident(hi: int, i: int): (n: int)
    ensures hi - RING < n <= hi
  {
    hi - (hi - i) % RING
  }

  lemma IndexOfWrap(n: int)
    ensures Index(Wrap(n)) == n % RING
  {
    assert n == MODULUS * (n / MODULUS) + Wrap(n);
    assert MODULUS == RING * 1024;
    Multiples(Wrap(n), 1024 * (n / MODULUS));
  }

  lemma Multiples(x: int, k: int)
    ensures (x + RING * k) % RING == x % RING
  {
    var q, r := x / RING, x % RING;
    assert x + RING * k == RING * (q + k) + r;
  }

  /** A number is resident in its own slot, and in no other. */
  lemma ResidentOf(hi: int, n: int, i: int)
    requires hi - RING < n <= hi && 0 <= i < RING
    ensures Resident(hi, i) == n <==> i == n % RING
  {
    var m := Resident(hi, i);
    var q := (hi - i) / RING;
    assert m == i + RING * q;
    Multiples(i, q);
    if i == n % RING {
      var q1 := n / RING;
      assert m - n == RING * (q - q1);
    }
  }

  /** When the ring moves on by one number, one slot changes hands. */
  lemma ResidentMoves(hi: int, i: int)
    requires 0 <= i < RING
    ensures Resident(hi + 1, i) == if i == (hi + 1) % RING then hi + 1 else Resident(hi, i)
  {
    ResidentOf(hi + 1, hi + 1, i);
    if i != (hi + 1) % RING {
      var n := Resident(hi, i);
      var q := (hi - i) / RING;
      assert n == i + RING * q;
      Multiples(i, q);
      assert n % RING == i;
      if n == hi + 1 - RING { Multiples(n, 1); }
      ResidentOf(hi + 1, n, i);
    }
  }

  lemma SlotsDiffer(m: int, n: int)
    requires m < n < m + RING
    ensures Index(Wrap(m)) != Index(Wrap(n))
  {
    IndexOfWrap(m);
    IndexOfWrap(n);
    ResidentOf(n, m, n % RING);
    ResidentOf(n, n, n % RING);
  }

  /** Packets `from` to `to` have not been sent again. */
  ghost predicate Untouched(slots: seq<Slot>, slots1: seq<Slot>, from: int, to: int)
    requires |slots| == |slots1| == RING
  {
    forall n | from <= n <= to :: slots1[Index(Wrap(n))].sentAtMs == slots[Index(Wrap(n))].sentAtMs
  }

  lemma UntouchedAtFirst(slots: seq<Slot>, from: int, to: int)
    requires |slots| == RING
    ensures Untouched(slots, slots, from, to)
  {}

  lemma UntouchedAfter(slots: seq<Slot>, slots1: seq<Slot>, slots2: seq<Slot>, n: int, to: int)
    requires |slots| == |slots1| == |slots2| == RING && to < n + RING && n <= to
    requires Untouched(slots, slots1, n, to)
    requires forall i :: 0 <= i < RING && i != Index(Wrap(n)) ==> slots2[i] == slots1[i]
    ensures slots1[Index(Wrap(n))].sentAtMs == slots[Index(Wrap(n))].sentAtMs
    ensures Untouched(slots, slots2, n + 1, to)
  {
    forall m | n + 1 <= m <= to ensures slots2[Index(Wrap(m))].sentAtMs == slots[Index(Wrap(m))].sentAtMs {
      SlotsDiffer(n, m);
    }
  }

  /** Of the packets after `from` through `to`, those that are late have been sent again now and
      the others have not. */
  ghost predicate Stamped(slots: seq<Slot>, slots1: seq<Slot>, from: int, to: int, late: set<int>, now: Millis)
    requires |slots| == |slots1| == RING
  {
    forall n | from < n <= to ::
      slots1[Index(Wrap(n))].sentAtMs == if n in late then now else slots[Index(Wrap(n))].sentAtMs
  }

  lemma StampedAtFirst(slots: seq<Slot>, from: int, late: set<int>, now: Millis)
    requires |slots| == RING
    ensures Stamped(slots, slots, from, from, late, now)
  {}

  lemma StampedAfter(slots: seq<Slot>, slots1: seq<Slot>, slots2: seq<Slot>, from: int, n: int,
                     late: set<int>, now: Millis)
    requires |slots| == |slots1| == |slots2| == RING && from < n < from + RING
    requires Stamped(slots, slots1, from, n - 1, late, now)
    requires forall i :: 0 <= i < RING && i != Index(Wrap(n)) ==> slots2[i] == slots1[i]
    requires slots2[Index(Wrap(n))].sentAtMs == if n in late then now else slots[Index(Wrap(n))].sentAtMs
    ensures Stamped(slots, slots2, from, n, late, now)
  {
    forall m | from < m < n ensures slots2[Index(Wrap(m))] == slots1[Index(Wrap(m))] {
      SlotsDiffer(m, n);
    }
  }

  /** A send slot is full exactly when the number resident in it is not yet receipted,
      and then it holds that packet. */
  ghost predicate SendSlotOk(p: Slot, s: Snd, i: int) {
    var n := Resident(s.Sent(), i);
    && (p.present <==> n > s.receipt)
    && (p.present ==> s.base < n && p.num == Wrap(n) && Pkt(p.op, p.data) == s.Nth(n))
  }

  /** A receive slot is full exactly when the number resident in it has arrived and is
      not consumed, and then it holds that packet and how much of it has been read. */
  ghost predicate RcvSlotOk(p: Slot, r: Rcv, i: int) {
    var n := Resident(r.read + RING, i);
    && (p.present <==> n in r.q)
    && (p.present ==> p.num == Wrap(n) && Pkt(p.op, p.data) == r.q[n]
                      && p.offset == if n == r.read + 1 then r.offset else 0)
  }

  ghost predicate SendRing(slots: seq<Slot>, s: Snd) {
    |slots| == RING && forall i :: 0 <= i < RING ==> SendSlotOk(slots[i], s, i)
  }

  ghost predicate RcvRing(slots: seq<Slot>, r: Rcv) {
    |slots| == RING && forall i :: 0 <= i < RING ==> RcvSlotOk(slots[i], r, i)
  }

  /** The unreceipted packets last sent at least `minAge` before `now`. */
  ghost function LateIn(slots: seq<Slot>, s: Snd, now: Millis, minAge: nat): set<int>
    requires |slots| == RING
  {
    set n | s.receipt < n <= s.Sent() && Elapsed(now, slots[Index(Wrap(n))].sentAtMs) >= minAge
  }

  /** No slot was sent again, except that of the one packet numbered since. */
  ghost predicate TimesKept(slots: seq<Slot>, s: Snd, slots1: seq<Slot>, s1: Snd, now: Millis)
    requires |slots| == |slots1| == RING
  {
    && s.Sent() <= s1.Sent() <= s.Sent() + 1
    && (s1.Sent() > s.Sent() ==> slots1[Index(Wrap(s1.Sent()))].sentAtMs == now)
    && (forall i :: 0 <= i < RING && (s1.Sent() == s.Sent() || i != Index(Wrap(s1.Sent()))) ==>
        slots1[i].sentAtMs == slots[i].sentAtMs)
  }

  /** A packet first sent just now is not late, so lateness can be judged beforehand. */
  lemma LateKept(slots: seq<Slot>, s: Snd, slots1: seq<Slot>, c1: Conn, now: Millis, minAge: nat)
    requires |slots| == |slots1| == RING && minAge > 0 && SndOk(c1.snd)
    requires TimesKept(slots, s, slots1, c1.snd, now) && s.receipt <= c1.snd.receipt
    ensures Retransmit(c1, LateIn(slots1, c1.snd, now, minAge)) == Retransmit(c1, LateIn(slots, s, now, minAge))
  {
    var s1 := c1.snd;
    var late, late1 := LateIn(slots, s, now, minAge), LateIn(slots1, s1, now, minAge);
    forall n | s1.receipt < n <= s1.Sent() ensures n in late <==> n in late1 {
      if n < s1.Sent() {
        IndexOfWrap(n);
        IndexOfWrap(s1.Sent());
        ResidentOf(s1.Sent(), n, s1.Sent() % RING);
        ResidentOf(s1.Sent(), s1.Sent(), s1.Sent() % RING);
      }
    }
    AscendingLocal(s1.receipt, s1.Sent(), late, late1);
  }

  /** The send ring depends on the list of packets and the receipt only. */
  lemma SendRingSame(slots: seq<Slot>, s: Snd, s1: Snd)
    requires SendRing(slots, s) && s1.base == s.base && s1.log == s.log && s1.receipt == s.receipt
    ensures SendRing(slots, s1)
  {
    forall i | 0 <= i < RING ensures SendSlotOk(slots[i], s1, i) {
      assert SendSlotOk(slots[i], s, i);
    }
  }

  /** When a packet was last sent does not matter to the ring. */
  lemma SendRingStamp(slots: seq<Slot>, s: Snd, k: nat, now: Millis)
    requires SendRing(slots, s) && k < RING
    ensures SendRing(slots[k := slots[k].(sentAtMs := now)], s)
  {
    var slots1 := slots[k := slots[k].(sentAtMs := now)];
    forall i | 0 <= i < RING ensures SendSlotOk(slots1[i], s, i) {
      assert SendSlotOk(slots[i], s, i);
    }
  }

  predicate AllEmpty(slots: seq<Slot>) {
    |slots| == RING && forall i :: 0 <= i < RING ==> !slots[i].present
  }

  lemma SendRingEmpty(slots: seq<Slot>, s: Snd)
    requires AllEmpty(slots) && s.receipt == s.Sent()
    ensures SendRing(slots, s)
  {
    forall i | 0 <= i < RING ensures SendSlotOk(slots[i], s, i) {
      assert Resident(s.Sent(), i) <= s.receipt;
    }
  }

  /** The receive ring depends on what has arrived and what has been consumed only. */
  lemma RcvRingSame(slots: seq<Slot>, r: Rcv, r1: Rcv)
    requires RcvRing(slots, r) && r1.read == r.read && r1.q == r.q && r1.offset == r.offset
    ensures RcvRing(slots, r1)
  {
    forall i | 0 <= i < RING ensures RcvSlotOk(slots[i], r1, i) {
      assert RcvSlotOk(slots[i], r, i);
    }
  }

  /** The slot of an unreceipted number holds it. */
  lemma SendSlotAt(slots: seq<Slot>, s: Snd, n: int)
    requires SendRing(slots, s) && s.Sent() - s.receipt < RING && s.receipt < n <= s.Sent()
    ensures var p := slots[Index(Wrap(n))];
      p.present && p.num == Wrap(n) && s.base < n && Pkt(p.op, p.data) == s.Nth(n)
  {
    IndexOfWrap(n);
    ResidentOf(s.Sent(), n, n % RING);
    assert SendSlotOk(slots[n % RING], s, n % RING);
  }

  /** The slot of a number in the window tells whether it has arrived. */
  lemma RcvSlotAt(slots: seq<Slot>, r: Rcv, n: int)
    requires RcvRing(slots, r) && r.read < n <= r.read + RING
    ensures var p := slots[Index(Wrap(n))];
      && (n in r.q <==> p.present && p.num == Wrap(n))
      && (n in r.q <==> p.present)
      && (n in r.q ==> Pkt(p.op, p.data) == r.q[n] && p.offset == if n == r.read + 1 then r.offset else 0)
  {
    IndexOfWrap(n);
    ResidentOf(r.read + RING, n, n % RING);
    assert RcvSlotOk(slots[n % RING], r, n % RING);
  }

  /** The same test also rejects the number just beyond a full ring. */
  lemma RcvSlotTest(slots: seq<Slot>, r: Rcv, n: int)
    requires RcvRing(slots, r) && r.read < n <= r.read + RING + 1
    requires forall k :: k in r.q ==> k <= r.read + RING
    ensures var p := slots[Index(Wrap(n))];
      && (n in r.q <==> p.present && p.num == Wrap(n))
      && (n in r.q ==> p.op == r.q[n].op)
  {
    if n <= r.read + RING {
      RcvSlotAt(slots, r, n);
    } else {
      IndexOfWrap(n);
      Multiples(n, -1);
      ResidentOf(r.read + RING, n - RING, n % RING);
      assert RcvSlotOk(slots[n % RING], r, n % RING);
      WrapEqual(n, n - RING);
    }
  }

  /** Numbering one more packet fills its slot, which was empty. */
  lemma SendRingPush(slots: seq<Slot>, s: Snd, p: Slot)
    requires SendRing(slots, s) && s.base <= s.receipt <= s.Sent() && s.Sent() - s.receipt < RING
    requires p.present && p.num == Wrap(s.Sent() + 1)
    ensures var s1 := s.(log := s.log + [Pkt(p.op, p.data)]);
      var k := Index(Wrap(s.Sent() + 1));
      !slots[k].present && SendRing(slots[k := p], s1)
  {
    var s1 := s.(log := s.log + [Pkt(p.op, p.data)]);
    var n := s.Sent() + 1;
    var k := Index(Wrap(n));
    IndexOfWrap(n);
    Multiples(n, -1);
    ResidentOf(s.Sent(), n - RING, k);
    assert SendSlotOk(slots[k], s, k);
    var slots1 := slots[k := p];
    forall i | 0 <= i < RING ensures SendSlotOk(slots1[i], s1, i) {
      ResidentMoves(s.Sent(), i);
      assert SendSlotOk(slots[i], s, i);
    }
  }

  /** Emptying the slots of the numbers a receipt covers. */
  lemma SendRingPop(slots: seq<Slot>, s: Snd)
    requires SendRing(slots, s) && s.base <= s.receipt < s.Sent() && s.Sent() - s.receipt < RING
    ensures var k := Index(Wrap(s.receipt + 1));
      SendRing(slots[k := slots[k].(present := false)], s.(receipt := s.receipt + 1))
  {
    var n := s.receipt + 1;
    var k := Index(Wrap(n));
    IndexOfWrap(n);
    var slots1 := slots[k := slots[k].(present := false)];
    forall i | 0 <= i < RING ensures SendSlotOk(slots1[i], s.(receipt := n), i) {
      ResidentOf(s.Sent(), n, i);
      assert SendSlotOk(slots[i], s, i);
    }
  }

  /** Storing an arrival fills the slot of its number. */
  lemma RcvRingPut(slots: seq<Slot>, r: Rcv, n: int, p: Slot)
    requires RcvRing(slots, r) && r.read < n <= r.read + RING && n !in r.q
    requires p.present && p.num == Wrap(n) && p.offset == 0 && (n == r.read + 1 ==> r.offset == 0)
    ensures var k := Index(Wrap(n));
      !slots[k].present && RcvRing(slots[k := p], r.(q := r.q[n := Pkt(p.op, p.data)]))
  {
    var k := Index(Wrap(n));
    IndexOfWrap(n);
    RcvSlotAt(slots, r, n);
    var slots1 := slots[k := p];
    forall i | 0 <= i < RING ensures RcvSlotOk(slots1[i], r.(q := r.q[n := Pkt(p.op, p.data)]), i) {
      ResidentOf(r.read + RING, n, i);
      assert RcvSlotOk(slots[i], r, i);
    }
  }

  /** Letting go of the next packet frees its slot for a number 64 further on. */
  lemma RcvRingPass(slots: seq<Slot>, r: Rcv)
    requires RcvRing(slots, r) && r.read + 1 in r.q
    requires forall n :: n in r.q ==> n <= r.read + RING
    ensures var k := Index(Wrap(r.read + 1));
      RcvRing(slots[k := slots[k].(present := false)], Pass(r))
  {
    var k := Index(Wrap(r.read + 1));
    IndexOfWrap(r.read + 1);
    Multiples(r.read + 1, 1);
    var slots1 := slots[k := slots[k].(present := false)];
    forall i | 0 <= i < RING ensures RcvSlotOk(slots1[i], Pass(r), i) {
      ResidentMoves(r.read + RING, i);
      assert RcvSlotOk(slots[i], r, i);
    }
  }

  /** Reading part of the next packet moves the offset in its slot. */
  lemma RcvRingPart(slots: seq<Slot>, r: Rcv, offset: nat)
    requires RcvRing(slots, r) && r.read + 1 in r.q
    ensures var k := Index(Wrap(r.read + 1));
      RcvRing(slots[k := slots[k].(offset := offset)], r.(offset := offset))
  {
    var k := Index(Wrap(r.read + 1));
    IndexOfWrap(r.read + 1);
    var slots1 := slots[k := slots[k].(offset := offset)];
    forall i | 0 <= i < RING ensures RcvSlotOk(slots1[i], r.(offset := offset), i) {
      ResidentOf(r.read + RING, r.read + 1, i);
      assert RcvSlotOk(slots[i], r, i);
    }
  }

  /** Two numbers of one window that share a slot. */
  predicate Share(read: int, window: nat, m: int, n: int) {
    read < m <= read + window && read < n <= read + window && Index(Wrap(m)) == Index(Wrap(n))
  }

  /** What the receive ring needs of a window: in one of more than 64 packets two
      different numbers would share a slot; in one of 64 or fewer none do. */
  lemma WindowFitsRing(window: nat)
    ensures window <= RING <==> forall read: int, m: int, n: int :: Share(read, window, m, n) ==> m == n
  {
    if window <= RING {
      forall read: int, m: int, n: int | Share(read, window, m, n) ensures m == n {
        IndexOfWrap(m);
        IndexOfWrap(n);
        ResidentOf(read + RING, m, m % RING);
        ResidentOf(read + RING, n, m % RING);
      }
    } else {
      IndexOfWrap(1);
      IndexOfWrap(1 + RING);
      assert Share(0, window, 1, 1 + RING);
    }
  }
}
