/** The order in which instructions are executed and the bits they are made of, in plain numbers. */
module InstructionOrder {
  import opened Ivory
  import opened InstructionCache

  /** Half-words numbered through. */
  function HalfAddress(pc: Pc): nat { 2 * pc.addr + if pc.odd then 1 else 0 }

  /** Every word of [lo, hi] has the given cdr code. */
  ghost predicate AllCdr(mem: Memory, lo: int, hi: int, cdr: int) {
    forall a: u32 | lo <= a <= hi :: mem(a).tag / 64 == cdr
  }

  /** No jump is taken in the first n instructions. */
  predicate Straight(choices: seq<Option<Pc>>, n: nat) {
    n <= |choices| && forall i :: 0 <= i < n ==> choices[i].None?
  }

  lemma StepIs(mem: Memory, start: Pc, choices: seq<Option<Pc>>, n: nat)
    requires Straight(choices, n + 1)
    ensures var pc, pc1 := PcAt(mem, start, choices, n), PcAt(mem, start, choices, n + 1);
      && (mem(pc.addr).tag / 64 == 0 && pc.addr < 0xFFFF_FFFF ==> HalfAddress(pc1) == HalfAddress(pc) + 1)
      && (mem(pc.addr).tag / 64 == 2 && pc.addr > 0 ==> HalfAddress(pc1) == HalfAddress(pc) - 1)
      && (mem(pc.addr).tag / 64 == 3 && pc.addr < 0xFFFF_FFFE ==>
          HalfAddress(pc1) == HalfAddress(pc) + if pc.odd then 3 else 2)
  {
    var pc := PcAt(mem, start, choices, n);
    assert choices[n].None?;
    assert PcAt(mem, start, choices, n + 1) == Successor(mem(pc.addr), pc);
    hide PcAt;
    CdrDecides(mem(pc.addr), pc);
  }

  lemma CdrDecides(w: LispObj, pc: Pc)
    ensures w.tag / 64 == 0 && pc.addr < 0xFFFF_FFFF ==> HalfAddress(Successor(w, pc)) == HalfAddress(pc) + 1
    ensures w.tag / 64 == 2 && pc.addr > 0 ==> HalfAddress(Successor(w, pc)) == HalfAddress(pc) - 1
    ensures w.tag / 64 == 3 && pc.addr < 0xFFFF_FFFE ==>
      HalfAddress(Successor(w, pc)) == HalfAddress(pc) + if pc.odd then 3 else 2
  {}

  lemma UpperTypes(tag: u8)
    ensures (tag / 16) % 4 == 3 <==> tag % 64 >= 48
  {
    assert tag == 64 * (tag / 64) + tag % 64;
    assert tag / 16 == 4 * (tag / 64) + (tag % 64) / 16;
  }

  lemma SameHalf(pc: Pc, pc1: Pc)
    requires HalfAddress(pc) == HalfAddress(pc1)
    ensures pc == pc1
  {}

  /** In words of cdr code 0 every half is executed, one after the other. */
  lemma {:induction false} CodeZeroRunsOn(mem: Memory, start: Pc, choices: seq<Option<Pc>>, n: nat)
    requires Straight(choices, n) && HalfAddress(start) + n < 0x2_0000_0000
    requires AllCdr(mem, start.addr, (HalfAddress(start) + n - 1) / 2, 0)
    ensures HalfAddress(PcAt(mem, start, choices, n)) == HalfAddress(start) + n
  {
    if n > 0 {
      CodeZeroRunsOn(mem, start, choices, n - 1);
      StepIs(mem, start, choices, n - 1);
    }
  }

  /** In words of cdr code 2 they are executed backwards. */
  lemma {:induction false} CodeTwoRunsBack(mem: Memory, start: Pc, choices: seq<Option<Pc>>, n: nat)
    requires Straight(choices, n) && n <= HalfAddress(start)
    requires AllCdr(mem, (HalfAddress(start) - n + 1) / 2, start.addr, 2)
    ensures HalfAddress(PcAt(mem, start, choices, n)) == HalfAddress(start) - n
  {
    if n > 0 {
      CodeTwoRunsBack(mem, start, choices, n - 1);
      StepIs(mem, start, choices, n - 1);
    }
  }

  /** In words of cdr code 3 the even half of each is executed; a run that begins at an odd half skips
      the next word. */
  lemma {:induction false} CodeThreeTakesEvens(mem: Memory, start: Pc, choices: seq<Option<Pc>>, n: nat)
    requires Straight(choices, n) && AllCdr(mem, start.addr, 0xFFFF_FFFF, 3) && start.addr + n + 1 < 0x1_0000_0000
    ensures PcAt(mem, start, choices, n) ==
      if n == 0 then start else Pc(start.addr + n + (if start.odd then 1 else 0), false)
  {
    if n > 0 {
      CodeThreeTakesEvens(mem, start, choices, n - 1);
      StepIs(mem, start, choices, n - 1);
      SameHalf(PcAt(mem, start, choices, n), Pc(start.addr + n + (if start.odd then 1 else 0), false));
    }
  }

  /** A straight run from the even half of a over packed words: first both halves of a, then both of
      the next. */
  lemma PackedRunIsInOrder(mem: Memory, a: u32, choices: seq<Option<Pc>>, n: nat)
    requires Straight(choices, n) && a + n / 2 + 1 < 0x1_0000_0000 && AllCdr(mem, a, a + n / 2, 0)
    ensures PcAt(mem, Pc(a, false), choices, n) == Pc(a + n / 2, n % 2 == 1)
  {
    CodeZeroRunsOn(mem, Pc(a, false), choices, n);
    SameHalf(PcAt(mem, Pc(a, false), choices, n), Pc(a + n / 2, n % 2 == 1));
  }

  /** After a jump execution goes on where it leads. */
  lemma JumpIsTaken(mem: Memory, start: Pc, choices: seq<Option<Pc>>, n: nat)
    requires n < |choices| && choices[n].Some?
    ensures PcAt(mem, start, choices, n + 1) == choices[n].value
  {}

  /** The two instructions of a packed word are its lower 36 bits, the odd one above the even one; each
      is decoded by its leading ten bits. */
  lemma HalvesAreTheWord(d: Decoders, w: LispObj)
    requires w.tag / 64 != 1 && (w.tag / 64 == 0 || w.tag % 64 >= 48)
    ensures var even, odd := Fetch(d, w, false), Fetch(d, w, true);
      && even.instruction < 0x4_0000 && odd.instruction < 0x4_0000
      && odd.instruction * 0x4_0000 + even.instruction == (w.tag % 16) * 0x1_0000_0000 + w.data
      && even.decoding == d.half(even.instruction / 256, w.data)
      && odd.decoding == d.half(odd.instruction / 256, odd.instruction)
  {
    UpperTypes(w.tag);
    assert w.data == 0x4_0000 * (w.data / 0x4_0000) + w.data % 0x4_0000;
  }

  /** Any other word is one instruction, decoded by its type, or none; its odd half is none. */
  lemma FullWordIsOne(d: Decoders, w: LispObj)
    requires w.tag / 64 == 1 || (w.tag / 64 != 0 && w.tag % 64 < 48)
    ensures Fetch(d, w, true).decoding.code == ILLEGAL
    ensures var even := Fetch(d, w, false).decoding;
      if w.tag / 64 == 1 then even.code == ILLEGAL else even == Decoding(d.full(w.tag % 64), Some(w.data))
  {
    UpperTypes(w.tag);
  }
}
