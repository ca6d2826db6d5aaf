/** The cache of decoded instructions, whose entries are linked in program order. */
module InstructionCache {
  import opened Ivory

  const SIZE := 2048
  const SLOTS := 1024
  const LINE := 64
  const WORDS := 32
  /** The address every entry carries before its line is first filled. */
  const UNFILLED: u32 := 0xFFFF_FFFF
  /** The code of an instruction that traps instead of executing. */
  const ILLEGAL := -1

  // ---------------------------------------------------------------- Program counters

  /** A word holds two half-word instructions; a full-word one sits at the even half. */
  datatype Pc = Pc(addr: u32, odd: bool)

  function Half(odd: bool): nat { if odd then 1 else 0 }
  function Wrap32(a: int): u32 { a % 0x1_0000_0000 }
  function Index(pc: Pc): nat { 2 * (pc.addr % SLOTS) + Half(pc.odd) }
  function Block(addr: u32): u32 { addr - addr % WORDS }

  /** The word is 32 words or more from the ends of the address space.  In the lowest block a link
      before the line goes unnoticed; the bound of the highest one wraps round to 0, so that its
      line is never filled. */
  predicate InRange(pc: Pc) { WORDS <= pc.addr < 0xFFFF_FFE0 }

  // ---------------------------------------------------------------- Instructions in memory

  /** What a decoder stores; no operand when it leaves the old one in place. */
  datatype Decoding = Decoding(code: int, operand: Option<int>)

  /** The dispatch tables: full words by type, half words by their leading ten bits. */
  datatype Decoders = Decoders(full: nat -> int, half: (nat, nat) -> Decoding)

  datatype Fetched = Fetched(decoding: Decoding, instruction: nat)

  predicate Packed(w: LispObj) { TagCdr(w.tag) == 0 || (w.tag / 16) % 4 == 3 }

  function HalfWord(d: Decoders, instruction: nat, word: nat): Fetched {
    Fetched(d.half(instruction / 256, word), instruction)
  }

  /** The instruction at one half of a word, decoded without any cache. */
  function Fetch(d: Decoders, w: LispObj, odd: bool): Fetched {
    if TagCdr(w.tag) == 1 then Fetched(Decoding(ILLEGAL, Some(0)), 0)
    else if Packed(w) then
      if odd then
        var instruction := (w.tag % 16) * 0x4000 + w.data / 0x4_0000;
        HalfWord(d, instruction, instruction)
      else HalfWord(d, w.data % 0x4_0000, w.data)
    else if odd then Fetched(Decoding(ILLEGAL, Some(0)), 0)
    else Fetched(Decoding(d.full(TagType(w.tag)), Some(w.data)), 0)
  }

  /** Where execution goes on after the instruction at pc: the word's cdr code says. */
  function Successor(w: LispObj, pc: Pc): Pc {
    match TagCdr(w.tag)
    case 0 => if pc.odd then Pc(Wrap32(pc.addr + 1), false) else Pc(pc.addr, true)
    case 3 => Pc(Wrap32(pc.addr + if pc.odd then 2 else 1), false)
    case 2 => if pc.odd then Pc(pc.addr, false) else Pc(Wrap32(pc.addr - 1), true)
    case _ => pc
  }

  // ---------------------------------------------------------------- Entries

  datatype Link = Lookup | At(index: int)

  datatype Entry = Entry(addr: u32, next: Pc, link: Link, code: int, operand: int, instruction: nat)

  predicate Decodes(f: Fetched, e: Entry) {
    e.code == f.decoding.code && e.instruction == f.instruction &&
    (f.decoding.operand.Some? ==> e.operand == f.decoding.operand.value)
  }

  type Memory = u32 -> LispObj

  /** e holds the instruction at pc and, unless its word is illegal, the address that follows. */
  predicate Holds(d: Decoders, mem: Memory, e: Entry, pc: Pc) {
    e.addr == pc.addr && Decodes(Fetch(d, mem(pc.addr), pc.odd), e) &&
    (TagCdr(mem(pc.addr).tag) != 1 ==> e.next == Successor(mem(pc.addr), pc))
  }

  /** The link was found by counting half-words from entry i, whether or not that stays in the line. */
  predicate Counted(mem: Memory, e: Entry, pc: Pc, i: int) {
    TagCdr(mem(pc.addr).tag) != 1 ==>
    e.link == Lookup || e.link == At(i + 2 * (e.next.addr - pc.addr) + Half(e.next.odd) - Half(pc.odd))
  }

  /** Entry i belongs to the half-word at pc of the word w, and what follows it is noted. */
  predicate Follows(w: LispObj, e: Entry, pc: Pc, i: int) {
    e.addr == pc.addr && (TagCdr(w.tag) != 1 ==> e.next == Successor(w, pc)) && Counted(_ => w, e, pc, i)
  }

  /** Nothing but what a decoder finds has changed. */
  predicate OnlyDecoded(e: Entry, e1: Entry) {
    e1 == e.(code := e1.code, operand := e1.operand, instruction := e1.instruction)
  }

  /** The link leads to the entry of the next instruction in the same line, or to a lookup. */
  predicate Linked(mem: Memory, e: Entry, pc: Pc) {
    TagCdr(mem(pc.addr).tag) != 1 ==>
    e.link == Lookup || (Block(e.next.addr) == Block(pc.addr) && e.link == At(Index(e.next)))
  }

  function PcOf(block: u32, k: int): Pc
    requires 0 <= k < LINE && block < UNFILLED - WORDS
  {
    Pc(block + k / 2, k % 2 == 1)
  }

  ghost predicate Home(block: u32, line: nat) {
    block % WORDS == 0 && WORDS <= block <= 0xFFFF_FFC0 && block % SLOTS == WORDS * line
  }

  function Cell(s: seq<Entry>, line: nat, k: int): Entry
    requires |s| == SIZE && line < WORDS && 0 <= k < LINE
  {
    s[LINE * line + k]
  }

  ghost predicate Filled(d: Decoders, mem: Memory, s: seq<Entry>, line: nat, block: u32)
    requires |s| == SIZE && line < WORDS && Home(block, line)
  {
    forall k | 0 <= k < LINE ::
      Holds(d, mem, Cell(s, line, k), PcOf(block, k)) && Linked(mem, Cell(s, line, k), PcOf(block, k))
  }

  ghost predicate Empty(s: seq<Entry>, line: nat)
    requires |s| == SIZE && line < WORDS
  {
    forall k | 0 <= k < LINE :: Cell(s, line, k).addr == UNFILLED
  }

  ghost predicate LineOk(d: Decoders, mem: Memory, s: seq<Entry>, line: nat)
    requires |s| == SIZE && line < WORDS
  {
    Empty(s, line) || (Home(s[LINE * line].addr, line) && Filled(d, mem, s, line, s[LINE * line].addr))
  }

  /** Every line is either untouched or holds one block of memory, decoded and linked. */
  ghost predicate Sound(d: Decoders, mem: Memory, s: seq<Entry>) {
    |s| == SIZE && forall line: nat | line < WORDS :: LineOk(d, mem, s, line)
  }

  // ---------------------------------------------------------------- Index arithmetic

  lemma Remainder(q: int, r: int)
    ensures 0 <= r < WORDS ==> (WORDS * q + r) % WORDS == r
    ensures 0 <= r < SLOTS ==> (SLOTS * q + r) % SLOTS == r
    ensures 0 <= r < SIZE ==> (SIZE * q + r) % SIZE == r
  {}

  /** Shifting an address and masking it is doubling its place in the cache. */
  lemma Doubled(a: nat)
    ensures (2 * a) % SIZE == 2 * (a % SLOTS)
  {
    Remainder(a / SLOTS, 2 * (a % SLOTS));
    assert 2 * a == SIZE * (a / SLOTS) + 2 * (a % SLOTS);
  }

  lemma IndexInBlock(block: u32, line: nat, k: int)
    requires line < WORDS && Home(block, line) && 0 <= k < LINE
    ensures Index(PcOf(block, k)) == LINE * line + k && Block(PcOf(block, k).addr) == block
  {
    var q, half := block / SLOTS, k / 2;
    assert block == SLOTS * q + WORDS * line;
    Remainder(q, WORDS * line + half);
    Remainder(WORDS * q + line, half);
    assert (block + half) % SLOTS == WORDS * line + half;
    assert (block + half) % WORDS == half;
  }

  lemma BlockHasHome(addr: u32) returns (line: nat)
    requires WORDS <= addr < 0xFFFF_FFE0
    ensures line < WORDS && Home(Block(addr), line)
  {
    BlockBounds(addr);
    Digits(addr / WORDS);
    line := addr / WORDS % WORDS;
    HomeIs(Block(addr), addr / WORDS, addr / WORDS / WORDS, line);
  }

  lemma BlockBounds(addr: u32)
    requires WORDS <= addr < 0xFFFF_FFE0
    ensures Block(addr) == 32 * (addr / 32) && 32 <= Block(addr) <= 0xFFFF_FFC0
  {
    Digits(addr);
  }

  lemma HomeIs(block: u32, q: nat, r: nat, line: nat)
    requires 32 <= block <= 0xFFFF_FFC0 && block == 32 * q && q == 32 * r + line && line < 32
    ensures Home(block, line)
  {
    Modulo32(q);
    Modulo1024(r, 32 * line);
    assert block == 1024 * r + 32 * line;
  }

  lemma Modulo32(q: int)
    ensures (32 * q) % 32 == 0
  {}

  lemma Modulo1024(r: int, x: int)
    requires 0 <= x < 1024
    ensures (1024 * r + x) % 1024 == x
  {}

  lemma Digits(a: nat)
    ensures a == WORDS * (a / WORDS) + a % WORDS && 0 <= a % WORDS < WORDS
  {}

  /** Which block and entry of its line an address in range belongs to. */
  lemma HomeOf(pc: Pc) returns (line: nat, k: int)
    requires InRange(pc)
    ensures line < WORDS && 0 <= k < LINE && Home(Block(pc.addr), line)
    ensures pc == PcOf(Block(pc.addr), k) && Index(pc) == LINE * line + k
  {
    hide Home;
    line := BlockHasHome(pc.addr);
    k := 2 * (pc.addr % WORDS) + Half(pc.odd);
    assert Block(pc.addr) <= 0xFFFF_FFC0;
    IndexInBlock(Block(pc.addr), line, k);
  }

  /** An entry that holds the requested address belongs to a filled line and is the right one. */
  lemma HitIsRight(d: Decoders, mem: Memory, s: seq<Entry>, pc: Pc)
    requires Sound(d, mem, s) && InRange(pc) && s[Index(pc)].addr == pc.addr
    ensures Holds(d, mem, s[Index(pc)], pc) && Linked(mem, s[Index(pc)], pc)
  {
    var line, k := HomeOf(pc);
    assert LineOk(d, mem, s, line);
    assert Cell(s, line, k).addr == pc.addr;
    var block := s[LINE * line].addr;
    assert !Empty(s, line);
    assert PcOf(block, k).addr == pc.addr;
  }

  /** The whole of a filled line answers for its block. */
  lemma SameLine(d: Decoders, mem: Memory, s: seq<Entry>, pc: Pc, next: Pc)
    requires Sound(d, mem, s) && InRange(pc) && s[Index(pc)].addr == pc.addr
    requires Block(next.addr) == Block(pc.addr)
    ensures InRange(next) && s[Index(next)].addr == next.addr
  {
    var line, k := HomeOf(pc);
    assert LineOk(d, mem, s, line);
    assert Cell(s, line, k).addr == pc.addr;
    var block := s[LINE * line].addr;
    assert !Empty(s, line);
    assert PcOf(block, k).addr == pc.addr;
    IndexInBlock(block, line, k);
    assert block == Block(pc.addr);
    var line1, k1 := HomeOf(next);
    assert line1 == line;
    assert Holds(d, mem, Cell(s, line, k1), PcOf(block, k1));
  }

  /** The cache pointer is the entry a lookup of pc would find, unless a lookup is due. */
  ghost predicate Ready(s: seq<Entry>, pc: Pc, link: Link) {
    |s| == SIZE && (link == Lookup || (InRange(pc) && link == At(Index(pc)) && s[Index(pc)].addr == pc.addr))
  }

  /** Following a link arrives at the entry a lookup of the next address would find. */
  lemma LinkIsLookup(d: Decoders, mem: Memory, s: seq<Entry>, pc: Pc)
    requires Sound(d, mem, s) && InRange(pc) && s[Index(pc)].addr == pc.addr
    requires TagCdr(mem(pc.addr).tag) != 1
    ensures s[Index(pc)].next == Successor(mem(pc.addr), pc)
    ensures Ready(s, Successor(mem(pc.addr), pc), s[Index(pc)].link)
  {
    HitIsRight(d, mem, s, pc);
    if s[Index(pc)].link != Lookup {
      SameLine(d, mem, s, pc, s[Index(pc)].next);
    }
  }

  /** A counted link that stays in its block is the right one. */
  lemma CountedIsLinked(mem: Memory, e: Entry, block: u32, line: nat, k: int)
    requires line < WORDS && Home(block, line) && 0 <= k < LINE
    requires Counted(mem, e, PcOf(block, k), LINE * line + k)
    requires TagCdr(mem(block + k / 2).tag) != 1 ==> e.link == Lookup || block <= e.next.addr < block + WORDS
    ensures Linked(mem, e, PcOf(block, k))
  {
    IndexInBlock(block, line, k);
    if TagCdr(mem(block + k / 2).tag) != 1 && e.link != Lookup {
      var k1 := 2 * (e.next.addr - block) + Half(e.next.odd);
      IndexInBlock(block, line, k1);
      assert PcOf(block, k1) == e.next;
    }
  }

  /** The words of the block below k are decoded and counted into line, and no other line changed. */
  ghost predicate Copied(d: Decoders, mem: Memory, s: seq<Entry>, s0: seq<Entry>, line: nat, block: u32, k: int)
    requires |s| == |s0| == SIZE && line < WORDS && Home(block, line) && 0 <= k <= LINE
  {
    (forall i | 0 <= i < k ::
      && Holds(d, mem, Cell(s, line, i), PcOf(block, i))
      && Counted(mem, Cell(s, line, i), PcOf(block, i), LINE * line + i)) &&
    forall i | 0 <= i < SIZE && i / LINE != line :: s[i] == s0[i]
  }

  /** The line as copied, with the entries that can lead out of it mended. */
  ghost predicate Edged(s: seq<Entry>, s0: seq<Entry>, line: nat, block: u32)
    requires |s| == |s0| == SIZE && line < WORDS
  {
    (forall i | 0 <= i < SIZE && i != LINE * line && !(LINE * line + LINE - 4 <= i < LINE * line + LINE) ::
      s[i] == s0[i]) &&
    (s0[LINE * line].next.addr < block ==> s[LINE * line] == s0[LINE * line].(link := Lookup)) &&
    (s0[LINE * line].next.addr >= block ==> s[LINE * line] == s0[LINE * line]) &&
    forall i | LINE * line + LINE - 4 <= i < LINE * line + LINE ::
      s[i] == if s0[i].next.addr >= block + WORDS then s0[i].(link := Lookup) else s0[i]
  }

  /** Only the first entry and the last four can lead out of the block. */
  lemma StaysInBlock(w: LispObj, block: u32, line: nat, k: int)
    requires line < WORDS && Home(block, line) && 0 <= k < LINE && TagCdr(w.tag) != 1
    ensures 1 <= k < LINE - 4 ==>
              block <= Successor(w, PcOf(block, k)).addr < block + WORDS
  {
    assert 32 <= block <= 0xFFFF_FFC0;
    hide Home;
    var pc := PcOf(block, k);
    assert pc.addr == block + k / 2;
    hide PcOf;
  }

  /** Mending the edges leaves no link out of the line. */
  lemma MendedStays(w: LispObj, e: Entry, s: seq<Entry>, s1: seq<Entry>, line: nat, block: u32, k: int)
    requires |s| == |s1| == SIZE && line < WORDS && Home(block, line) && 0 <= k < LINE
    requires Edged(s, s1, line, block) && TagCdr(w.tag) != 1 && e == Cell(s1, line, k)
    requires e.next == Successor(w, PcOf(block, k))
    ensures var e1 := Cell(s, line, k); e1 == e.(link := e1.link) && (e1.link == Lookup || e1.link == e.link)
    ensures var e1 := Cell(s, line, k); e1.link == Lookup || block <= e1.next.addr < block + WORDS
  {
    StaysInBlock(w, block, line, k);
    hide Successor;
    assert LINE * line + k < SIZE;
  }

  lemma MendedIsLinked(d: Decoders, mem: Memory, s: seq<Entry>, s1: seq<Entry>, s0: seq<Entry>,
                       line: nat, block: u32, k: int)
    requires |s| == |s1| == |s0| == SIZE && line < WORDS && Home(block, line) && 0 <= k < LINE
    requires Copied(d, mem, s1, s0, line, block, LINE) && Edged(s, s1, line, block)
    ensures Holds(d, mem, Cell(s, line, k), PcOf(block, k)) && Linked(mem, Cell(s, line, k), PcOf(block, k))
  {
    hide Fetch; hide Linked; hide Index;
    var pc := PcOf(block, k);
    var w := mem(pc.addr);
    var e1 := Cell(s1, line, k);
    assert Holds(d, mem, e1, pc) && Counted(mem, e1, pc, LINE * line + k);
    if TagCdr(w.tag) != 1 {
      MendedStays(w, e1, s, s1, line, block, k);
    }
    CountedIsLinked(mem, Cell(s, line, k), block, line, k);
  }

  lemma FillKeepsSound(d: Decoders, mem: Memory, s: seq<Entry>, s1: seq<Entry>, s0: seq<Entry>, line: nat, block: u32)
    requires |s| == |s1| == SIZE && line < WORDS && Home(block, line) && Sound(d, mem, s0)
    requires Copied(d, mem, s1, s0, line, block, LINE) && Edged(s, s1, line, block)
    ensures Sound(d, mem, s) && Filled(d, mem, s, line, block)
  {
    forall k | 0 <= k < LINE
      ensures Holds(d, mem, Cell(s, line, k), PcOf(block, k)) && Linked(mem, Cell(s, line, k), PcOf(block, k))
    {
      MendedIsLinked(d, mem, s, s1, s0, line, block, k);
    }
    forall other: nat | other < WORDS
      ensures LineOk(d, mem, s, other)
    {
      if other == line {
        assert Cell(s, line, 0).addr == block;
      } else {
        assert LineOk(d, mem, s0, other);
        forall k | 0 <= k < LINE
          ensures Cell(s, other, k) == Cell(s0, other, k)
        {}
        assert Cell(s, other, 0) == Cell(s0, other, 0);
      }
    }
  }

  /** The guard on the first entry sees that its predecessor lies outside the line exactly when
      the block is not the lowest of memory, where the predecessor's address wraps round. */
  lemma FirstLinkIsGuarded(w: LispObj, block: u32)
    requires block % WORDS == 0 && block < 0xFFFF_FFE0 && TagCdr(w.tag) == 2
    ensures Successor(w, Pc(block, false)).addr < block <==> block != 0
  {}

  // ---------------------------------------------------------------- Runs

  /** The program counter before step n, when step i goes on in sequence unless choices[i] names
      another address (a branch taken, a call, a return or a trap). */
  ghost function PcAt(mem: Memory, start: Pc, choices: seq<Option<Pc>>, n: nat): Pc
    requires n <= |choices|
  {
    if n == 0 then start
    else if choices[n - 1].Some? then choices[n - 1].value
    else
      var pc := PcAt(mem, start, choices, n - 1);
      Successor(mem(pc.addr), pc)
  }

  /** The run stays away from the ends of memory, and an illegal instruction traps elsewhere. */
  ghost predicate Runs(d: Decoders, mem: Memory, start: Pc, choices: seq<Option<Pc>>) {
    forall n: nat | n < |choices| ::
      var pc := PcAt(mem, start, choices, n);
      InRange(pc) && (Fetch(d, mem(pc.addr), pc.odd).decoding.code == ILLEGAL ==> choices[n].Some?)
  }

  /** One executed instruction: the pc register and the entry dispatched on. */
  datatype Step = Step(pc: Pc, entry: Entry)

  /** The trace is what fetching every instruction from memory would have executed. */
  ghost predicate FetchesFromMemory(d: Decoders, mem: Memory, start: Pc, choices: seq<Option<Pc>>, trace: seq<Step>) {
    |trace| <= |choices| &&
    forall n: nat | n < |trace| ::
      trace[n].pc == PcAt(mem, start, choices, n) && Holds(d, mem, trace[n].entry, trace[n].pc)
  }

  lemma NothingRun(d: Decoders, mem: Memory, start: Pc, choices: seq<Option<Pc>>, s: seq<Entry>)
    requires Sound(d, mem, s)
    ensures FetchesFromMemory(d, mem, start, choices, []) && PcAt(mem, start, choices, 0) == start
    ensures Ready(s, start, Lookup)
  {}

  lemma RunsOn(d: Decoders, mem: Memory, start: Pc, choices: seq<Option<Pc>>, n: nat)
    requires Runs(d, mem, start, choices) && n < |choices|
    ensures var pc := PcAt(mem, start, choices, n);
            InRange(pc) && (Fetch(d, mem(pc.addr), pc.odd).decoding.code == ILLEGAL ==> choices[n].Some?) &&
            PcAt(mem, start, choices, n + 1) ==
              if choices[n].Some? then choices[n].value else Successor(mem(pc.addr), pc)
  {}

  lemma TraceGrows(d: Decoders, mem: Memory, start: Pc, choices: seq<Option<Pc>>, trace: seq<Step>, step: Step)
    requires FetchesFromMemory(d, mem, start, choices, trace) && |trace| < |choices|
    requires step.pc == PcAt(mem, start, choices, |trace|) && Holds(d, mem, step.entry, step.pc)
    ensures FetchesFromMemory(d, mem, start, choices, trace + [step])
  {}

  class Cache {
    const entries: array<Entry>
    const decoders: Decoders

    constructor (decoders: Decoders, garbage: Entry)
      ensures this.decoders == decoders && fresh(entries) && entries.Length == SIZE
      ensures forall mem :: Sound(decoders, mem, entries[..])
    {
      this.decoders := decoders;
      entries := new Entry[SIZE](_ => garbage.(addr := UNFILLED));
      new;
      assert forall line: nat | line < WORDS :: Empty(entries[..], line);
    }

    /** Stores what a decoder found; without an operand the old one stays. */
    method Store(i: nat, f: Fetched)
      requires i < entries.Length
      modifies entries
      ensures Decodes(f, entries[i])
      ensures entries[..] == old(entries[..])[i := entries[i]]
      ensures OnlyDecoded(old(entries[i]), entries[i])
    {
      entries[i] := entries[i].(code := f.decoding.code, instruction := f.instruction);
      if f.decoding.operand.Some? {
        entries[i] := entries[i].(operand := f.decoding.operand.value);
      }
    }

    method Join(i: nat, addr: u32, next: Pc, link: Link)
      requires i < entries.Length
      modifies entries
      ensures entries[..] == old(entries[..])[i := old(entries[i]).(addr := addr, next := next, link := link)]
    {
      entries[i] := entries[i].(addr := addr, next := next, link := link);
    }

    /** Links and decodes both halves of one word. */
    method FillWord(even: nat, vma: u32, w: LispObj)
      requires entries.Length == SIZE && even + 1 < SIZE && WORDS <= vma < 0xFFFF_FFE0
      modifies entries
      ensures entries[..] == old(entries[..])[even := entries[even]][even + 1 := entries[even + 1]]
      ensures forall mem: Memory | mem(vma) == w ::
                && Holds(decoders, mem, entries[even], Pc(vma, false))
                && Counted(mem, entries[even], Pc(vma, false), even)
      ensures forall mem: Memory | mem(vma) == w ::
                && Holds(decoders, mem, entries[even + 1], Pc(vma, true))
                && Counted(mem, entries[even + 1], Pc(vma, true), even + 1)
    {
      LinkWord(even, vma, w);
      DecodeWord(even, w);
    }

    /** The successors of both halves, by the cdr code of the word. */
    method LinkWord(even: nat, vma: u32, w: LispObj)
      requires entries.Length == SIZE && even + 1 < SIZE && WORDS <= vma < 0xFFFF_FFE0
      modifies entries
      ensures entries[..] == old(entries[..])[even := entries[even]][even + 1 := entries[even + 1]]
      ensures Follows(w, entries[even], Pc(vma, false), even)
      ensures Follows(w, entries[even + 1], Pc(vma, true), even + 1)
    {
      var odd := even + 1;
      entries[even] := entries[even].(addr := vma);
      entries[odd] := entries[odd].(addr := vma);
      if TagCdr(w.tag) == 0 {
        Join(even, vma, Pc(vma, true), At(odd));
        Join(odd, vma, Pc(vma + 1, false), At(even + 2));
      } else if TagCdr(w.tag) == 3 {
        Join(even, vma, Pc(vma + 1, false), At(even + 2));
        Join(odd, vma, Pc(vma + 2, false), At(even + 4));
      } else if TagCdr(w.tag) == 2 {
        Join(even, vma, Pc(vma - 1, true), At(odd - 2));
        Join(odd, vma, Pc(vma, false), Lookup);
      }
    }

    /** The decoding of both halves, by the cdr code and the type of the word. */
    method DecodeWord(even: nat, w: LispObj)
      requires entries.Length == SIZE && even + 1 < SIZE
      modifies entries
      ensures entries[..] == old(entries[..])[even := entries[even]][even + 1 := entries[even + 1]]
      ensures Decodes(Fetch(decoders, w, false), entries[even])
      ensures Decodes(Fetch(decoders, w, true), entries[even + 1])
      ensures OnlyDecoded(old(entries[even]), entries[even]) && OnlyDecoded(old(entries[even + 1]), entries[even + 1])
    {
      var odd := even + 1;
      var packed := TagCdr(w.tag) == 0 || (w.tag / 16) % 4 == 3;
      if TagCdr(w.tag) == 1 {
        Store(even, Fetched(Decoding(ILLEGAL, Some(0)), 0));
        Store(odd, Fetched(Decoding(ILLEGAL, Some(0)), 0));
      } else if !packed {
        Store(even, Fetched(Decoding(decoders.full(TagType(w.tag)), Some(w.data)), 0));
        Store(odd, Fetched(Decoding(ILLEGAL, Some(0)), 0));
      } else {
        var instruction := w.data % 0x4_0000;
        Store(even, Fetched(decoders.half(instruction / 256, w.data), instruction));
        instruction := (w.tag % 16) * 0x4000 + w.data / 0x4_0000;
        Store(odd, Fetched(decoders.half(instruction / 256, instruction), instruction));
      }
    }

    /** Sends entry i to a lookup when its successor lies at the bound or beyond. */
    method MendEnd(i: nat, bound: nat)
      requires i < entries.Length
      modifies entries
      ensures entries[..] == old(entries[..])[i := entries[i]]
      ensures entries[i] ==
                if old(entries[i]).next.addr >= bound then old(entries[i]).(link := Lookup) else old(entries[i])
    {
      if entries[i].next.addr >= bound {
        entries[i] := entries[i].(link := Lookup);
      }
    }

    /** Sends the entries that lead out of the line to a lookup. */
    method MendEdges(line: nat, block: u32)
      requires entries.Length == SIZE && line < WORDS && Home(block, line)
      modifies entries
      ensures Edged(entries[..], old(entries[..]), line, block)
    {
      var cp, bound := LINE * line, block + WORDS;
      if entries[cp].next.addr < block {
        entries[cp] := entries[cp].(link := Lookup);
      }
      cp := cp + LINE - 4;
      MendEnd(cp, bound);
      MendEnd(cp + 1, bound);
      MendEnd(cp + 2, bound);
      MendEnd(cp + 3, bound);
    }

    /** Decodes the block's words one after the other into its line. */
    method CopyBlock(cp: nat, block: u32, mem: Memory, ghost line: nat)
      requires entries.Length == SIZE && line < WORDS && Home(block, line) && cp == LINE * line
      modifies entries
      ensures Copied(decoders, mem, entries[..], old(entries[..]), line, block, LINE)
    {
      hide Counted; hide Successor; hide Fetch; hide Holds;
      var vma, even := block, cp;
      while vma < block + WORDS
        invariant block <= vma <= block + WORDS && even == LINE * line + 2 * (vma - block)
        invariant Copied(decoders, mem, entries[..], old(entries[..]), line, block, 2 * (vma - block))
      {
        FillWord(even, vma, mem(vma));
        vma, even := vma + 1, even + 2;
      }
    }

    /** Fills the line of pc's block from memory, evicting whatever was there. */
    method Miss(pc: Pc, mem: Memory)
      requires InRange(pc) && Sound(decoders, mem, entries[..])
      modifies entries
      ensures Sound(decoders, mem, entries[..]) && entries[Index(pc)].addr == pc.addr
      ensures forall i | 0 <= i < SIZE && i / LINE != Index(pc) / LINE :: entries[i] == old(entries[i])
    {
      hide Linked; hide LineOk; hide Index;
      ghost var line, k := HomeOf(pc);
      var block := pc.addr - pc.addr % WORDS;
      Doubled(block);
      var cp := (2 * block) % SIZE;
      CopyBlock(cp, block, mem, line);
      ghost var s1 := entries[..];
      MendEdges(cp / LINE, block);
      FillKeepsSound(decoders, mem, entries[..], s1, old(entries[..]), line, block);
      assert Holds(decoders, mem, Cell(entries[..], line, k), PcOf(block, k));
    }

    /** The entry for pc, filling its line first when another block is there. */
    method LookupEntry(pc: Pc, mem: Memory) returns (cp: nat)
      requires InRange(pc) && Sound(decoders, mem, entries[..])
      modifies entries
      ensures Sound(decoders, mem, entries[..]) && cp == Index(pc)
      ensures Holds(decoders, mem, entries[cp], pc) && Linked(mem, entries[cp], pc)
    {
      hide Holds; hide Linked; hide LineOk;
      ghost var line, k := HomeOf(pc);
      Doubled(pc.addr);
      cp := (2 * pc.addr) % SIZE + if pc.odd then 1 else 0;
      if entries[cp].addr != pc.addr {
        Miss(pc, mem);
      }
      HitIsRight(decoders, mem, entries[..], pc);
    }

    /** Dispatches on one entry and then goes on in sequence or to another address. */
    method Next(pc: Pc, link: Link, choice: Option<Pc>, mem: Memory) returns (entry: Entry, pc1: Pc, link1: Link)
      requires Sound(decoders, mem, entries[..]) && InRange(pc) && Ready(entries[..], pc, link)
      requires Fetch(decoders, mem(pc.addr), pc.odd).decoding.code == ILLEGAL ==> choice.Some?
      modifies entries
      ensures Sound(decoders, mem, entries[..]) && Ready(entries[..], pc1, link1)
      ensures Holds(decoders, mem, entry, pc)
      ensures pc1 == if choice.Some? then choice.value else Successor(mem(pc.addr), pc)
    {
      hide Linked; hide LineOk; hide Successor; hide HalfWord;
      var cp: nat;
      if link == Lookup {
        cp := LookupEntry(pc, mem);
      } else {
        cp := link.index;
        HitIsRight(decoders, mem, entries[..], pc);
      }
      entry := entries[cp];
      if choice.Some? {
        pc1, link1 := choice.value, Lookup;
      } else {
        LinkIsLookup(decoders, mem, entries[..], pc);
        pc1, link1 := entry.next, entry.link;
      }
    }

    /** Executes from start, following links and looking up only where a link says so. */
    method Run(start: Pc, choices: seq<Option<Pc>>, mem: Memory) returns (trace: seq<Step>)
      requires Sound(decoders, mem, entries[..]) && Runs(decoders, mem, start, choices)
      modifies entries
      ensures Sound(decoders, mem, entries[..])
      ensures |trace| == |choices| && FetchesFromMemory(decoders, mem, start, choices, trace)
    {
      hide Sound; hide Ready; hide Fetch; hide InRange; hide Successor; hide Holds;
      hide FetchesFromMemory; hide Runs; hide PcAt;
      NothingRun(decoders, mem, start, choices, entries[..]);
      trace := [];
      var pc, link := start, Lookup;
      while |trace| < |choices|
        invariant Sound(decoders, mem, entries[..]) && Ready(entries[..], pc, link)
        invariant |trace| <= |choices| && FetchesFromMemory(decoders, mem, start, choices, trace)
        invariant pc == PcAt(mem, start, choices, |trace|)
      {
        RunsOn(decoders, mem, start, choices, |trace|);
        var entry, pc1, link1 := Next(pc, link, choices[|trace|], mem);
        TraceGrows(decoders, mem, start, choices, trace, Step(pc, entry));
        trace := trace + [Step(pc, entry)];
        pc, link := pc1, link1;
      }
    }
  }
}
