/** Words of the Ivory processor: tagged objects and the packed control register. */
module Ivory {
  datatype Option<+T> = None | Some(value: T) {
    predicate IsFailure() { None? }
    function PropagateFailure<U>(): Option<U>
      requires None?
    {
      None
    }
    function Extract(): T
      requires Some?
    {
      value
    }
  }

  type u8 = x: int | 0 <= x < 0x100
  type u32 = x: int | 0 <= x < 0x1_0000_0000

  // ---------------------------------------------------------------- Bit fields

  function Pow2(n: nat): (p: nat)
    ensures p > 0
  {
    if n == 0 then 1 else 2 * Pow2(n - 1)
  }

  /** The field of `size` bits at bit `at`. */
  function Ldb(size: nat, at: nat, w: int): nat {
    (w / Pow2(at)) % Pow2(size)
  }

  /** `w` with that field replaced by the low bits of `x`. */
  function Dpb(x: int, size: nat, at: nat, w: int): int {
    w + (x % Pow2(size) - Ldb(size, at, w)) * Pow2(at)
  }

  // ---------------------------------------------------------------- Objects

  /** A word of memory: six bits of type, two of cdr code, 32 of data. */
  datatype LispObj = LispObj(tag: u8, data: u32)

  const TYPE_NULL: u8 := 0
  const TYPE_FIXNUM: u8 := 8
  const TYPE_NIL: u8 := 20
  const TYPE_LIST: u8 := 21
  const TYPE_LOCATIVE: u8 := 25
  const TYPE_LEXICAL_CLOSURE: u8 := 26
  const TYPE_COMPILED_FUNCTION: u8 := 28
  const TYPE_EVEN_PC: u8 := 38
  const TYPE_ODD_PC: u8 := 39

  const CDR_NEXT: int := 0
  const CDR_NIL: int := 1
  const CDR_NORMAL: int := 2

  function TagType(tag: u8): u8 { tag % 64 }
  function TagCdr(tag: u8): int { tag / 64 }
  function MergeCdr(cdr: u8, typ: u8): u8 { 64 * TagCdr(cdr) + TagType(typ) }

  /** The object without its cdr code. */
  function CdrNext(o: LispObj): LispObj { LispObj(TagType(o.tag), o.data) }

  /** The object with all its cdr bits set, as calls push it. */
  function CdrThree(o: LispObj): LispObj { LispObj(192 + TagType(o.tag), o.data) }

  /** Equal but for the cdr code. */
  predicate Same(a: LispObj, b: LispObj) { CdrNext(a) == CdrNext(b) }

  predicate IsPC(o: LispObj) { TagType(o.tag) == TYPE_EVEN_PC || TagType(o.tag) == TYPE_ODD_PC }

  const OBJECT_NIL: LispObj := LispObj(TYPE_NIL, 0xf8041200)
  const OBJECT_T: LispObj := LispObj(24, 0xf8041208)

  // ---------------------------------------------------------------- The control register

  type bit = x: int | 0 <= x < 2

  /** The fields of the control register, low bits first. */
  datatype Control = Control(
    argumentSize: u8,        // bits 0-7
    extraArgument: bit,      // 8
    callerFrameSize: u8,     // 9-16
    apply: bit,              // 17
    disposition: bits2,      // 18-19
    spare: bits2,            // 20-21
    callStarted: bit,        // 22
    cleanupInProgress: bit,  // 23
    trapOnExit: bit,         // 24
    cleanupBindings: bit,    // 25
    cleanupCatch: bit,       // 26
    trace: bits3,            // 27-29
    trapMode: bits2)         // 30-31

  type bits2 = x: int | 0 <= x < 4
  type bits3 = x: int | 0 <= x < 8

  function Pack(c: Control): (w: u32) {
    c.argumentSize + 0x100 * c.extraArgument + 0x200 * c.callerFrameSize + 0x2_0000 * c.apply
    + 0x4_0000 * c.disposition + 0x10_0000 * c.spare + 0x40_0000 * c.callStarted
    + 0x80_0000 * c.cleanupInProgress + 0x100_0000 * c.trapOnExit + 0x200_0000 * c.cleanupBindings
    + 0x400_0000 * c.cleanupCatch + 0x800_0000 * c.trace + 0x4000_0000 * c.trapMode
  }

  function Unpack(w: u32): Control {
    Control(Ldb(8, 0, w), Ldb(1, 8, w), Ldb(8, 9, w), Ldb(1, 17, w), Ldb(2, 18, w), Ldb(2, 20, w),
            Ldb(1, 22, w), Ldb(1, 23, w), Ldb(1, 24, w), Ldb(1, 25, w), Ldb(1, 26, w),
            Ldb(3, 27, w), Ldb(2, 30, w))
  }

  lemma Pow2Values()
    ensures Pow2(0) == 1 && Pow2(1) == 2 && Pow2(2) == 4 && Pow2(3) == 8 && Pow2(8) == 0x100 && Pow2(9) == 0x200
    ensures Pow2(17) == 0x2_0000 && Pow2(18) == 0x4_0000 && Pow2(20) == 0x10_0000 && Pow2(22) == 0x40_0000
    ensures Pow2(23) == 0x80_0000 && Pow2(24) == 0x100_0000 && Pow2(25) == 0x200_0000
    ensures Pow2(26) == 0x400_0000 && Pow2(27) == 0x800_0000 && Pow2(30) == 0x4000_0000
  {}

  /** A field is read back from between what lies below and above it. */
  lemma FieldBetween(size: nat, at: nat, low: int, field: int, high: int)
    requires 0 <= low < Pow2(at) && 0 <= field < Pow2(size) && high >= 0
    ensures 0 <= Pow2(at) * (field + Pow2(size) * high)
    ensures Ldb(size, at, low + Pow2(at) * (field + Pow2(size) * high)) == field
  {
    Quotient(low, Pow2(at), field + Pow2(size) * high);
    Quotient(field, Pow2(size), high);
  }

  lemma Quotient(r: int, d: int, q: int)
    requires 0 <= r < d && q >= 0
    ensures d * q >= 0
    ensures (r + d * q) / d == q && (r + d * q) % d == r
  {
    MulBounds(d, q);
    var x := r + d * q;
    var k := x / d - q;
    assert d * k == d * (x / d) - d * q;
    MulBounds(d, k);
  }

  lemma MulBounds(d: int, k: int)
    requires d > 0
    ensures k > 0 ==> d * k >= d
    ensures k < 0 ==> d * k <= -d
    ensures k >= 0 ==> d * k >= 0
  {}

  lemma UnpackPack(c: Control)
    ensures Unpack(Pack(c)) == c
  {
    Pow2Values();
    LowFields(c);
    HighFields(c);
  }

  lemma LowFields(c: Control)
    ensures var w := Pack(c);
      && Ldb(8, 0, w) == c.argumentSize && Ldb(1, 8, w) == c.extraArgument && Ldb(8, 9, w) == c.callerFrameSize
      && Ldb(1, 17, w) == c.apply && Ldb(2, 18, w) == c.disposition && Ldb(2, 20, w) == c.spare
  {
    hide Ldb; hide Pow2;
    Pow2Values();
    var h5 := c.callStarted + 2 * c.cleanupInProgress + 4 * c.trapOnExit + 8 * c.cleanupBindings
      + 16 * c.cleanupCatch + 32 * c.trace + 256 * c.trapMode;
    var h4 := c.spare + 4 * h5;
    var h3 := c.disposition + 4 * h4;
    var h2 := c.apply + 2 * h3;
    var h1 := c.callerFrameSize + 0x100 * h2;
    var h0 := c.extraArgument + 2 * h1;
    FieldBetween(8, 0, 0, c.argumentSize, h0);
    FieldBetween(1, 8, c.argumentSize, c.extraArgument, h1);
    var l1 := c.argumentSize + 0x100 * c.extraArgument;
    FieldBetween(8, 9, l1, c.callerFrameSize, h2);
    var l2 := l1 + 0x200 * c.callerFrameSize;
    FieldBetween(1, 17, l2, c.apply, h3);
    var l3 := l2 + 0x2_0000 * c.apply;
    FieldBetween(2, 18, l3, c.disposition, h4);
    FieldBetween(2, 20, l3 + 0x4_0000 * c.disposition, c.spare, h5);
  }

  lemma HighFields(c: Control)
    ensures var w := Pack(c);
      && Ldb(1, 22, w) == c.callStarted && Ldb(1, 23, w) == c.cleanupInProgress && Ldb(1, 24, w) == c.trapOnExit
      && Ldb(1, 25, w) == c.cleanupBindings && Ldb(1, 26, w) == c.cleanupCatch
      && Ldb(3, 27, w) == c.trace && Ldb(2, 30, w) == c.trapMode
  {
    hide Ldb; hide Pow2;
    Pow2Values();
    var l0 := c.argumentSize + 0x100 * c.extraArgument + 0x200 * c.callerFrameSize + 0x2_0000 * c.apply
      + 0x4_0000 * c.disposition + 0x10_0000 * c.spare;
    var h5 := c.trace + 8 * c.trapMode;
    var h4 := c.cleanupCatch + 2 * h5;
    var h3 := c.cleanupBindings + 2 * h4;
    var h2 := c.trapOnExit + 2 * h3;
    var h1 := c.cleanupInProgress + 2 * h2;
    FieldBetween(1, 22, l0, c.callStarted, h1);
    var l1 := l0 + 0x40_0000 * c.callStarted;
    FieldBetween(1, 23, l1, c.cleanupInProgress, h2);
    var l2 := l1 + 0x80_0000 * c.cleanupInProgress;
    FieldBetween(1, 24, l2, c.trapOnExit, h3);
    var l3 := l2 + 0x100_0000 * c.trapOnExit;
    FieldBetween(1, 25, l3, c.cleanupBindings, h4);
    var l4 := l3 + 0x200_0000 * c.cleanupBindings;
    FieldBetween(1, 26, l4, c.cleanupCatch, h5);
    var l5 := l4 + 0x400_0000 * c.cleanupCatch;
    FieldBetween(3, 27, l5, c.trace, c.trapMode);
    FieldBetween(2, 30, l5 + 0x800_0000 * c.trace, c.trapMode, 0);
  }

  lemma PackUnpack(w: u32)
    ensures Pack(Unpack(w)) == w
  {
    hide Rest; hide Ldb; hide Pow2;
    Pow2Values();
    Ends(w);
    Above(w, 0, 8);
    Above(w, 8, 1);
    Above(w, 9, 8);
    Above(w, 17, 1);
    Above(w, 18, 2);
    Above(w, 20, 2);
    Above(w, 22, 1);
    Above(w, 23, 1);
    Above(w, 24, 1);
    Above(w, 25, 1);
    Above(w, 26, 1);
    Above(w, 27, 3);
  }

  lemma Ends(w: u32)
    ensures Rest(w, 0) == w && Rest(w, 30) == Ldb(2, 30, w)
  {
    Pow2Values();
  }

  /** The bits from `at` up. */
  function Rest(w: nat, at: nat): nat {
    DivIsNat(w, Pow2(at));
    w / Pow2(at)
  }

  lemma DivIsNat(w: nat, d: int)
    requires d > 0
    ensures w / d >= 0
  {}

  /** What is at a field and above: the field, and what is above it. */
  lemma Above(w: nat, at: nat, size: nat)
    ensures Rest(w, at) == Ldb(size, at, w) + Pow2(size) * Rest(w, at + size)
  {
    Pow2Add(at, size);
    Slice(w, Pow2(at), Pow2(size));
  }

  lemma {:induction false} Pow2Add(a: nat, b: nat)
    ensures Pow2(a + b) == Pow2(a) * Pow2(b)
  {
    if a > 0 {
      Pow2Add(a - 1, b);
      Distribute(2, Pow2(a - 1), Pow2(b), 0);
    }
  }

  /** What is above bit position d: one field, and what is above that. */
  lemma Slice(w: nat, d: int, m: int)
    requires d > 0 && m > 0
    ensures d * m > 0 && w / d == (w / d) % m + m * (w / (d * m))
  {
    var q, r := w / d, w % d;
    var q1, r1 := q / m, q % m;
    SliceSum(w, d, m, r, q1, r1);
    MulBounds(d, m);
    Quotient(d * r1 + r, d * m, q1);
  }

  lemma SliceSum(w: nat, d: int, m: int, r: int, q1: int, r1: int)
    requires d > 0 && m > 0 && 0 <= r < d && 0 <= r1 < m && w == d * (m * q1 + r1) + r
    ensures w == (d * r1 + r) + (d * m) * q1
    ensures 0 <= d * r1 + r < d * m
  {
    Distribute(d, m, q1, r1);
    MulBounds(d, r1);
    MulBounds(d, m - 1 - r1);
    Distribute(d, 1, m - 1 - r1, r1);
  }

  lemma Distribute(d: int, m: int, q: int, r: int)
    ensures d * (m * q + r) == (d * m) * q + d * r
  {}

  // ---------------------------------------------------------------- Writing fields in place

  lemma WriteArgumentSize(c: Control, x: u8)
    ensures Dpb(x, 8, 0, Pack(c)) == Pack(c.(argumentSize := x))
  {
    hide Ldb; hide Pow2;
    LowFields(c);
    Pow2Values();
    assert x % Pow2(8) == x && Pow2(0) == 1;
    assert Dpb(x, 8, 0, Pack(c)) == Pack(c) + (x - c.argumentSize) * 1;
  }

  lemma WriteExtraArgument(c: Control, x: bit)
    ensures Dpb(x, 1, 8, Pack(c)) == Pack(c.(extraArgument := x))
  {
    hide Ldb; hide Pow2;
    LowFields(c);
    Pow2Values();
    assert x % Pow2(1) == x && Pow2(8) == 0x100;
    assert Dpb(x, 1, 8, Pack(c)) == Pack(c) + (x - c.extraArgument) * 0x100;
  }

  lemma WriteCallerFrameSize(c: Control, x: u8)
    ensures Dpb(x, 8, 9, Pack(c)) == Pack(c.(callerFrameSize := x))
  {
    hide Ldb; hide Pow2;
    LowFields(c);
    Pow2Values();
    assert x % Pow2(8) == x && Pow2(9) == 0x200;
    assert Dpb(x, 8, 9, Pack(c)) == Pack(c) + (x - c.callerFrameSize) * 0x200;
  }

  lemma WriteApply(c: Control, x: bit)
    ensures Dpb(x, 1, 17, Pack(c)) == Pack(c.(apply := x))
  {
    hide Ldb; hide Pow2;
    LowFields(c);
    Pow2Values();
    assert x % Pow2(1) == x && Pow2(17) == 0x2_0000;
    assert Dpb(x, 1, 17, Pack(c)) == Pack(c) + (x - c.apply) * 0x2_0000;
  }

  lemma WriteDisposition(c: Control, x: bits2)
    ensures Dpb(x, 2, 18, Pack(c)) == Pack(c.(disposition := x))
  {
    hide Ldb; hide Pow2;
    LowFields(c);
    Pow2Values();
    assert x % Pow2(2) == x && Pow2(18) == 0x4_0000;
    assert Dpb(x, 2, 18, Pack(c)) == Pack(c) + (x - c.disposition) * 0x4_0000;
  }

  lemma WriteCallStarted(c: Control, x: bit)
    ensures Dpb(x, 1, 22, Pack(c)) == Pack(c.(callStarted := x))
  {
    hide Ldb; hide Pow2;
    HighFields(c);
    Pow2Values();
    assert x % Pow2(1) == x && Pow2(22) == 0x40_0000;
    assert Dpb(x, 1, 22, Pack(c)) == Pack(c) + (x - c.callStarted) * 0x40_0000;
  }

  lemma WriteCleanupBindings(c: Control, x: bit)
    ensures Dpb(x, 1, 25, Pack(c)) == Pack(c.(cleanupBindings := x))
  {
    hide Ldb; hide Pow2;
    HighFields(c);
    Pow2Values();
    assert x % Pow2(1) == x && Pow2(25) == 0x200_0000;
    assert Dpb(x, 1, 25, Pack(c)) == Pack(c) + (x - c.cleanupBindings) * 0x200_0000;
  }

  lemma ClearCleanupBits(c: Control)
    ensures Ldb(3, 24, Pack(c)) == c.trapOnExit + 2 * c.cleanupBindings + 4 * c.cleanupCatch
    ensures Dpb(0, 3, 24, Pack(c)) == Pack(c.(trapOnExit := 0, cleanupBindings := 0, cleanupCatch := 0))
  {
    Pow2Values();
    var low := c.argumentSize + 0x100 * c.extraArgument + 0x200 * c.callerFrameSize + 0x2_0000 * c.apply
      + 0x4_0000 * c.disposition + 0x10_0000 * c.spare + 0x40_0000 * c.callStarted + 0x80_0000 * c.cleanupInProgress;
    FieldBetween(3, 24, low, c.trapOnExit + 2 * c.cleanupBindings + 4 * c.cleanupCatch, c.trace + 8 * c.trapMode);
  }

  lemma WriteTrace(c: Control, x: bits3)
    ensures Dpb(x, 3, 27, Pack(c)) == Pack(c.(trace := x))
  {
    hide Ldb; hide Pow2;
    HighFields(c);
    Pow2Values();
    assert x % Pow2(3) == x && Pow2(27) == 0x800_0000;
    assert Dpb(x, 3, 27, Pack(c)) == Pack(c) + (x - c.trace) * 0x800_0000;
  }

  lemma WriteTrapMode(c: Control, x: bits2)
    ensures Dpb(x, 2, 30, Pack(c)) == Pack(c.(trapMode := x))
  {
    hide Ldb; hide Pow2;
    HighFields(c);
    Pow2Values();
    assert x % Pow2(2) == x && Pow2(30) == 0x4000_0000;
    assert Dpb(x, 2, 30, Pack(c)) == Pack(c) + (x - c.trapMode) * 0x4000_0000;
  }
}
