/** Calls, returns, dynamic binding and pre-traps of the Ivory processor, on values.

    The control register is a record of its fields here; the processor with the packed
    register and the stack array (module Processor) refines these instructions.
    `None` stands for a trap that leaves the instruction undone (an illegal operand) and
    for what this model leaves out: open catch blocks, frames of 256 words or more.
  */
module Instructions {
  import opened Ivory

  const EFFECT: bits2 := 0
  const VALUE: bits2 := 1
  const RETURN: bits2 := 2
  const MULTIPLE: bits2 := 3

  const TRAP_VECTOR_BASE: int := 0xf8040000
  const INTERPRETER_FUNCTION_VECTOR: int := 0x900
  const FEP_MODE_TRAP_VECTOR: int := 0xa47

  type Memory = map<int, LispObj>

  /** `sp` is the top word of the stack; words above it are garbage. */
  datatype Machine = Machine(control: Control, fp: nat, sp: nat, lp: nat, restartsp: nat,
                             pc: LispObj, continuation: LispObj, stack: seq<LispObj>,
                             bsp: nat, limit: u32, deepBound: bool, mem: Memory)

  // ---------------------------------------------------------------- Memory and stack

  function Read(mem: Memory, a: int): LispObj {
    if a in mem then mem[a] else LispObj(TYPE_NULL, 0)
  }

  /** A store keeps the cdr code of the cell. */
  function StoreContents(mem: Memory, a: int, o: LispObj): Memory {
    mem[a := LispObj(MergeCdr(Read(mem, a).tag, o.tag), o.data)]
  }

  function Put(stack: seq<LispObj>, i: nat, x: LispObj): (s: seq<LispObj>)
    requires i <= |stack|
    ensures |s| >= |stack| && |s| > i && s[..i] == stack[..i] && s[i] == x
  {
    if i < |stack| then stack[i := x] else stack + [x]
  }

  predicate OnStack(m: Machine) {
    m.sp < |m.stack|
  }

  /** Pushes a word as it is. */
  function Push(m: Machine, x: LispObj): (m1: Machine)
    requires OnStack(m)
    ensures OnStack(m1)
  {
    m.(stack := Put(m.stack, m.sp + 1, x), sp := m.sp + 1)
  }

  function Fixnum(n: int): LispObj { LispObj(TYPE_FIXNUM, n % 0x1_0000_0000) }

  // ---------------------------------------------------------------- Calls

  /** Saves the continuation and the control register, and aims at the function. */
  function StartFrame(m: Machine, target: LispObj, extra: Option<LispObj>): (m1: Machine)
    requires OnStack(m)
    ensures OnStack(m1)
  {
    var m1 := Push(Push(m, CdrThree(m.continuation)), CdrThree(Fixnum(Pack(m.control))));
    var m2 := if extra.Some? then Push(m1, CdrNext(extra.value)) else m1;
    m2.(control := m.control.(callStarted := 1, extraArgument := if extra.Some? then 1 else 0),
        continuation := target)
  }

  /** Dispatches on the function called: compiled code, a closure over compiled code, or
      anything else through the interpreter's vector. */
  function StartCall(m: Machine, f: LispObj): (r: Option<Machine>)
    requires OnStack(m)
    ensures r.Some? ==> OnStack(r.value)
  {
    if TagType(f.tag) == TYPE_COMPILED_FUNCTION then
      Some(StartFrame(m, LispObj(TYPE_EVEN_PC, f.data), None))
    else
      var environment, code := Read(m.mem, f.data), Read(m.mem, (f.data + 1) % 0x1_0000_0000);
      if TagType(f.tag) == TYPE_LEXICAL_CLOSURE && TagType(code.tag) == TYPE_COMPILED_FUNCTION then
        Some(StartFrame(m, LispObj(TYPE_EVEN_PC, code.data), Some(environment)))
      else
        var handler := Read(m.mem, TRAP_VECTOR_BASE + INTERPRETER_FUNCTION_VECTOR + TagType(f.tag));
        if IsPC(handler) then Some(StartFrame(m, handler, Some(f))) else None
  }

  /** Makes the words pushed since the call was started into the new frame. */
  function FinishCall(m: Machine, n: u8, disposition: bits2, apply: bit, nextPc: LispObj): (r: Option<Machine>)
    requires OnStack(m)
    ensures r.Some? ==> OnStack(r.value)
  {
    var fp, lp := m.sp - n - m.control.extraArgument, m.sp + 1 - apply;
    if m.fp <= fp <= lp && fp - m.fp < 256 && lp - fp < 256 then
      Some(m.(fp := fp, lp := lp, pc := m.continuation, continuation := nextPc,
              control := m.control.(argumentSize := lp - fp, extraArgument := 0, callerFrameSize := fp - m.fp,
                                    apply := apply, disposition := disposition, callStarted := 0,
                                    trapOnExit := 0, cleanupBindings := 0, cleanupCatch := 0)))
    else None
  }

  function LocateLocals(m: Machine): (r: Option<Machine>)
    requires OnStack(m)
    ensures r.Some? ==> OnStack(r.value)
  {
    if 0 <= m.sp - m.fp < 256 then
      Some(Push(m, Fixnum(m.control.argumentSize - 2)).(
             lp := m.sp, control := m.control.(argumentSize := m.sp - m.fp)))
    else None
  }

  // ---------------------------------------------------------------- Dynamic binding

  /** The locative with bit 6 of its tag set if b is; its other cdr bit stays as it was. */
  function Linked(loc: LispObj, b: bit): LispObj {
    if b == 1 && loc.tag / 64 % 2 == 0 then LispObj(loc.tag + 64, loc.data) else loc
  }

  /** Saves a cell, chained to the frame's earlier bindings by bit 6 of the locative. */
  function BindLocative(m: Machine, loc: LispObj): Option<Machine> {
    if TagType(loc.tag) != TYPE_LOCATIVE || m.bsp >= m.limit || m.deepBound then None
    else
      Some(m.(mem := m.mem[m.bsp + 1 := Linked(loc, m.control.cleanupBindings)][m.bsp + 2 := Read(m.mem, loc.data)],
              control := m.control.(cleanupBindings := 1), bsp := m.bsp + 2))
  }

  function BindToValue(m: Machine, loc: LispObj, v: LispObj): Option<Machine> {
    var m1 :- BindLocative(m, loc);
    Some(m1.(mem := StoreContents(m1.mem, loc.data, v)))
  }

  function Unbind(m: Machine): Option<Machine> {
    if m.control.cleanupBindings == 0 || m.bsp < 2 then None
    else
      var was, loc := Read(m.mem, m.bsp), Read(m.mem, m.bsp - 1);
      Some(m.(mem := StoreContents(m.mem, loc.data, was), bsp := m.bsp - 2,
              control := m.control.(cleanupBindings := loc.tag / 64 % 2)))
  }

  /** Unbinds while the chain goes on. */
  function UnbindAll(m: Machine): (r: Option<Machine>)
    ensures r.Some? ==>
      r.value == m.(mem := r.value.mem, bsp := r.value.bsp, control := m.control.(cleanupBindings := 0))
    decreases m.bsp
  {
    if m.control.cleanupBindings == 0 then Some(m)
    else
      var m1 :- Unbind(m);
      UnbindAll(m1)
  }

  // ---------------------------------------------------------------- Returns

  /** Undoes the frame's bindings and goes back to its caller's frame. */
  function PopFrame(m: Machine): (r: Option<Machine>)
    requires OnStack(m)
    ensures r.Some? ==> OnStack(r.value)
  {
    if m.control.cleanupCatch == 1 || m.control.trapOnExit == 1 || m.fp < 1 || m.sp <= m.fp then None
    else if m.control.cleanupBindings == 1 && m.deepBound then None
    else
      var saved, word := m.stack[m.fp], m.stack[m.fp + 1];
      var m1 :- UnbindAll(m);
      var fp := m.fp - m.control.callerFrameSize;
      if fp < 0 then None
      else
        var control := Unpack(word.data);
        Some(m1.(continuation := saved, control := control, sp := m.fp - 1, fp := fp,
                 lp := fp + control.argumentSize))
  }

  function Deliver(m: Machine, disposition: bits2, v: LispObj): Machine
    requires OnStack(m)
  {
    if disposition == VALUE then Push(m, CdrNext(v))
    else if disposition == MULTIPLE then Push(Push(m, CdrNext(v)), Fixnum(1))
    else m
  }

  /** Returns one value; a frame called for RETURN returns it from its caller too. */
  function ReturnSingle(m: Machine, v: LispObj): (r: Option<Machine>)
    requires OnStack(m)
    ensures r.Some? ==> OnStack(r.value)
    decreases m.fp
  {
    var m1 :- PopFrame(m);
    if m.control.disposition == RETURN then
      if m1.fp < m.fp then ReturnSingle(m1, v) else None
    else Some(Deliver(m1.(pc := m.continuation), m.control.disposition, v))
  }

  // ---------------------------------------------------------------- Pre-traps

  /** The handler of a trap; in FEP mode, or when the vector holds no PC, the FEP's. */
  function TrapEntry(m: Machine, index: int): Option<LispObj> {
    var own, fep := Read(m.mem, TRAP_VECTOR_BASE + index), Read(m.mem, TRAP_VECTOR_BASE + FEP_MODE_TRAP_VECTOR);
    if m.control.trapMode < 3 && IsPC(own) then Some(own)
    else if IsPC(fep) then Some(fep)
    else None
  }

  /** Drops what the instruction pushed and pushes the trap's frame: the saved words, the
      trap's index, the PC and one or two arguments. */
  function PushTrapFrame(m: Machine, index: u32, extras: seq<LispObj>): (m1: Machine)
    requires m.restartsp < |m.stack| && |extras| <= 2
    ensures OnStack(m1)
  {
    var m1 := m.(sp := m.restartsp);
    var m2 := Push(Push(m1, CdrThree(m.continuation)), CdrThree(Fixnum(Pack(m.control))));
    PushAll(Push(Push(m2, Fixnum(index)), CdrNext(m.pc)), extras)
  }

  function PushAll(m: Machine, xs: seq<LispObj>): (m1: Machine)
    requires OnStack(m)
    ensures OnStack(m1) && m1 == m.(sp := m.sp + |xs|, stack := m1.stack)
    ensures m1.stack[..m.sp + 1] == m.stack[..m.sp + 1]
    decreases |xs|
  {
    if xs == [] then m
    else
      var m1 := Push(m, CdrNext(xs[0]));
      var m2 := PushAll(m1, xs[1..]);
      assert m2.stack[..m.sp + 1] == m2.stack[..m1.sp + 1][..m.sp + 1];
      m2
  }

  /** Abandons the instruction and enters the handler in a frame called for effect. */
  function TakePreTrap(m: Machine, index: u32, extras: seq<LispObj>): (r: Option<Machine>)
    requires m.restartsp < |m.stack| && |extras| <= 2
    ensures r.Some? ==> OnStack(r.value)
  {
    var m5 := PushTrapFrame(m, index, extras);
    var fp, lp := m.restartsp + 1, m5.sp + 1;
    var entry :- TrapEntry(m, index);
    if m.fp <= fp && fp - m.fp < 256 && lp - fp < 256 then
      var mode := if m.control.trapMode < TagCdr(entry.tag) then TagCdr(entry.tag) else m.control.trapMode;
      Some(m5.(fp := fp, lp := lp, continuation := m.pc, pc := entry,
               control := m.control.(argumentSize := lp - fp, extraArgument := 0, callerFrameSize := fp - m.fp,
                                     apply := 0, disposition := EFFECT, callStarted := 0, trapOnExit := 0,
                                     cleanupBindings := 0, cleanupCatch := 0, trace := 0, trapMode := mode)))
    else None
  }

  // ---------------------------------------------------------------- Fake frames

  function PushOneFakeFrame(m: Machine): (r: Option<Machine>)
    requires OnStack(m)
    ensures r.Some? ==> OnStack(r.value)
  {
    var m1 := Push(Push(m, CdrThree(m.continuation)), CdrThree(Fixnum(Pack(m.control))));
    var fp := m.sp + 1;
    if m.fp <= fp && fp - m.fp < 256 then
      Some(m1.(control := Unpack(0).(argumentSize := 2, callerFrameSize := fp - m.fp),
               continuation := m.pc, fp := fp))
    else None
  }

  function PopOneFakeFrame(m: Machine): Option<Machine>
    requires OnStack(m)
  {
    var fp := m.fp - m.control.callerFrameSize;
    if m.fp < 1 || m.fp + 1 >= |m.stack| || fp < 0 then None
    else
      var control := Unpack(m.stack[m.fp + 1].data);
      Some(m.(sp := m.fp - 1, fp := fp, pc := m.continuation, continuation := m.stack[m.fp],
              control := control, lp := fp + control.argumentSize))
  }
}
