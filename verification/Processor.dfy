/** The processor record: the packed control register and the stack cache, updated in
    place.  Each method is one instruction, or part of one, and takes `State()` exactly
    where the instruction of module Instructions does.  The stack cache is long enough that
    nothing has to be scrolled.
  */
module IvoryProcessor {
  import opened Ivory
  import opened Instructions

  class Processor {
    var control: u32
    var fp: nat
    var sp: nat
    var lp: nat
    var restartsp: nat
    var pc: LispObj
    var continuation: LispObj
    const stackCache: array<LispObj>
    var bindingStackPointer: nat
    var bindingStackLimit: u32
    var deepBound: bool
    var mem: Memory

    ghost function State(): Machine
      reads this, stackCache
    {
      Machine(Unpack(control), fp, sp, lp, restartsp, pc, continuation, stackCache[..],
                      bindingStackPointer, bindingStackLimit, deepBound, mem)
    }

    predicate Room(words: nat)
      reads this
    {
      sp + words < stackCache.Length
    }

    method PushConstant(x: LispObj)
      requires Room(1)
      modifies this`sp, stackCache
      ensures sp == old(sp) + 1 && State() == Push(old(State()), x)
    {
      stackCache[sp + 1] := x;
      sp := sp + 1;
    }

    /** The control register is read and written through its fields. */
    lemma ControlIsPacked()
      ensures control == Pack(State().control)
    {
      PackUnpack(control);
    }

    lemma PackedFixnum(w: u32)
      ensures CdrThree(Fixnum(w)) == LispObj(192 + TYPE_FIXNUM, w)
    {}

    method SetControl(w: int, ghost c: Control)
      requires w == Pack(c)
      modifies this`control
      ensures State() == old(State()).(control := c)
    {
      UnpackPack(c);
      control := w;
    }

    method StartFrame(target: LispObj, extra: Option<LispObj>)
      requires Room(3)
      modifies this`sp, this`control, this`continuation, stackCache
      ensures State() == Instructions.StartFrame(old(State()), target, extra)
    {
      hide Pack; hide Unpack; hide Dpb; hide Push;
      ghost var c := State().control;
      ControlIsPacked();
      PackedFixnum(control);
      PushConstant(LispObj(192 + TagType(continuation.tag), continuation.data));
      PushConstant(LispObj(192 + TYPE_FIXNUM, control));
      if extra.Some? {
        PushConstant(LispObj(TagType(extra.value.tag), extra.value.data));
      }
      WriteCallStarted(c, 1);
      WriteExtraArgument(c.(callStarted := 1), if extra.Some? then 1 else 0);
      SetControl(Dpb(if extra.Some? then 1 else 0, 1, 8, Dpb(1, 1, 22, control)),
                 c.(callStarted := 1, extraArgument := if extra.Some? then 1 else 0));
      continuation := target;
    }

    /** Starts a call of f, or declines (an illegal operand). */
    method StartCall(f: LispObj) returns (ok: bool)
      requires Room(3)
      modifies this`sp, this`control, this`continuation, stackCache
      ensures ok <==> Instructions.StartCall(old(State()), f).Some?
      ensures State() == if ok then Instructions.StartCall(old(State()), f).value else old(State())
    {
      hide Pack; hide Unpack; hide Instructions.StartFrame;
      if TagType(f.tag) == TYPE_COMPILED_FUNCTION {
        StartFrame(LispObj(TYPE_EVEN_PC, f.data), None);
        return true;
      }
      if TagType(f.tag) == TYPE_LEXICAL_CLOSURE {
        var environment, code := Read(mem, f.data), Read(mem, (f.data + 1) % 0x1_0000_0000);
        if TagType(code.tag) == TYPE_COMPILED_FUNCTION {
          StartFrame(LispObj(TYPE_EVEN_PC, code.data), Some(environment));
          return true;
        }
      }
      var handler := Read(mem, TRAP_VECTOR_BASE + INTERPRETER_FUNCTION_VECTOR + TagType(f.tag));
      if !IsPC(handler) { return false; }
      StartFrame(handler, Some(f));
      return true;
    }

    /** The control word of a frame being entered. */
    function FrameWord(w: u32, argumentSize: u8, frameSize: u8, disposition: bits2, apply: bit): int {
      Dpb(frameSize, 8, 9, Dpb(disposition, 2, 18, Dpb(argumentSize, 8, 0,
        Dpb(0, 3, 24, Dpb(0, 1, 22, Dpb(0, 1, 8, Dpb(apply, 1, 17, w)))))))
    }

    lemma FrameWordPacks(c: Control, argumentSize: u8, frameSize: u8, disposition: bits2, apply: bit)
      ensures FrameWord(Pack(c), argumentSize, frameSize, disposition, apply) ==
        Pack(c.(argumentSize := argumentSize, extraArgument := 0, callerFrameSize := frameSize, apply := apply,
                disposition := disposition, callStarted := 0, trapOnExit := 0, cleanupBindings := 0, cleanupCatch := 0))
    {
      hide Pack; hide Dpb;
      var c1 := c.(apply := apply);
      var c2 := c1.(extraArgument := 0);
      var c3 := c2.(callStarted := 0);
      var c4 := c3.(trapOnExit := 0, cleanupBindings := 0, cleanupCatch := 0);
      var c5 := c4.(argumentSize := argumentSize);
      var c6 := c5.(disposition := disposition);
      WriteApply(c, apply);
      WriteExtraArgument(c1, 0);
      WriteCallStarted(c2, 0);
      ClearCleanupBits(c3);
      WriteArgumentSize(c4, argumentSize);
      WriteDisposition(c5, disposition);
      WriteCallerFrameSize(c6, frameSize);
    }

    method FinishCall(n: u8, disposition: bits2, apply: bit, nextPc: LispObj)
      requires Room(0) && Instructions.FinishCall(State(), n, disposition, apply, nextPc).Some?
      modifies this`control, this`fp, this`lp, this`pc, this`continuation
      ensures State() == Instructions.FinishCall(old(State()), n, disposition, apply, nextPc).value
    {
      hide Pack; hide Unpack; hide Dpb; hide FrameWord;
      ghost var c := State().control;
      ControlIsPacked();
      ExtraIsRead(c);
      var op1, op2 := sp - n - Ldb(1, 8, control), sp + 1 - apply;
      FrameWordPacks(c, op2 - op1, op1 - fp, disposition, apply);
      SetControl(FrameWord(control, op2 - op1, op1 - fp, disposition, apply),
                 c.(argumentSize := op2 - op1, extraArgument := 0, callerFrameSize := op1 - fp, apply := apply,
                    disposition := disposition, callStarted := 0, trapOnExit := 0, cleanupBindings := 0,
                    cleanupCatch := 0));
      fp, lp := op1, op2;
      pc := continuation;
      continuation := nextPc;
    }

    lemma ExtraIsRead(c: Control)
      ensures Ldb(1, 8, Pack(c)) == c.extraArgument && Ldb(8, 0, Pack(c)) == c.argumentSize
      ensures Ldb(8, 9, Pack(c)) == c.callerFrameSize && Ldb(2, 18, Pack(c)) == c.disposition
    {
      LowFields(c);
    }

    lemma BitsAreRead(c: Control)
      ensures Ldb(1, 25, Pack(c)) == c.cleanupBindings && Ldb(1, 26, Pack(c)) == c.cleanupCatch
      ensures Ldb(1, 24, Pack(c)) == c.trapOnExit && Ldb(2, 30, Pack(c)) == c.trapMode
    {
      HighFields(c);
    }

    method LocateLocals()
      requires Room(1) && Instructions.LocateLocals(State()).Some?
      modifies this`sp, this`lp, this`control, stackCache
      ensures State() == Instructions.LocateLocals(old(State())).value
    {
      hide Pack; hide Unpack; hide Dpb; hide Ldb;
      ghost var c := State().control;
      ControlIsPacked();
      ExtraIsRead(c);
      lp := sp;
      PushConstant(Fixnum(Ldb(8, 0, control) - 2));
      WriteArgumentSize(c, lp - fp);
      SetControl(Dpb(lp - fp, 8, 0, control), c.(argumentSize := lp - fp));
    }

    // -------------------------------------------------------------- Bindings

    method BindLocative(loc: LispObj) returns (ok: bool)
      modifies this`mem, this`control, this`bindingStackPointer
      ensures ok <==> Instructions.BindLocative(old(State()), loc).Some?
      ensures State() == if ok then Instructions.BindLocative(old(State()), loc).value else old(State())
    {
      hide Pack; hide Unpack; hide Dpb; hide Ldb; hide Read;
      ghost var c := State().control;
      ControlIsPacked();
      BitsAreRead(c);
      if TagType(loc.tag) != TYPE_LOCATIVE || bindingStackPointer >= bindingStackLimit || deepBound { return false; }
      var was := Read(mem, loc.data);
      mem := mem[bindingStackPointer + 1 := Linked(loc, Ldb(1, 25, control))];
      mem := mem[bindingStackPointer + 2 := was];
      WriteCleanupBindings(c, 1);
      SetControl(Dpb(1, 1, 25, control), c.(cleanupBindings := 1));
      bindingStackPointer := bindingStackPointer + 2;
      return true;
    }

    method BindToValue(loc: LispObj, v: LispObj) returns (ok: bool)
      modifies this`mem, this`control, this`bindingStackPointer
      ensures ok <==> Instructions.BindToValue(old(State()), loc, v).Some?
      ensures State() == if ok then Instructions.BindToValue(old(State()), loc, v).value else old(State())
    {
      hide Unpack; hide Instructions.BindLocative;
      ok := BindLocative(loc);
      if ok { mem := StoreContents(mem, loc.data, v); }
    }

    method Unbind() returns (ok: bool)
      requires bindingStackPointer >= 2
      modifies this`mem, this`control, this`bindingStackPointer
      ensures ok <==> Instructions.Unbind(old(State())).Some?
      ensures State() == if ok then Instructions.Unbind(old(State())).value else old(State())
    {
      hide Pack; hide Unpack; hide Dpb; hide Ldb; hide StoreContents; hide Read;
      ghost var c := State().control;
      ControlIsPacked();
      BitsAreRead(c);
      if Ldb(1, 25, control) == 0 { return false; }
      var was, loc := Read(mem, bindingStackPointer), Read(mem, bindingStackPointer - 1);
      mem := StoreContents(mem, loc.data, was);
      bindingStackPointer := bindingStackPointer - 2;
      WriteCleanupBindings(c, loc.tag / 64 % 2);
      SetControl(Dpb(loc.tag / 64 % 2, 1, 25, control), c.(cleanupBindings := loc.tag / 64 % 2));
      return true;
    }

    /** Follows the cleanup bits until one is clear. */
    method UnbindAll()
      requires Instructions.UnbindAll(State()).Some?
      modifies this`mem, this`control, this`bindingStackPointer
      ensures State() == Instructions.UnbindAll(old(State())).value
    {
      hide Pack; hide Unpack; hide Ldb; hide Instructions.Unbind;
      ControlIsPacked();
      BitsAreRead(State().control);
      while Ldb(1, 25, control) == 1
        invariant Instructions.UnbindAll(State()) == Instructions.UnbindAll(old(State()))
        invariant Instructions.UnbindAll(State()).Some?
        invariant Ldb(1, 25, control) == State().control.cleanupBindings
        decreases bindingStackPointer
      {
        UnbindGoesDown(State());
        var ok := Unbind();
        ControlIsPacked();
        BitsAreRead(State().control);
      }
    }

    lemma UnbindGoesDown(m: Machine)
      requires Instructions.UnbindAll(m).Some? && m.control.cleanupBindings == 1
      ensures m.bsp >= 2 && Instructions.Unbind(m).Some? && Instructions.Unbind(m).value.bsp == m.bsp - 2
      ensures Instructions.UnbindAll(m) == Instructions.UnbindAll(Instructions.Unbind(m).value)
    {}

    // -------------------------------------------------------------- Returns

    method PopFrame()
      requires Room(0) && Instructions.PopFrame(State()).Some?
      modifies this`mem, this`control, this`bindingStackPointer, this`continuation, this`sp, this`fp, this`lp
      ensures State() == Instructions.PopFrame(old(State())).value
    {
      hide Pack; hide Unpack; hide Ldb; hide Instructions.UnbindAll;
      ghost var m := State();
      ControlIsPacked();
      ExtraIsRead(m.control);
      var saved := stackCache[fp + 1].data;
      var frameSize := Ldb(8, 9, control);
      UnbindAll();
      continuation := stackCache[fp];
      sp := fp - 1;
      fp := fp - frameSize;
      PackUnpack(saved);
      ExtraIsRead(Unpack(saved));
      lp := fp + Ldb(8, 0, saved);
      SetControl(saved, Unpack(saved));
    }

    /** Returns v from the current frame, and from every frame above it that was called
        to return what it calls. */
    method ReturnSingle(v: LispObj)
      requires Room(0) && Instructions.ReturnSingle(State(), v).Some?
      requires forall m :: ReturnsTo(State(), m) ==> m.sp + 2 < stackCache.Length
      modifies this, stackCache
      ensures State() == Instructions.ReturnSingle(old(State()), v).value
    {
      hide Pack; hide Unpack; hide Ldb; hide Instructions.PopFrame;
      ghost var m0 := State();
      ControlIsPacked();
      ExtraIsRead(State().control);
      var disposition := Ldb(2, 18, control);
      while disposition == RETURN
        invariant Room(0) && Instructions.ReturnSingle(State(), v) == Instructions.ReturnSingle(m0, v)
        invariant Instructions.ReturnSingle(State(), v).Some? && disposition == State().control.disposition
        invariant forall m :: ReturnsTo(State(), m) ==> m.sp + 2 < stackCache.Length
        decreases fp
      {
        PopFrame();
        ControlIsPacked();
        ExtraIsRead(State().control);
        disposition := Ldb(2, 18, control);
      }
      assert ReturnsTo(State(), Instructions.PopFrame(State()).value);
      var next := continuation;
      PopFrame();
      pc := next;
      if disposition == VALUE || disposition == MULTIPLE {
        PushConstant(CdrNext(v));
        if disposition == MULTIPLE {
          PushConstant(Fixnum(1));
        }
      }
    }

    // -------------------------------------------------------------- Pre-traps

    /** The handler's PC, or none; the trap mode is raised meanwhile and put back. */
    method FetchTrapVectorEntry(index: int) returns (entry: Option<LispObj>)
      ensures entry == TrapEntry(State(), index)
    {
      hide Pack; hide Unpack; hide Ldb;
      ControlIsPacked();
      BitsAreRead(State().control);
      var own := Read(mem, TRAP_VECTOR_BASE + index);
      if Ldb(2, 30, control) < 3 && IsPC(own) { return Some(own); }
      var fep := Read(mem, TRAP_VECTOR_BASE + FEP_MODE_TRAP_VECTOR);
      return if IsPC(fep) then Some(fep) else None;
    }

    method PushArguments(extras: seq<LispObj>)
      requires Room(|extras|)
      modifies this`sp, stackCache
      ensures State() == PushAll(old(State()), extras)
      decreases |extras|
    {
      if extras != [] {
        PushConstant(CdrNext(extras[0]));
        PushArguments(extras[1..]);
      }
    }

    method PushTrapFrame(index: u32, extras: seq<LispObj>)
      requires restartsp + 6 < stackCache.Length && |extras| <= 2
      modifies this`sp, stackCache
      ensures State() == Instructions.PushTrapFrame(old(State()), index, extras)
    {
      hide Pack; hide Unpack; hide PushAll; hide Push;
      ControlIsPacked();
      PackedFixnum(control);
      sp := restartsp;
      PushConstant(LispObj(192 + TagType(continuation.tag), continuation.data));
      PushConstant(LispObj(192 + TYPE_FIXNUM, control));
      PushConstant(Fixnum(index));
      PushConstant(CdrNext(pc));
      PushArguments(extras);
    }

    /** Enters a trap handler, or declines when no vector holds a PC. */
    method TakePreTrap(index: u32, extras: seq<LispObj>) returns (ok: bool)
      requires restartsp + 6 < stackCache.Length && |extras| <= 2
      requires fp <= restartsp + 1 && restartsp + 1 - fp < 256
      modifies this`sp, this`fp, this`lp, this`pc, this`continuation, this`control, stackCache
      ensures ok <==> Instructions.TakePreTrap(old(State()), index, extras).Some?
      ensures ok ==> State() == Instructions.TakePreTrap(old(State()), index, extras).value
    {
      hide Pack; hide Unpack; hide Dpb; hide Ldb; hide FrameWord; hide Instructions.PushTrapFrame; hide TrapEntry;
      ghost var m, c := State(), State().control;
      ControlIsPacked();
      BitsAreRead(c);
      TrapFrameSize(m, index, extras);
      PushTrapFrame(index, extras);
      var oldfp := fp;
      fp, lp := restartsp + 1, sp + 1;
      var entry := FetchTrapVectorEntry(index);
      TrapEntryKept(m, State(), index);
      if entry.None? { return false; }
      EnterHandler(entry.value, oldfp);
      return true;
    }

    /** The handler's frame starts with the state of a call for effect, at the higher trap mode. */
    method EnterHandler(entry: LispObj, oldfp: nat)
      requires oldfp <= fp <= lp && fp - oldfp < 256 && lp - fp < 256
      modifies this`pc, this`continuation, this`control
      ensures var m := old(State());
        var mode := if m.control.trapMode < TagCdr(entry.tag) then TagCdr(entry.tag) else m.control.trapMode;
        State() == m.(continuation := m.pc, pc := entry,
                      control := m.control.(argumentSize := m.lp - m.fp, extraArgument := 0,
                                            callerFrameSize := m.fp - oldfp, apply := 0, disposition := EFFECT,
                                            callStarted := 0, trapOnExit := 0, cleanupBindings := 0,
                                            cleanupCatch := 0, trace := 0, trapMode := mode))
    {
      hide Pack; hide Unpack; hide Dpb; hide Ldb; hide FrameWord;
      ghost var c := State().control;
      ControlIsPacked();
      BitsAreRead(c);
      var trapMode, wanted := Ldb(2, 30, control), TagCdr(entry.tag);
      var mode := if trapMode < wanted then wanted else trapMode;
      ghost var c1 := c.(argumentSize := lp - fp, extraArgument := 0, callerFrameSize := fp - oldfp, apply := 0,
                         disposition := EFFECT, callStarted := 0, trapOnExit := 0, cleanupBindings := 0,
                         cleanupCatch := 0);
      FrameWordPacks(c, lp - fp, fp - oldfp, EFFECT, 0);
      WriteTrace(c1, 0);
      WriteTrapMode(c1.(trace := 0), mode);
      SetControl(Dpb(mode, 2, 30, Dpb(0, 3, 27, FrameWord(control, lp - fp, fp - oldfp, EFFECT, 0))),
                 c1.(trace := 0, trapMode := mode));
      continuation := pc;
      pc := entry;
    }

    lemma TrapFrameSize(m: Machine, index: u32, extras: seq<LispObj>)
      requires m.restartsp < |m.stack| && |extras| <= 2
      ensures var m5 := Instructions.PushTrapFrame(m, index, extras);
        m5 == m.(sp := m.restartsp + 4 + |extras|, stack := m5.stack)
    {}

    /** The handler depends on the vectors and the trap mode only. */
    lemma TrapEntryKept(m: Machine, m1: Machine, index: int)
      requires m1.mem == m.mem && m1.control == m.control
      ensures TrapEntry(m1, index) == TrapEntry(m, index)
    {}

    // -------------------------------------------------------------- Fake frames

    method PushOneFakeFrame()
      requires Room(2) && fp <= sp + 1 && sp + 1 - fp < 256
      modifies this`sp, this`fp, this`control, this`continuation, stackCache
      ensures Some(State()) == Instructions.PushOneFakeFrame(old(State()))
    {
      hide Pack; hide Unpack; hide Dpb; hide Push;
      ControlIsPacked();
      PackedFixnum(control);
      var newfp := sp + 1;
      PushConstant(LispObj(192 + TagType(continuation.tag), continuation.data));
      PushConstant(LispObj(192 + TYPE_FIXNUM, control));
      PackUnpack(0);
      ghost var c := Unpack(0);
      WriteArgumentSize(c, 2);
      WriteCallerFrameSize(c.(argumentSize := 2), newfp - fp);
      SetControl(Dpb(newfp - fp, 8, 9, Dpb(2, 8, 0, 0)), c.(argumentSize := 2, callerFrameSize := newfp - fp));
      continuation := pc;
      fp := newfp;
    }

    method PopOneFakeFrame()
      requires Room(0) && Instructions.PopOneFakeFrame(State()).Some?
      modifies this`sp, this`fp, this`lp, this`pc, this`control, this`continuation
      ensures State() == Instructions.PopOneFakeFrame(old(State())).value
    {
      hide Pack; hide Unpack; hide Ldb;
      ControlIsPacked();
      ExtraIsRead(State().control);
      var frame := fp;
      sp := frame - 1;
      fp := frame - Ldb(8, 9, control);
      pc := continuation;
      continuation := stackCache[frame];
      var saved := stackCache[frame + 1].data;
      PackUnpack(saved);
      ExtraIsRead(Unpack(saved));
      SetControl(saved, Unpack(saved));
      lp := fp + Ldb(8, 0, saved);
    }
  }

  /** m1 is the frame that a return from m delivers its value to. */
  ghost predicate ReturnsTo(m: Machine, m1: Machine)
    decreases m.fp
  {
    OnStack(m) && Instructions.PopFrame(m).Some? &&
    var m2 := Instructions.PopFrame(m).value;
    if m.control.disposition == RETURN then m2.fp < m.fp && ReturnsTo(m2, m1) else m1 == m2
  }
}
