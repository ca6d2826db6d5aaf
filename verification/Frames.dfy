/** What a callee and a trap handler find on the stack and in the registers when they start. */
module Frames {
  import opened Ivory
  import opened Instructions

  /** The words between what was on top in m and what is on top in m1, all of them. */
  ghost predicate Above(m: Machine, m1: Machine, words: seq<LispObj>) {
    && OnStack(m) && OnStack(m1) && m1.sp == m.sp + |words|
    && m1.stack[..m.sp + 1] == m.stack[..m.sp + 1] && m1.stack[m.sp + 1..m1.sp + 1] == words
  }

  lemma AboveOne(m: Machine, x: LispObj)
    requires OnStack(m)
    ensures Above(m, Push(m, x), [x]) && Push(m, x) == m.(sp := m.sp + 1, stack := Push(m, x).stack)
  {}

  lemma AboveMore(m: Machine, m1: Machine, m2: Machine, a: seq<LispObj>, b: seq<LispObj>)
    requires Above(m, m1, a) && Above(m1, m2, b)
    ensures Above(m, m2, a + b)
  {
    assert m2.stack[..m.sp + 1] == m2.stack[..m1.sp + 1][..m.sp + 1];
    assert m2.stack[m.sp + 1..m1.sp + 1] == m2.stack[..m1.sp + 1][m.sp + 1..];
    assert m2.stack[m.sp + 1..m2.sp + 1] == m2.stack[m.sp + 1..m1.sp + 1] + m2.stack[m1.sp + 1..m2.sp + 1];
  }

  /** The objects as arguments: without their cdr codes. */
  function Plain(xs: seq<LispObj>): (ys: seq<LispObj>) {
    seq(|xs|, i requires 0 <= i < |xs| => LispObj(xs[i].tag % 64, xs[i].data))
  }

  lemma {:induction false} AllAbove(m: Machine, xs: seq<LispObj>)
    requires OnStack(m)
    ensures Above(m, PushAll(m, xs), Plain(xs))
    decreases |xs|
  {
    if xs == [] {
      assert m.stack[m.sp + 1..m.sp + 1] == [];
    } else {
      var m1 := Push(m, CdrNext(xs[0]));
      AboveOne(m, CdrNext(xs[0]));
      AllAbove(m1, xs[1..]);
      AboveMore(m, m1, PushAll(m1, xs[1..]), [CdrNext(xs[0])], Plain(xs[1..]));
      assert Plain(xs) == [CdrNext(xs[0])] + Plain(xs[1..]);
    }
  }

  /** The two words that every frame starts with: where its caller goes on, and the caller's control
      register, both with all cdr bits set. */
  function SavedWords(m: Machine): seq<LispObj> {
    [LispObj(192 + m.continuation.tag % 64, m.continuation.data), LispObj(192 + TYPE_FIXNUM, Pack(m.control))]
  }

  lemma SavedAbove(m: Machine)
    requires OnStack(m)
    ensures var m2 := Push(Push(m, CdrThree(m.continuation)), CdrThree(Fixnum(Pack(m.control))));
      Above(m, m2, SavedWords(m)) && m2 == m.(sp := m.sp + 2, stack := m2.stack)
  {
    hide Push; hide Pack; hide Above;
    TwoAbove(m, CdrThree(m.continuation), CdrThree(Fixnum(Pack(m.control))));
  }

  lemma TwoAbove(m: Machine, x: LispObj, y: LispObj)
    requires OnStack(m)
    ensures Above(m, Push(Push(m, x), y), [x, y])
    ensures Push(Push(m, x), y) == m.(sp := m.sp + 2, stack := Push(Push(m, x), y).stack)
  {
    hide Push; hide Above;
    AboveOne(m, x);
    AboveOne(Push(m, x), y);
    AboveMore(m, Push(m, x), Push(Push(m, x), y), [x], [y]);
    assert [x] + [y] == [x, y];
  }

  lemma AboveSame(m: Machine, m1: Machine, m2: Machine, words: seq<LispObj>)
    requires Above(m, m1, words) && m2.sp == m1.sp && m2.stack == m1.stack
    ensures Above(m, m2, words)
  {}

  // ---------------------------------------------------------------- Calls

  /** Where a call of f goes, and what it is given besides its arguments: compiled code nothing, a
      closure over compiled code its environment, and the interpreter what was called. */
  function Callee(mem: Memory, f: LispObj): (LispObj, seq<LispObj>) {
    var code := Read(mem, (f.data + 1) % 0x1_0000_0000);
    if f.tag % 64 == 28 then (LispObj(38, f.data), [])
    else if f.tag % 64 == 26 && code.tag % 64 == 28 then (LispObj(38, code.data), Plain([Read(mem, f.data)]))
    else (Read(mem, 0xf8040900 + f.tag % 64), Plain([f]))
  }

  /** A call starts for everything but an object whose type the interpreter has no PC for. */
  lemma CallStarts(m: Machine, f: LispObj)
    requires OnStack(m)
    ensures var (target, extra) := Callee(m.mem, f);
      && (StartCall(m, f).None? <==> !(target.tag % 64 == 38 || target.tag % 64 == 39))
      && (StartCall(m, f).Some? ==>
          var m1 := StartCall(m, f).value;
          && Above(m, m1, SavedWords(m) + extra) && m1.continuation == target
          && m1 == m.(sp := m1.sp, stack := m1.stack, continuation := target,
                      control := m.control.(callStarted := 1, extraArgument := |extra|)))
  {
    hide Push; hide Above; hide SavedWords; hide StartFrame; hide Read;
    var environment, code := Read(m.mem, f.data), Read(m.mem, (f.data + 1) % 0x1_0000_0000);
    FrameStarts(m, LispObj(TYPE_EVEN_PC, f.data), None);
    FrameStarts(m, LispObj(TYPE_EVEN_PC, code.data), Some(environment));
    FrameStarts(m, Read(m.mem, 0xf8040900 + f.tag % 64), Some(f));
  }

  lemma FrameStarts(m: Machine, target: LispObj, extra: Option<LispObj>)
    requires OnStack(m)
    ensures var words := if extra.Some? then Plain([extra.value]) else [];
      var m1 := StartFrame(m, target, extra);
      && Above(m, m1, SavedWords(m) + words)
      && m1 == m.(sp := m1.sp, stack := m1.stack, continuation := target,
                  control := m.control.(callStarted := 1, extraArgument := |words|))
  {
    hide Push; hide Above; hide SavedWords; hide Pack;
    var m2 := Push(Push(m, CdrThree(m.continuation)), CdrThree(Fixnum(Pack(m.control))));
    var m1 := StartFrame(m, target, extra);
    SavedAbove(m);
    if extra.Some? {
      AboveOne(m2, CdrNext(extra.value));
      var m3 := Push(m2, CdrNext(extra.value));
      assert Plain([extra.value]) == [CdrNext(extra.value)];
      AboveMore(m, m2, m3, SavedWords(m), Plain([extra.value]));
      AboveSame(m, m3, m1, SavedWords(m) + Plain([extra.value]));
    } else {
      assert SavedWords(m) + [] == SavedWords(m);
      AboveSame(m, m2, m1, SavedWords(m) + []);
    }
  }

  /** A callee finds its caller's two words, its extra argument and its arguments in its frame, runs at
      the code of what was called, and will return to the instruction behind the call. */
  lemma CalleeIsEntered(m: Machine, f: LispObj, args: seq<LispObj>, d: bits2, apply: bit, next: LispObj)
    requires OnStack(m) && StartCall(m, f).Some? && |args| < 250 && m.fp <= m.sp < m.fp + 255
    ensures var m3 := FinishCall(PushAll(StartCall(m, f).value, args), |args| + 1, d, apply, next);
      var (target, extra) := Callee(m.mem, f);
      && m3.Some?
      && Above(m, m3.value, SavedWords(m) + extra + Plain(args))
      && m3.value.fp == m.sp + 1 && m3.value.lp == m3.value.sp + 1 - apply
      && m3.value.pc == target && m3.value.continuation == next
      && m3.value.control == m.control.(
           argumentSize := 2 + |extra| + |args| - apply, extraArgument := 0, callerFrameSize := m.sp + 1 - m.fp,
           apply := apply, disposition := d, callStarted := 0, trapOnExit := 0, cleanupBindings := 0, cleanupCatch := 0)
      && m3.value.mem == m.mem && m3.value.bsp == m.bsp
  {
    hide StartCall; hide PushAll; hide Above; hide Pack;
    CallStarts(m, f);
    var m1 := StartCall(m, f).value;
    var (target, extra) := Callee(m.mem, f);
    AllAbove(m1, args);
    AboveMore(m, m1, PushAll(m1, args), SavedWords(m) + extra, Plain(args));
    assert |SavedWords(m)| == 2 && |extra| <= 1;
    hide Callee; hide SavedWords;
    var m2 := PushAll(m1, args);
    TopIs(m, m1, SavedWords(m) + extra);
    assert m2 == m1.(sp := m1.sp + |args|, stack := m2.stack);
    AboveSame(m, m2, FinishCall(m2, |args| + 1, d, apply, next).value, SavedWords(m) + extra + Plain(args));
  }

  lemma TopIs(m: Machine, m1: Machine, words: seq<LispObj>)
    requires Above(m, m1, words)
    ensures m1.sp == m.sp + |words| && OnStack(m) && OnStack(m1)
  {
  }

  // ---------------------------------------------------------------- Traps

  /** The PC that a trap goes to, or none: the trap's own vector, unless the machine traps in FEP mode
      or that vector holds no PC, and then the FEP's. */
  ghost predicate Vectored(m: Machine, index: u32, entry: LispObj) {
    var own, fep := Read(m.mem, 0xf8040000 + index), Read(m.mem, 0xf8040a47);
    if m.control.trapMode != 3 && own.tag % 64 in {38, 39} then entry == own
    else fep.tag % 64 in {38, 39} && entry == fep
  }

  /** A handler finds the interrupted frame's two words, the number of the trap, the PC of the
      instruction that trapped and the trap's arguments; what that instruction had pushed is gone. */
  lemma HandlerIsEntered(m: Machine, index: u32, extras: seq<LispObj>)
    requires m.restartsp < |m.stack| && |extras| <= 2 && m.fp <= m.restartsp + 1 < m.fp + 256
    ensures var r := TakePreTrap(m, index, extras);
      && (r.None? <==> forall entry :: !Vectored(m, index, entry))
      && (r.Some? ==>
          && Vectored(m, index, r.value.pc)
          && Above(m.(sp := m.restartsp), r.value,
                   SavedWords(m) + [LispObj(8, index), LispObj(m.pc.tag % 64, m.pc.data)] + Plain(extras))
          && r.value.fp == m.restartsp + 1 && r.value.lp == r.value.sp + 1 && r.value.continuation == m.pc
          && r.value.control == m.control.(
               argumentSize := 4 + |extras|, extraArgument := 0, callerFrameSize := m.restartsp + 1 - m.fp,
               apply := 0, disposition := 0, callStarted := 0, trapOnExit := 0, cleanupBindings := 0,
               cleanupCatch := 0, trace := 0,
               trapMode := if m.control.trapMode < r.value.pc.tag / 64 then r.value.pc.tag / 64
                           else m.control.trapMode)
          && r.value.mem == m.mem && r.value.bsp == m.bsp)
  {
    hide PushTrapFrame; hide Pack; hide SavedWords; hide Above; hide Plain; hide TrapEntry; hide Vectored;
    var m1, r := m.(sp := m.restartsp), TakePreTrap(m, index, extras);
    TrapIsPushed(m, index, extras);
    VectorIs(m, index);
    if r.Some? {
      AboveSame(m1, PushTrapFrame(m, index, extras), r.value,
                SavedWords(m) + [LispObj(8, index), LispObj(m.pc.tag % 64, m.pc.data)] + Plain(extras));
    }
  }

  lemma VectorIs(m: Machine, index: u32)
    ensures forall entry :: Vectored(m, index, entry) <==> TrapEntry(m, index) == Some(entry)
  {}

  lemma TrapIsPushed(m: Machine, index: u32, extras: seq<LispObj>)
    requires m.restartsp < |m.stack| && |extras| <= 2
    ensures var m1, m5 := m.(sp := m.restartsp), PushTrapFrame(m, index, extras);
      && Above(m1, m5, SavedWords(m) + [LispObj(8, index), LispObj(m.pc.tag % 64, m.pc.data)] + Plain(extras))
      && m5 == m.(sp := m.restartsp + 4 + |extras|, stack := m5.stack)
  {
    hide Push; hide PushAll; hide Pack; hide Above;
    var m1 := m.(sp := m.restartsp);
    var m2 := Push(Push(m1, CdrThree(m.continuation)), CdrThree(Fixnum(Pack(m.control))));
    var x, y := Fixnum(index), CdrNext(m.pc);
    var m4 := Push(Push(m2, x), y);
    SavedAbove(m1);
    TwoAbove(m2, x, y);
    AllAbove(m4, extras);
    assert SavedWords(m1) == SavedWords(m);
    hide SavedWords;
    AboveMore(m1, m2, m4, SavedWords(m), [x, y]);
    AboveMore(m1, m4, PushAll(m4, extras), SavedWords(m) + [x, y], Plain(extras));
  }

  /** Locating the locals pushes how many arguments there were, beyond the two saved words, and sets the
      local pointer and the argument size to the frame as it then stands. */
  lemma LocalsAreLocated(m: Machine)
    requires OnStack(m) && LocateLocals(m).Some?
    ensures var m1 := LocateLocals(m).value;
      && Above(m, m1, [LispObj(8, (m.control.argumentSize - 2) % 0x1_0000_0000)])
      && m1.lp == m.sp && m1.fp == m.fp && m1.control == m.control.(argumentSize := m.sp - m.fp)
  {
    AboveOne(m, Fixnum(m.control.argumentSize - 2));
  }
}
