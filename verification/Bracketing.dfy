/** Every nested program brings back the frame it started in, and undoes exactly the
    dynamic bindings its frames made.
  */
module Bracketing {
  import opened Ivory
  import opened Instructions
  import opened Programs

  // ---------------------------------------------------------------- What is kept

  /** The binding stack below `bsp` is the list `saved`, chained by bit 6 of the locatives and
      by the cleanup bit `b`.  `first` is that bit of the first locative, which should end the
      chain. */
  ghost predicate Chained(mem: Memory, bsp: nat, saved: seq<Saved>, b: bit, first: bit)
    decreases |saved|
  {
    if saved == [] then b == first
    else
      var last, k := saved[|saved| - 1], if |saved| > 1 then 1 else first;
      && b == 1 && bsp >= 2
      && Read(mem, bsp) == last.was
      && Read(mem, bsp - 1).data == last.loc && Read(mem, bsp - 1).tag / 64 % 2 == k
      && Chained(mem, bsp - 2, saved[..|saved| - 1], k, first)
  }

  /** A chain that ends with its first binding. */
  ghost predicate Bound(mem: Memory, bsp: nat, saved: seq<Saved>, b: bit) {
    Chained(mem, bsp, saved, b, 0)
  }

  /** Addresses off the binding stack, which occupies (lo, hi]. */
  predicate Cell(a: int, lo: int, hi: int) { a <= lo || a > hi }

  ghost predicate Agree(mem: Memory, env: Memory, lo: int, hi: int) {
    forall a :: Cell(a, lo, hi) ==> Read(mem, a) == Read(env, a)
  }

  /** The part (lo, top] of the binding stack is untouched. */
  ghost predicate Below(mem: Memory, mem1: Memory, lo: int, top: int) {
    forall a :: lo < a <= top ==> Read(mem1, a) == Read(mem, a)
  }

  ghost predicate SavedOk(saved: seq<Saved>, lo: int, hi: int) {
    forall i :: 0 <= i < |saved| ==> Cell(saved[i].loc, lo, hi)
  }

  /** A machine whose current frame has made the bindings `saved` and whose cells are
      those of `env`. */
  ghost predicate Fit(m: Machine, lo: nat, saved: seq<Saved>, env: Memory) {
    && OnStack(m) && m.fp <= m.sp && m.lp == m.fp + m.control.argumentSize
    && m.control.cleanupCatch == 0
    && lo + 2 * |saved| <= m.bsp <= m.limit + 1
    && Bound(m.mem, m.bsp, saved, m.control.cleanupBindings)
    && Agree(m.mem, env, lo, m.limit + 2)
    && SavedOk(saved, lo, m.limit + 2)
  }

  /** How many bindings a frame that has d of them has after a piece of code. */
  function After(c: Code, d: nat): nat
    decreases c, 1
  {
    match c
    case Bind(_, _) => d + 1
    case BindOnly(_) => d + 1
    case UnbindOne => if d == 0 then 0 else d - 1
    case Drop(codes) => AfterAll(codes, d)
    case _ => d
  }

  function AfterAll(cs: seq<Code>, d: nat): nat
    decreases cs, 0
  {
    if cs == [] then d else AfterAll(cs[1..], After(cs[0], d))
  }

  /** The locative of a frame's first binding ends the chain: bit 6 of its tag is clear. */
  predicate Ends(loc: LispObj, d: nat) { d == 0 ==> loc.tag / 64 % 2 == 0 }

  /** Code that may run in a frame that has d bindings: it binds and sets cells off the binding
      stack, and every frame's first locative ends its chain. */
  ghost predicate CodeOk(c: Code, lo: int, hi: int, d: nat)
    decreases c, 1
  {
    match c
    case Bind(loc, _) => Cell(loc.data, lo, hi) && Ends(loc, d)
    case BindOnly(loc) => Cell(loc.data, lo, hi) && Ends(loc, d)
    case Set(a, _) => Cell(a, lo, hi)
    case Drop(codes) => AllOk(codes, lo, hi, d)
    case Call(_, args, _, _, _, _, body, ret) =>
      AllOk(args, lo, hi, d) && Balanced(args) && BodyOk(c, lo, hi)
    case Trap(_, _, body, ret) => BodyOk(c, lo, hi)
    case _ => true
  }

  /** The frame of a call or a trap starts without bindings. */
  ghost predicate BodyOk(c: Code, lo: int, hi: int)
    requires c.Call? || c.Trap?
    decreases c, 0
  {
    AllOk(c.body, lo, hi, 0) && (c.ret.Tail? ==> CodeOk(c.ret.call, lo, hi, AfterAll(c.body, 0)))
  }

  ghost predicate AllOk(cs: seq<Code>, lo: int, hi: int, d: nat)
    decreases cs, 0
  {
    cs == [] || (CodeOk(cs[0], lo, hi, d) && AllOk(cs[1..], lo, hi, After(cs[0], d)))
  }

  lemma {:induction false} CountOne(env: Memory, saved: seq<Saved>, c: Code)
    ensures |RefOne(env, saved, c).1| == After(c, |saved|)
    decreases c, 1
  {
    if c.Drop? { CountAll(env, saved, c.codes); }
  }

  lemma {:induction false} CountAll(env: Memory, saved: seq<Saved>, cs: seq<Code>)
    ensures |RefAll(env, saved, cs).1| == AfterAll(cs, |saved|)
    decreases cs, 0
  {
    if cs != [] {
      var (env1, saved1) := RefOne(env, saved, cs[0]);
      CountOne(env, saved, cs[0]);
      CountAll(env1, saved1, cs[1..]);
    }
  }

  /** Code that may run between the start of a call and its finish: it makes and undoes
      no bindings in its own frame and leaves the locals alone. */
  predicate Balanced(cs: seq<Code>)
    decreases cs, 0
  {
    cs == [] || (BalancedOne(cs[0]) && Balanced(cs[1..]))
  }

  predicate BalancedOne(c: Code)
    decreases c, 1
  {
    match c
    case PushValue(_) => true
    case Set(_, _) => true
    case Drop(codes) => Balanced(codes)
    case Call(_, _, _, _, _, _, _, _) => true
    case Trap(_, _, _, _) => true
    case _ => false
  }

  /** What running on in one frame leaves as it was. */
  ghost predicate KeepsFrame(m: Machine, m1: Machine) {
    && OnStack(m) && OnStack(m1)
    && m1.fp == m.fp && m1.sp >= m.sp && m1.stack[..m.sp + 1] == m.stack[..m.sp + 1]
    && Same(m1.continuation, m.continuation)
    && m1.control == m.control.(cleanupBindings := m1.control.cleanupBindings,
                                argumentSize := m1.control.argumentSize)
    && m1.limit == m.limit && m1.deepBound == m.deepBound
  }

  ghost predicate Stepped(m: Machine, m1: Machine, lo: nat, saved: seq<Saved>, env1: Memory, saved1: seq<Saved>) {
    && KeepsFrame(m, m1)
    && Fit(m1, lo, saved1, env1)
    && m1.bsp - 2 * |saved1| == m.bsp - 2 * |saved|
    && Below(m.mem, m1.mem, lo, m.bsp - 2 * |saved|)
  }

  /** Back in the frame of m, as it was. */
  ghost predicate Returned(m: Machine, r: Machine, lo: nat) {
    && OnStack(m) && OnStack(r)
    && r.fp == m.fp && r.sp == m.sp && r.lp == m.lp && r.control == m.control
    && Same(r.continuation, m.continuation)
    && r.stack[..m.sp + 1] == m.stack[..m.sp + 1]
    && r.bsp == m.bsp && r.limit == m.limit && r.deepBound == m.deepBound
    && Below(m.mem, r.mem, lo, m.bsp)
  }

  /** m4 runs in a frame entered from m. */
  ghost predicate Entered(m: Machine, m4: Machine) {
    && OnStack(m) && OnStack(m4) && m4.sp >= m.sp + 2
    && m4.fp == m.sp + 1 && m4.stack[..m.sp + 1] == m.stack[..m.sp + 1]
    && m4.stack[m.sp + 1] == CdrThree(m.continuation)
    && m4.stack[m.sp + 2] == CdrThree(Fixnum(Pack(m.control)))
    && m.fp <= m.sp && m4.control.callerFrameSize == m.sp + 1 - m.fp
    && m4.limit == m.limit && m4.deepBound == m.deepBound
  }

  function Finish(r: Machine, disposition: bits2, v: LispObj): Option<Machine>
    requires OnStack(r)
  {
    if disposition == RETURN then ReturnSingle(r, v) else Some(Deliver(r, disposition, v))
  }

  // ---------------------------------------------------------------- The binding stack

  lemma {:induction false} ChainStays(mem: Memory, mem1: Memory, bsp: nat, saved: seq<Saved>, b: bit, first: bit,
                                      lo: nat)
    requires Chained(mem, bsp, saved, b, first) && lo + 2 * |saved| <= bsp && Below(mem, mem1, lo, bsp)
    ensures Chained(mem1, bsp, saved, b, first)
    decreases |saved|
  {
    if saved != [] {
      ChainStays(mem, mem1, bsp - 2, saved[..|saved| - 1], if |saved| > 1 then 1 else first, first, lo);
    }
  }

  lemma BoundStays(mem: Memory, mem1: Memory, bsp: nat, saved: seq<Saved>, b: bit, lo: nat)
    requires Bound(mem, bsp, saved, b) && lo + 2 * |saved| <= bsp && Below(mem, mem1, lo, bsp)
    ensures Bound(mem1, bsp, saved, b)
  {
    ChainStays(mem, mem1, bsp, saved, b, 0, lo);
  }

  /** A store to a cell, on both sides. */
  lemma StoreAgrees(mem: Memory, env: Memory, lo: int, hi: int, a: int, o: LispObj)
    requires Agree(mem, env, lo, hi) && Cell(a, lo, hi)
    ensures Agree(StoreContents(mem, a, o), StoreContents(env, a, o), lo, hi)
    ensures Below(mem, StoreContents(mem, a, o), lo, hi)
  {}

  /** Whatever its cdr code, a locative bound on top of a chain continues it; the first one of
      a frame brings its own bit 6 along. */
  lemma BindChains(m: Machine, loc: LispObj, lo: nat, saved: seq<Saved>, first: bit)
    requires Chained(m.mem, m.bsp, saved, m.control.cleanupBindings, first) && lo + 2 * |saved| <= m.bsp
    requires BindLocative(m, loc).Some? && (saved == [] ==> first == 0)
    ensures var m1, was := BindLocative(m, loc).value, Saved(loc.data, Read(m.mem, loc.data));
      && Chained(m1.mem, m1.bsp, saved + [was], 1, if saved == [] then loc.tag / 64 % 2 else first)
      && Below(m.mem, m1.mem, lo, m.bsp)
  {
    var m1, was := BindLocative(m, loc).value, Saved(loc.data, Read(m.mem, loc.data));
    var saved1 := saved + [was];
    assert saved1[..|saved1| - 1] == saved;
    assert Below(m.mem, m1.mem, lo, m.bsp);
    if saved != [] {
      ChainStays(m.mem, m1.mem, m.bsp, saved, 1, first, lo);
    }
  }

  lemma BindFits(m: Machine, loc: LispObj, lo: nat, saved: seq<Saved>, env: Memory)
    requires Fit(m, lo, saved, env) && Cell(loc.data, lo, m.limit + 2) && BindLocative(m, loc).Some?
    requires Ends(loc, |saved|)
    ensures Stepped(m, BindLocative(m, loc).value, lo, saved, env, saved + [Saved(loc.data, Read(env, loc.data))])
  {
    hide Chained;
    var m1, saved1 := BindLocative(m, loc).value, saved + [Saved(loc.data, Read(env, loc.data))];
    BindChains(m, loc, lo, saved, 0);
    assert Read(m.mem, loc.data) == Read(env, loc.data);
    assert Agree(m1.mem, env, lo, m.limit + 2) && SavedOk(saved1, lo, m.limit + 2);
    assert Below(m.mem, m1.mem, lo, m.bsp - 2 * |saved|);
    SteppedBy(m, m1, lo, saved, env, env, saved1);
  }

  lemma SetFits(m: Machine, a: u32, o: LispObj, lo: nat, saved: seq<Saved>, env: Memory)
    requires Fit(m, lo, saved, env) && Cell(a, lo, m.limit + 2)
    ensures Stepped(m, m.(mem := StoreContents(m.mem, a, o)), lo, saved, StoreContents(env, a, o), saved)
    ensures ArgsKept(m, m.(mem := StoreContents(m.mem, a, o)), lo)
  {
    StoreAgrees(m.mem, env, lo, m.limit + 2, a, o);
    BoundStays(m.mem, StoreContents(m.mem, a, o), m.bsp, saved, m.control.cleanupBindings, lo);
  }

  /** A step within a frame that changes the cells and the binding stack only. */
  lemma SteppedBy(m: Machine, m1: Machine, lo: nat, saved: seq<Saved>, env: Memory, env1: Memory, saved1: seq<Saved>)
    requires Fit(m, lo, saved, env)
    requires m1 == m.(mem := m1.mem, bsp := m1.bsp,
                      control := m.control.(cleanupBindings := m1.control.cleanupBindings))
    requires m1.bsp - 2 * |saved1| == m.bsp - 2 * |saved| && m1.bsp <= m.limit + 1
    requires Bound(m1.mem, m1.bsp, saved1, m1.control.cleanupBindings) && Agree(m1.mem, env1, lo, m.limit + 2)
    requires SavedOk(saved1, lo, m.limit + 2) && Below(m.mem, m1.mem, lo, m.bsp - 2 * |saved|)
    ensures Stepped(m, m1, lo, saved, env1, saved1)
  {
    hide Bound; hide Agree; hide SavedOk; hide Below;
  }

  /** The binding stack and the cells after one step down the chain. */
  lemma UnbindStep(m: Machine, lo: nat, saved: seq<Saved>, env: Memory)
    requires Fit(m, lo, saved, env) && saved != []
    ensures Unbind(m).Some?
    ensures var last, init, m1 := saved[|saved| - 1], saved[..|saved| - 1], Unbind(m).value;
      && m1.mem == StoreContents(m.mem, last.loc, last.was)
      && m1 == m.(mem := m1.mem, bsp := m.bsp - 2,
                  control := m.control.(cleanupBindings := m1.control.cleanupBindings))
      && Agree(m1.mem, StoreContents(env, last.loc, last.was), lo, m.limit + 2)
      && Below(m.mem, m1.mem, lo, m.limit + 2) && Below(m.mem, m1.mem, lo, m.bsp - 2 * |saved|)
      && Bound(m1.mem, m1.bsp, init, m1.control.cleanupBindings)
      && m1.bsp <= m.limit + 1 && SavedOk(init, lo, m.limit + 2)
  {
    hide StoreContents; hide Agree;
    var last, init := saved[|saved| - 1], saved[..|saved| - 1];
    var m1 := Unbind(m).value;
    StoreAgrees(m.mem, env, lo, m.limit + 2, last.loc, last.was);
    BoundStays(m.mem, m1.mem, m.bsp - 2, init, m1.control.cleanupBindings, lo);
  }

  /** One step down the chain undoes the latest binding of the frame and no other. */
  lemma UnbindFits(m: Machine, lo: nat, saved: seq<Saved>, env: Memory)
    requires Fit(m, lo, saved, env)
    ensures Unbind(m).Some? <==> saved != []
    ensures saved != [] ==>
      var last := saved[|saved| - 1];
      Stepped(m, Unbind(m).value, lo, saved, StoreContents(env, last.loc, last.was), saved[..|saved| - 1])
      && Below(m.mem, Unbind(m).value.mem, lo, m.limit + 2)
  {
    if saved == [] {
      assert m.control.cleanupBindings == 0;
    } else {
      hide Fit; hide Stepped; hide Bound; hide Agree; hide SavedOk; hide Below; hide Unbind; hide StoreContents;
      var last, init := saved[|saved| - 1], saved[..|saved| - 1];
      UnbindStep(m, lo, saved, env);
      SteppedBy(m, Unbind(m).value, lo, saved, env, StoreContents(env, last.loc, last.was), init);
    }
  }

  /** The frame's bindings undone, and nothing else changed. */
  ghost predicate Undone(m: Machine, r: Machine, lo: nat, saved: seq<Saved>, env: Memory) {
    && r.bsp == m.bsp - 2 * |saved|
    && Agree(r.mem, Undo(env, saved), lo, m.limit + 2)
    && Below(m.mem, r.mem, lo, m.limit + 2)
  }

  /** Following the chain to its end undoes exactly the frame's bindings. */
  lemma {:induction false} UnbindAllUndoes(m: Machine, lo: nat, saved: seq<Saved>, env: Memory)
    requires Fit(m, lo, saved, env)
    ensures UnbindAll(m).Some? && Undone(m, UnbindAll(m).value, lo, saved, env)
    decreases |saved|
  {
    hide Agree; hide Below; hide SavedOk; hide StoreContents;
    UnbindFits(m, lo, saved, env);
    if saved != [] {
      var last, init := saved[|saved| - 1], saved[..|saved| - 1];
      var m1, env1 := Unbind(m).value, StoreContents(env, last.loc, last.was);
      UnbindAllUndoes(m1, lo, init, env1);
      UndoneAfter(m, m1, UnbindAll(m1).value, lo, saved, env);
    } else {
      NothingUndone(m, lo, env);
    }
  }

  lemma NothingUndone(m: Machine, lo: nat, env: Memory)
    requires Agree(m.mem, env, lo, m.limit + 2)
    ensures Undone(m, m, lo, [], env)
  {}

  lemma UndoneAfter(m: Machine, m1: Machine, r: Machine, lo: nat, saved: seq<Saved>, env: Memory)
    requires saved != [] && m.bsp >= 2 && m1.bsp == m.bsp - 2 && m1.limit == m.limit
    requires Below(m.mem, m1.mem, lo, m.limit + 2)
    requires var last := saved[|saved| - 1];
      Undone(m1, r, lo, saved[..|saved| - 1], StoreContents(env, last.loc, last.was))
    ensures Undone(m, r, lo, saved, env)
  {}

  // ---------------------------------------------------------------- Frames

  lemma SteppedOn(m: Machine, m1: Machine, m2: Machine, lo: nat, saved: seq<Saved>,
                  env1: Memory, saved1: seq<Saved>, env2: Memory, saved2: seq<Saved>)
    requires Stepped(m, m1, lo, saved, env1, saved1) && Stepped(m1, m2, lo, saved1, env2, saved2)
    ensures Stepped(m, m2, lo, saved, env2, saved2)
  {
    assert m2.stack[..m.sp + 1] == m2.stack[..m1.sp + 1][..m.sp + 1] == m1.stack[..m.sp + 1];
  }

  lemma SavedControl(c: Control)
    ensures Unpack(CdrThree(Fixnum(Pack(c))).data) == c
  {
    hide Pack; hide Unpack;
    UnpackPack(c);
    FixnumData(Pack(c));
  }

  lemma FixnumData(w: u32)
    ensures CdrThree(Fixnum(w)).data == w
  {}

  lemma BelowStays(mem: Memory, mem1: Memory, mem2: Memory, lo: int, top: int, hi: int)
    requires Below(mem, mem1, lo, top) && Below(mem1, mem2, lo, hi) && top <= hi
    ensures Below(mem, mem2, lo, top)
  {}

  /** Popping the frame m4 gives back the frame of m, its bindings and its cells. */
  lemma PopReturns(m: Machine, m4: Machine, lo: nat, saved: seq<Saved>, s2: seq<Saved>, e2: Memory)
    requires Entered(m, m4) && Fit(m4, lo, s2, e2)
    requires m.lp == m.fp + m.control.argumentSize && m.control.cleanupCatch == 0
    requires lo + 2 * |saved| <= m.bsp == m4.bsp - 2 * |s2| && m.bsp <= m.limit + 1
    requires Bound(m.mem, m.bsp, saved, m.control.cleanupBindings) && SavedOk(saved, lo, m.limit + 2)
    requires Below(m.mem, m4.mem, lo, m.bsp) && PopFrame(m4).Some?
    ensures Returned(m, PopFrame(m4).value, lo)
    ensures Fit(PopFrame(m4).value, lo, saved, Undo(e2, s2))
  {
    hide Pack; hide Unpack; hide Agree; hide Below; hide SavedOk; hide Undo; hide UnbindAll; hide Bound;
    hide StoreContents;
    UnbindAllUndoes(m4, lo, s2, e2);
    SavedControl(m.control);
    var r := PopFrame(m4).value;
    BelowStays(m.mem, m4.mem, r.mem, lo, m.bsp, m.limit + 2);
    BoundStays(m.mem, r.mem, m.bsp, saved, m.control.cleanupBindings, lo);
  }

  // ---------------------------------------------------------------- Programs

  lemma FrameIsStarted(m: Machine, target: LispObj, extra: Option<LispObj>)
    requires OnStack(m)
    ensures var m1 := StartFrame(m, target, extra);
      && m1 == m.(sp := m1.sp, stack := m1.stack, continuation := target,
                  control := m.control.(callStarted := 1, extraArgument := m1.control.extraArgument))
      && m1.sp == m.sp + 2 + m1.control.extraArgument
      && m1.stack[..m.sp + 1] == m.stack[..m.sp + 1]
      && m1.stack[m.sp + 1] == CdrThree(m.continuation)
      && m1.stack[m.sp + 2] == CdrThree(Fixnum(Pack(m.control)))
  {
    hide Pack; hide CdrThree; hide CdrNext; hide Fixnum;
    var x, y := CdrThree(m.continuation), CdrThree(Fixnum(Pack(m.control)));
    var m2 := Push(Push(m, x), y);
    TwoPushed(m, x, y);
    hide Push;
    if extra.Some? {
      Pushed(m2, CdrNext(extra.value));
      ThreeWords(m.stack, m2.stack, Push(m2, CdrNext(extra.value)).stack, m.sp);
    }
  }

  lemma Pushed(m: Machine, x: LispObj)
    requires OnStack(m)
    ensures var m1 := Push(m, x);
      && m1 == m.(sp := m.sp + 1, stack := m1.stack) && m1.sp < |m1.stack|
      && m1.stack[..m.sp + 1] == m.stack[..m.sp + 1] && m1.stack[m.sp + 1] == x
  {}

  lemma TwoPushed(m: Machine, x: LispObj, y: LispObj)
    requires OnStack(m)
    ensures var m2 := Push(Push(m, x), y);
      && m2 == m.(sp := m.sp + 2, stack := m2.stack) && m2.sp < |m2.stack|
      && m2.stack[..m.sp + 1] == m.stack[..m.sp + 1] && m2.stack[m.sp + 1] == x && m2.stack[m.sp + 2] == y
  {
    var m1 := Push(m, x);
    Pushed(m, x);
    Pushed(m1, y);
    hide Push;
    Prefix(Push(m1, y).stack, m1.stack, m.sp + 2, m.sp + 1);
    assert Push(m1, y).stack[m.sp + 1] == Push(m1, y).stack[..m.sp + 2][m.sp + 1];
    assert m1.stack[m.sp + 1] == m1.stack[..m.sp + 2][m.sp + 1];
  }

  lemma StartsFrame(m: Machine, target: LispObj, extra: Option<LispObj>, lo: nat, saved: seq<Saved>, env: Memory)
    requires Fit(m, lo, saved, env)
    ensures var m1 := StartFrame(m, target, extra);
      && Fit(m1, lo, saved, env)
      && m1.sp == m.sp + 2 + m1.control.extraArgument
      && m1.stack[..m.sp + 1] == m.stack[..m.sp + 1]
      && m1.stack[m.sp + 1] == CdrThree(m.continuation)
      && m1.stack[m.sp + 2] == CdrThree(Fixnum(Pack(m.control)))
      && m1.mem == m.mem && m1.bsp == m.bsp && m1.fp == m.fp && m1.lp == m.lp
      && m1.limit == m.limit && m1.deepBound == m.deepBound
      && m1.control == m.control.(callStarted := 1, extraArgument := m1.control.extraArgument)
  {
    hide Pack; hide CdrThree; hide Fixnum; hide CdrNext;
    var m1 := StartFrame(m, target, extra);
    FrameIsStarted(m, target, extra);
    hide StartFrame; hide Agree; hide Bound; hide SavedOk;
    assert Fit(m1, lo, saved, env);
  }

  /** A frame being called: what has been pushed above the saved words is its arguments. */
  ghost predicate Calling(m: Machine, m2: Machine, lo: nat) {
    && OnStack(m) && OnStack(m2) && m2.sp >= m.sp + 2 + m2.control.extraArgument
    && m2.fp == m.fp <= m.sp && m2.bsp == m.bsp && m2.limit == m.limit && m2.deepBound == m.deepBound
    && m2.stack[..m.sp + 1] == m.stack[..m.sp + 1]
    && m2.stack[m.sp + 1] == CdrThree(m.continuation)
    && m2.stack[m.sp + 2] == CdrThree(Fixnum(Pack(m.control)))
    && Below(m.mem, m2.mem, lo, m.bsp)
  }

  lemma FinishesCall(m: Machine, m2: Machine, n: u8, d: bits2, apply: bit, next: LispObj,
                     lo: nat, saved: seq<Saved>, env: Memory)
    requires Calling(m, m2, lo) && Fit(m2, lo, saved, env) && FinishCall(m2, n, d, apply, next).Some?
    requires m2.sp == m.sp + 2 + m2.control.extraArgument + (n - 1)
    ensures var m3 := FinishCall(m2, n, d, apply, next).value;
      && Entered(m, m3) && Fit(m3, lo, [], env) && m3.bsp == m.bsp && m3.control.disposition == d
      && m3.continuation == next && Below(m.mem, m3.mem, lo, m.bsp) && m3.limit == m.limit
  {
    hide Pack;
  }

  /** A step that may stand among the arguments of a call. */
  ghost predicate ArgsKept(m: Machine, m1: Machine, lo: nat) {
    m1.control == m.control && m1.lp == m.lp && m1.bsp == m.bsp && Below(m.mem, m1.mem, lo, m.bsp)
  }

  lemma ArgsKeptOn(m: Machine, m1: Machine, m2: Machine, lo: nat)
    requires ArgsKept(m, m1, lo) && ArgsKept(m1, m2, lo)
    ensures ArgsKept(m, m2, lo)
  {}

  lemma PushSteps(m: Machine, x: LispObj, lo: nat, saved: seq<Saved>, env: Memory)
    requires Fit(m, lo, saved, env)
    ensures Stepped(m, Push(m, x), lo, saved, env, saved) && ArgsKept(m, Push(m, x), lo)
  {}

  lemma LocalsStep(m: Machine, lo: nat, saved: seq<Saved>, env: Memory)
    requires Fit(m, lo, saved, env) && LocateLocals(m).Some?
    ensures Stepped(m, LocateLocals(m).value, lo, saved, env, saved)
  {}

  lemma DropSteps(m: Machine, m1: Machine, lo: nat, saved: seq<Saved>, env1: Memory, saved1: seq<Saved>)
    requires Stepped(m, m1, lo, saved, env1, saved1) && m.fp <= m.sp
    ensures Stepped(m, m1.(sp := m.sp), lo, saved, env1, saved1)
    ensures ArgsKept(m, m1, lo) ==> ArgsKept(m, m1.(sp := m.sp), lo)
  {}

  lemma DeliverSteps(m: Machine, r: Machine, d: bits2, v: LispObj, lo: nat, saved: seq<Saved>, env1: Memory)
    requires Returned(m, r, lo) && Fit(r, lo, saved, env1)
    ensures Stepped(m, Deliver(r, d, v), lo, saved, env1, saved) && ArgsKept(m, Deliver(r, d, v), lo)
  {
    ReturnedSteps(m, r, lo, saved, env1);
    if d == VALUE || d == MULTIPLE {
      var r1 := Push(r, CdrNext(v));
      PushSteps(r, CdrNext(v), lo, saved, env1);
      SteppedOn(m, r, r1, lo, saved, env1, saved, env1, saved);
      if d == MULTIPLE {
        PushSteps(r1, Fixnum(1), lo, saved, env1);
        SteppedOn(m, r1, Push(r1, Fixnum(1)), lo, saved, env1, saved, env1, saved);
      }
    }
  }

  lemma ReturnedSteps(m: Machine, r: Machine, lo: nat, saved: seq<Saved>, env1: Memory)
    requires Returned(m, r, lo) && Fit(r, lo, saved, env1)
    ensures Stepped(m, r, lo, saved, env1, saved) && ArgsKept(m, r, lo)
  {}

  /** Running a body on keeps what entering its frame has set up. */
  lemma BodyStaysEntered(m: Machine, m3: Machine, m4: Machine, lo: nat, e1: Memory, s2: seq<Saved>, e2: Memory)
    requires Entered(m, m3) && m3.bsp == m.bsp && Below(m.mem, m3.mem, lo, m.bsp)
    requires Stepped(m3, m4, lo, [], e2, s2)
    ensures Entered(m, m4) && m4.bsp - 2 * |s2| == m.bsp && Below(m.mem, m4.mem, lo, m.bsp)
    ensures m4.control.disposition == m3.control.disposition && Same(m4.continuation, m3.continuation)
  {
    assert m4.stack[..m.sp + 1] == m4.stack[..m3.sp + 1][..m.sp + 1];
    assert m4.stack[m.sp + 1] == m4.stack[..m3.sp + 1][m.sp + 1];
    assert m4.stack[m.sp + 2] == m4.stack[..m3.sp + 1][m.sp + 2];
  }

  /** So does a call that ends the body. */
  lemma TailStaysEntered(m: Machine, m4: Machine, r4: Machine, lo: nat)
    requires Entered(m, m4) && Below(m.mem, m4.mem, lo, m.bsp) && m.bsp <= m4.bsp && Returned(m4, r4, lo)
    ensures Entered(m, r4) && Below(m.mem, r4.mem, lo, m.bsp)
    ensures r4.control == m4.control && Same(r4.continuation, m4.continuation) && r4.bsp == m4.bsp
  {
    assert r4.stack[..m.sp + 1] == r4.stack[..m4.sp + 1][..m.sp + 1];
    assert r4.stack[m.sp + 1] == r4.stack[..m4.sp + 1][m.sp + 1];
    assert r4.stack[m.sp + 2] == r4.stack[..m4.sp + 1][m.sp + 2];
  }

  /** The state of a caller that a return has to find again. */
  ghost predicate Caller(m: Machine, lo: nat, saved: seq<Saved>) {
    && OnStack(m) && m.fp <= m.sp && m.lp == m.fp + m.control.argumentSize && m.control.cleanupCatch == 0
    && lo + 2 * |saved| <= m.bsp <= m.limit + 1
    && Bound(m.mem, m.bsp, saved, m.control.cleanupBindings) && SavedOk(saved, lo, m.limit + 2)
  }

  /** What a return from m4, made in a frame entered from m, comes to. */
  ghost predicate Comes(m: Machine, result: Option<Machine>, d: bits2, next: LispObj,
                        lo: nat, saved: seq<Saved>, env: Memory, r: Machine, v: LispObj)
  {
    && Returned(m, r, lo) && Fit(r, lo, saved, env)
    && result == Finish(r, d, v)
    && (d != RETURN ==> Same(r.pc, next))
  }

  lemma ReturnComes(m: Machine, m4: Machine, v: LispObj, lo: nat, saved: seq<Saved>,
                    s2: seq<Saved>, e2: Memory, next: LispObj) returns (r: Machine)
    requires Caller(m, lo, saved) && Entered(m, m4) && Fit(m4, lo, s2, e2)
    requires m4.bsp - 2 * |s2| == m.bsp && Below(m.mem, m4.mem, lo, m.bsp) && Same(m4.continuation, next)
    requires ReturnSingle(m4, v).Some?
    ensures Comes(m, ReturnSingle(m4, v), m4.control.disposition, next, lo, saved, Undo(e2, s2), r, v)
  {
    hide Pack; hide Unpack; hide Undo; hide Below; hide Bound; hide SavedOk; hide Agree; hide UnbindAll;
    PopReturns(m, m4, lo, saved, s2, e2);
    r := PopFrame(m4).value;
    if m4.control.disposition != RETURN { r := r.(pc := m4.continuation); }
  }

  lemma {:induction false} ExecSteps(m: Machine, c: Code, lo: nat, saved: seq<Saved>, env: Memory)
    requires Fit(m, lo, saved, env) && CodeOk(c, lo, m.limit + 2, |saved|) && Exec(m, c).Some?
    requires c.Call? ==> c.disposition != RETURN
    ensures RunsOn(m, Exec(m, c), RefOne(env, saved, c), BalancedOne(c), lo, saved)
    decreases c, 2
  {
    hide Fit; hide Stepped; hide ArgsKept; hide Returned; hide StartCall; hide FinishCall; hide TakePreTrap;
    hide BindToValue; hide BindLocative; hide Unbind; hide LocateLocals; hide Push; hide Leave;
    FitStands(m, lo, saved, env);
    match c
    case PushValue(x) => PushSteps(m, CdrNext(x), lo, saved, env);
    case Bind(loc, v) => BindStep(m, loc, v, lo, saved, env);
    case BindOnly(loc) => BindFits(m, loc, lo, saved, env);
    case UnbindOne => UnbindFits(m, lo, saved, env);
    case Set(loc, v) => SetFits(m, loc, v, lo, saved, env);
    case Locals => LocalsStep(m, lo, saved, env);
    case Drop(codes) =>
      ExecAllSteps(m, codes, lo, saved, env);
      var (env1, saved1) := RefAll(env, saved, codes);
      DropSteps(m, ExecAll(m, codes).value, lo, saved, env1, saved1);
    case Call(_, _, _, _, _, _, _, _) =>
      var r, v := CallComes(m, c, lo, saved, env);
      DeliverSteps(m, r, c.disposition, v, lo, saved, RefOne(env, saved, c).0);
    case Trap(_, _, _, _) =>
      var r, v := TrapComes(m.(restartsp := m.sp), c, lo, saved, env);
      TrapSteps(m, r, v, lo, saved, RefOne(env, saved, c).0);
  }

  lemma FitStands(m: Machine, lo: nat, saved: seq<Saved>, env: Memory)
    requires Fit(m, lo, saved, env)
    ensures OnStack(m) && m.fp <= m.sp && Caller(m, lo, saved) && Fit(m.(restartsp := m.sp), lo, saved, env)
  {}

  lemma BindStep(m: Machine, loc: LispObj, v: LispObj, lo: nat, saved: seq<Saved>, env: Memory)
    requires Fit(m, lo, saved, env) && Cell(loc.data, lo, m.limit + 2) && BindToValue(m, loc, v).Some?
    requires Ends(loc, |saved|)
    ensures Stepped(m, BindToValue(m, loc, v).value, lo, saved, StoreContents(env, loc.data, v),
                    saved + [Saved(loc.data, Read(env, loc.data))])
  {
    var m1, saved1 := BindLocative(m, loc).value, saved + [Saved(loc.data, Read(env, loc.data))];
    var env1 := StoreContents(env, loc.data, v);
    BindFits(m, loc, lo, saved, env);
    SetFits(m1, loc.data, v, lo, saved1, env);
    SteppedOn(m, m1, BindToValue(m, loc, v).value, lo, saved, env, saved1, env1, saved1);
  }

  lemma TrapSteps(m: Machine, r: Machine, v: LispObj, lo: nat, saved: seq<Saved>, env1: Memory)
    requires Returned(m.(restartsp := m.sp), r, lo) && Fit(r, lo, saved, env1)
    ensures Stepped(m, Deliver(r, EFFECT, v), lo, saved, env1, saved) && ArgsKept(m, Deliver(r, EFFECT, v), lo)
  {}

  /** What running a piece of code, or a list of them, comes to. */
  ghost predicate RunsOn(m: Machine, r: Option<Machine>, after: (Memory, seq<Saved>), balanced: bool,
                         lo: nat, saved: seq<Saved>)
  {
    && r.Some? && Stepped(m, r.value, lo, saved, after.0, after.1)
    && (balanced ==> after.1 == saved && ArgsKept(m, r.value, lo))
  }

  lemma {:induction false} ExecAllSteps(m: Machine, cs: seq<Code>, lo: nat, saved: seq<Saved>, env: Memory)
    requires Fit(m, lo, saved, env) && AllOk(cs, lo, m.limit + 2, |saved|) && ExecAll(m, cs).Some?
    ensures RunsOn(m, ExecAll(m, cs), RefAll(env, saved, cs), Balanced(cs), lo, saved)
    decreases cs, 1
  {
    hide Fit; hide Exec; hide RefOne; hide CodeOk; hide After; hide BalancedOne; hide RunsOn;
    hide ExecAll; hide RefAll; hide AllOk; hide Balanced;
    FitStands(m, lo, saved, env);
    if cs == [] {
      NothingRuns(m, lo, saved, env);
    } else {
      FirstStep(m, cs, lo, m.limit + 2, saved, env);
      var m1 := Exec(m, cs[0]).value;
      var (env1, saved1) := RefOne(env, saved, cs[0]);
      ExecSteps(m, cs[0], lo, saved, env);
      CountOne(env, saved, cs[0]);
      OneStepFits(m, Exec(m, cs[0]), RefOne(env, saved, cs[0]), BalancedOne(cs[0]), lo, saved);
      ExecAllSteps(m1, cs[1..], lo, saved1, env1);
      RunsOnFurther(m, Exec(m, cs[0]), RefOne(env, saved, cs[0]), BalancedOne(cs[0]), lo, saved,
                    ExecAll(m1, cs[1..]), RefAll(env1, saved1, cs[1..]), Balanced(cs[1..]));
    }
  }

  lemma NothingRuns(m: Machine, lo: nat, saved: seq<Saved>, env: Memory)
    requires OnStack(m) && Fit(m, lo, saved, env)
    ensures RunsOn(m, ExecAll(m, []), RefAll(env, saved, []), Balanced([]), lo, saved)
  {
    NothingStepped(m, lo, saved, env);
  }

  /** A list of codes is its first and then the others. */
  lemma FirstStep(m: Machine, cs: seq<Code>, lo: int, hi: int, saved: seq<Saved>, env: Memory)
    requires OnStack(m) && cs != [] && ExecAll(m, cs).Some?
    ensures Exec(m, cs[0]).Some? && ExecAll(m, cs) == ExecAll(Exec(m, cs[0]).value, cs[1..])
    ensures !(cs[0].Call? && cs[0].disposition == RETURN)
    ensures var (env1, saved1) := RefOne(env, saved, cs[0]); RefAll(env, saved, cs) == RefAll(env1, saved1, cs[1..])
    ensures AllOk(cs, lo, hi, |saved|) ==>
      CodeOk(cs[0], lo, hi, |saved|) && AllOk(cs[1..], lo, hi, After(cs[0], |saved|))
    ensures Balanced(cs) <==> BalancedOne(cs[0]) && Balanced(cs[1..])
  {
    hide Exec; hide RefOne; hide CodeOk; hide After; hide BalancedOne;
  }

  lemma OneStepFits(m: Machine, r: Option<Machine>, after: (Memory, seq<Saved>), balanced: bool,
                    lo: nat, saved: seq<Saved>)
    requires RunsOn(m, r, after, balanced, lo, saved)
    ensures Fit(r.value, lo, after.1, after.0) && r.value.limit == m.limit
  {}

  lemma RunsOnFurther(m: Machine, r: Option<Machine>, after: (Memory, seq<Saved>), balanced: bool, lo: nat,
                      saved: seq<Saved>, r1: Option<Machine>, after1: (Memory, seq<Saved>), balanced1: bool)
    requires RunsOn(m, r, after, balanced, lo, saved) && RunsOn(r.value, r1, after1, balanced1, lo, after.1)
    ensures RunsOn(m, r1, after1, balanced && balanced1, lo, saved)
  {
    SteppedOn(m, r.value, r1.value, lo, saved, after.0, after.1, after1.0, after1.1);
    if balanced && balanced1 { ArgsKeptOn(m, r.value, r1.value, lo); }
  }

  lemma SteppedFits(m: Machine, m1: Machine, lo: nat, saved: seq<Saved>, env1: Memory, saved1: seq<Saved>)
    requires Stepped(m, m1, lo, saved, env1, saved1)
    ensures Fit(m1, lo, saved1, env1)
  {}

  lemma NothingStepped(m: Machine, lo: nat, saved: seq<Saved>, env: Memory)
    requires Fit(m, lo, saved, env)
    ensures Stepped(m, m, lo, saved, env, saved) && ArgsKept(m, m, lo)
  {}

  /** Leaving a frame by returning, or by a call that returns for it. */
  lemma {:induction false} LeaveComes(m: Machine, m4: Machine, ret: Ret, lo: nat, saved: seq<Saved>,
                                      s2: seq<Saved>, e2: Memory, next: LispObj) returns (r: Machine, v: LispObj)
    requires Caller(m, lo, saved) && Entered(m, m4) && Fit(m4, lo, s2, e2)
    requires m4.bsp - 2 * |s2| == m.bsp && Below(m.mem, m4.mem, lo, m.bsp) && Same(m4.continuation, next)
    requires Leave(m4, ret).Some? && (ret.Tail? ==> CodeOk(ret.call, lo, m.limit + 2, |s2|))
    ensures Comes(m, Leave(m4, ret), m4.control.disposition, next, lo, saved,
                  Undo(if ret.Tail? then RefOne(e2, s2, ret.call).0 else e2, s2), r, v)
    ensures OnStack(m4) && v == ValueLeft(m4, ret)
    decreases ret, 1
  {
    hide Caller; hide Below; hide ReturnSingle; hide Undo; hide RefOne; hide Exec; hide CodeOk; hide Returned;
    FitStands(m4, lo, s2, e2);
    EnteredLimit(m, m4);
    hide Fit; hide Entered;
    if ret.Tail? {
      var r4;
      r4, v := CallComes(m4, ret.call, lo, s2, e2);
      r := TailReturns(m, m4, r4, v, lo, saved, s2, RefOne(e2, s2, ret.call).0, next);
    } else {
      v := if ret.Tos? then m4.stack[m4.sp] else if ret.Nil? then OBJECT_NIL else OBJECT_T;
      r := ReturnComes(m, m4, v, lo, saved, s2, e2, next);
    }
  }

  lemma EnteredLimit(m: Machine, m4: Machine)
    requires Entered(m, m4)
    ensures m4.limit == m.limit
  {}

  lemma TailReturns(m: Machine, m4: Machine, r4: Machine, v: LispObj, lo: nat, saved: seq<Saved>, s2: seq<Saved>,
                    e4: Memory, next: LispObj) returns (r: Machine)
    requires Caller(m, lo, saved) && Entered(m, m4) && Returned(m4, r4, lo) && Fit(r4, lo, s2, e4)
    requires m4.bsp - 2 * |s2| == m.bsp && Below(m.mem, m4.mem, lo, m.bsp) && Same(m4.continuation, next)
    requires ReturnSingle(r4, v).Some?
    ensures Comes(m, ReturnSingle(r4, v), m4.control.disposition, next, lo, saved, Undo(e4, s2), r, v)
  {
    TailStaysEntered(m, m4, r4, lo);
    hide Fit; hide Entered; hide Caller; hide Below; hide ReturnSingle; hide Undo; hide Comes; hide Returned;
    r := ReturnComes(m, r4, v, lo, saved, s2, e4, next);
  }

  /** What a call comes to: its frame gone, its value delivered, its bindings undone. */
  lemma {:induction false} CallComes(m: Machine, c: Code, lo: nat, saved: seq<Saved>, env: Memory)
    returns (r: Machine, v: LispObj)
    requires c.Call? && Fit(m, lo, saved, env) && CodeOk(c, lo, m.limit + 2, |saved|) && Exec(m, c).Some?
    ensures Comes(m, Exec(m, c), c.disposition, c.next, lo, saved, RefOne(env, saved, c).0, r, v)
    ensures v == ValueOf(m, c)
    decreases c, 1
  {
    hide Fit; hide Stepped; hide ArgsKept; hide Entered; hide Calling; hide StartCall; hide FinishCall; hide Leave;
    hide Caller; hide Below; hide Comes;
    FitStands(m, lo, saved, env);
    var m1 := StartCall(m, c.f).value;
    StartsCall(m, c.f, lo, saved, env);
    ExecAllSteps(m1, c.args, lo, saved, env);
    var m2 := ExecAll(m1, c.args).value;
    var env1 := RefAll(env, saved, c.args).0;
    ArgumentsKeepCalling(m, m1, m2, lo, saved, env1);
    SteppedFits(m1, m2, lo, saved, env1, saved);
    FinishesCall(m, m2, c.n + 1, c.disposition, c.apply, c.next, lo, saved, env1);
    var m3 := FinishCall(m2, c.n + 1, c.disposition, c.apply, c.next).value;
    assert ExecAll(m3, c.body).Some? && Exec(m, c) == Leave(ExecAll(m3, c.body).value, c.ret);
    ValueIsLeft(m, c, m3);
    hide Exec; hide ExecAll; hide ValueOf; hide EntersCall; hide ValueLeft;
    r, v := FrameComes(m, m3, c, lo, saved, env1, c.next);
  }

  lemma ValueIsLeft(m: Machine, c: Code, m3: Machine)
    requires OnStack(m) && c.Call? && EntersCall(m, c) == Some(m3) && ExecAll(m3, c.body).Some?
    ensures ValueOf(m, c) == ValueLeft(ExecAll(m3, c.body).value, c.ret)
  {
    hide StartCall; hide FinishCall; hide ExecAll;
  }

  /** What the body of a call or of a trap handler comes to, once its frame is entered. */
  lemma {:induction false} FrameComes(m: Machine, m3: Machine, c: Code, lo: nat, saved: seq<Saved>, env1: Memory,
                                      next: LispObj) returns (r: Machine, v: LispObj)
    requires (c.Call? || c.Trap?) && BodyOk(c, lo, m.limit + 2) && Caller(m, lo, saved)
    requires Entered(m, m3) && Fit(m3, lo, [], env1) && m3.bsp == m.bsp && m3.limit == m.limit
    requires Below(m.mem, m3.mem, lo, m.bsp) && Same(m3.continuation, next)
    requires ExecAll(m3, c.body).Some? && Leave(ExecAll(m3, c.body).value, c.ret).Some?
    ensures Comes(m, Leave(ExecAll(m3, c.body).value, c.ret), m3.control.disposition, next,
                  lo, saved, RefFrame(env1, c), r, v)
    ensures v == ValueLeft(ExecAll(m3, c.body).value, c.ret)
    decreases c, 0
  {
    hide Fit; hide Stepped; hide ArgsKept; hide Entered; hide Leave; hide Caller; hide Below; hide Comes;
    FitStands(m3, lo, [], env1);
    ExecAllSteps(m3, c.body, lo, [], env1);
    var m4 := ExecAll(m3, c.body).value;
    var (e2, s2) := RefAll(env1, [], c.body);
    CountAll(env1, [], c.body);
    SteppedFits(m3, m4, lo, [], e2, s2);
    BodyStaysEntered(m, m3, m4, lo, env1, s2, e2);
    r, v := LeaveComes(m, m4, c.ret, lo, saved, s2, e2, next);
  }

  lemma StartsCall(m: Machine, f: LispObj, lo: nat, saved: seq<Saved>, env: Memory)
    requires Fit(m, lo, saved, env) && StartCall(m, f).Some?
    ensures var m1 := StartCall(m, f).value;
      && Fit(m1, lo, saved, env) && Calling(m, m1, lo)
      && m1.sp == m.sp + 2 + m1.control.extraArgument && m1.limit == m.limit
  {
    hide Fit; hide StartFrame; hide Pack; hide StartCall;
    FitStands(m, lo, saved, env);
    var target, extra := StartIsFrame(m, f);
    StartsFrame(m, target, extra, lo, saved, env);
    FitStands(StartCall(m, f).value, lo, saved, env);
  }

  /** Whatever is called, a call starts by building a frame. */
  lemma StartIsFrame(m: Machine, f: LispObj) returns (target: LispObj, extra: Option<LispObj>)
    requires OnStack(m) && StartCall(m, f).Some?
    ensures StartCall(m, f).value == StartFrame(m, target, extra)
  {
    hide StartFrame;
    var environment, code := Read(m.mem, f.data), Read(m.mem, (f.data + 1) % 0x1_0000_0000);
    if TagType(f.tag) == TYPE_COMPILED_FUNCTION {
      target, extra := LispObj(TYPE_EVEN_PC, f.data), None;
    } else if TagType(f.tag) == TYPE_LEXICAL_CLOSURE && TagType(code.tag) == TYPE_COMPILED_FUNCTION {
      target, extra := LispObj(TYPE_EVEN_PC, code.data), Some(environment);
    } else {
      target, extra := Read(m.mem, TRAP_VECTOR_BASE + INTERPRETER_FUNCTION_VECTOR + TagType(f.tag)), Some(f);
    }
  }

  lemma ArgumentsKeepCalling(m: Machine, m1: Machine, m2: Machine, lo: nat, saved: seq<Saved>, env1: Memory)
    requires Calling(m, m1, lo) && m1.sp == m.sp + 2 + m1.control.extraArgument
    requires Stepped(m1, m2, lo, saved, env1, saved) && ArgsKept(m1, m2, lo)
    ensures Calling(m, m2, lo) && m2.control == m1.control
  {
    assert m2.stack[..m.sp + 1] == m2.stack[..m1.sp + 1][..m.sp + 1];
    assert m2.stack[m.sp + 1] == m2.stack[..m1.sp + 1][m.sp + 1];
    assert m2.stack[m.sp + 2] == m2.stack[..m1.sp + 1][m.sp + 2];
  }

  /** What a pre-trap whose handler returns comes to: the trapped instruction's frame as
      it was at its start, and its PC again. */
  lemma {:induction false} TrapComes(m: Machine, c: Code, lo: nat, saved: seq<Saved>, env: Memory)
    returns (r: Machine, v: LispObj)
    requires c.Trap? && |c.extras| <= 2 && m.restartsp < |m.stack| && Fit(m.(sp := m.restartsp), lo, saved, env)
    requires CodeOk(c, lo, m.limit + 2, |saved|)
    requires TakePreTrap(m, c.index, c.extras).Some?
    requires ExecAll(TakePreTrap(m, c.index, c.extras).value, c.body).Some?
    requires Leave(ExecAll(TakePreTrap(m, c.index, c.extras).value, c.body).value, c.ret).Some?
    ensures Comes(m.(sp := m.restartsp), Leave(ExecAll(TakePreTrap(m, c.index, c.extras).value, c.body).value, c.ret),
                  EFFECT, m.pc, lo, saved, RefOne(env, saved, c).0, r, v)
    decreases c, 1
  {
    hide Fit; hide Stepped; hide ArgsKept; hide Entered; hide TakePreTrap; hide Leave;
    hide Caller; hide Below; hide Comes;
    FitStands(m.(sp := m.restartsp), lo, saved, env);
    var m0, m3 := m.(sp := m.restartsp), TakePreTrap(m, c.index, c.extras).value;
    EntersTrap(m, c.index, c.extras, lo, saved, env);
    r, v := FrameComes(m0, m3, c, lo, saved, env, m.pc);
  }

  lemma TrapFrameIsPushed(m: Machine, index: u32, extras: seq<LispObj>)
    requires |extras| <= 2 && m.restartsp < |m.stack|
    ensures var m5 := PushTrapFrame(m, index, extras);
      && m5 == m.(sp := m.restartsp + 4 + |extras|, stack := m5.stack)
      && m5.stack[..m.restartsp + 1] == m.stack[..m.restartsp + 1]
      && m5.stack[m.restartsp + 1] == CdrThree(m.continuation)
      && m5.stack[m.restartsp + 2] == CdrThree(Fixnum(Pack(m.control)))
  {
    hide Pack; hide PushAll; hide CdrThree; hide CdrNext; hide Fixnum;
    var k := m.restartsp;
    var m1 := m.(sp := k);
    var m2 := Push(Push(m1, CdrThree(m.continuation)), CdrThree(Fixnum(Pack(m.control))));
    var m3 := Push(m2, Fixnum(index));
    var m4 := Push(m3, CdrNext(m.pc));
    var m5 := PushAll(m4, extras);
    assert m5 == PushTrapFrame(m, index, extras);
    hide PushTrapFrame;
    TwoPushed(m1, CdrThree(m.continuation), CdrThree(Fixnum(Pack(m.control))));
    Pushed(m2, Fixnum(index));
    Pushed(m3, CdrNext(m.pc));
    hide Push;
    Prefix(m5.stack, m4.stack, k + 5, k + 3);
    Prefix(m4.stack, m3.stack, k + 4, k + 3);
    ThreeWords(m.stack, m2.stack, m5.stack, k);
  }

  lemma Prefix<X>(s: seq<X>, t: seq<X>, i: nat, j: nat)
    requires j <= i <= |s| && i <= |t| && s[..i] == t[..i]
    ensures s[..j] == t[..j]
  {
    assert s[..j] == s[..i][..j];
    assert t[..j] == t[..i][..j];
  }

  lemma ThreeWords<X>(s: seq<X>, t: seq<X>, u: seq<X>, k: nat)
    requires k < |s| && k + 3 <= |t| && k + 3 <= |u| && s[..k + 1] == t[..k + 1] && t[..k + 3] == u[..k + 3]
    ensures u[..k + 1] == s[..k + 1] && u[k + 1] == t[k + 1] && u[k + 2] == t[k + 2]
  {
    Prefix(u, t, k + 3, k + 1);
    assert u[k + 1] == u[..k + 3][k + 1] && u[k + 2] == u[..k + 3][k + 2];
    assert t[k + 1] == t[..k + 3][k + 1] && t[k + 2] == t[..k + 3][k + 2];
  }

  lemma EntersTrap(m: Machine, index: u32, extras: seq<LispObj>, lo: nat, saved: seq<Saved>, env: Memory)
    requires |extras| <= 2 && m.restartsp < |m.stack| && Fit(m.(sp := m.restartsp), lo, saved, env)
    requires TakePreTrap(m, index, extras).Some?
    ensures var m0, m3 := m.(sp := m.restartsp), TakePreTrap(m, index, extras).value;
      && Entered(m0, m3) && Fit(m3, lo, [], env) && m3.bsp == m.bsp && Below(m.mem, m3.mem, lo, m.bsp)
      && m3.control.disposition == EFFECT && m3.continuation == m.pc && m3.limit == m.limit
  {
    hide Pack; hide PushTrapFrame; hide TrapEntry;
    TrapFrameIsPushed(m, index, extras);
  }

  // ---------------------------------------------------------------- Main results

  /** How many words a disposition leaves on the caller's stack. */
  function Delivered(disposition: bits2): nat {
    if disposition == VALUE then 1 else if disposition == MULTIPLE then 2 else 0
  }

  /** Where a call's value is found: on top, or under the count of values, with its own type and data
      and the cdr code of a word that another one follows. */
  ghost predicate HasValue(m1: Machine, disposition: bits2, v: LispObj) {
    && OnStack(m1)
    && (disposition == VALUE ==> m1.stack[m1.sp] == LispObj(v.tag % 64, v.data))
    && (disposition == MULTIPLE ==>
        1 <= m1.sp && m1.stack[m1.sp - 1] == LispObj(v.tag % 64, v.data) && m1.stack[m1.sp] == LispObj(TYPE_FIXNUM, 1))
  }

  /** The frame of m again, with `n` more words on its stack. */
  ghost predicate FrameIsBack(m: Machine, m1: Machine, n: nat) {
    && OnStack(m) && OnStack(m1)
    && m1.fp == m.fp && m1.lp == m.lp && m1.sp == m.sp + n && m1.control == m.control
    && Same(m1.continuation, m.continuation) && m1.stack[..m.sp + 1] == m.stack[..m.sp + 1]
    && m1.bsp == m.bsp && m1.limit == m.limit && m1.deepBound == m.deepBound
  }

  /** Calls are bracketed, whatever is nested inside: the caller's frame, control word and
      continuation come back, the PC is the one after the call, the value is delivered,
      the binding stack is back where it was with the caller's bindings intact, and the
      cells are what the program means. */
  lemma CallsAreBracketed(m: Machine, c: Code, lo: nat, saved: seq<Saved>, env: Memory)
    requires c.Call? && c.disposition != RETURN
    requires Fit(m, lo, saved, env) && CodeOk(c, lo, m.limit + 2, |saved|) && Exec(m, c).Some?
    ensures var m1 := Exec(m, c).value;
      && FrameIsBack(m, m1, Delivered(c.disposition)) && Same(m1.pc, c.next)
      && HasValue(m1, c.disposition, ValueOf(m, c))
      && Fit(m1, lo, saved, RefFrame(RefAll(env, saved, c.args).0, c))
      && Below(m.mem, m1.mem, lo, m.bsp)
  {
    hide Exec; hide RefFrame; hide RefAll;
    var r, v := CallComes(m, c, lo, saved, env);
    DeliverSteps(m, r, c.disposition, v, lo, saved, RefOne(env, saved, c).0);
    DeliversValue(r, c.disposition, v);
    RefCall(env, saved, c);
  }

  lemma DeliversValue(r: Machine, d: bits2, v: LispObj)
    requires OnStack(r)
    ensures HasValue(Deliver(r, d, v), d, v)
  {}

  lemma RefCall(env: Memory, saved: seq<Saved>, c: Code)
    requires c.Call?
    ensures RefOne(env, saved, c) == (RefFrame(RefAll(env, saved, c.args).0, c), saved)
  {}

  /** A frame that ends in a call for RETURN returns that call's value as its own: the
      inner return goes on to do what a return of the outer frame would. */
  lemma TailCallReturnsForIt(m: Machine, c: Code, lo: nat, saved: seq<Saved>, env: Memory)
    returns (r: Machine, v: LispObj)
    requires c.Call? && c.disposition == RETURN
    requires Fit(m, lo, saved, env) && CodeOk(c, lo, m.limit + 2, |saved|) && Exec(m, c).Some?
    ensures FrameIsBack(m, r, 0) && Exec(m, c) == ReturnSingle(r, v) && v == ValueOf(m, c)
    ensures Fit(r, lo, saved, RefOne(env, saved, c).0)
  {
    r, v := CallComes(m, c, lo, saved, env);
  }

  /** A pre-trap whose handler returns resumes at the trapped instruction with the stack
      that instruction started from, wherever in the instruction the trap was taken. */
  lemma TrapsResume(m: Machine, c: Code, lo: nat, saved: seq<Saved>, env: Memory) returns (m1: Machine)
    requires c.Trap? && |c.extras| <= 2 && m.restartsp < |m.stack| && Fit(m.(sp := m.restartsp), lo, saved, env)
    requires CodeOk(c, lo, m.limit + 2, |saved|)
    requires TakePreTrap(m, c.index, c.extras).Some?
    requires ExecAll(TakePreTrap(m, c.index, c.extras).value, c.body).Some?
    requires Leave(ExecAll(TakePreTrap(m, c.index, c.extras).value, c.body).value, c.ret).Some?
    ensures Leave(ExecAll(TakePreTrap(m, c.index, c.extras).value, c.body).value, c.ret) == Some(m1)
    ensures FrameIsBack(m.(sp := m.restartsp), m1, 0) && Same(m1.pc, m.pc)
    ensures Fit(m1, lo, saved, RefFrame(env, c))
  {
    hide ExecAll; hide Leave; hide TakePreTrap;
    var v;
    m1, v := TrapComes(m, c, lo, saved, env);
  }

  function Content(o: LispObj): (int, u32) { (TagType(o.tag), o.data) }

  predicate NotBound(saved: seq<Saved>, a: u32) { forall i :: 0 <= i < |saved| ==> saved[i].loc != a }

  /** The stores that undo bindings never touch other cells, nor any cell's cdr code. */
  lemma {:induction false} UndoTouchesBoundOnly(env: Memory, saved: seq<Saved>, a: u32)
    ensures TagCdr(Read(Undo(env, saved), a).tag) == TagCdr(Read(env, a).tag)
    ensures NotBound(saved, a) ==> Read(Undo(env, saved), a) == Read(env, a)
    decreases |saved|
  {
    if saved != [] {
      var last, init := saved[|saved| - 1], saved[..|saved| - 1];
      UndoTouchesBoundOnly(StoreContents(env, last.loc, last.was), init, a);
    }
  }

  /** A store gives the cell the object's type and data, leaves the cell its cdr code and changes no
      other cell. */
  lemma StoreIsExact(env: Memory, a: u32, o: LispObj)
    ensures var env1 := StoreContents(env, a, o);
      && Content(Read(env1, a)) == Content(o) && Read(env1, a).tag / 64 == Read(env, a).tag / 64
      && forall b :: b != a ==> Read(env1, b) == Read(env, b)
  {}

  /** Undoing a frame's bindings gives each bound cell back the type and data it had when
      the frame first bound it, however often it was bound again, with its own cdr code. */
  lemma {:induction false} UndoGivesBackTheFirst(env: Memory, saved: seq<Saved>, i: nat)
    requires i < |saved| && NotBound(saved[..i], saved[i].loc)
    ensures Content(Read(Undo(env, saved), saved[i].loc)) == Content(saved[i].was)
    ensures TagCdr(Read(Undo(env, saved), saved[i].loc).tag) == TagCdr(Read(env, saved[i].loc).tag)
    decreases |saved|
  {
    hide StoreContents; hide Read; hide Content;
    var last, init := saved[|saved| - 1], saved[..|saved| - 1];
    var env1 := StoreContents(env, last.loc, last.was);
    UndoTouchesBoundOnly(env, saved, saved[i].loc);
    if i < |init| {
      assert init[..i] == saved[..i];
      UndoGivesBackTheFirst(env1, init, i);
    } else {
      UndoTouchesBoundOnly(env1, init, last.loc);
      StoreIsExact(env, last.loc, last.was);
    }
  }

  // ---------------------------------------------------------------- Where the chain ends

  lemma {:induction false} UnbindingGoesDown(m: Machine)
    ensures UnbindAll(m).Some? ==>
              UnbindAll(m).value.bsp <= m.bsp - if m.control.cleanupBindings == 1 then 2 else 0
    decreases m.bsp
  {
    if m.control.cleanupBindings == 1 && Unbind(m).Some? {
      UnbindingGoesDown(Unbind(m).value);
    }
  }

  /** Unbinding ends at the first binding of a chain exactly when that one's bit is clear. */
  lemma {:induction false} ChainEndsIff(m: Machine, lo: nat, hi: int, saved: seq<Saved>, first: bit)
    requires Chained(m.mem, m.bsp, saved, m.control.cleanupBindings, first)
    requires lo + 2 * |saved| <= m.bsp <= hi && SavedOk(saved, lo, hi)
    ensures (UnbindAll(m).Some? && UnbindAll(m).value.bsp == m.bsp - 2 * |saved|) <==> first == 0
    decreases |saved|
  {
    if saved == [] {
      UnbindingGoesDown(m);
    } else {
      ChainStep(m, lo, hi, saved, first);
      hide Chained; hide Unbind; hide SavedOk;
      ChainEndsIff(Unbind(m).value, lo, hi, saved[..|saved| - 1], first);
    }
  }

  lemma ChainStep(m: Machine, lo: nat, hi: int, saved: seq<Saved>, first: bit)
    requires Chained(m.mem, m.bsp, saved, m.control.cleanupBindings, first)
    requires lo + 2 * |saved| <= m.bsp <= hi && SavedOk(saved, lo, hi) && saved != []
    ensures Unbind(m).Some? && UnbindAll(m) == UnbindAll(Unbind(m).value)
    ensures var m1, init := Unbind(m).value, saved[..|saved| - 1];
      && m1.bsp == m.bsp - 2 && SavedOk(init, lo, hi)
      && Chained(m1.mem, m1.bsp, init, m1.control.cleanupBindings, first)
  {
    hide StoreContents;
    var last, init, m1 := saved[|saved| - 1], saved[..|saved| - 1], Unbind(m).value;
    StoreBelow(m.mem, last.loc, last.was, lo, hi);
    ChainStays(m.mem, m1.mem, m.bsp - 2, init, m1.control.cleanupBindings, first, lo);
  }

  lemma StoreBelow(mem: Memory, a: u32, o: LispObj, lo: int, hi: int)
    requires Cell(a, lo, hi)
    ensures Below(mem, StoreContents(mem, a, o), lo, hi)
  {}

  /** The bindings a frame makes one after the other. */
  function BindEach(m: Machine, binds: seq<(LispObj, LispObj)>): Option<Machine>
    decreases |binds|
  {
    if binds == [] then Some(m)
    else
      var m1 :- BindEach(m, binds[..|binds| - 1]);
      BindToValue(m1, binds[|binds| - 1].0, binds[|binds| - 1].1)
  }

  ghost predicate OffStack(binds: seq<(LispObj, LispObj)>, lo: int, hi: int) {
    forall i :: 0 <= i < |binds| ==> Cell(binds[i].0.data, lo, hi)
  }

  lemma {:induction false} BindingsChain(m: Machine, binds: seq<(LispObj, LispObj)>, lo: nat)
    returns (saved: seq<Saved>)
    requires m.control.cleanupBindings == 0 && binds != [] && BindEach(m, binds).Some?
    requires lo <= m.bsp && OffStack(binds, lo, m.limit + 2)
    ensures var m1 := BindEach(m, binds).value;
      && |saved| == |binds| && m1.bsp == m.bsp + 2 * |binds| && m1.limit == m.limit && m1.bsp <= m.limit + 1
      && Chained(m1.mem, m1.bsp, saved, m1.control.cleanupBindings, binds[0].0.tag / 64 % 2)
      && m1.control.cleanupBindings == 1 && SavedOk(saved, lo, m.limit + 2)
    decreases |binds|
  {
    var last, init := binds[|binds| - 1], binds[..|binds| - 1];
    var m0 := BindEach(m, init).value;
    saved := [];
    if init != [] {
      saved := BindingsChain(m, init, lo);
    }
    saved := BindMore(m0, last, lo, saved, if init == [] then 0 else init[0].0.tag / 64 % 2);
  }

  lemma BindMore(m0: Machine, last: (LispObj, LispObj), lo: nat, saved: seq<Saved>, first: bit)
    returns (saved1: seq<Saved>)
    requires Chained(m0.mem, m0.bsp, saved, m0.control.cleanupBindings, first) && (saved == [] ==> first == 0)
    requires lo + 2 * |saved| <= m0.bsp && SavedOk(saved, lo, m0.limit + 2)
    requires Cell(last.0.data, lo, m0.limit + 2) && BindToValue(m0, last.0, last.1).Some?
    ensures var m1 := BindToValue(m0, last.0, last.1).value;
      && |saved1| == |saved| + 1 && m1.bsp == m0.bsp + 2 && m1.limit == m0.limit && m1.bsp <= m0.limit + 1
      && Chained(m1.mem, m1.bsp, saved1, 1, if saved == [] then last.0.tag / 64 % 2 else first)
      && m1.control.cleanupBindings == 1 && SavedOk(saved1, lo, m0.limit + 2)
  {
    hide Chained;
    BindChains(m0, last.0, lo, saved, first);
    saved1 := saved + [Saved(last.0.data, Read(m0.mem, last.0.data))];
    var m2, m1 := BindLocative(m0, last.0).value, BindToValue(m0, last.0, last.1).value;
    StoreBelow(m2.mem, last.0.data, last.1, lo, m0.limit + 2);
    ChainStays(m2.mem, m1.mem, m1.bsp, saved1, 1, if saved == [] then last.0.tag / 64 % 2 else first, lo);
  }

  /** A frame that had no bindings gets its binding stack pointer back, however many it has
      made, if and only if bit 6 of the first locative's tag was clear; the source ORs the
      cleanup bit into whatever cdr code the operand carries. */
  lemma FirstLocativeDecides(m: Machine, binds: seq<(LispObj, LispObj)>, lo: nat)
    requires m.control.cleanupBindings == 0 && binds != [] && BindEach(m, binds).Some?
    requires lo <= m.bsp && OffStack(binds, lo, m.limit + 2)
    ensures var r := UnbindAll(BindEach(m, binds).value);
            (r.Some? && r.value.bsp == m.bsp) <==> binds[0].0.tag / 64 % 2 == 0
  {
    var saved := BindingsChain(m, binds, lo);
    ChainEndsIff(BindEach(m, binds).value, lo, m.limit + 2, saved, binds[0].0.tag / 64 % 2);
  }

  /** A frame binds cell 5 through a locative with cdr code 1.  Its return undoes that and then its
      caller's binding of cell 7 as well. */
  lemma MarkedLocativeOverruns(m: Machine)
    requires m.bsp == 102 && m.limit == 200 && !m.deepBound && m.control.cleanupBindings == 0
    requires Read(m.mem, 5) == Fixnum(50) && Read(m.mem, 7) == Fixnum(71)
    requires Read(m.mem, 101) == LispObj(TYPE_LOCATIVE, 7) && Read(m.mem, 102) == Fixnum(70)
    ensures var m1 := BindToValue(m, LispObj(TYPE_LOCATIVE + 64, 5), Fixnum(51));
      && m1.Some? && Read(m1.value.mem, 5) == Fixnum(51)
      && UnbindAll(m1.value).Some?
      && var r := UnbindAll(m1.value).value;
      r.bsp == 100 && Read(r.mem, 5) == Fixnum(50) && Read(r.mem, 7) == Fixnum(70)
  {
    hide Read; hide StoreContents; hide UnbindAll;
    var loc, v := LispObj(TYPE_LOCATIVE + 64, 5), Fixnum(51);
    BindReads(m, loc, v, 5);
    BindReads(m, loc, v, 7);
    BindReads(m, loc, v, 101);
    BindReads(m, loc, v, 102);
    BindReads(m, loc, v, 103);
    BindReads(m, loc, v, 104);
    hide BindToValue;
    var m1 := BindToValue(m, loc, v).value;
    var m2 := UnbindsTo(m1, 5, 1);
    Stored(m1.mem, 5, Fixnum(50), 7);
    Stored(m1.mem, 5, Fixnum(50), 101);
    Stored(m1.mem, 5, Fixnum(50), 102);
    var m3 := UnbindsTo(m2, 7, 0);
    Stored(m2.mem, 7, Fixnum(70), 5);
    NothingToUnbind(m3);
  }

  lemma BindReads(m: Machine, loc: LispObj, v: LispObj, b: int)
    requires loc.data < m.bsp && BindLocative(m, loc).Some? && TagCdr(Read(m.mem, loc.data).tag) == TagCdr(v.tag)
    ensures var m1 := BindToValue(m, loc, v).value;
      && m1.bsp == m.bsp + 2 && m1.control.cleanupBindings == 1
      && Read(m1.mem, b) == if b == loc.data then v else if b == m.bsp + 1 then Linked(loc, m.control.cleanupBindings)
                            else if b == m.bsp + 2 then Read(m.mem, loc.data) else Read(m.mem, b)
  {}

  lemma Stored(mem: Memory, a: u32, o: LispObj, b: int)
    requires a != b && TagCdr(Read(mem, a).tag) == TagCdr(o.tag)
    ensures Read(StoreContents(mem, a, o), a) == o && Read(StoreContents(mem, a, o), b) == Read(mem, b)
  {}

  lemma NothingToUnbind(m: Machine)
    requires m.control.cleanupBindings == 0
    ensures UnbindAll(m) == Some(m)
  {}

  lemma UnbindsTo(m: Machine, a: u32, b: bit) returns (m1: Machine)
    requires m.control.cleanupBindings == 1 && m.bsp >= 2
    requires Read(m.mem, m.bsp - 1).data == a && Read(m.mem, m.bsp - 1).tag / 64 % 2 == b
    ensures UnbindAll(m) == UnbindAll(m1)
    ensures m1 == m.(mem := StoreContents(m.mem, a, Read(m.mem, m.bsp)), bsp := m.bsp - 2,
                     control := m.control.(cleanupBindings := b))
  {
    hide Read; hide StoreContents;
    m1 := Unbind(m).value;
  }

  /** Fake frames pushed to start the machine are popped without a trace, except that the local
      pointer is computed afresh. */
  lemma FakeFramesAreBracketed(m: Machine)
    requires OnStack(m) && m.fp <= m.sp && PushOneFakeFrame(m).Some?
    ensures var r := PopOneFakeFrame(PushOneFakeFrame(m).value);
      && r.Some? && FrameIsBack(m.(lp := m.fp + m.control.argumentSize), r.value, 0) && r.value.pc == m.pc
      && r.value.continuation == CdrThree(m.continuation) && r.value.mem == m.mem
  {
    hide Pack; hide Unpack; hide PushOneFakeFrame; hide PopOneFakeFrame;
    var m1 := PushOneFakeFrame(m).value;
    FakeFrameIs(m);
    SavedControl(m.control);
    PopsFakeFrame(m, m1, m1);
  }

  /** The machine starts on two of them, the second pushed with the first one's local pointer. */
  lemma TwoFakeFramesAreBracketed(m: Machine)
    requires OnStack(m) && m.fp <= m.sp && PushOneFakeFrame(m).Some?
    requires PushOneFakeFrame(PushOneFakeFrame(m).value).Some?
    ensures var r := PopOneFakeFrame(PushOneFakeFrame(PushOneFakeFrame(m).value).value);
      && r.Some? && OnStack(r.value) && PopOneFakeFrame(r.value).Some?
      && var r2 := PopOneFakeFrame(r.value).value;
      && FrameIsBack(m.(lp := m.fp + m.control.argumentSize), r2, 0) && r2.pc == CdrThree(m.pc) && r2.mem == m.mem
  {
    hide Pack; hide Unpack; hide PushOneFakeFrame; hide PopOneFakeFrame;
    var m1 := PushOneFakeFrame(m).value;
    FakeFrameIs(m);
    FakeFramesAreBracketed(m1);
    var r := PopOneFakeFrame(PushOneFakeFrame(m1).value).value;
    assert r.stack[..m1.sp + 1] == m1.stack[..m1.sp + 1];
    assert r.stack[m1.fp] == r.stack[..m1.sp + 1][m1.fp] && r.stack[m1.fp + 1] == r.stack[..m1.sp + 1][m1.fp + 1];
    SavedControl(m.control);
    PopsFakeFrame(m, m1, r);
  }

  lemma FakeFrameIs(m: Machine)
    requires OnStack(m) && m.fp <= m.sp && PushOneFakeFrame(m).Some?
    ensures var m1 := PushOneFakeFrame(m).value;
      && OnStack(m1) && m1.fp == m.sp + 1 && m1.sp == m.sp + 2 && m1.stack[..m.sp + 1] == m.stack[..m.sp + 1]
      && m1.stack[m1.fp] == CdrThree(m.continuation) && m1.stack[m1.fp + 1] == CdrThree(Fixnum(Pack(m.control)))
      && m1.continuation == m.pc && m1.control.callerFrameSize == m1.fp - m.fp && m1.control.argumentSize == 2
      && m1.bsp == m.bsp && m1.limit == m.limit && m1.deepBound == m.deepBound && m1.mem == m.mem
  {
    hide Pack; hide Unpack;
  }

  /** Popping a fake frame looks at its two words and the control register only. */
  lemma PopsFakeFrame(m: Machine, m1: Machine, r: Machine)
    requires OnStack(m) && m.fp <= m.sp && PushOneFakeFrame(m) == Some(m1)
    requires FrameIsBack(m1.(lp := r.lp), r, 0) && r.mem == m.mem
    ensures PopOneFakeFrame(r).Some?
    ensures var r2 := PopOneFakeFrame(r).value;
      && FrameIsBack(m.(lp := m.fp + m.control.argumentSize), r2, 0) && r2.mem == m.mem
      && r2.pc == r.continuation && r2.continuation == CdrThree(m.continuation)
  {
    hide Pack; hide Unpack; hide PushOneFakeFrame;
    FakeFrameIs(m);
    SavedControl(m.control);
    assert r.stack[m1.fp] == r.stack[..m1.sp + 1][m1.fp] == m1.stack[m1.fp];
    assert r.stack[m1.fp + 1] == r.stack[..m1.sp + 1][m1.fp + 1] == m1.stack[m1.fp + 1];
    assert r.stack[..m.sp + 1] == r.stack[..m1.sp + 1][..m.sp + 1];
    assert m1.stack[..m.sp + 1] == m1.stack[..m1.sp + 1][..m.sp + 1];
  }
}
