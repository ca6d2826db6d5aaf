/** Spreading the list argument of an apply onto the stack. */
module ApplyArguments {
  import opened Ivory
  import opened Instructions
  import opened IvoryProcessor
  import opened Frames

  const STACK_CACHE_SIZE: int := 0x400

  /** Where in the stack cache an address is, if it is in it at all. */
  function CacheIndex(base: u32, address: u32): nat {
    (address - base) % 0x1_0000_0000
  }

  predicate InCache(base: u32, address: u32) {
    CacheIndex(base, address) < STACK_CACHE_SIZE
  }

  /** The cdr-coded list that starts at `at` and lies below `limit` has these elements,
      and ends properly (`tail` is None) or in an object that is no list in the cache. */
  ghost predicate IsList(cache: seq<LispObj>, base: u32, limit: nat, at: nat,
                         elements: seq<LispObj>, tail: Option<LispObj>)
    decreases |elements|
  {
    && elements != [] && at < limit <= |cache| && elements[0] == CdrNext(cache[at])
    && match Next(cache, base, limit, at)
       case Cell(i) => IsList(cache, base, limit, i, elements[1..], tail)
       case End(t) => |elements| == 1 && tail == t
       case Malformed => false
  }

  /** What follows a list cell: another cell, the end of the list, or a bad cdr code. */
  datatype Follower = Cell(at: nat) | End(tail: Option<LispObj>) | Malformed

  function Next(cache: seq<LispObj>, base: u32, limit: nat, at: nat): Follower
    requires at < limit <= |cache|
  {
    var cdr := TagCdr(cache[at].tag);
    if cdr == CDR_NEXT then Cell(at + 1)
    else if cdr == CDR_NIL then End(None)
    else if cdr != CDR_NORMAL || at + 1 >= limit then Malformed
    else
      var rest := cache[at + 1];
      if TagType(rest.tag) == TYPE_NIL then End(None)
      else if TagType(rest.tag) == TYPE_LIST && InCache(base, rest.data) then Cell(CacheIndex(base, rest.data))
      else End(Some(CdrNext(rest)))
  }

  lemma {:induction false} ListStays(cache: seq<LispObj>, cache1: seq<LispObj>, base: u32, limit: nat, at: nat,
                                     elements: seq<LispObj>, tail: Option<LispObj>)
    requires IsList(cache, base, limit, at, elements, tail)
    requires limit <= |cache1| && cache1[..limit] == cache[..limit]
    ensures IsList(cache1, base, limit, at, elements, tail)
    decreases |elements|
  {
    assert cache1[at] == cache1[..limit][at] == cache[at];
    if at + 1 < limit {
      assert cache1[at + 1] == cache1[..limit][at + 1] == cache[at + 1];
    }
    if Next(cache, base, limit, at).Cell? {
      ListStays(cache, cache1, base, limit, Next(cache, base, limit, at).at, elements[1..], tail);
    }
  }

  /** n words in a row, of which all but the last have cdr code 0, are the list of those words: the last
      one's cdr code says that the list ends there, or that the next word says how it goes on. */
  lemma {:induction false} RowIsList(cache: seq<LispObj>, base: u32, limit: nat, at: nat, n: nat)
    requires 0 < n && at + n <= limit <= |cache| && forall i :: at <= i < at + n - 1 ==> cache[i].tag / 64 == 0
    ensures cache[at + n - 1].tag / 64 == 1 ==> IsList(cache, base, limit, at, Plain(cache[at..at + n]), None)
    ensures cache[at + n - 1].tag / 64 == 2 && at + n < limit ==>
      var rest := cache[at + n];
      && (rest.tag % 64 == 20 ==> IsList(cache, base, limit, at, Plain(cache[at..at + n]), None))
      && (rest.tag % 64 != 20 && rest.tag % 64 != 21 ==>
          IsList(cache, base, limit, at, Plain(cache[at..at + n]), Some(LispObj(rest.tag % 64, rest.data))))
    decreases n
  {
    var elements := Plain(cache[at..at + n]);
    assert elements[0] == CdrNext(cache[at]);
    if n > 1 {
      RowIsList(cache, base, limit, at + 1, n - 1);
      assert elements[1..] == Plain(cache[at + 1..at + n]);
      assert Next(cache, base, limit, at) == Cell(at + 1);
    }
  }

  /** If that word points to another list in the stack cache, the row goes on with it. */
  lemma {:induction false} RowGoesOn(cache: seq<LispObj>, base: u32, limit: nat, at: nat, n: nat, j: nat,
                                     more: seq<LispObj>, tail: Option<LispObj>)
    requires 0 < n && at + n < limit <= |cache| && forall i :: at <= i < at + n - 1 ==> cache[i].tag / 64 == 0
    requires cache[at + n - 1].tag / 64 == 2 && cache[at + n].tag % 64 == 21
    requires j < STACK_CACHE_SIZE && cache[at + n].data == (base + j) % 0x1_0000_0000
    requires IsList(cache, base, limit, j, more, tail)
    ensures IsList(cache, base, limit, at, Plain(cache[at..at + n]) + more, tail)
    decreases n
  {
    var elements := Plain(cache[at..at + n]) + more;
    assert elements[0] == CdrNext(cache[at]);
    IndexOfAddress(base, j);
    if n > 1 {
      RowGoesOn(cache, base, limit, at + 1, n - 1, j, more, tail);
      assert elements[1..] == Plain(cache[at + 1..at + n]) + more;
      assert Next(cache, base, limit, at) == Cell(at + 1);
    } else {
      assert elements[1..] == more;
    }
  }

  lemma IndexOfAddress(base: u32, at: nat)
    requires at < STACK_CACHE_SIZE
    ensures CacheIndex(base, (base + at) % 0x1_0000_0000) == at
  {}

  /** What is left on top of the stack for a list whose first k elements were pushed. */
  ghost predicate TailIsKept(cache: seq<LispObj>, base: u32, limit: nat, top: LispObj,
                             elements: seq<LispObj>, tail: Option<LispObj>, k: nat)
    requires k <= |elements|
  {
    if k < |elements|
    then TagType(top.tag) == TYPE_LIST && InCache(base, top.data)
         && IsList(cache, base, limit, CacheIndex(base, top.data), elements[k..], tail)
    else tail == Some(top)
  }

  /** k elements have been pushed where the list was on top, and nothing below moved. */
  ghost predicate Pushed(cache: seq<LispObj>, cache1: seq<LispObj>, top: nat, elements: seq<LispObj>, k: nat)
    requires k <= |elements|
  {
    && top + k <= |cache1| == |cache|
    && cache1[..top] == cache[..top] && cache1[top..top + k] == elements[..k]
  }

  lemma PushedOneMore(cache: seq<LispObj>, cache1: seq<LispObj>, top: nat, elements: seq<LispObj>, k: nat)
    requires k < |elements| && top + k < |cache1| && Pushed(cache, cache1, top, elements, k)
    ensures Pushed(cache, cache1[top + k := elements[k]], top, elements, k + 1)
  {
    var cache2 := cache1[top + k := elements[k]];
    assert cache2[top..top + k + 1] == cache1[top..top + k] + [elements[k]];
    assert cache2[..top] == cache1[..top];
  }

  lemma NothingPushed(cache: seq<LispObj>, top: nat, elements: seq<LispObj>)
    requires top <= |cache|
    ensures Pushed(cache, cache, top, elements, 0) && elements[0..] == elements
  {}

  /** A list in a cache whose words below `limit` have not moved. */
  lemma ListStaysPushed(cache: seq<LispObj>, cache1: seq<LispObj>, cache2: seq<LispObj>, base: u32, top: nat, at: nat,
                        all: seq<LispObj>, i: nat, j: nat, tail: Option<LispObj>)
    requires i < |all| && j <= |all| && Pushed(cache, cache1, top, all, i) && Pushed(cache, cache2, top, all, j)
    requires IsList(cache1, base, top, at, all[i..], tail)
    ensures IsList(cache2, base, top, at, all[i..], tail)
  {
    ListStays(cache1, cache2, base, top, at, all[i..], tail);
  }

  lemma TailOnTop(cache: seq<LispObj>, base: u32, limit: nat, top: LispObj, elements: seq<LispObj>)
    ensures TailIsKept(cache, base, limit, top, elements, Some(top), |elements|)
  {}

  lemma PushedUnder(cache: seq<LispObj>, cache1: seq<LispObj>, top: nat, elements: seq<LispObj>, k: nat, x: LispObj)
    requires k <= |elements| && top + k < |cache1| && Pushed(cache, cache1, top, elements, k)
    ensures Pushed(cache, cache1[top + k := x], top, elements, k)
  {
    var cache2 := cache1[top + k := x];
    assert cache2[top..top + k] == cache1[top..top + k];
    assert cache2[..top] == cache1[..top];
  }

  /** The registers after `k` arguments have been pulled. */
  method Settle(p: Processor, sp: nat, k: nat, usedUp: bool)
    requires p.State().control.argumentSize + k < 256
    modifies p`sp, p`lp, p`control
    ensures p.sp == sp && p.lp == old(p.lp) + k
    ensures var c := old(p.State()).control;
      p.State().control == c.(argumentSize := c.argumentSize + k, apply := if usedUp then 0 else c.apply)
  {
    hide Pack; hide Unpack; hide Dpb; hide Ldb;
    ghost var c := p.State().control;
    p.ControlIsPacked();
    p.ExtraIsRead(c);
    var supplied := Ldb(8, 0, p.control);
    if usedUp {
      WriteApply(c, 0);
      p.SetControl(Dpb(0, 1, 17, p.control), c.(apply := 0));
      p.ControlIsPacked();
    }
    WriteArgumentSize(p.State().control, supplied + k);
    p.SetControl(Dpb(supplied + k, 8, 0, p.control), p.State().control.(argumentSize := supplied + k));
    p.lp := p.lp + k;
    p.sp := sp;
  }

  /** What pulling up to `count` arguments comes to: what is pushed followed by what is
      left is the whole list; the argument size and the local pointer grow by what is
      pushed; the apply bit goes exactly when the list is used up, and otherwise the
      result says how many are still to be pulled. */
  ghost predicate Pulled(m: Machine, m1: Machine, base: u32, count: nat,
                         elements: seq<LispObj>, tail: Option<LispObj>, left: nat)
  {
    var k := if |elements| <= count then |elements| else count;
    m.control.argumentSize + k < 256 &&
    var usedUp := tail.None? && |elements| <= count;
    && Pushed(m.stack, m1.stack, m.sp, elements, k)
    && m1.sp == m.sp - 1 + k + (if usedUp then 0 else 1) < |m1.stack|
    && (!usedUp ==> TailIsKept(m1.stack, base, m.sp, m1.stack[m1.sp], elements, tail, k))
    && m1.lp == m.lp + k
    && m1.control == m.control.(argumentSize := m.control.argumentSize + k,
                                apply := if usedUp then 0 else m.control.apply)
    && left == if usedUp then 0 else count - k
  }

  method PullApplyArgsQuickly(p: Processor, base: u32, count: nat,
                              ghost elements: seq<LispObj>, ghost tail: Option<LispObj>) returns (left: nat)
    requires p.stackCache.Length == STACK_CACHE_SIZE && 0 < p.sp && p.sp + count < STACK_CACHE_SIZE
    requires InCache(base, p.stackCache[p.sp].data)
    requires IsList(p.stackCache[..], base, p.sp, CacheIndex(base, p.stackCache[p.sp].data), elements, tail)
    requires p.State().control.argumentSize + count < 256
    modifies p`sp, p`lp, p`control, p.stackCache
    ensures Pulled(old(p.State()), p.State(), base, count, elements, tail, left)
  {
    hide Pushed; hide TailIsKept; hide Pack; hide Unpack; hide CacheIndex; hide InCache; hide IsList;
    ghost var cache, top := p.stackCache[..], p.sp;
    var sp := p.sp - 1;
    var i, follower := PullElements(p, base, CacheIndex(base, p.stackCache[p.sp].data), count, elements, tail);
    match follower {
      case End(None) =>
        Settle(p, sp + i, i, true);
        return 0;
      case End(Some(other)) =>
        PushOther(p, base, other, sp + i + 1, cache, top, elements);
        Settle(p, sp + i + 1, i, false);
      case Cell(rest) =>
        PushPointer(p, base, rest, sp + i + 1, cache, top, elements, tail, i);
        Settle(p, sp + i + 1, i, false);
    }
    return count - i;
  }

  /** Pushes up to `count` elements over the list: how many, and what follows them. */
  method PullElements(p: Processor, base: u32, list: nat, count: nat,
                      ghost elements: seq<LispObj>, ghost tail: Option<LispObj>) returns (i: nat, follower: Follower)
    requires p.stackCache.Length == STACK_CACHE_SIZE && p.sp + count < STACK_CACHE_SIZE
    requires IsList(p.stackCache[..], base, p.sp, list, elements, tail)
    modifies p.stackCache
    ensures i <= count && i <= |elements| && Pushed(old(p.stackCache[..]), p.stackCache[..], p.sp, elements, i)
    ensures match follower
      case Cell(rest) => i == count && i < |elements| && IsList(p.stackCache[..], base, p.sp, rest, elements[i..], tail)
      case End(t) => i == |elements| && tail == t
      case Malformed => false
  {
    hide Pushed; hide CacheIndex; hide InCache; hide CdrNext;
    ghost var cache, top := p.stackCache[..], p.sp;
    var rest := list;
    i := 0;
    NothingPushed(cache, top, elements);
    while i < count
      invariant 0 <= i <= count && i < |elements|
      invariant Pushed(cache, p.stackCache[..], top, elements, i)
      invariant IsList(p.stackCache[..], base, top, rest, elements[i..], tail)
    {
      if TagCdr(p.stackCache[rest].tag) == 3 { break; }
      follower := PullOne(p, base, rest, p.sp + i, cache, top, elements, tail, i);
      i := i + 1;
      match follower {
        case End(_) => return;
        case Cell(at) => rest := at;
      }
    }
    follower := Cell(rest);
  }

  /** Pushes one element and finds what follows it. */
  method PullOne(p: Processor, base: u32, at: nat, sp: nat, ghost cache: seq<LispObj>, ghost top: nat,
                 ghost elements: seq<LispObj>, ghost tail: Option<LispObj>, ghost i: nat) returns (f: Follower)
    requires i < |elements| && sp == top + i < p.stackCache.Length == STACK_CACHE_SIZE
    requires Pushed(cache, p.stackCache[..], top, elements, i)
    requires IsList(p.stackCache[..], base, top, at, elements[i..], tail)
    modifies p.stackCache
    ensures Pushed(cache, p.stackCache[..], top, elements, i + 1)
    ensures match f
      case Cell(next) => i + 1 < |elements| && IsList(p.stackCache[..], base, top, next, elements[i + 1..], tail)
      case End(t) => i + 1 == |elements| && tail == t
      case Malformed => false
  {
    hide Pushed; hide CacheIndex; hide InCache;
    ghost var before := p.stackCache[..];
    assert elements[i..][1..] == elements[i + 1..];
    var word := p.stackCache[at];
    p.stackCache[sp] := CdrNext(word);
    PushedOneMore(cache, before, top, elements, i);
    ListStaysPushed(cache, before, p.stackCache[..], base, top, at, elements, i, i + 1, tail);
    if TagCdr(word.tag) == CDR_NEXT { return Cell(at + 1); }
    if TagCdr(word.tag) == CDR_NIL { return End(None); }
    var next := p.stackCache[at + 1];
    if TagType(next.tag) == TYPE_NIL { return End(None); }
    if TagType(next.tag) == TYPE_LIST && InCache(base, next.data) { return Cell(CacheIndex(base, next.data)); }
    return End(Some(CdrNext(next)));
  }

  /** Puts what a dotted list ends in on top. */
  method PushOther(p: Processor, base: u32, other: LispObj, sp: nat, ghost cache: seq<LispObj>, ghost top: nat,
                   ghost elements: seq<LispObj>)
    requires sp == top + |elements| < p.stackCache.Length == STACK_CACHE_SIZE
    requires Pushed(cache, p.stackCache[..], top, elements, |elements|)
    modifies p.stackCache
    ensures Pushed(cache, p.stackCache[..], top, elements, |elements|) && p.stackCache[sp] == other
    ensures TailIsKept(p.stackCache[..], base, top, other, elements, Some(other), |elements|)
  {
    ghost var before := p.stackCache[..];
    p.stackCache[sp] := other;
    PushedUnder(cache, before, top, elements, |elements|, other);
    TailOnTop(p.stackCache[..], base, top, other, elements);
  }

  /** Puts a pointer to the rest of the list on top. */
  method PushPointer(p: Processor, base: u32, rest: nat, sp: nat, ghost cache: seq<LispObj>, ghost top: nat,
                     ghost elements: seq<LispObj>, ghost tail: Option<LispObj>, ghost i: nat)
    requires i < |elements| && sp == top + i < p.stackCache.Length == STACK_CACHE_SIZE
    requires Pushed(cache, p.stackCache[..], top, elements, i)
    requires IsList(p.stackCache[..], base, top, rest, elements[i..], tail)
    modifies p.stackCache
    ensures Pushed(cache, p.stackCache[..], top, elements, i)
    ensures TailIsKept(p.stackCache[..], base, top, p.stackCache[sp], elements, tail, i)
  {
    ghost var before := p.stackCache[..];
    p.stackCache[sp] := LispObj(TYPE_LIST, (base + rest) % 0x1_0000_0000);
    IndexOfAddress(base, rest);
    PushedUnder(cache, before, top, elements, i, p.stackCache[sp]);
    ListStays(before, p.stackCache[..], base, top, rest, elements[i..], tail);
  }
}
