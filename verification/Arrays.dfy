/** Byte-packed arrays refine plain ones. */
module Arrays {
  import opened Ivory
  import opened Instructions
  import opened IvoryProcessor
  import opened BitFields

  const TYPE_CHARACTER: u8 := 35

  datatype ElementType = Fixnums | Characters | Booleans | Objects

  /** log2 of the elements in a word. */
  type Packing = p: nat | p <= 5

  /** Bits in an element, and where element `index` stands in its word. */
  function ElementSize(packing: Packing): nat {
    Pow2(5 - packing)
  }

  function ElementBit(packing: Packing, index: nat): nat {
    index % Pow2(packing) * Pow2(5 - packing)
  }

  /** Indices are non-negative C integers, and addresses wrap round at 32 bits. */
  type Ix = i: nat | i < 0x8000_0000

  function Wrapped(address: int): u32 { address % 0x1_0000_0000 }

  function WordOf(vma: u32, packing: Packing, index: nat): u32 {
    Wrapped(vma + index / Pow2(packing))
  }

  predicate IsFixnum(o: LispObj) { TagType(o.tag) == TYPE_FIXNUM }

  /** The object an element's bits stand for; object arrays are never packed. */
  function Decode(kind: ElementType, data: u32): Option<LispObj> {
    match kind
    case Fixnums => Some(LispObj(TYPE_FIXNUM, data))
    case Characters => Some(LispObj(TYPE_CHARACTER, data))
    case Booleans => Some(if data != 0 then OBJECT_T else OBJECT_NIL)
    case Objects => None
  }

  /** The bits stored for an object, if it is of the right type and small enough. */
  function Encode(kind: ElementType, packing: Packing, v: LispObj): Option<u32> {
    match kind
    case Fixnums => if IsFixnum(v) then Some(v.data) else None
    case Characters =>
      if TagType(v.tag) == TYPE_CHARACTER && Ldb(ElementSize(packing), 0, v.data) == v.data then Some(v.data) else None
    case Booleans => Some(if TagType(v.tag) == TYPE_NIL then 0 else 0xffff_ffff)
    case Objects => None
  }

  function Field(packing: Packing, index: nat, w: u32): (d: u32) {
    FieldIsSmall(packing, index, w);
    if packing == 0 then w else Ldb(ElementSize(packing), ElementBit(packing, index), w)
  }

  function SetField(packing: Packing, index: nat, data: u32, w: u32): (w1: u32) {
    SetFieldFits(packing, index, data, w);
    if packing == 0 then data else Dpb(data, ElementSize(packing), ElementBit(packing, index), w)
  }

  function Aref1(mem: Memory, vma: u32, packing: Packing, offset: Ix, kind: ElementType, index: Ix): Option<LispObj> {
    if kind.Objects? && packing == 0 then Some(CdrNext(Read(mem, Wrapped(vma + index))))
    else
      var q := Read(mem, WordOf(vma, packing, index + offset));
      if !IsFixnum(q) then None else Decode(kind, Field(packing, index + offset, q.data))
  }

  function Aset1(mem: Memory, vma: u32, packing: Packing, offset: Ix, kind: ElementType, index: Ix, v: LispObj)
    : Option<Memory>
  {
    if kind.Objects? && packing == 0 then Some(StoreContents(mem, Wrapped(vma + index), v))
    else
      var data :- Encode(kind, packing, v);
      var word := WordOf(vma, packing, index + offset);
      var q := Read(mem, word);
      if !IsFixnum(q) then None
      else Some(mem[word := LispObj(q.tag, SetField(packing, index + offset, data, q.data))])
  }

  // ---------------------------------------------------------------- Fields of one word

  lemma ElementFits(packing: Packing, index: nat)
    ensures ElementBit(packing, index) + ElementSize(packing) <= 32
    ensures Pow2(packing) * Pow2(5 - packing) == 32 && 1 <= ElementSize(packing) <= 32
  {
    Pow2Add(packing, 5 - packing);
    var s, i := ElementSize(packing), index % Pow2(packing);
    assert (i + 1) * s <= Pow2(packing) * s by { Within(i, Pow2(packing), s); }
    assert (i + 1) * s == i * s + s;
  }

  lemma Within(i: int, n: int, s: int)
    requires 0 <= i < n && s > 0
    ensures (i + 1) * s <= n * s
  {}

  /** Different elements of a word do not overlap. */
  lemma ElementsApart(packing: Packing, i: nat, j: nat)
    requires i % Pow2(packing) != j % Pow2(packing)
    ensures var s := ElementSize(packing);
      ElementBit(packing, j) >= ElementBit(packing, i) + s || ElementBit(packing, i) >= ElementBit(packing, j) + s
  {
    hide Pow2;
    var s, a, b := ElementSize(packing), i % Pow2(packing), j % Pow2(packing);
    if a < b { Apart(a, b, s); } else { Apart(b, a, s); }
  }

  lemma Apart(a: int, b: int, s: int)
    requires 0 <= a < b && s > 0
    ensures b * s >= a * s + s
  {
    Within(a, b, s);
    assert (a + 1) * s == a * s + s;
  }

  lemma WordSize()
    ensures Pow2(32) == 0x1_0000_0000
  {
    Pow2Values();
    Pow2Add(2, 30);
  }

  lemma FieldIsSmall(packing: Packing, index: nat, w: u32)
    ensures Ldb(ElementSize(packing), ElementBit(packing, index), w) < Pow2(ElementSize(packing)) <= 0x1_0000_0000
  {
    hide Pow2;
    WordSize();
    ElementFits(packing, index);
    Pow2Grows(ElementSize(packing), 32);
  }

  lemma {:induction false} Pow2Grows(a: nat, b: nat)
    requires a <= b
    ensures Pow2(a) <= Pow2(b)
    decreases b - a
  {
    if a < b { Pow2Grows(a + 1, b); }
  }

  lemma SetFieldFits(packing: Packing, index: nat, data: u32, w: u32)
    ensures 0 <= Dpb(data, ElementSize(packing), ElementBit(packing, index), w) < 0x1_0000_0000
  {
    hide Pow2; hide Dpb;
    WordSize();
    ElementFits(packing, index);
    DpbFits(data, ElementSize(packing), ElementBit(packing, index), w, 32);
  }

  lemma FieldOfSetField(packing: Packing, i: nat, j: nat, data: u32, w: u32)
    ensures i % Pow2(packing) == j % Pow2(packing) ==>
      Field(packing, j, SetField(packing, i, data, w)) == data % Pow2(ElementSize(packing))
    ensures i % Pow2(packing) != j % Pow2(packing) ==>
      Field(packing, j, SetField(packing, i, data, w)) == Field(packing, j, w)
  {
    hide Ldb; hide Dpb;
    SetFieldFits(packing, i, data, w);
    if packing == 0 {
      Pow2Values();
      WordSize();
      assert ElementSize(0) == Pow2(5) == 32;
    } else if i % Pow2(packing) == j % Pow2(packing) {
      LdbOfDpb(data, ElementSize(packing), ElementBit(packing, i), w);
    } else {
      ElementsApart(packing, i, j);
      LdbElsewhere(data, ElementSize(packing), ElementBit(packing, i), w,
                   ElementSize(packing), ElementBit(packing, j));
    }
  }

  // ---------------------------------------------------------------- Whole arrays

  lemma RemainderFits(x: nat, d: int)
    requires d > 0
    ensures 0 <= x % d <= x
  {
    Whole(x, d);
    MulBounds(d, x / d);
  }

  /** What an element reads as after `v` has been stored in it. */
  function Stored(kind: ElementType, packing: Packing, v: LispObj): LispObj {
    match kind
    case Fixnums =>
      RemainderFits(v.data, Pow2(ElementSize(packing)));
      LispObj(TYPE_FIXNUM, v.data % Pow2(ElementSize(packing)))
    case Characters => CdrNext(v)
    case Booleans => if TagType(v.tag) == TYPE_NIL then OBJECT_NIL else OBJECT_T
    case Objects => CdrNext(v)
  }

  /** Two elements are in one word at one place only if they are one element. */
  lemma SameWordSamePlace(packing: Packing, i: nat, j: nat)
    ensures i / Pow2(packing) == j / Pow2(packing) && i % Pow2(packing) == j % Pow2(packing) <==> i == j
  {
    hide Pow2;
    Whole(i, Pow2(packing));
    Whole(j, Pow2(packing));
  }

  /** No two words of an array wrap to the same address. */
  lemma WordsApart(vma: u32, packing: Packing, i: nat, j: nat)
    requires i < 0x1_0000_0000 && j < 0x1_0000_0000
    ensures WordOf(vma, packing, i) == WordOf(vma, packing, j) <==> i / Pow2(packing) == j / Pow2(packing)
  {
    hide Pow2;
    QuotientIsLess(i, Pow2(packing));
    QuotientIsLess(j, Pow2(packing));
    WrapsApart(vma, i / Pow2(packing), j / Pow2(packing));
  }

  lemma QuotientIsLess(i: nat, d: int)
    requires d > 0
    ensures 0 <= i / d <= i
  {
    Whole(i, d);
    MulAtLeast(d, i / d);
  }

  lemma MulAtLeast(d: int, q: int)
    requires d > 0 && q >= 0
    ensures d * q >= q
  {}

  lemma WrapsApart(vma: u32, a: nat, b: nat)
    requires a < 0x1_0000_0000 && b < 0x1_0000_0000
    ensures Wrapped(vma + a) == Wrapped(vma + b) <==> a == b
  {}

  /** Bits that encode an object decode to what is stored. */
  lemma EncodedIsStored(kind: ElementType, packing: Packing, v: LispObj)
    requires Encode(kind, packing, v).Some?
    ensures var d := Encode(kind, packing, v).value % Pow2(ElementSize(packing));
      d < 0x1_0000_0000 && Decode(kind, d) == Some(Stored(kind, packing, v))
  {
    var size := ElementSize(packing);
    ElementFits(packing, 0);
    WordSize();
    Pow2Grows(size, 32);
    assert Pow2(0) == 1;
    if kind.Characters? {
      assert Ldb(size, 0, v.data) == v.data % Pow2(size);
    } else if kind.Booleans? && TagType(v.tag) != TYPE_NIL {
      AllOnes(size);
    }
  }

  lemma AllOnes(size: nat)
    requires 1 <= size <= 32
    ensures 0xffff_ffff % Pow2(size) != 0
  {
    Pow2Add(1, size - 1);
    Pow2Values();
    hide Pow2;
    OddWord(Pow2(size), Pow2(size - 1));
  }

  lemma OddWord(p: int, h: int)
    requires p > 0 && p == 2 * h
    ensures 0xffff_ffff % p != 0
  {
    var q := 0xffff_ffff / p;
    Whole(0xffff_ffff, p);
    Twice(h, q);
  }

  lemma Twice(h: int, q: int)
    ensures (2 * h) * q == 2 * (h * q)
  {}

  /** A store into a packed array is read back at its own element, reduced to the
      element's bits, and changes no other element, in the same word or another. */
  lemma PackedRefinesPlain(mem: Memory, vma: u32, packing: Packing, offset: Ix, kind: ElementType,
                           i: Ix, v: LispObj, j: Ix)
    requires Aset1(mem, vma, packing, offset, kind, i, v).Some?
    ensures Aref1(Aset1(mem, vma, packing, offset, kind, i, v).value, vma, packing, offset, kind, j) ==
      if j == i then Some(Stored(kind, packing, v)) else Aref1(mem, vma, packing, offset, kind, j)
  {
    hide Pow2; hide Field; hide SetField; hide Decode; hide Encode; hide Stored;
    if kind.Objects? {
      ObjectsArePlain(mem, vma, packing, offset, i, v, j);
    } else {
      SameWordSamePlace(packing, i + offset, j + offset);
      WordsApart(vma, packing, i + offset, j + offset);
      EncodedIsStored(kind, packing, v);
      var data := Encode(kind, packing, v).value;
      var q := Read(mem, WordOf(vma, packing, i + offset));
      FieldOfSetField(packing, i + offset, j + offset, data, q.data);
    }
  }

  lemma ObjectsArePlain(mem: Memory, vma: u32, packing: Packing, offset: Ix, i: Ix, v: LispObj, j: Ix)
    requires Aset1(mem, vma, packing, offset, Objects, i, v).Some?
    ensures Aref1(Aset1(mem, vma, packing, offset, Objects, i, v).value, vma, packing, offset, Objects, j) ==
      if j == i then Some(Stored(Objects, packing, v)) else Aref1(mem, vma, packing, offset, Objects, j)
  {
    WrapsApart(vma, i, j);
  }

  // ---------------------------------------------------------------- In the processor's memory

  /** Element `index` is v and every other element is what it was. */
  ghost predicate IsStored(mem: Memory, mem1: Memory, vma: u32, packing: Packing, offset: Ix, kind: ElementType,
                           index: Ix, v: LispObj)
  {
    forall j: Ix ::
      Aref1(mem1, vma, packing, offset, kind, j) ==
      (if j == index then Some(Stored(kind, packing, v)) else Aref1(mem, vma, packing, offset, kind, j))
  }

  method ArefInPlace(p: Processor, vma: u32, packing: Packing, offset: Ix, kind: ElementType, index: Ix)
    returns (r: Option<LispObj>)
    ensures r == Aref1(p.mem, vma, packing, offset, kind, index)
  {
    if kind.Objects? && packing == 0 { return Some(CdrNext(Read(p.mem, Wrapped(vma + index)))); }
    var at := index + offset;
    var q := Read(p.mem, WordOf(vma, packing, at));
    if !IsFixnum(q) { return None; }
    var data := q.data;
    if packing != 0 { data := Field(packing, at, data); }
    match kind
    case Fixnums => r := Some(LispObj(TYPE_FIXNUM, data));
    case Characters => r := Some(LispObj(TYPE_CHARACTER, data));
    case Booleans => if data != 0 { r := Some(OBJECT_T); } else { r := Some(OBJECT_NIL); }
    case Objects => r := None;
  }

  method AsetInPlace(p: Processor, vma: u32, packing: Packing, offset: Ix, kind: ElementType, index: Ix, v: LispObj)
    returns (ok: bool)
    modifies p`mem
    ensures ok <==> Aset1(old(p.mem), vma, packing, offset, kind, index, v).Some?
    ensures p.mem == if ok then Aset1(old(p.mem), vma, packing, offset, kind, index, v).value else old(p.mem)
    ensures ok ==> IsStored(old(p.mem), p.mem, vma, packing, offset, kind, index, v)
  {
    hide Aref1; hide Pow2; hide Stored; hide Field;
    ghost var mem := p.mem;
    if kind.Objects? && packing == 0 {
      p.mem := StoreContents(p.mem, Wrapped(vma + index), v);
    } else {
      var data := Encode(kind, packing, v);
      if data.None? { return false; }
      var at := index + offset;
      var word := WordOf(vma, packing, at);
      var q := Read(p.mem, word);
      if !IsFixnum(q) { return false; }
      p.mem := p.mem[word := LispObj(q.tag, SetField(packing, at, data.value, q.data))];
    }
    forall j: Ix ensures Aref1(p.mem, vma, packing, offset, kind, j) ==
      if j == index then Some(Stored(kind, packing, v)) else Aref1(mem, vma, packing, offset, kind, j)
    {
      PackedRefinesPlain(mem, vma, packing, offset, kind, index, v, j);
    }
    return true;
  }
}
