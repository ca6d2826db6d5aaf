/** Where the elements of a packed array stand, and what their bits stand for. */
module ArrayLayout {
  import opened Ivory
  import opened Instructions
  import opened BitFields
  import opened Arrays

  /** The number of elements in a word. */
  const PER_WORD := [1, 2, 4, 8, 16, 32]

  /** Element `index` is in the word that many whole words further on, the first one of a word at its low
      end. */
  lemma ElementIsAt(vma: u32, packing: Packing, index: nat)
    ensures var n := PER_WORD[packing];
      && WordOf(vma, packing, index) == (vma + index / n) % 0x1_0000_0000
      && ElementSize(packing) == 32 / n && ElementBit(packing, index) == (index % n) * (32 / n)
  {
    Pow2Small();
    assert packing == 0 || packing == 1 || packing == 2 || packing == 3 || packing == 4 || packing == 5;
  }

  lemma Pow2Small()
    ensures Pow2(0) == 1 && Pow2(1) == 2 && Pow2(2) == 4 && Pow2(3) == 8 && Pow2(4) == 16 && Pow2(5) == 32
  {}

  /** The first k elements of a word put together, each so much higher than the one before. */
  function Together(packing: Packing, w: u32, k: nat): int {
    if k == 0 then 0 else Together(packing, w, k - 1) + Pow2(Height(packing, k - 1)) * Field(packing, k - 1, w)
  }

  function Height(packing: Packing, k: nat): (h: nat) {
    MulNat(k, ElementSize(packing));
    k * ElementSize(packing)
  }

  lemma MulNat(a: nat, b: nat)
    ensures a * b >= 0
  {}

  /** The elements of a word, from its low end up, make up the word. */
  lemma ElementsMakeTheWord(packing: Packing, w: u32)
    ensures Together(packing, w, Pow2(packing)) == w
  {
    if packing == 0 { OneToAWord(w); } else { ManyToAWord(packing, w); }
  }

  lemma OneToAWord(w: u32)
    ensures Pow2(0) == 1 && Together(0, w, 1) == w
  {
    assert Together(0, w, 0) == 0 && Height(0, 0) == 0;
    assert Field(0, 0, w) == w;
  }

  lemma ManyToAWord(packing: Packing, w: u32)
    requires packing > 0
    ensures Together(packing, w, Pow2(packing)) == w
  {
    hide Pow2; hide Together;
    ElementFits(packing, 0);
    assert Height(packing, Pow2(packing)) == 32;
    TogetherIsRest(packing, w, Pow2(packing));
    WordSize();
  }

  lemma {:induction false} TogetherIsRest(packing: Packing, w: u32, k: nat)
    requires packing > 0 && k <= Pow2(packing)
    ensures Together(packing, w, k) == w % Pow2(Height(packing, k))
    decreases k
  {
    hide Pow2; hide Ldb;
    var size := ElementSize(packing);
    if k == 0 {
      NoBits(w, size);
    } else {
      var at := Height(packing, k - 1);
      TogetherIsRest(packing, w, k - 1);
      SmallRemainder(k - 1, Pow2(packing));
      assert k * size == at + size;
      NextField(w, size, at);
    }
  }

  lemma NoBits(w: u32, size: nat)
    ensures 0 * size == 0 && w % Pow2(0 * size) == 0
  {}

  lemma SmallRemainder(k: nat, n: nat)
    requires k < n
    ensures k % n == k
  {}

  lemma NextField(w: u32, size: nat, at: nat)
    ensures w % Pow2(at + size) == w % Pow2(at) + Pow2(at) * Ldb(size, at, w)
  {
    hide Pow2; hide Ldb;
    Parts(w, size, at);
    Pow2Add(at, size);
    LdbIsSmall(size, at, w);
    var p, q, low, field, high := Pow2(at), Pow2(size), w % Pow2(at), Ldb(size, at, w), Rest(w, at + size);
    Remainder(w, p, q, low, field, high);
  }

  lemma LdbIsSmall(size: nat, at: nat, w: int)
    ensures Ldb(size, at, w) < Pow2(size)
  {}

  lemma Remainder(w: int, p: int, q: int, low: int, field: int, high: int)
    requires p > 0 && q > 0 && 0 <= low < p && 0 <= field < q && w == low + p * (field + q * high)
    ensures p * q > 0 && w % (p * q) == low + p * field
  {
    var r := low + p * field;
    Spread(p, q, field, high);
    BelowProduct(p, q, low, field);
    Unique(w, p * q, r, high);
  }

  lemma Spread(p: int, q: int, field: int, high: int)
    ensures p * (field + q * high) == p * field + (p * q) * high
  {}

  lemma BelowProduct(p: int, q: int, low: int, field: int)
    requires p > 0 && q > 0 && 0 <= low < p && 0 <= field < q
    ensures 0 <= low + p * field < p * q
  {
    MulBounds(p, field);
    MulBounds(p, q - 1 - field);
    assert p * (q - 1 - field) == p * q - p - p * field;
  }

  lemma Unique(w: int, d: int, r: int, h: int)
    requires d > 0 && 0 <= r < d && w == r + d * h
    ensures w % d == r
  {
    var q := w / d;
    Whole(w, d);
    assert d * (q - h) == r - w % d;
    MulBounds(d, q - h);
  }

  /** The bits of an element are its number, its character or its truth. */
  lemma BitsStandFor(data: u32)
    ensures Arrays.Decode(Fixnums, data) == Some(LispObj(8, data))
    ensures Arrays.Decode(Characters, data) == Some(LispObj(35, data))
    ensures Arrays.Decode(Booleans, data) ==
      Some(if data == 0 then LispObj(20, 0xf8041200) else LispObj(24, 0xf8041208))
  {}

  /** An element is read from the word and the bits where it stands, counted from the array's offset; an
      unpacked array of objects has one in each word and no offset. */
  lemma ElementIsRead(mem: Memory, vma: u32, packing: Packing, offset: Ix, kind: ElementType, index: Ix)
    ensures var i := index + offset;
      var q := Read(mem, WordOf(vma, packing, i));
      !(kind.Objects? && packing == 0) && q.tag % 64 == 8 ==>
        Aref1(mem, vma, packing, offset, kind, index) == Arrays.Decode(kind, Bits(packing, i, q.data))
    ensures kind.Objects? && packing == 0 ==>
      var q := Read(mem, (vma + index) % 0x1_0000_0000);
      Aref1(mem, vma, packing, offset, kind, index) == Some(LispObj(q.tag % 64, q.data))
  {
    FieldIsBits(packing, index + offset, Read(mem, WordOf(vma, packing, index + offset)).data);
    hide Pow2; hide Arrays.Decode; hide Field; hide WordOf; hide Bits;
  }

  /** The bits of a word where element i stands. */
  function Bits(packing: Packing, i: nat, w: u32): (d: u32) {
    FieldIsBits(packing, i, w);
    w / Pow2(ElementBit(packing, i)) % Pow2(ElementSize(packing))
  }

  lemma FieldIsBits(packing: Packing, i: nat, w: u32)
    ensures Field(packing, i, w) == w / Pow2(ElementBit(packing, i)) % Pow2(ElementSize(packing))
  {
    if packing == 0 {
      FirstBit(i);
      WholeWord(w);
    }
    hide Pow2;
  }

  lemma FirstBit(i: nat)
    ensures ElementBit(0, i) == 0 && ElementSize(0) == 32
  {
    Pow2Small();
  }

  lemma WholeWord(w: u32)
    ensures w / Pow2(0) % Pow2(32) == w
  {
    WordSize();
  }

  /** A store changes one word of memory and leaves that word's tag alone; an unpacked array of objects
      keeps the cdr code of the word. */
  lemma StoreTouchesOneWord(mem: Memory, vma: u32, packing: Packing, offset: Ix, kind: ElementType, index: Ix,
                            v: LispObj, a: int)
    requires Aset1(mem, vma, packing, offset, kind, index, v).Some?
    ensures var word := if kind.Objects? && packing == 0 then (vma + index) % 0x1_0000_0000
                        else WordOf(vma, packing, index + offset);
      var mem1 := Aset1(mem, vma, packing, offset, kind, index, v).value;
      && (a != word ==> Read(mem1, a) == Read(mem, a))
      && (kind.Objects? ==> Read(mem1, word) == LispObj(Read(mem, word).tag / 64 * 64 + v.tag % 64, v.data))
      && (!kind.Objects? ==> Read(mem1, word).tag == Read(mem, word).tag)
  {
    hide Pow2; hide SetField; hide WordOf;
  }

  /** A store is declined exactly when the word is not one of numbers, or the object is not of the array's
      type, or a character has more bits than an element. */
  lemma StoreDeclines(mem: Memory, vma: u32, packing: Packing, offset: Ix, kind: ElementType, index: Ix, v: LispObj)
    ensures var fits := match kind
        case Fixnums => v.tag % 64 == 8
        case Characters => v.tag % 64 == 35 && v.data % Pow2(ElementSize(packing)) == v.data
        case Booleans => true
        case Objects => packing == 0;
      Aset1(mem, vma, packing, offset, kind, index, v).Some? <==>
        fits && (kind.Objects? || Read(mem, WordOf(vma, packing, index + offset)).tag % 64 == 8)
  {
    assert Pow2(0) == 1;
    hide Pow2; hide SetField; hide WordOf;
  }
}
