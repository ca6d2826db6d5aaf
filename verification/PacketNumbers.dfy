/** 16-bit packet numbers, compared modulo 2^16, and their unbounded counterparts.

    The program keeps every packet number in an unsigned 16-bit word.  The proofs
    speak about unbounded numbers; `Wrap` is what the wire and the records hold and
    `Unwrap` recovers the unbounded number nearest to a reference.
  */
module PacketNumbers {

  const MODULUS: int := 0x1_0000
  const HALF: int := 0x8000

  type byte = x: int | 0 <= x < 0x100
  type u16 = x: int | 0 <= x < MODULUS

  function Wrap(n: int): u16 {
    n % MODULUS
  }

  /** Unsigned 16-bit subtraction. */
  function SeqDiff(a: u16, b: u16): u16 {
    (a - b) % MODULUS
  }

  function SeqInc(a: u16): u16 {
    (a + 1) % MODULUS
  }

  /** The comparison of the program: bit 15 of the difference. */
  predicate SeqLt(a: u16, b: u16) {
    SeqDiff(a, b) >= HALF
  }

  /** The unbounded number written `w` that lies in (reference - 2^15, reference + 2^15]. */
  function Unwrap(reference: int, w: u16): (n: int)
    ensures Wrap(n) == w
    ensures reference - HALF < n <= reference + HALF
  {
    var ahead := (w - reference) % MODULUS;
    if ahead <= HALF then reference + ahead else reference + ahead - MODULUS
  }

  lemma WrapEqual(a: int, b: int)
    requires -MODULUS < a - b < MODULUS
    ensures Wrap(a) == Wrap(b) <==> a == b
  {}

  lemma WrapStep(n: int)
    ensures SeqInc(Wrap(n)) == Wrap(n + 1)
  {}

  /** The modular difference is the true one on every non-negative distance below 2^16. */
  lemma DiffIsExact(a: int, b: int)
    requires 0 <= a - b < MODULUS
    ensures SeqDiff(Wrap(a), Wrap(b)) == a - b
  {
    var qa, qb := a / MODULUS, b / MODULUS;
    assert Wrap(a) - Wrap(b) == a - b - MODULUS * (qa - qb);
    ModuloShift(a - b, qa - qb);
  }

  lemma ModuloShift(x: int, k: int)
    ensures (x - MODULUS * k) % MODULUS == x % MODULUS
  {
    var q, r := x / MODULUS, x % MODULUS;
    assert x - MODULUS * k == MODULUS * (q - k) + r;
  }

  /** On distances below 2^15 either way, and at +2^15, the comparison orders the
      unbounded numbers. */
  lemma LtIsExact(a: int, b: int)
    requires -HALF <= a - b < HALF
    ensures SeqLt(Wrap(a), Wrap(b)) <==> a < b
  {
    if a >= b {
      DiffIsExact(a, b);
    } else {
      DiffIsExact(a + MODULUS, b);
      ModuloShift(a + MODULUS, 1);
    }
  }

  /** Unlike section 3.2 of RFC 1982, which leaves it undefined, the comparison answers
      at distance 2^15, and there it holds both ways; nowhere else is it symmetric. */
  lemma LtBothWays(a: u16, b: u16)
    ensures SeqLt(a, b) && SeqLt(b, a) <==> SeqDiff(a, b) == HALF
  {
    DiffNegation(a, b);
  }

  lemma DiffNegation(a: u16, b: u16)
    ensures SeqDiff(b, a) == if a == b then 0 else MODULUS - SeqDiff(a, b)
  {}

  /** The comparison is total on distinct numbers, and irreflexive. */
  lemma LtIsTotal(a: u16, b: u16)
    ensures a != b <==> SeqLt(a, b) || SeqLt(b, a)
  {
    DiffNegation(a, b);
  }

  /** A wire number stands for the one unbounded number within reach of the reference. */
  lemma UnwrapIsInverse(reference: int, n: int)
    requires reference - HALF < n <= reference + HALF
    ensures Unwrap(reference, Wrap(n)) == n
  {
    WrapEqual(Unwrap(reference, Wrap(n)), n);
  }

  /** A number further back, but less than 2^16 back, is taken for one ahead. */
  lemma UnwrapOfOld(reference: int, n: int)
    requires reference - MODULUS < n <= reference - HALF
    ensures Unwrap(reference, Wrap(n)) == n + MODULUS
  {
    ModuloShift(n, -1);
    UnwrapIsInverse(reference, n + MODULUS);
  }

  /** Comparing a stored number with a wire number decides whether the wire number is
      ahead of the stored one. */
  lemma LtUnwrap(reference: int, w: u16)
    ensures SeqLt(Wrap(reference), w) <==> reference < Unwrap(reference, w)
  {
    LtIsExact(reference, Unwrap(reference, w));
  }
}
