/** What a deposit into a bit field does to that field and to all the others. */
module BitFields {
  import opened Ivory

  lemma DivideTwice(w: nat, a: int, b: int)
    requires a > 0 && b > 0
    ensures a * b > 0 && w / (a * b) == (w / a) / b
  {
    Slice(w, a, b);
    MulBounds(a, b);
    var q := w / a;
    assert q == q % b + b * (q / b);
    Cancel(b, q / b, w / (a * b));
  }

  lemma Cancel(b: int, x: int, y: int)
    requires b > 0 && b * x == b * y
    ensures x == y
  {
    Distribute(b, 1, x, -y);
    MulBounds(b, x - y);
    assert b * (x - y) == 0;
  }

  /** What is above a field of a rest is a rest. */
  lemma RestOfRest(w: nat, a: nat, b: nat)
    ensures Rest(Rest(w, a), b) == Rest(w, a + b)
  {
    Pow2Add(a, b);
    DivideTwice(w, Pow2(a), Pow2(b));
  }

  /** A word is what lies below a field, the field, and what lies above it. */
  lemma Parts(w: nat, size: nat, at: nat)
    ensures w == w % Pow2(at) + Pow2(at) * (Ldb(size, at, w) + Pow2(size) * Rest(w, at + size))
  {
    hide Ldb; hide Pow2;
    Above(w, at, size);
    Whole(w, Pow2(at));
  }

  lemma Whole(w: int, d: int)
    requires d > 0
    ensures w == w % d + d * (w / d)
  {}

  lemma DpbParts(x: int, size: nat, at: nat, w: nat)
    ensures Dpb(x, size, at, w) == w % Pow2(at) + Pow2(at) * (x % Pow2(size) + Pow2(size) * Rest(w, at + size))
    ensures Dpb(x, size, at, w) >= 0
  {
    Parts(w, size, at);
    var f, g, h := Ldb(size, at, w), x % Pow2(size), Pow2(size) * Rest(w, at + size);
    Difference(Pow2(at), g, f, h);
    MulBounds(Pow2(size), Rest(w, at + size));
    MulBounds(Pow2(at), g + h);
  }

  lemma Difference(p: int, g: int, f: int, h: int)
    ensures p * (f + h) + (g - f) * p == p * (g + h)
  {}

  /** Reading a field back after a deposit gives what was deposited. */
  lemma LdbOfDpb(x: int, size: nat, at: nat, w: nat)
    ensures Dpb(x, size, at, w) >= 0
    ensures Ldb(size, at, Dpb(x, size, at, w)) == x % Pow2(size)
  {
    DpbParts(x, size, at, w);
    FieldBetween(size, at, w % Pow2(at), x % Pow2(size), Rest(w, at + size));
  }

  lemma RestOfSum(low: nat, at: nat, k: nat)
    requires low < Pow2(at)
    ensures low + Pow2(at) * k >= 0 && Rest(low + Pow2(at) * k, at) == k
  {
    Quotient(low, Pow2(at), k);
  }

  /** A deposit leaves what is above the field. */
  lemma DpbKeepsAbove(x: int, size: nat, at: nat, w: nat)
    ensures Dpb(x, size, at, w) >= 0 && Rest(Dpb(x, size, at, w), at + size) == Rest(w, at + size)
  {
    DpbParts(x, size, at, w);
    var g, h := x % Pow2(size), Rest(w, at + size);
    MulBounds(Pow2(size), h);
    RestOfSum(w % Pow2(at), at, g + Pow2(size) * h);
    RestOfSum(g, size, h);
    RestOfRest(Dpb(x, size, at, w), at, size);
  }

  /** A deposit leaves every field that does not overlap. */
  lemma LdbElsewhere(x: int, size: nat, at: nat, w: nat, size1: nat, at1: nat)
    requires at1 >= at + size || at >= at1 + size1
    ensures Dpb(x, size, at, w) >= 0
    ensures Ldb(size1, at1, Dpb(x, size, at, w)) == Ldb(size1, at1, w)
  {
    DpbKeepsAbove(x, size, at, w);
    if at1 >= at + size {
      RestOfRest(w, at + size, at1 - at - size);
      RestOfRest(Dpb(x, size, at, w), at + size, at1 - at - size);
    } else {
      DpbParts(x, size, at, w);
      Parts(w, size, at);
      var k := Ldb(size, at, w) + Pow2(size) * Rest(w, at + size);
      var k1 := x % Pow2(size) + Pow2(size) * Rest(w, at + size);
      MulBounds(Pow2(size), Rest(w, at + size));
      LowField(w % Pow2(at), at, k, size1, at1);
      LowField(w % Pow2(at), at, k1, size1, at1);
    }
  }

  /** A field below bit `at` does not see what is above it. */
  lemma LowField(low: nat, at: nat, k: nat, size1: nat, at1: nat)
    requires at1 + size1 <= at
    ensures low + Pow2(at) * k >= 0
    ensures Ldb(size1, at1, low + Pow2(at) * k) == Ldb(size1, at1, low)
  {
    var d := at - at1 - size1;
    Pow2Add(at1, size1 + d);
    Pow2Add(size1, d);
    Regroup(Pow2(at1), Pow2(size1), Pow2(d), k);
    MulBounds(Pow2(d), k);
    MulBounds(Pow2(size1), Pow2(d) * k);
    Parts(low, size1, at1);
    var m := Pow2(d) * k;
    Shifted(low, at1, Pow2(size1) * m);
    ModuloMultiple(Rest(low, at1), Pow2(size1), m);
  }

  lemma Regroup(a: int, b: int, c: int, k: int)
    ensures (a * (b * c)) * k == a * (b * (c * k))
  {}

  lemma Shifted(low: nat, at: nat, j: nat)
    ensures low + Pow2(at) * j >= 0 && Rest(low + Pow2(at) * j, at) == Rest(low, at) + j
  {
    hide Pow2;
    ShiftedBy(low, Pow2(at), j);
  }

  lemma ShiftedBy(low: nat, d: int, j: nat)
    requires d > 0
    ensures low + d * j >= 0 && (low + d * j) / d == low / d + j
  {
    var q, r := low / d, low % d;
    MulBounds(d, j);
    Whole(low, d);
    Sum(d, q, j);
    Quotient(r, d, q + j);
  }

  lemma Sum(d: int, q: int, j: int)
    ensures d * (q + j) == d * q + d * j
  {}

  lemma ModuloMultiple(x: nat, d: int, m: nat)
    requires d > 0
    ensures (x + d * m) % d == x % d
  {
    var q, r := x / d, x % d;
    Whole(x, d);
    Sum(d, q, m);
    Quotient(r, d, q + m);
  }

  /** A deposit into a word of n bits is a word of n bits. */
  lemma DpbFits(x: int, size: nat, at: nat, w: nat, n: nat)
    requires at + size <= n && w < Pow2(n)
    ensures 0 <= Dpb(x, size, at, w) < Pow2(n)
  {
    DpbKeepsAbove(x, size, at, w);
    RestOfRest(w, at + size, n - at - size);
    RestOfRest(Dpb(x, size, at, w), at + size, n - at - size);
    NoRest(w, n);
    NoRest(Dpb(x, size, at, w), n);
  }

  lemma NoRest(w: nat, n: nat)
    ensures w < Pow2(n) <==> Rest(w, n) == 0
  {
    hide Pow2;
    Whole(w, Pow2(n));
    MulBounds(Pow2(n), w / Pow2(n));
  }
}
