// Powers of two, low bits and exclusive or on natural numbers.
module Numbers {
  function Pow2(n: nat): (p: nat)
    ensures p > 0
  {
    if n == 0 then 1 else 2 * Pow2(n - 1)
  }

  lemma {:induction false} PowerSplits(m: nat, n: nat)
    ensures Pow2(m + n) == Pow2(n) * Pow2(m)
  {
    if m > 0 {
      PowerSplits(m - 1, n);
    }
  }

  const TWO32: nat := 0x1_0000_0000
  const TWO63: nat := 0x8000_0000_0000_0000
  const TWO64: nat := 0x1_0000_0000_0000_0000
  const TWO128: nat := 0x1_0000_0000_0000_0000_0000_0000_0000_0000

  lemma PowerDoubles(n: nat, p: nat)
    requires Pow2(n) == p
    ensures Pow2(n + n) == p * p
  {
    PowerSplits(n, n);
  }

  lemma Power8() ensures Pow2(8) == 256 {}

  lemma Power32() ensures Pow2(32) == TWO32 {
    Power8();
    PowerDoubles(8, 256);
    PowerDoubles(16, 0x1_0000);
  }

  lemma Power64() ensures Pow2(64) == TWO64 {
    Power32();
    PowerDoubles(32, TWO32);
  }

  lemma Power63() ensures Pow2(63) == TWO63 {
    Power64();
    assert Pow2(64) == 2 * Pow2(63);
  }

  lemma Power128() ensures Pow2(128) == TWO128 {
    Power64();
    PowerDoubles(64, TWO64);
  }

  // ── Division ────────────────────────────────────────────────────────────────

  lemma {:induction false} NextMultiple(size: nat, q: nat, r: nat)
    requires q < r
    ensures size * q + size <= size * r
  {
    if q + 1 < r {
      NextMultiple(size, q, r - 1);
    }
    assert size * r == size * (r - 1) + size;
  }

  lemma Division(x: nat, size: nat)
    requires size > 0
    ensures x == size * (x / size) + x % size
  {}

  lemma UniqueRemainder(x: nat, size: nat, q: nat, r: nat)
    requires x == size * q + r && r < size
    ensures x % size == r
  {
    var p := x / size;
    Division(x, size);
    if p < q { NextMultiple(size, p, q); }
    if q < p { NextMultiple(size, q, p); }
  }

  // ── Bits ────────────────────────────────────────────────────────────────────

  function Xor(x: nat, y: nat): nat
    decreases x + y
  {
    if x == 0 && y == 0 then 0 else 2 * Xor(x / 2, y / 2) + (x + y) % 2
  }

  lemma XorBits(x: nat, y: nat)
    ensures Xor(x, y) / 2 == Xor(x / 2, y / 2)
    ensures Xor(x, y) % 2 == (x + y) % 2
  {}

  lemma XorOneMoreBit(x: nat, y: nat, halves: nat)
    requires Xor(x / 2, y / 2) == halves
    ensures Xor(x, y) == 2 * halves + (x + y) % 2
  {
    XorBits(x, y);
  }

  lemma SameHalves(a: nat, b: nat)
    requires a / 2 == b / 2 && a % 2 == b % 2
    ensures a == b
  {}

  lemma ParityUndo(x: nat, y: nat, z: nat, w: nat)
    requires z % 2 == (x + y) % 2 && w % 2 == (z + y) % 2
    ensures w % 2 == x % 2
  {}

  lemma {:induction false} XorUndo(x: nat, y: nat)
    ensures Xor(Xor(x, y), y) == x
    decreases x + y
  {
    if x != 0 || y != 0 {
      var z := Xor(x, y);
      XorBits(x, y);
      XorUndo(x / 2, y / 2);
      XorBits(z, y);
      ParityUndo(x, y, z, Xor(z, y));
      SameHalves(Xor(z, y), x);
    }
  }

  // The low n bits of a number.
  function Low(x: nat, n: nat): nat {
    if n == 0 then 0 else 2 * Low(x / 2, n - 1) + x % 2
  }

  function High(x: nat, n: nat): nat {
    if n == 0 then x else High(x / 2, n - 1)
  }

  lemma {:induction false} LowHigh(x: nat, n: nat)
    ensures x == Pow2(n) * High(x, n) + Low(x, n)
    ensures Low(x, n) < Pow2(n)
  {
    if n > 0 {
      LowHigh(x / 2, n - 1);
      ShiftIn(x, Pow2(n - 1), High(x / 2, n - 1), Low(x / 2, n - 1));
    }
  }

  lemma ShiftIn(x: nat, p: nat, h: nat, l: nat)
    requires x / 2 == p * h + l
    ensures x == (2 * p) * h + (2 * l + x % 2)
  {
    assert (2 * p) * h == 2 * (p * h);
  }

  lemma LowIsRemainder(x: nat, n: nat)
    ensures Low(x, n) == x % Pow2(n)
  {
    LowHigh(x, n);
    UniqueRemainder(x, Pow2(n), High(x, n), Low(x, n));
  }

  lemma LowBits(x: nat, n: nat)
    ensures n > 0 ==> Low(x, n) / 2 == Low(x / 2, n - 1) && Low(x, n) % 2 == x % 2
  {}

  // Exclusive or works bit by bit, so it commutes with keeping the low bits.
  lemma {:induction false} XorLow(x: nat, y: nat, n: nat)
    ensures Low(Xor(x, y), n) == Xor(Low(x, n), Low(y, n))
  {
    if n > 0 {
      var a, b, z := Low(x, n), Low(y, n), Xor(x, y);
      XorLow(x / 2, y / 2, n - 1);
      XorBits(x, y);
      LowBits(x, n);
      LowBits(y, n);
      LowBits(z, n);
      XorBits(a, b);
      SameParity(x, y, a, b);
      SameHalves(Low(z, n), Xor(a, b));
    }
  }

  lemma XorRemainder(x: nat, y: nat, n: nat)
    requires y < Pow2(n)
    ensures Xor(x, y) % Pow2(n) == Xor(x % Pow2(n), y)
  {
    XorLow(x, y, n);
    LowIsRemainder(x, n);
    LowIsRemainder(y, n);
    LowIsRemainder(Xor(x, y), n);
    SmallRemainder(y, Pow2(n));
  }

  lemma SmallRemainder(y: nat, p: nat)
    requires y < p
    ensures y % p == y
  {}

  lemma SameParity(x: nat, y: nat, a: nat, b: nat)
    requires a % 2 == x % 2 && b % 2 == y % 2
    ensures (a + b) % 2 == (x + y) % 2
  {}

  lemma {:induction false} XorBound(x: nat, y: nat, n: nat)
    requires x < Pow2(n) && y < Pow2(n)
    ensures Xor(x, y) < Pow2(n)
  {
    if n > 0 {
      XorBits(x, y);
      XorBound(x / 2, y / 2, n - 1);
    }
  }

  // Bit i of a number, the lowest being bit 0.
  function Bit(x: nat, i: nat): nat { High(x, i) % 2 }

  lemma {:induction false} HighStep(x: nat, i: nat)
    ensures High(x, i + 1) == High(x, i) / 2
  {
    if i > 0 {
      HighStep(x / 2, i - 1);
    }
  }

  lemma UniqueQuotient(x: nat, size: nat, q: nat, l: nat)
    requires x == size * q + l && l < size
    ensures x / size == q
  {
    var p := x / size;
    Division(x, size);
    if p < q { NextMultiple(size, p, q); }
    if q < p { NextMultiple(size, q, p); }
  }

  lemma HighIsQuotient(x: nat, n: nat)
    ensures High(x, n) == x / Pow2(n)
  {
    LowHigh(x, n);
    UniqueQuotient(x, Pow2(n), High(x, n), Low(x, n));
  }

  lemma {:induction false} HighBits(x: nat, y: nat, m: nat, w: nat)
    requires m <= w && High(x, w) == High(y, w)
    ensures High(x, m) == High(y, m) <==> forall i: nat :: m <= i < w ==> Bit(x, i) == Bit(y, i)
    decreases w - m
  {
    if m < w {
      HighBits(x, y, m + 1, w);
      HighStep(x, m);
      HighStep(y, m);
      if Bit(x, m) == Bit(y, m) && High(x, m + 1) == High(y, m + 1) {
        SameHalves(High(x, m), High(y, m));
      }
    }
  }

  // Two numbers of w bits agree behind a shift by m if and only if their other bits do.
  lemma SharedBits(x: nat, y: nat, m: nat, w: nat)
    requires m <= w && x < Pow2(w) && y < Pow2(w)
    ensures x / Pow2(m) == y / Pow2(m) <==> forall i: nat :: m <= i < w ==> Bit(x, i) == Bit(y, i)
  {
    HighIsQuotient(x, m);
    HighIsQuotient(y, m);
    NothingAbove(x, w);
    NothingAbove(y, w);
    HighBits(x, y, m, w);
  }

  lemma NothingAbove(x: nat, w: nat)
    requires x < Pow2(w)
    ensures High(x, w) == 0
  {
    LowHigh(x, w);
    if High(x, w) > 0 { NextMultiple(Pow2(w), 0, High(x, w)); }
  }

  // Exclusive or with few bits leaves the others alone.
  lemma {:induction false} XorHigh(h: nat, a: nat, b: nat, n: nat)
    requires a < Pow2(n) && b < Pow2(n)
    ensures Xor(Pow2(n) * h + a, b) == Pow2(n) * h + Xor(a, b)
  {
    if n == 0 {
      XorNothing(h);
    } else {
      var p := Pow2(n - 1);
      var x := Pow2(n) * h + a;
      Halved(x, p, h, a);
      XorBits(x, b);
      XorBits(a, b);
      XorHigh(h, a / 2, b / 2, n - 1);
      SameParity(x, b, a, b);
      SameHalves(Xor(x, b), Pow2(n) * h + Xor(a, b));
    }
  }

  lemma Halved(x: nat, p: nat, h: nat, a: nat)
    requires x == 2 * p * h + a
    ensures x / 2 == p * h + a / 2 && x % 2 == a % 2
  {
    assert 2 * p * h == 2 * (p * h);
  }

  lemma {:induction false} XorNothing(h: nat)
    ensures Xor(h, 0) == h
  {
    if h > 0 {
      XorNothing(h / 2);
    }
  }
}
