// FNV-1a (draft-eastlake-fnv, section 2): the 63-bit version of a delivered onetime
// command. Machine words are natural numbers below a power of two, with the
// wrap-around written out.
module Fnv {
  import opened Numbers

  type Byte = n: nat | n < 256
  type Bytes = seq<Byte>
  type Word = n: nat | n < TWO64
  type Word63 = n: nat | n < TWO63

  const OFFSET_BASIS: nat := 14695981039346656037
  const PRIME: nat := 1099511628211

  function Step(h: Word, b: Byte): Word { (Xor(h, b) * PRIME) % TWO64 }

  function Fold(h: Word, detail: Bytes): Word
    decreases |detail|
  {
    if detail == [] then h else Fold(Step(h, detail[0]), detail[1..])
  }

  // A 64-bit word read as a signed number.
  function ToInt64(x: Word): int { if x < TWO63 then x else x - TWO64 }

  // The sign bit is cleared before the conversion.
  function ContentHash(detail: Bytes): int {
    ToInt64(Fold(OFFSET_BASIS, detail) % TWO63)
  }

  method OnetimeContentHash(detail: Bytes) returns (version: int)
    ensures version == ContentHash(detail)
  {
    var h: Word := OFFSET_BASIS;
    for i := 0 to |detail|
      invariant Fold(h, detail[i..]) == Fold(OFFSET_BASIS, detail)
    {
      var x := Xor(h, detail[i]);
      h := (x * PRIME) % TWO64;
      assert detail[i..][0] == detail[i] && detail[i..][1..] == detail[i + 1..];
    }
    version := ToInt64(h % TWO63);
  }

  // ── The same fold on 63-bit words, where every step can be undone ───────────

  // PRIME is odd, so it has an inverse modulo 2^63.
  const PRIME_INVERSE: nat := 0x4E96_5057_AFF6_957B

  function Step63(h: Word63, b: Byte): Word63 { (Xor(h, b) * PRIME) % TWO63 }

  function Unstep63(h: Word63, b: Byte): Word63 {
    XorFits((h * PRIME_INVERSE) % TWO63, b);
    Xor((h * PRIME_INVERSE) % TWO63, b)
  }

  function Fold63(h: Word63, detail: Bytes): Word63
    decreases |detail|
  {
    if detail == [] then h else Fold63(Step63(h, detail[0]), detail[1..])
  }

  function Unfold63(h: Word63, detail: Bytes): Word63
    decreases |detail|
  {
    if detail == [] then h else Unstep63(Unfold63(h, detail[1..]), detail[0])
  }

  lemma XorFits(h: Word63, b: Byte)
    ensures Xor(h, b) < TWO63
  {
    Power63();
    XorBound(h, b, 63);
  }

  lemma MultipleVanishes(u: Word63, k: int)
    ensures (u + k * TWO63) % TWO63 == u
  {}

  lemma Cancel(u: Word63, p: nat, inverse: nat, c: nat)
    requires p * inverse == 1 + c * TWO63
    ensures ((u * p) % TWO63 * inverse) % TWO63 == u
  {
    var q, w := (u * p) / TWO63, (u * p) % TWO63;
    calc {
      w * inverse;
      (u * p - q * TWO63) * inverse;
      u * (p * inverse) - (q * inverse) * TWO63;
      u * (1 + c * TWO63) - (q * inverse) * TWO63;
      u + (u * c - q * inverse) * TWO63;
    }
    MultipleVanishes(u, u * c - q * inverse);
  }

  lemma InverseCancels(u: Word63)
    ensures ((u * PRIME) % TWO63 * PRIME_INVERSE) % TWO63 == u
  {
    Cancel(u, PRIME, PRIME_INVERSE, 675058593899);
  }

  lemma CancelsInverse(u: Word63)
    ensures ((u * PRIME_INVERSE) % TWO63 * PRIME) % TWO63 == u
  {
    Cancel(u, PRIME_INVERSE, PRIME, 675058593899);
  }

  // Each step is a bijection of the 63-bit words.
  lemma StepIsBijection(h: Word63, b: Byte)
    ensures Unstep63(Step63(h, b), b) == h
    ensures Step63(Unstep63(h, b), b) == h
  {
    XorFits(h, b);
    InverseCancels(Xor(h, b));
    XorUndo(h, b);
    CancelsInverse(h);
    XorUndo((h * PRIME_INVERSE) % TWO63, b);
  }

  lemma {:induction false} FoldIsBijection(h: Word63, detail: Bytes)
    ensures Unfold63(Fold63(h, detail), detail) == h
    ensures Fold63(Unfold63(h, detail), detail) == h
    decreases |detail|
  {
    if detail != [] {
      FoldIsBijection(Step63(h, detail[0]), detail[1..]);
      FoldIsBijection(h, detail[1..]);
      StepIsBijection(h, detail[0]);
      StepIsBijection(Unfold63(h, detail[1..]), detail[0]);
    }
  }

  lemma HalfWord(y: nat)
    ensures (y % TWO64) % TWO63 == y % TWO63
  {}

  lemma AddMultiple(y: nat, k: nat)
    ensures (y + k * TWO63) % TWO63 == y % TWO63
  {}

  lemma ProductKeepsLow(x: nat)
    ensures ((x * PRIME) % TWO64) % TWO63 == (x % TWO63 * PRIME) % TWO63
  {
    var q, l := x / TWO63, x % TWO63;
    assert x * PRIME == l * PRIME + (q * PRIME) * TWO63;
    HalfWord(x * PRIME);
    AddMultiple(l * PRIME, q * PRIME);
  }

  lemma StepKeepsLow(h: Word, b: Byte)
    ensures Step(h, b) % TWO63 == Step63(h % TWO63, b)
  {
    XorKeepsLow(h, b);
    ProductKeepsLow(Xor(h, b));
  }

  lemma XorKeepsLow(h: Word, b: Byte)
    ensures Xor(h, b) % TWO63 == Xor(h % TWO63, b)
  {
    Power63();
    XorRemainder(h, b, 63);
  }

  // Keeping 63 bits at the end is keeping 63 bits all along; the version is never negative.
  lemma {:induction false} FoldKeepsLow(h: Word, detail: Bytes)
    ensures Fold(h, detail) % TWO63 == Fold63(h % TWO63, detail)
    decreases |detail|
  {
    if detail != [] {
      StepKeepsLow(h, detail[0]);
      FoldKeepsLow(Step(h, detail[0]), detail[1..]);
    }
  }

  lemma HashIsFold63(detail: Bytes)
    ensures 0 <= ContentHash(detail) == Fold63(OFFSET_BASIS % TWO63, detail)
  {
    FoldKeepsLow(OFFSET_BASIS, detail);
  }

  lemma {:induction false} FoldSplits(h: Word63, x: Bytes, y: Bytes)
    ensures Fold63(h, x + y) == Fold63(Fold63(h, x), y)
    decreases |x|
  {
    if x == [] {
      assert x + y == y;
    } else {
      assert (x + y)[0] == x[0] && (x + y)[1..] == x[1..] + y;
      FoldSplits(Step63(h, x[0]), x[1..], y);
    }
  }

  // A common tail neither creates nor hides a collision.
  lemma CommonTailCancels(x: Bytes, y: Bytes, tail: Bytes)
    ensures ContentHash(x + tail) == ContentHash(y + tail) <==> ContentHash(x) == ContentHash(y)
  {
    HashIsFold63(x);
    HashIsFold63(y);
    HashIsFold63(x + tail);
    HashIsFold63(y + tail);
    var h: Word63 := OFFSET_BASIS % TWO63;
    FoldSplits(h, x, tail);
    FoldSplits(h, y, tail);
    FoldIsBijection(Fold63(h, x), tail);
    FoldIsBijection(Fold63(h, y), tail);
  }

  lemma ParityDiffers(h: nat, b: nat, c: nat)
    requires (h + b) % 2 == (h + c) % 2
    ensures b % 2 == c % 2
  {}

  lemma {:induction false} XorDiffers(h: nat, b: nat, c: nat)
    requires Xor(h, b) == Xor(h, c)
    ensures b == c
    decreases h + b + c
  {
    if h != 0 || b != 0 || c != 0 {
      XorBits(h, b);
      XorBits(h, c);
      XorDiffers(h / 2, b / 2, c / 2);
      ParityDiffers(h, b, c);
      SameHalves(b, c);
    }
  }

  // Two details that differ in exactly one byte never share a version.
  lemma OneByteChangesHash(detail: Bytes, i: nat, b: Byte)
    requires i < |detail| && detail[i] != b
    ensures ContentHash(detail) != ContentHash(detail[i := b])
  {
    var front, tail := detail[..i], detail[i + 1..];
    assert detail == front + [detail[i]] + tail && detail[i := b] == front + [b] + tail;
    CommonTailCancels(front + [detail[i]], front + [b], tail);
    var h: Word63 := OFFSET_BASIS % TWO63;
    HashIsFold63(front + [detail[i]]);
    HashIsFold63(front + [b]);
    FoldSplits(h, front, [detail[i]]);
    FoldSplits(h, front, [b]);
    var g := Fold63(h, front);
    XorFits(g, b);
    XorFits(g, detail[i]);
    assert Fold63(g, [b]) == Step63(g, b) && Fold63(g, [detail[i]]) == Step63(g, detail[i]) by {
      assert [b][1..] == [] && [detail[i]][1..] == [];
    }
    InverseCancels(Xor(g, b));
    InverseCancels(Xor(g, detail[i]));
    if ContentHash(detail) == ContentHash(detail[i := b]) {
      XorDiffers(g, b, detail[i]);
    }
  }

  // The hash of the text "a" in the published test vectors, without its sign bit.
  lemma HashVector()
    ensures Fold(OFFSET_BASIS, [0x61]) == 0xAF63DC4C8601EC8C
    ensures ContentHash([0x61]) == 0x2F63DC4C8601EC8C
  {
    Power8();
    XorHigh(0xCBF29CE4842223, 0x25, 0x61, 8);
    XorLetter();
    assert [0x61][1..] == [];
  }

  lemma XorLetter()
    ensures Xor(0x25, 0x61) == 0x44
  {
    XorOneMoreBit(0, 1, 0);
    XorOneMoreBit(1, 3, 1);
    XorOneMoreBit(2, 6, 2);
    XorOneMoreBit(4, 12, 4);
    XorOneMoreBit(9, 24, 8);
    XorOneMoreBit(18, 48, 17);
    XorOneMoreBit(37, 97, 34);
  }
}
