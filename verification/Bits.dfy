// 64-bit hashes seen bit by bit, and the distance between them.
module Bits {

  predicate Bit(h: bv64, i: bv64)
    requires i < 64
  {
    (h >> i) & 1 == 1
  }

  lemma SetBit(h: bv64, i: bv64, j: bv64)
    requires i < 64 && j < 64
    ensures Bit(h | (1 << i), j) <==> i == j || Bit(h, j)
  {
  }

  lemma XorBit(h: bv64, g: bv64, i: bv64)
    requires i < 64
    ensures Bit(h ^ g, i) <==> Bit(h, i) != Bit(g, i)
  {
  }

  lemma NextShift(d: bv64, s: bv64)
    requires 1 <= s <= 64 && d << s == 0 && (d >> (64 - s)) & 1 == 0
    ensures d << (s - 1) == 0
  {
  }

  lemma {:induction false} LowBitsClear(d: bv64, n: bv64)
    requires n <= 64 && forall i: bv64 | i < n :: !Bit(d, i)
    ensures d << (64 - n) == 0
    decreases n
  {
    if n > 0 {
      LowBitsClear(d, n - 1);
      assert !Bit(d, n - 1);
      NextShift(d, 65 - n);
    }
  }

  // A hash is its bits.
  lemma SameBits(h: bv64, g: bv64)
    requires forall i: bv64 | i < 64 :: Bit(h, i) <==> Bit(g, i)
    ensures h == g
  {
    var d := h ^ g;
    forall i: bv64 | i < 64 ensures !Bit(d, i) {
      XorBit(h, g, i);
    }
    LowBitsClear(d, 64);
  }

  // bits.OnesCount64, of the lowest n bits.
  function OnesBelow(x: bv64, n: bv64): nat
    requires n <= 64
    decreases n
  {
    if n == 0 then 0 else OnesBelow(x, n - 1) + if Bit(x, n - 1) then 1 else 0
  }

  function HammingDistance(a: bv64, b: bv64): nat {
    OnesBelow(a ^ b, 64)
  }

  lemma {:induction false} NoOnes(x: bv64, n: bv64)
    requires n <= 64
    ensures OnesBelow(x, n) == 0 <==> forall i: bv64 | i < n :: !Bit(x, i)
    decreases n
  {
    if n > 0 {
      NoOnes(x, n - 1);
    }
  }

  lemma BitTriangle(a: bv64, b: bv64, c: bv64, i: bv64)
    requires i < 64
    ensures Bit(a ^ c, i) ==> Bit(a ^ b, i) || Bit(b ^ c, i)
  {
    XorBit(a, b, i);
    XorBit(b, c, i);
    XorBit(a, c, i);
  }

  lemma {:induction false} OnesTriangle(a: bv64, b: bv64, c: bv64, n: bv64)
    requires n <= 64
    ensures OnesBelow(a ^ c, n) <= OnesBelow(a ^ b, n) + OnesBelow(b ^ c, n)
    decreases n
  {
    if n > 0 {
      OnesTriangle(a, b, c, n - 1);
      BitTriangle(a, b, c, n - 1);
    }
  }

  lemma Predecessor(n: bv64)
    requires 0 < n <= 64
    ensures (n - 1) as nat + 1 == n as nat
  {
  }

  lemma {:induction false} OnesBound(x: bv64, n: bv64)
    requires n <= 64
    ensures OnesBelow(x, n) <= n as nat
    decreases n
  {
    if n > 0 {
      OnesBound(x, n - 1);
      Predecessor(n);
    }
  }

  lemma {:induction false} ZeroHasNoOnes(n: bv64)
    requires n <= 64
    ensures OnesBelow(0, n) == 0
    decreases n
  {
    if n > 0 {
      ZeroHasNoOnes(n - 1);
    }
  }

  lemma DistanceZero(a: bv64, b: bv64)
    ensures HammingDistance(a, b) == 0 <==> a == b
  {
    var d := a ^ b;
    if a == b {
      assert d == 0;
      ZeroHasNoOnes(64);
    } else if OnesBelow(d, 64) == 0 {
      NoOnes(d, 64);
      LowBitsClear(d, 64);
      assert false;
    }
  }

  // The Hamming distance is a metric, with values up to 64.
  lemma HammingIsMetric(a: bv64, b: bv64, c: bv64)
    ensures HammingDistance(a, b) == 0 <==> a == b
    ensures HammingDistance(a, b) == HammingDistance(b, a) <= 64
    ensures HammingDistance(a, c) <= HammingDistance(a, b) + HammingDistance(b, c)
  {
    DistanceZero(a, b);
    OnesTriangle(a, b, c, 64);
    OnesBound(a ^ b, 64);
    Swapped(a, b);
  }

  lemma Swapped(a: bv64, b: bv64)
    ensures a ^ b == b ^ a
  {
  }

  // y has the bits of x and bit i.
  ghost predicate OneMoreBit(x: bv64, y: bv64, i: bv64) {
    i < 64 && !Bit(x, i) && Bit(y, i) && forall j: bv64 | j < 64 && j != i :: Bit(y, j) <==> Bit(x, j)
  }

  lemma Below(i: bv64, n: bv64)
    requires 0 < n <= 64
    ensures i < n <==> i < n - 1 || i == n - 1
  {
  }

  // What bit n - 1 adds to either count.
  lemma NextBits(x: bv64, y: bv64, i: bv64, n: bv64)
    requires 0 < n <= 64 && i < 64 && (Bit(y, n - 1) <==> Bit(x, n - 1) || i == n - 1) && (i == n - 1 ==> !Bit(x, i))
    requires OnesBelow(y, n - 1) == OnesBelow(x, n - 1) + if i < n - 1 then 1 else 0
    ensures OnesBelow(y, n) == OnesBelow(x, n) + if i < n then 1 else 0
  {
    Below(i, n);
  }

  lemma OneMoreAt(x: bv64, y: bv64, i: bv64, j: bv64)
    requires OneMoreBit(x, y, i) && j < 64
    ensures (Bit(y, j) <==> Bit(x, j) || i == j) && (i == j ==> !Bit(x, i))
  {
  }

  lemma {:induction false} OnesOfOneMore(x: bv64, y: bv64, i: bv64, n: bv64)
    requires n <= 64 && OneMoreBit(x, y, i)
    ensures OnesBelow(y, n) == OnesBelow(x, n) + if i < n then 1 else 0
    decreases n
  {
    if n > 0 {
      OnesOfOneMore(x, y, i, n - 1);
      OneMoreAt(x, y, i, n - 1);
      NextBits(x, y, i, n);
    }
  }

  // c has the bits of b but for bit i, where b agrees with a.
  ghost predicate OneMoreApart(a: bv64, b: bv64, c: bv64, i: bv64) {
    && i < 64 && (Bit(a, i) <==> Bit(b, i)) && (Bit(c, i) <==> !Bit(b, i))
    && forall j: bv64 | j < 64 && j != i :: Bit(c, j) <==> Bit(b, j)
  }

  ghost predicate IsXor(a: bv64, b: bv64, x: bv64) {
    forall j: bv64 | j < 64 :: Bit(x, j) <==> Bit(a, j) != Bit(b, j)
  }

  lemma XorIs(a: bv64, b: bv64, x: bv64)
    requires x == a ^ b
    ensures IsXor(a, b, x)
  {
    forall j: bv64 | j < 64 ensures Bit(x, j) <==> Bit(a, j) != Bit(b, j) {
      XorBit(a, b, j);
    }
  }

  lemma ApartBits(a: bv64, b: bv64, c: bv64, x: bv64, y: bv64, i: bv64)
    requires OneMoreApart(a, b, c, i) && IsXor(a, b, x) && IsXor(a, c, y)
    ensures OneMoreBit(x, y, i)
  {
  }

  // The distance counts the bits that differ: one more that does adds one.
  lemma OneMoreDiffers(a: bv64, b: bv64, c: bv64, i: bv64)
    requires OneMoreApart(a, b, c, i)
    ensures HammingDistance(a, c) == HammingDistance(a, b) + 1
  {
    XorIs(a, b, a ^ b);
    XorIs(a, c, a ^ c);
    ApartBits(a, b, c, a ^ b, a ^ c, i);
    OnesOfOneMore(a ^ b, a ^ c, i, 64);
  }
}
