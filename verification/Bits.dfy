/** Bitwise operators: Ruby's on unbounded two's-complement integers, Go's on 64-bit words, and powers of two as masks
    for the remainder. */
module Bits {
  import opened Int64

  datatype BitOp = And | Or | Xor

  function Pow2(n: nat): (p: int)
    ensures p >= 1
  {
    if n == 0 then 1 else 2 * Pow2(n - 1)
  }

  lemma {:induction false} Pow2Add(m: nat, n: nat)
    ensures Pow2(m + n) == Pow2(m) * Pow2(n)
  {
    if m == 0 {
    } else {
      Pow2Add(m - 1, n);
      assert 2 * Pow2(m - 1) * Pow2(n) == 2 * (Pow2(m - 1) * Pow2(n));
    }
  }

  /** The word size is a parameter here so that the solver does not unfold the power 64 times. */
  lemma {:induction false} Pow2Is64(n: nat)
    requires n == 64
    ensures Pow2(n) == MODULUS && Pow2(n - 1) == -MIN
  {
    var q := n / 4;
    assert Pow2(8) == 0x100;
    Pow2Add(8, q - 8);
    assert Pow2(q) == 0x1_0000;
    Pow2Add(q, q);
    Pow2Add(2 * q, 2 * q);
  }

  function Bit(op: BitOp, a: int, b: int): (r: int)
    ensures r == 0 || r == 1
  {
    match op
    case And => if a == 1 && b == 1 then 1 else 0
    case Or => if a == 1 || b == 1 then 1 else 0
    case Xor => if a != b then 1 else 0
  }

  function Magnitude(x: int): nat {
    if x < 0 then -x - 1 else x
  }

  /** Ruby's operator: negative integers have infinitely many leading one bits. */
  function Bitwise(op: BitOp, x: int, y: int): int
    decreases Magnitude(x) + Magnitude(y)
  {
    if Magnitude(x) == 0 && Magnitude(y) == 0 then -Bit(op, -x, -y)
    else 2 * Bitwise(op, x / 2, y / 2) + Bit(op, x % 2, y % 2)
  }

  lemma {:induction false} BitwiseStep(op: BitOp, x: int, y: int)
    ensures Bitwise(op, x, y) == 2 * Bitwise(op, x / 2, y / 2) + Bit(op, x % 2, y % 2)
  {
  }

  /** The operator on n-bit words, bit by bit. */
  function WordOp(op: BitOp, n: nat, x: int, y: int): int {
    if n == 0 then 0 else 2 * WordOp(op, n - 1, x / 2, y / 2) + Bit(op, x % 2, y % 2)
  }

  lemma {:induction false} HalveMod(x: int, p: int)
    requires p >= 1
    ensures (x % (2 * p)) / 2 == (x / 2) % p && (x % (2 * p)) % 2 == x % 2
  {
    var q, r := x / (2 * p), x % (2 * p);
    assert x == q * (2 * p) + r;
    assert q * (2 * p) == 2 * (q * p);
    assert x / 2 == q * p + r / 2;
    Unique(x / 2, p, q, r / 2, (x / 2) / p, (x / 2) % p);
  }

  lemma {:induction false} DoubleMod(b: int, bit: int, p: int)
    requires p >= 1 && 0 <= bit <= 1
    ensures (2 * b + bit) % (2 * p) == 2 * (b % p) + bit
  {
    HalveMod(2 * b + bit, p);
    assert (2 * b + bit) / 2 == b;
  }

  lemma {:induction false} WordIsBitwise(op: BitOp, n: nat, x: int, y: int)
    ensures WordOp(op, n, x % Pow2(n), y % Pow2(n)) == Bitwise(op, x, y) % Pow2(n)
  {
    if n == 0 {
    } else {
      HalveMod(x, Pow2(n - 1));
      HalveMod(y, Pow2(n - 1));
      WordIsBitwise(op, n - 1, x / 2, y / 2);
      BitwiseStep(op, x, y);
      DoubleMod(Bitwise(op, x / 2, y / 2), Bit(op, x % 2, y % 2), Pow2(n - 1));
    }
  }

  lemma {:induction false} BitwiseRange(op: BitOp, n: nat, x: int, y: int)
    requires -Pow2(n) <= x < Pow2(n) && -Pow2(n) <= y < Pow2(n)
    ensures -Pow2(n) <= Bitwise(op, x, y) < Pow2(n)
  {
    if n == 0 {
    } else {
      BitwiseRange(op, n - 1, x / 2, y / 2);
      BitwiseStep(op, x, y);
    }
  }

  const WORD: nat := 64

  /** Go's operator on int64: the 64-bit words combined bit by bit and read back as a signed integer. */
  function Word64(op: BitOp, x: int64, y: int64): int64 {
    Wrap(WordOp(op, WORD, x % MODULUS, y % MODULUS))
  }

  /** Go's 64-bit operators agree with Ruby's unbounded ones on every pair of machine integers. */
  lemma {:induction false} Word64IsBitwise(op: BitOp, x: int64, y: int64)
    ensures Word64(op, x, y) == Bitwise(op, x, y)
  {
    WordIsSigned(op, WORD, x, y);
  }

  lemma {:induction false} WordIsSigned(op: BitOp, n: nat, x: int64, y: int64)
    requires n == 64
    ensures Wrap(WordOp(op, n, x % MODULUS, y % MODULUS)) == Bitwise(op, x, y)
  {
    Pow2Is64(n);
    WordIsBitwise(op, n, x, y);
    BitwiseRange(op, n - 1, x, y);
    var b := Bitwise(op, x, y);
    SameBy(b % MODULUS, b, -(b / MODULUS));
    SameWrap(b % MODULUS, b);
  }

  /** p & (p-1) == 0 recognizes powers of two, and masking with p-1 is then the remainder modulo p. */
  lemma {:induction false} MaskIsMod(p: int, i: int)
    requires p >= 1 && Bitwise(And, p, p - 1) == 0
    ensures Bitwise(And, i, p - 1) == i % p
  {
    if p == 1 {
      AndZero(i);
    } else if p % 2 == 1 {
      assert (p - 1) / 2 == p / 2;
      BitwiseStep(And, p, p - 1);
      AndSelf(p / 2);
    } else {
      var q := p / 2;
      assert (p - 1) / 2 == q - 1 && (p - 1) % 2 == 1;
      BitwiseStep(And, p, p - 1);
      MaskIsMod(q, i / 2);
      BitwiseStep(And, i, p - 1);
      HalveMod(i, q);
    }
  }

  /** Exactly the powers of two are recognized. */
  lemma {:induction false} MaskedIffPower(p: int)
    requires p >= 1
    ensures Bitwise(And, p, p - 1) == 0 <==> IsPower(p)
    decreases p
  {
    if p == 1 {
      AndZero(1);
      assert p == Pow2(0);
    } else if p % 2 == 1 {
      assert (p - 1) / 2 == p / 2;
      BitwiseStep(And, p, p - 1);
      AndSelf(p / 2);
      forall k: nat ensures p != Pow2(k) { OddPower(k); }
    } else {
      var q := p / 2;
      assert (p - 1) / 2 == q - 1 && (p - 1) % 2 == 1;
      hide Bitwise, IsPower;
      BitwiseStep(And, p, p - 1);
      MaskedIffPower(q);
      DoublePower(q);
    }
  }

  ghost predicate IsPower(p: int) { exists k: nat :: p == Pow2(k) }

  lemma {:induction false} DoublePower(q: int)
    requires q >= 1
    ensures IsPower(2 * q) <==> IsPower(q)
  {
    if k: nat :| q == Pow2(k) { assert 2 * q == Pow2(k + 1); }
    if k: nat :| 2 * q == Pow2(k) { assert k > 0 && q == Pow2(k - 1); }
  }

  lemma {:induction false} OddPower(k: nat)
    ensures Pow2(k) == 1 || Pow2(k) % 2 == 0
  {
  }

  lemma {:induction false} AndZero(i: int)
    ensures Bitwise(And, i, 0) == 0
    decreases Magnitude(i)
  {
    if Magnitude(i) != 0 { AndZero(i / 2); }
  }

  lemma {:induction false} AndSelf(i: int)
    ensures Bitwise(And, i, i) == i
    decreases Magnitude(i)
  {
    if Magnitude(i) != 0 { AndSelf(i / 2); }
  }

  /** The bits of two numbers add up to those they share and those either has; the difference of the two is those just one has. */
  lemma {:induction false} BitsAddUp(x: int, y: int)
    ensures Bitwise(Or, x, y) + Bitwise(And, x, y) == x + y
    ensures Bitwise(Xor, x, y) == Bitwise(Or, x, y) - Bitwise(And, x, y)
    ensures Bitwise(And, x, y) == Bitwise(And, y, x)
    decreases Magnitude(x) + Magnitude(y)
  {
    if Magnitude(x) != 0 || Magnitude(y) != 0 {
      hide Bitwise;
      BitsAddUp(x / 2, y / 2);
      BitwiseStep(Or, x, y);
      BitwiseStep(And, x, y);
      BitwiseStep(And, y, x);
      BitwiseStep(Xor, x, y);
    }
  }
}
