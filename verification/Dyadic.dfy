/**
 The binary tree of aligned blocks that the buddy allocator works in.

 Positions are integers relative to an origin (the end of the reserved kernel block).
 The block `Block(k, i)` of class `k` holds the positions `x` with `Up(x, k) == i`, that is,
 the interval of length 2^k that starts at `i * 2^k`. Moving to the parent halves the index,
 so nesting of blocks needs no arithmetic beyond division by two; `Start` and `InBlockIff`
 tie the tree back to plain addresses.
 */
module Dyadic {

  function Pow2(k: nat): (p: nat)
    ensures p > 0
  {
    if k == 0 then 1 else 2 * Pow2(k - 1)
  }

  datatype Block = Block(k: nat, i: int)

  /** The index of the class-`k` block that holds position `x`. */
  function Up(x: int, k: nat): int {
    if k == 0 then x else Up(x, k - 1) / 2
  }

  /** The first position of `Block(k, i)`. */
  function Start(k: nat, i: int): int {
    if k == 0 then i else Start(k - 1, 2 * i)
  }

  predicate In(x: int, b: Block) {
    Up(x, b.k) == b.i
  }

  function Parent(b: Block): Block {
    Block(b.k + 1, b.i / 2)
  }

  /** The other half of the parent block. */
  function Buddy(b: Block): Block {
    Block(b.k, if b.i % 2 == 0 then b.i + 1 else b.i - 1)
  }

  lemma {:induction false} Pow2Monotone(j: nat, k: nat)
    requires j <= k
    ensures Pow2(j) <= Pow2(k)
    ensures j < k ==> Pow2(j) < Pow2(k)
  {
    if j < k {
      Pow2Monotone(j, k - 1);
    }
  }

  lemma {:induction false} Pow2Sum(j: nat, k: nat)
    ensures Pow2(j + k) == Pow2(j) * Pow2(k)
  {
    if j > 0 {
      Pow2Sum(j - 1, k);
    }
  }

  lemma Pow2Values()
    ensures Pow2(10) == 0x400 && Pow2(20) == 0x10_0000 && Pow2(25) == 0x200_0000
    ensures Pow2(26) == 0x400_0000 && Pow2(30) == 0x4000_0000 && Pow2(32) == 0x1_0000_0000
  {
    assert Pow2(3) == 8 && Pow2(4) == 16 && Pow2(5) == 32;
    Pow2Sum(5, 5);
    Pow2Sum(10, 10);
    Pow2Sum(20, 5);
    Pow2Sum(20, 10);
    assert Pow2(26) == 2 * Pow2(25) && Pow2(31) == 2 * Pow2(30) && Pow2(32) == 2 * Pow2(31);
  }

  /** Neighbouring blocks of a class are one block length apart. */
  lemma {:induction false} StartNext(k: nat, i: int)
    ensures Start(k, i + 1) == Start(k, i) + Pow2(k)
  {
    if k > 0 {
      StartNext(k - 1, 2 * i);
      StartNext(k - 1, 2 * i + 1);
      assert 2 * (i + 1) == 2 * i + 1 + 1;
    }
  }

  lemma {:induction false} StartIsMultiple(k: nat, i: int)
    ensures Start(k, i) == i * Pow2(k)
  {
    if k > 0 {
      StartIsMultiple(k - 1, 2 * i);
    }
  }

  lemma {:induction false} StartOrder(k: nat, i: int, j: int)
    requires i < j
    ensures Start(k, i) + Pow2(k) <= Start(k, j)
    decreases j - i
  {
    StartNext(k, i);
    if i + 1 < j {
      StartOrder(k, i + 1, j);
    }
  }

  /** `Block(k, i)` is exactly the interval of length 2^k from its start. */
  lemma {:induction false} InBlockIff(x: int, k: nat, i: int)
    ensures Up(x, k) == i <==> Start(k, i) <= x < Start(k, i) + Pow2(k)
  {
    if k > 0 {
      InBlockIff(x, k - 1, 2 * i);
      InBlockIff(x, k - 1, 2 * i + 1);
      StartNext(k - 1, 2 * i);
    }
  }

  lemma UpStart(k: nat, i: int)
    ensures Up(Start(k, i), k) == i
  {
    InBlockIff(Start(k, i), k, i);
  }

  /** `Up` is the rounded-down quotient, the division that the parity test performs. */
  lemma UpIsQuotient(x: int, k: nat)
    ensures Up(x, k) == x / Pow2(k)
  {
    var i := Up(x, k);
    InBlockIff(x, k, i);
    StartIsMultiple(k, i);
    QuotientOf(x, i, Pow2(k));
  }

  lemma TimesMonotone(a: int, b: int, p: int)
    requires a <= b && p > 0
    ensures a * p <= b * p
  {
  }

  lemma QuotientOf(x: int, i: int, p: int)
    requires p > 0 && i * p <= x < i * p + p
    ensures x / p == i
  {
    var q := x / p;
    assert x == q * p + x % p;
    if q < i {
      TimesMonotone(q + 1, i, p);
    } else if q > i {
      TimesMonotone(i + 1, q, p);
    }
  }

  /** Shifting a position by whole blocks shifts its index by as many. */
  lemma {:induction false} UpShift(x: int, k: nat, j: int)
    ensures Up(x + Start(k, j), k) == Up(x, k) + j
  {
    if k > 0 {
      UpShift(x, k - 1, 2 * j);
    }
  }

  lemma {:induction false} UpUp(x: int, k: nat, d: nat)
    ensures Up(x, k + d) == Up(Up(x, k), d)
  {
    if d > 0 {
      UpUp(x, k, d - 1);
    }
  }

  lemma {:induction false} UpHalf(i: int, d: nat)
    ensures Up(i, d + 1) == Up(i / 2, d)
  {
    if d > 0 {
      UpHalf(i, d - 1);
    }
  }

  /** A block nested in another one has all its positions there. */
  lemma NestedIn(x: int, b: Block, c: Block)
    requires b.k <= c.k && Up(b.i, c.k - b.k) == c.i && In(x, b)
    ensures In(x, c)
  {
    UpUp(x, b.k, c.k - b.k);
  }

  lemma InParent(x: int, b: Block)
    requires In(x, b)
    ensures In(x, Parent(b))
  {
  }

  lemma InHalves(x: int, b: Block)
    requires b.k > 0 && In(x, b)
    ensures In(x, Block(b.k - 1, 2 * b.i)) || In(x, Block(b.k - 1, 2 * b.i + 1))
  {
  }
}
