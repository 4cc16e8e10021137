/** The free-block bitmap of fs.c: bit i of a block is bit i % 8 of its byte i / 8. */
module Bitmap {
  import opened Blocks

  const BPB: nat := 4096

  function Pow2(p: nat): (r: nat)
    ensures r >= 1
  {
    if p == 0 then 1 else 2 * Pow2(p - 1)
  }

  predicate BitAt(x: nat, p: nat) {
    if p == 0 then x % 2 == 1 else BitAt(x / 2, p - 1)
  }

  lemma BitAtIs(x: nat, p: nat)
    requires p < 8
    ensures BitAt(x, p) <==> x / [1, 2, 4, 8, 16, 32, 64, 128][p] % 2 == 1
  {
    if p > 0 {
      BitAtIs(x / 2, p - 1);
    }
  }

  lemma {:induction false} BitAdd(x: nat, p: nat, q: nat)
    requires !BitAt(x, p)
    ensures BitAt(x + Pow2(p), q) == (q == p || BitAt(x, q))
  {
    if p == 0 {
      assert (x + 1) / 2 == x / 2;
    } else {
      assert (x + Pow2(p)) / 2 == x / 2 + Pow2(p - 1);
      if q > 0 {
        BitAdd(x / 2, p - 1, q - 1);
      }
    }
  }

  lemma {:induction false} BitSub(x: nat, p: nat, q: nat)
    requires BitAt(x, p)
    ensures x >= Pow2(p) && BitAt(x - Pow2(p), q) == (q != p && BitAt(x, q))
  {
    if p == 0 {
      assert (x - 1) / 2 == x / 2;
    } else {
      BitSub(x / 2, p - 1, if q > 0 then q - 1 else 0);
      assert (x - Pow2(p)) / 2 == x / 2 - Pow2(p - 1);
    }
  }

  lemma {:induction false} BitFits(x: nat, p: nat, n: nat)
    requires p < n && x < Pow2(n) && !BitAt(x, p)
    ensures x + Pow2(p) < Pow2(n)
  {
    var h := Pow2(n - 1);
    assert Pow2(n) == 2 * h && x / 2 < h;
    if p == 0 {
      assert x + 1 < 2 * h;
    } else {
      BitFits(x / 2, p - 1, n - 1);
      assert Pow2(p) == 2 * Pow2(p - 1);
    }
  }

  lemma PowOf8()
    ensures Pow2(8) == 256
  {
    assert Pow2(4) == 16;
  }

  predicate BitOf(b: Block, i: nat)
    requires i < BPB
  {
    BitAt(b[i / 8], i % 8)
  }

  /** bp->data[bi/8] |= m, for a bit that is clear. */
  function SetBit(b: Block, i: nat): Block
    requires i < BPB && !BitOf(b, i)
  {
    PowOf8();
    BitFits(b[i / 8], i % 8, 8);
    b[i / 8 := b[i / 8] + Pow2(i % 8)]
  }

  /** bp->data[bi/8] &= ~m, for a bit that is set. */
  function ClearBit(b: Block, i: nat): Block
    requires i < BPB && BitOf(b, i)
  {
    BitSub(b[i / 8], i % 8, 0);
    b[i / 8 := b[i / 8] - Pow2(i % 8)]
  }

  lemma BitOfSetBit(b: Block, i: nat, j: nat)
    requires i < BPB && j < BPB && !BitOf(b, i)
    ensures BitOf(SetBit(b, i), j) == (j == i || BitOf(b, j))
  {
    BitAdd(b[i / 8], i % 8, j % 8);
  }

  lemma BitOfClearBit(b: Block, i: nat, j: nat)
    requires i < BPB && j < BPB && BitOf(b, i)
    ensures BitOf(ClearBit(b, i), j) == (j != i && BitOf(b, j))
  {
    BitSub(b[i / 8], i % 8, j % 8);
  }

  lemma {:induction false} ZeroAt(p: nat)
    ensures !BitAt(0, p)
  {
    if p > 0 {
      ZeroAt(p - 1);
    }
  }

  lemma ZeroBit(i: nat)
    requires i < BPB
    ensures !BitOf(ZeroBlock(), i)
  {
    ZeroAt(i % 8);
  }
}
