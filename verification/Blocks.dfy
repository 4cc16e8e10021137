/** A disk block is 512 bytes (BSIZE, fs.h). The kernel also reads blocks as arrays of
    little-endian 32-bit words: the log header and the indirect blocks. */
module Blocks {
  import opened Common

  const BSIZE: nat := 512
  const WORDS: nat := 128

  type Uint32 = x: int | 0 <= x < 0x1_0000_0000
  type Block = b: seq<Byte> | |b| == 512 witness seq(512, _ => 0)

  function ZeroBlock(): Block {
    seq(512, _ => 0)
  }

  /** The little-endian number of four bytes. */
  function Le32(b0: Byte, b1: Byte, b2: Byte, b3: Byte): Uint32 {
    var x0: int, x1: int, x2: int, x3: int := b0, b1, b2, b3;
    x0 + 0x100 * x1 + 0x1_0000 * x2 + 0x100_0000 * x3
  }

  function ByteOf(w: Uint32, i: nat): Byte
    requires i < 4
  {
    if i == 0 then w % 0x100
    else if i == 1 then w / 0x100 % 0x100
    else if i == 2 then w / 0x1_0000 % 0x100
    else w / 0x100_0000
  }

  lemma Le32OfBytes(w: Uint32)
    ensures Le32(ByteOf(w, 0), ByteOf(w, 1), ByteOf(w, 2), ByteOf(w, 3)) == w
  {
    assert w / 0x100 == 0x100 * (w / 0x1_0000) + w / 0x100 % 0x100;
    assert w / 0x1_0000 == 0x100 * (w / 0x100_0000) + w / 0x1_0000 % 0x100;
  }

  function Word(b: Block, k: nat): Uint32
    requires k < WORDS
  {
    Le32(b[4 * k], b[4 * k + 1], b[4 * k + 2], b[4 * k + 3])
  }

  function SetWord(b: Block, k: nat, w: Uint32): Block
    requires k < WORDS
  {
    b[4 * k := ByteOf(w, 0)][4 * k + 1 := ByteOf(w, 1)][4 * k + 2 := ByteOf(w, 2)][4 * k + 3 := ByteOf(w, 3)]
  }

  lemma WordSetWord(b: Block, k: nat, w: Uint32, j: nat)
    requires k < WORDS && j < WORDS
    ensures Word(SetWord(b, k, w), j) == if j == k then w else Word(b, j)
  {
    Le32OfBytes(w);
  }

  /** A word's bytes lie in the block from the lowest on, and no other byte changes. */
  lemma WordBytes(b: Block, k: nat, w: Uint32)
    requires k < WORDS
    ensures var c := SetWord(b, k, w);
            && c[4 * k] == w % 0x100 && c[4 * k + 1] == w / 0x100 % 0x100
            && c[4 * k + 2] == w / 0x1_0000 % 0x100 && c[4 * k + 3] == w / 0x100_0000 % 0x100
            && forall x :: 0 <= x < 512 && x / 4 != k ==> c[x] == b[x]
    ensures var x0: int, x1: int, x2: int, x3: int := b[4 * k], b[4 * k + 1], b[4 * k + 2], b[4 * k + 3];
            Word(b, k) == x0 + 0x100 * x1 + 0x1_0000 * x2 + 0x100_0000 * x3
  {
  }

  lemma WordOfZero(k: nat)
    requires k < WORDS
    ensures Word(ZeroBlock(), k) == 0
  {
  }

  /** The block after storing the words ws from word k on. */
  function PutWords(b: Block, k: nat, ws: seq<Uint32>): Block
    requires k + |ws| <= WORDS
    decreases |ws|
  {
    if ws == [] then b else PutWords(SetWord(b, k, ws[0]), k + 1, ws[1..])
  }

  lemma {:induction false} WordPutWords(b: Block, k: nat, ws: seq<Uint32>, j: nat)
    requires k + |ws| <= WORDS && j < WORDS
    ensures Word(PutWords(b, k, ws), j) == if k <= j < k + |ws| then ws[j - k] else Word(b, j)
    decreases |ws|
  {
    if ws != [] {
      WordSetWord(b, k, ws[0], j);
      WordPutWords(SetWord(b, k, ws[0]), k + 1, ws[1..], j);
    }
  }

  lemma {:induction false} PutWordsSnoc(b: Block, k: nat, ws: seq<Uint32>, w: Uint32)
    requires k + |ws| < WORDS
    ensures PutWords(b, k, ws + [w]) == SetWord(PutWords(b, k, ws), k + |ws|, w)
    decreases |ws|
  {
    if ws == [] {
      assert [w][1..] == [];
    } else {
      assert (ws + [w])[1..] == ws[1..] + [w];
      PutWordsSnoc(SetWord(b, k, ws[0]), k + 1, ws[1..], w);
    }
  }
}
