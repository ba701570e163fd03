/**
 Disk blocks of BSIZE bytes, and the little-endian 32-bit words the kernel reads
 and writes in them by casting a buffer to an array of unsigned ints.
 */
module Blocks {

  const BSIZE: nat := 1024
  const WORDS: nat := 256

  type Byte = x: int | 0 <= x < 256
  type Word = x: int | 0 <= x < 0x1_0000_0000

  datatype Bytes = Bytes(at: seq<Byte>)
  type Block = b: Bytes | |b.at| == BSIZE witness Zeros()

  function Zeros(): (b: Bytes)
    ensures |b.at| == BSIZE && forall i :: 0 <= i < BSIZE ==> b.at[i] == 0
  {
    Bytes(seq(BSIZE, i => 0))
  }

  const ZERO: Block := Zeros()

  function WordAt(b: Block, i: int): Word
    requires 0 <= i < WORDS
  {
    Value(b.at[4 * i..4 * i + 4])
  }

  function PutWord(b: Block, i: int, w: Word): (r: Block)
    requires 0 <= i < WORDS
    ensures WordAt(r, i) == w
    ensures forall j :: 0 <= j < WORDS && j != i ==> WordAt(r, j) == WordAt(b, j)
  {
    var r: Block := Bytes(b.at[..4 * i] + Little(w) + b.at[4 * i + 4..]);
    assert r.at[4 * i..4 * i + 4] == Little(w);
    assert forall j :: 0 <= j < WORDS && j != i ==> r.at[4 * j..4 * j + 4] == b.at[4 * j..4 * j + 4];
    r
  }

  /** A word as four bytes, the least significant first. */
  function Little(w: Word): (s: seq<Byte>)
    ensures |s| == 4 && Value(s) == w
  {
    var w1: int := w / 0x100;
    var w2: int := w1 / 0x100;
    [w % 0x100, w1 % 0x100, w2 % 0x100, w2 / 0x100]
  }

  function Value(s: seq<Byte>): Word
    requires |s| == 4
  {
    var b0: int, b1: int, b2: int, b3: int := s[0], s[1], s[2], s[3];
    b0 + 0x100 * b1 + 0x1_0000 * b2 + 0x100_0000 * b3
  }
}
