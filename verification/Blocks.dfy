/** Disk blocks: 1024 bytes, which the file system also reads as 256 little-endian 32-bit words. */
module Blocks {
  const BSIZE: nat := 1024
  const WORDS: nat := 256

  type Byte = b: int | 0 <= b < 0x100
  type Word = w: int | 0 <= w < 0x1_0000_0000
  datatype RawBlock = RawBlock(bytes: seq<Byte>)
  type Block = b: RawBlock | |b.bytes| == BSIZE witness RawBlock(seq(BSIZE, i => 0))

  function ZeroBlock(): (z: Block)
    ensures forall i :: 0 <= i < BSIZE ==> z.bytes[i] == 0
  {
    RawBlock(seq(BSIZE, i => 0))
  }

  function ByteOf(w: Word, k: nat): Byte
    requires k < 4
  {
    match k
    case 0 => w % 0x100
    case 1 => w / 0x100 % 0x100
    case 2 => w / 0x100 / 0x100 % 0x100
    case 3 => w / 0x100 / 0x100 / 0x100
  }

  lemma {:induction false} WordOfBytes(w: Word)
    ensures ByteOf(w, 0) as int + 0x100 * ByteOf(w, 1) as int + 0x1_0000 * ByteOf(w, 2) as int
            + 0x100_0000 * ByteOf(w, 3) as int == w
  {
  }

  function WordAt(b: Block, i: nat): Word
    requires i < WORDS
  {
    b.bytes[4 * i] as int + 0x100 * b.bytes[4 * i + 1] as int + 0x1_0000 * b.bytes[4 * i + 2] as int
    + 0x100_0000 * b.bytes[4 * i + 3] as int
  }

  function PutWord(b: Block, i: nat, w: Word): Block
    requires i < WORDS
  {
    RawBlock(b.bytes[4 * i := ByteOf(w, 0)][4 * i + 1 := ByteOf(w, 1)]
                    [4 * i + 2 := ByteOf(w, 2)][4 * i + 3 := ByteOf(w, 3)])
  }

  lemma {:induction false} PutWordGet(b: Block, i: nat, w: Word, j: nat)
    requires i < WORDS && j < WORDS
    ensures WordAt(PutWord(b, i, w), j) == if j == i then w else WordAt(b, j)
  {
    WordOfBytes(w);
  }

  /** Writes the words `ws` into `b` from word index `at` on and leaves the rest of the block alone. */
  function PutWords(b: Block, at: nat, ws: seq<Word>): Block
    requires at + |ws| <= WORDS
    decreases |ws|
  {
    if ws == [] then b else PutWords(PutWord(b, at, ws[0]), at + 1, ws[1..])
  }

  lemma {:induction false} PutWordsGet(b: Block, at: nat, ws: seq<Word>, j: nat)
    requires at + |ws| <= WORDS && j < WORDS
    ensures WordAt(PutWords(b, at, ws), j) == if at <= j < at + |ws| then ws[j - at] else WordAt(b, j)
    decreases |ws|
  {
    if ws != [] {
      PutWordsGet(PutWord(b, at, ws[0]), at + 1, ws[1..], j);
      PutWordGet(b, at, ws[0], j);
    }
  }

  lemma {:induction false} ZeroWord(i: nat)
    requires i < WORDS
    ensures WordAt(ZeroBlock(), i) == 0
  {
  }

  /** `ws` are the first words of `b` from word index `at` on. */
  ghost predicate WordsFrom(b: Block, at: nat, ws: seq<Word>) {
    at + |ws| <= WORDS && forall i :: 0 <= i < |ws| ==> ws[i] == WordAt(b, at + i)
  }

  lemma {:induction false} WordsExist(b: Block, at: nat, n: nat) returns (ws: seq<Word>)
    requires at + n <= WORDS
    ensures |ws| == n && WordsFrom(b, at, ws)
  {
    if n == 0 {
      ws := [];
    } else {
      ws := WordsExist(b, at, n - 1);
      ws := ws + [WordAt(b, at + n - 1)];
    }
  }

  lemma {:induction false} SomeWords(b: Block, at: nat, n: nat)
    requires at + n <= WORDS
    ensures exists ws :: |ws| == n && WordsFrom(b, at, ws)
  {
    var ws := WordsExist(b, at, n);
  }

  /** The `n` words of `b` from word index `at` on. */
  ghost function WordsAt(b: Block, at: nat, n: nat): (ws: seq<Word>)
    requires at + n <= WORDS
    ensures |ws| == n && WordsFrom(b, at, ws)
  {
    SomeWords(b, at, n);
    var ws :| |ws| == n && WordsFrom(b, at, ws); ws
  }
}
