/**
 Disk blocks, and the layout of the log header inside one block
 (kernel/fs.h, kernel/param.h, kernel/log.c).
 */
module Storage {

  const MAXOPBLOCKS: nat := 10
  const LOGSIZE: nat := MAXOPBLOCKS * 3
  const NBUF: nat := MAXOPBLOCKS * 3

  /** The bytes of a block, seen as 32-bit words. */
  datatype Block = Block(words: seq<int>)

  type Disk = seq<Block>

  /** struct logheader: word 0 is n, the words after it are block[]. */
  predicate WellFormedHeader(b: Block) {
    && 0 < |b.words|
    && 0 <= b.words[0] <= LOGSIZE
    && 1 + b.words[0] <= |b.words|
    && forall i :: 1 <= i <= b.words[0] ==> b.words[i] >= 0
  }

  /** The block numbers a header lists. */
  function HeaderList(b: Block): (list: seq<nat>)
    requires WellFormedHeader(b)
    ensures |list| == b.words[0]
    ensures forall i :: 0 <= i < |list| ==> list[i] == b.words[1 + i]
  {
    b.words[1..1 + b.words[0]]
  }

  /** The block write_head leaves: words past the n-th entry keep their old value. */
  function WithHeader(b: Block, list: seq<nat>): (h: Block)
    requires |list| <= LOGSIZE
    ensures WellFormedHeader(h) && HeaderList(h) == list
    ensures forall w :: 1 + |list| <= w < |b.words| ==> w < |h.words| && h.words[w] == b.words[w]
  {
    var rest := if 1 + |list| <= |b.words| then b.words[1 + |list|..] else [];
    Block([|list|] + list + rest)
  }
}
