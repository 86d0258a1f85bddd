/** What aborted writes leave behind, and what a later read makes of it.  A prepare creates an
    absent block empty and a rollback does not remove it; a node answers for an empty block
    with zero bytes, for an absent one with nothing. */
module Leftovers {
  import opened ByteSeq
  import opened StorageKey
  import opened BlockWalk
  import opened FlatFile
  import opened StripedRead
  import opened Directory
  import opened FileSystem

  /** Only empty blocks are stored. */
  predicate Blank(f: Blocks) {
    forall b :: b in f ==> f[b] == []
  }

  predicate AllZero(bytes: Bytes) {
    forall i :: 0 <= i < |bytes| ==> bytes[i] == 0
  }

  lemma {:induction false} BlankReads(bs: nat, f: Blocks, block: nat, size: nat)
    requires bs > 0 && Blank(f) && AllReadable(f, Pieces(bs, block, 0, size))
    ensures AllZero(ReadPieces(f, Pieces(bs, block, 0, size)))
    decreases size
  {
    if size > 0 {
      NextPieces(bs, block, 0, size);
      BlankReads(bs, f, block + 1, size - Min(size, bs));
    }
  }

  lemma ZeroHeader(content: Bytes)
    requires |content| >= RECORD && AllZero(content)
    ensures CountOf(content) == 0 && Judge(content) == Loaded(content) && EntriesIn(content) == []
  {
    assert content[..4][..2] == Put16(0) && content[..4][2..] == Put16(0);
    assert content[..4] == Put32(0);
    PutGet32(0);
  }

  /** A key with nothing but empty blocks is an empty directory to the program as soon as the
      first read returns a header's length. */
  lemma BlankDirectory(bs: nat, f: Blocks)
    requires bs > 0 && Blank(f)
    ensures Settles(bs, f)
    ensures DirOf(bs, f) == if |ReadFrom0(bs, f, FIRST_READ)| >= RECORD then Some([]) else None
  {
    AlignedReadable(bs, f, 0, FIRST_READ);
    BlankReads(bs, f, 0, FIRST_READ);
    var content := ReadFrom0(bs, f, FIRST_READ);
    if |content| >= RECORD {
      ZeroHeader(content);
    }
  }

  // ----- how long a read over missing blocks is

  lemma {:induction false} ReadAtMost(bs: nat, f: Blocks, block: nat, size: nat, n: nat)
    requires bs > 0 && (forall b :: b in f ==> b < n) && AllReadable(f, Pieces(bs, block, 0, size))
    ensures |ReadPieces(f, Pieces(bs, block, 0, size))| <= Max(BlockStart(bs, n) - BlockStart(bs, block), 0)
    decreases size
  {
    if size > 0 {
      NextPieces(bs, block, 0, size);
      ReadAtMost(bs, f, block + 1, size - Min(size, bs), n);
      if block < n {
        BlocksInOrder(bs, block, n);
      }
    }
  }

  lemma {:induction false} ReadMissing(bs: nat, f: Blocks, block: nat, size: nat, n: nat, m: nat)
    requires bs > 0 && (forall b :: b in f ==> b < n) && AllReadable(f, Pieces(bs, block, 0, size))
    requires block <= m < n && m !in f
    ensures |ReadPieces(f, Pieces(bs, block, 0, size))| + bs <= BlockStart(bs, n) - BlockStart(bs, block)
    decreases size
  {
    BlocksInOrder(bs, block, n);
    if size > 0 {
      NextPieces(bs, block, 0, size);
      if block == m {
        ReadAtMost(bs, f, block + 1, size - Min(size, bs), n);
        if block + 1 < n {
          BlocksInOrder(bs, block + 1, n);
        }
      } else {
        ReadMissing(bs, f, block + 1, size - Min(size, bs), n, m);
      }
    }
  }

  /** Only blocks of the first `len` bytes are stored. */
  ghost predicate Inside(bs: nat, f: Blocks, len: nat) {
    forall b :: b in f ==> BlockStart(bs, b) < len
  }

  /** A file of such blocks answers with `len` bytes or more exactly when all of them are there. */
  lemma LongExactlyWhenCovered(bs: nat, f: Blocks, len: nat, size: nat)
    requires bs > 0 && 0 < len <= size && Inside(bs, f, len)
    ensures |ReadFrom0(bs, f, size)| >= len <==> Covered(bs, f, len)
  {
    AlignedReadable(bs, f, 0, size);
    if Covered(bs, f, len) {
      ReadCovered(bs, f, 0, size, len);
    } else {
      var m: nat :| BlockStart(bs, m) < len && m !in f;
      var q := BlockOf(bs, len - 1);
      Located(bs, len - 1);
      forall b: nat | BlockStart(bs, b) < len ensures b < q + 1 {
        if b > q {
          BlocksInOrder(bs, q, b);
        }
      }
      ReadMissing(bs, f, 0, size, q + 1, m);
    }
  }

  // ----- a directory that was never made

  lemma {:induction false} CutStaysInside(bs: nat, block: nat, data: Bytes, b: nat)
    requires bs > 0 && FindRequest(Cut(bs, block, 0, data), b).Some?
    ensures block <= b && BlockStart(bs, b) < BlockStart(bs, block) + |data|
    decreases |data|
  {
    var len := Min(|data|, bs);
    FirstOrLater(Request(block, 0, data[..len]), Cut(bs, block + 1, 0, data[len..]), b);
    if b != block {
      CutStaysInside(bs, block + 1, data[len..], b);
    }
  }

  lemma LaterBlock(bs: nat, b: nat)
    ensures b > 0 ==> BlockStart(bs, b) >= bs
  {
    if b > 0 {
      BlocksInOrder(bs, 0, b);
    }
  }

  /** A key with nothing but empty blocks of a header loads as an empty directory if and only
      if all of them are there. */
  lemma BlankHeaderLoadsExactlyWhen(bs: nat, f: Blocks)
    requires bs > 0 && Blank(f) && Inside(bs, f, RECORD)
    ensures Settles(bs, f) && (Covered(bs, f, RECORD) ==> DirOf(bs, f) == Some([]))
    ensures DirOf(bs, f).Some? <==> Covered(bs, f, RECORD)
    ensures bs >= RECORD ==> (DirOf(bs, f).Some? <==> 0 in f)
  {
    BlankDirectory(bs, f);
    LongExactlyWhenCovered(bs, f, RECORD, FIRST_READ);
    if bs >= RECORD {
      forall b: nat | BlockStart(bs, b) < RECORD ensures b == 0 {
        LaterBlock(bs, b);
      }
      assert BlockStart(bs, 0) == 0;
    }
  }

  /** With 4096-byte blocks: one empty block makes a directory of a key that has none. */
  lemma PhantomDirectory()
    ensures DirOf(4096, map[]) == None && DirOf(4096, map[0 := []]) == Some([])
  {
    var f: Blocks := map[0 := []];
    EmptyFile(4096, FIRST_READ);
    BlankDirectory(4096, f);
    assert BlockStart(4096, 0) == 0;
    assert Covered(4096, f, RECORD) by {
      forall b: nat | BlockStart(4096, b) < RECORD ensures b in f {
        LaterBlock(4096, b);
      }
    }
    LongExactlyWhenCovered(4096, f, RECORD, FIRST_READ);
  }

  // ----- copies and recorded sizes

  /** A read of `n` bytes from the start is complete exactly when all their blocks are stored,
      and then it is the first `n` bytes of the file. */
  lemma CopyIsExactlyWhen(bs: nat, f: Blocks, n: nat)
    requires bs > 0
    ensures |ReadFrom0(bs, f, n)| == n <==> Covered(bs, f, n)
    ensures Covered(bs, f, n) ==> IsSlice(bs, f, 0, ReadFrom0(bs, f, n))
  {
    AlignedReadable(bs, f, 0, n);
    ReadBound(bs, f, n);
    PresentIffCovered(bs, f, 0, n);
    assert BlockStart(bs, 0) == 0;
    assert AllPresent(f, Pieces(bs, 0, 0, n)) <==> Covered(bs, f, n) by {
      if Covered(bs, f, n) {
        assert forall b: nat :: 0 <= b && BlockStart(bs, b) < BlockStart(bs, 0) + n ==> b in f;
      }
    }
    if Covered(bs, f, n) {
      ReadContent(bs, f, 0, 0, n);
    }
  }

  /** Every block of the first `n` bytes starts within the first `len`. */
  ghost predicate StartsWithin(bs: nat, n: nat, len: nat) {
    forall b: nat :: BlockStart(bs, b) < n ==> BlockStart(bs, b) < len
  }

  /** The blocks of the first `n` bytes of a new file are stored after a write exactly when
      each of them starts before the end of the data, which goes to the start of the file. */
  lemma SizeIsStoredExactlyWhen(bs: nat, u: Uuid, data: Bytes, n: nat)
    requires bs > 0 && |data| < U32
    ensures Covered(bs, WriteInput(bs, map[], Input(u, 0, data)), n) <==> StartsWithin(bs, n, |data|)
  {
    InputAtStart(bs, u, data);
    var rs := Cut(bs, 0, 0, data);
    var g := WriteBlocks(map[], rs);
    forall b: nat ensures b in g <==> BlockStart(bs, b) < |data| {
      WriteBlocksAt(map[], rs, b);
      assert BlockStart(bs, 0) == 0;
      if BlockStart(bs, b) < |data| {
        CutReaches(bs, 0, data, b);
      }
      if b in g {
        CutStaysInside(bs, 0, data, b);
      }
    }
  }
}
