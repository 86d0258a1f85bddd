/** How a byte range is cut into blocks.  Prepare, commit, read and the size computation
    each walk the range with their own loop; all of them are proved against one
    specification, `Pieces`. */
module BlockWalk {
  import opened ByteSeq

  /** `len` bytes at `offset` inside block `block`. */
  datatype Piece = Piece(block: nat, offset: nat, len: nat)

  /** The pieces of `size` bytes that start at `offset` of block `block`. */
  function Pieces(bs: nat, block: nat, offset: nat, size: nat): (ps: seq<Piece>)
    requires offset < bs
    decreases size
  {
    if size == 0 then []
    else
      var len := Min(size, bs - offset);
      [Piece(block, offset, len)] + Pieces(bs, block + 1, 0, size - len)
  }

  /** The block of a byte position and its offset there: quotient and remainder. */
  function BlockOf(bs: nat, pos: nat): nat
    requires bs > 0
  {
    if pos < bs then 0 else 1 + BlockOf(bs, pos - bs)
  }

  function OffsetOf(bs: nat, pos: nat): (offset: nat)
    requires bs > 0
    ensures offset < bs
  {
    if pos < bs then pos else OffsetOf(bs, pos - bs)
  }

  /** The pieces of a request at byte position `pos`. */
  function Walk(bs: nat, pos: nat, size: nat): seq<Piece>
    requires bs > 0
  {
    Pieces(bs, BlockOf(bs, pos), OffsetOf(bs, pos), size)
  }

  function TotalLength(ps: seq<Piece>): nat {
    if ps == [] then 0 else ps[0].len + TotalLength(ps[1..])
  }

  /** The pieces use consecutive blocks, one piece each; every piece is nonempty and stays
      inside its block; each one ends where the next one begins; and together they are
      as long as the range. */
  lemma {:induction false} PiecesPartition(bs: nat, block: nat, offset: nat, size: nat)
    requires offset < bs
    ensures var ps := Pieces(bs, block, offset, size);
            && (size > 0 ==> |ps| > 0 && ps[0].offset == offset)
            && (forall i :: 0 <= i < |ps| ==> ps[i].block == block + i)
            && (forall i :: 0 <= i < |ps| ==> 0 < ps[i].len && ps[i].offset + ps[i].len <= bs)
            && (forall i :: 0 < i < |ps| ==> ps[i].offset == 0)
            && (forall i :: 0 <= i < |ps| - 1 ==> ps[i].offset + ps[i].len == bs)
            && TotalLength(ps) == size
    decreases size
  {
    if size > 0 {
      var len := Min(size, bs - offset);
      PiecesPartition(bs, block + 1, 0, size - len);
      assert Pieces(bs, block, offset, size)[1..] == Pieces(bs, block + 1, 0, size - len);
    }
  }

  /** The position of the first byte of a block: the sizes of the blocks before it. */
  function BlockStart(bs: nat, block: nat): nat {
    if block == 0 then 0 else BlockStart(bs, block - 1) + bs
  }

  lemma {:induction false} BlockStartIsProduct(bs: nat, block: nat)
    ensures BlockStart(bs, block) == block * bs
  {
    if block > 0 {
      BlockStartIsProduct(bs, block - 1);
      assert (block - 1) * bs + bs == block * bs;
    }
  }

  function LastOf(bs: nat, block: nat, offset: nat, size: nat): Piece
    requires offset < bs && size > 0
    decreases size
  {
    var len := Min(size, bs - offset);
    if len == size then Piece(block, offset, len) else LastOf(bs, block + 1, 0, size - len)
  }

  /** The last piece ends at the end of the range; it is the only one, and so keeps the
      offset of the range, exactly when the range ends in its first block. */
  lemma {:induction false} LastPiece(bs: nat, block: nat, offset: nat, size: nat)
    requires offset < bs && size > 0
    ensures var last := LastOf(bs, block, offset, size);
            var ps := Pieces(bs, block, offset, size);
            && |ps| > 0 && ps[|ps| - 1] == last
            && BlockStart(bs, last.block) + last.offset + last.len == BlockStart(bs, block) + offset + size
            && last.offset == if offset + size <= bs then offset else 0
    decreases size
  {
    var len := Min(size, bs - offset);
    if len < size {
      LastPiece(bs, block + 1, 0, size - len);
    } else {
      assert Pieces(bs, block + 1, 0, 0) == [];
    }
  }

  // ----- division

  lemma MulOrder(a: nat, b: nat, bs: nat)
    ensures a < b ==> a * bs + bs <= b * bs
  {
    if a < b {
      var d := b - a - 1;
      assert (a + 1 + d) * bs == (a + 1) * bs + d * bs;
    }
  }

  lemma QuotientIsUnique(bs: nat, q: nat, r: nat, x: nat)
    requires r < bs && x == q * bs + r
    ensures x / bs == q && x % bs == r
  {
    var q', r' := x / bs, x % bs;
    assert x == q' * bs + r';
    MulOrder(q', q, bs);
    MulOrder(q, q', bs);
  }

  /** A position is its offset past the start of its block. */
  lemma {:induction false} Located(bs: nat, pos: nat)
    requires bs > 0
    ensures pos == BlockStart(bs, BlockOf(bs, pos)) + OffsetOf(bs, pos)
    decreases pos
  {
    if pos >= bs {
      Located(bs, pos - bs);
    }
  }

  /** And no other block and offset make the same position. */
  lemma {:induction false} LocationUnique(bs: nat, block: nat, offset: nat)
    requires offset < bs
    ensures BlockOf(bs, BlockStart(bs, block) + offset) == block
    ensures OffsetOf(bs, BlockStart(bs, block) + offset) == offset
    decreases block
  {
    if block > 0 {
      LocationUnique(bs, block - 1, offset);
    }
  }

  /** The divisions of the program compute block and offset. */
  lemma DivisionLocates(bs: nat, pos: nat)
    requires bs > 0
    ensures pos / bs == BlockOf(bs, pos) && pos % bs == OffsetOf(bs, pos)
  {
    Located(bs, pos);
    BlockStartIsProduct(bs, BlockOf(bs, pos));
    QuotientIsUnique(bs, BlockOf(bs, pos), OffsetOf(bs, pos), pos);
  }

  /** The two divisions that every turn of a walk makes. */
  method Locate(bs: nat, pos: nat, ghost b: nat, ghost o: nat) returns (block: nat, offset: nat)
    requires o < bs && pos == BlockStart(bs, b) + o
    ensures block == b && offset == o
  {
    LocationUnique(bs, b, o);
    DivisionLocates(bs, pos);
    block, offset := pos / bs, pos % bs;
  }

  // ----- field widths

  /** `realpos + size` in unsigned 32-bit arithmetic. */
  function EndPos(pos: nat, size: nat): nat {
    (pos + size) % U32
  }

  /** The number of bytes that a walk from `pos` up to the 32-bit end visits. */
  function Visited(pos: nat, size: nat): nat {
    if pos < EndPos(pos, size) then EndPos(pos, size) - pos else 0
  }

  /** With 32-bit positions a walk visits the whole range exactly when the end fits in
      32 bits; otherwise the end wraps below the start and it visits nothing. */
  lemma WalkVisitsRange(pos: nat, size: nat)
    requires pos < U32 && size < U32
    ensures Visited(pos, size) == size <==> pos + size < U32 || size == 0
    ensures Visited(pos, size) == if pos + size < U32 then size else 0
  {
    if pos + size >= U32 {
      assert EndPos(pos, size) == pos + size - U32;
    }
  }

  lemma OffsetInBlock(bs: nat, pos: nat, size: nat, i: nat)
    requires bs > 0 && i < |Walk(bs, pos, size)|
    ensures Walk(bs, pos, size)[i].offset < bs
  {
    PiecesPartition(bs, BlockOf(bs, pos), OffsetOf(bs, pos), size);
  }

  predicate PositionFits(bs: nat, pos: nat, size: nat)
    requires bs > 0
  {
    forall i :: 0 <= i < |Walk(bs, pos, size)| ==>
      Walk(bs, pos, size)[i].offset % U16 == Walk(bs, pos, size)[i].offset
  }

  /** The in-block position travels in a 16-bit field.  It arrives intact for every range
      exactly when blocks are at most 65536 bytes long. */
  lemma PositionFieldFits(bs: nat)
    requires bs > 0
    ensures bs <= U16 <==> forall pos: nat, size: nat :: PositionFits(bs, pos, size)
  {
    if bs <= U16 {
      forall pos: nat, size: nat
        ensures PositionFits(bs, pos, size)
      {
        forall i | 0 <= i < |Walk(bs, pos, size)|
          ensures Walk(bs, pos, size)[i].offset % U16 == Walk(bs, pos, size)[i].offset
        {
          OffsetInBlock(bs, pos, size, i);
        }
      }
    } else {
      assert OffsetOf(bs, U16) == U16;
      assert Walk(bs, U16, 1)[0].offset == U16;
      assert !PositionFits(bs, U16, 1);
    }
  }

  // ----- the loops

  /** A request of the coordinator to the node that stores a block. */
  datatype Request = Request(block: nat, position: nat, data: Bytes)

  /** A buffer cut along the pieces. */
  function Cut(bs: nat, block: nat, offset: nat, data: Bytes): (rs: seq<Request>)
    requires offset < bs
    decreases |data|
  {
    if data == [] then []
    else
      var len := Min(|data|, bs - offset);
      [Request(block, offset, data[..len])] + Cut(bs, block + 1, 0, data[len..])
  }

  function Joined(rs: seq<Request>): Bytes {
    if rs == [] then [] else rs[0].data + Joined(rs[1..])
  }

  /** Each request carries its own piece, and the requests together carry the buffer. */
  lemma {:induction false} CutFollowsPieces(bs: nat, block: nat, offset: nat, data: Bytes)
    requires offset < bs
    ensures var rs, ps := Cut(bs, block, offset, data), Pieces(bs, block, offset, |data|);
            && |rs| == |ps|
            && (forall i :: 0 <= i < |rs| ==> ps[i] == Piece(rs[i].block, rs[i].position, |rs[i].data|))
            && Joined(rs) == data
    decreases |data|
  {
    if data != [] {
      var len := Min(|data|, bs - offset);
      CutFollowsPieces(bs, block + 1, 0, data[len..]);
      assert Cut(bs, block, offset, data)[1..] == Cut(bs, block + 1, 0, data[len..]);
      assert data == data[..len] + data[len..];
    }
  }

  /** The requests that remain to be sent after the first `lo` bytes of the buffer. */
  ghost predicate Remaining(bs: nat, b: nat, o: nat, data: Bytes, lo: nat, all: seq<Request>, sent: seq<Request>) {
    o < bs && lo <= |data| && all == sent + Cut(bs, b, o, data[lo..])
  }

  /** One turn of the sending loop moves the first remaining request to the sent ones. */
  lemma SendTurn(bs: nat, b: nat, o: nat, data: Bytes, lo: nat, len: nat, request: Request,
                 all: seq<Request>, sent: seq<Request>)
    requires Remaining(bs, b, o, data, lo, all, sent) && lo < |data| && bs <= U16
    requires len == Min(|data| - lo, bs - o) && request == Request(b, o % U16, data[lo..lo + len])
    ensures Remaining(bs, b + 1, 0, data, lo + len, all, sent + [request])
  {
    assert data[lo..][..len] == data[lo..lo + len];
    assert data[lo..][len..] == data[lo + len..];
  }

  /** The sending loop of prepare, for a buffer that starts at `pos`, in block `b`. */
  method SendLoop(bs: nat, pos: nat, endPos: nat, data: Bytes, ghost b: nat, ghost o: nat) returns (sent: seq<Request>)
    requires o < bs <= U16 && pos == BlockStart(bs, b) + o && |data| == Max(endPos - pos, 0)
    ensures sent == Cut(bs, b, o, data)
  {
    sent := [];
    var current, bufferOffset := pos, 0;
    ghost var nb: nat, no: nat, all := b, o, Cut(bs, b, o, data);
    assert data[0..] == data;
    while current < endPos
      invariant current == pos + bufferOffset && 0 <= bufferOffset <= |data|
      invariant bufferOffset < |data| ==> current == BlockStart(bs, nb) + no
      invariant Remaining(bs, nb, no, data, bufferOffset, all, sent)
      decreases endPos - current
    {
      var block, offset := Locate(bs, current, nb, no);
      var size := Min(endPos - current, bs - offset);
      var request := Request(block, offset % U16, data[bufferOffset..bufferOffset + size]);
      SendTurn(bs, nb, no, data, bufferOffset, size, request, all, sent);
      sent := sent + [request];
      current, bufferOffset := current + size, bufferOffset + size;
      nb, no := nb + 1, 0;
    }
  }

  /** Prepare sends the data cut along the pieces of the range, or nothing at all when the
      32-bit end of the range wraps. */
  method SendPrepares(bs: nat, pos: nat, data: Bytes) returns (sent: seq<Request>)
    requires 0 < bs <= U16 && pos < U32 && |data| < U32
    ensures sent == if pos + |data| < U32 then Cut(bs, BlockOf(bs, pos), OffsetOf(bs, pos), data) else []
  {
    var endPos := EndPos(pos, |data|);
    WalkVisitsRange(pos, |data|);
    Located(bs, pos);
    sent := SendLoop(bs, pos, endPos, data[..Max(endPos - pos, 0)], BlockOf(bs, pos), OffsetOf(bs, pos));
    assert data[..|data|] == data;
  }

  /** The counting pass of read: the number of replies to wait for, none when the 32-bit end
      of the range wraps. */
  method CountReplies(bs: nat, pos: nat, size: nat) returns (count: nat)
    requires bs > 0 && pos < U32 && size < U32
    ensures count == if pos + size < U32 then |Walk(bs, pos, size)| else 0
  {
    count := 0;
    var current, end := pos, EndPos(pos, size);
    ghost var b: nat, o: nat := BlockOf(bs, pos), OffsetOf(bs, pos);
    WalkVisitsRange(pos, size);
    Located(bs, pos);
    while current < end
      invariant o < bs && (current < end ==> current == BlockStart(bs, b) + o)
      invariant current <= Max(pos, end)
      invariant count + |Pieces(bs, b, o, Max(end - current, 0))| == |Walk(bs, pos, Visited(pos, size))|
      decreases end - current
    {
      var _, offset := Locate(bs, current, b, o);
      current := current + Min(end - current, bs - offset);
      count := count + 1;
      b, o := b + 1, 0;
    }
  }

  /** The loop of commit and rollback: a decision for the block of every piece that prepare
      walked, in the same order. */
  method SendDecisions(bs: nat, pos: nat, size: nat) returns (blocks: seq<nat>)
    requires bs > 0 && pos < U32 && size < U32
    ensures var ps := if pos + size < U32 then Walk(bs, pos, size) else [];
            |blocks| == |ps| && forall i :: 0 <= i < |ps| ==> blocks[i] == ps[i].block
  {
    blocks := [];
    var current, end := pos, EndPos(pos, size);
    ghost var b: nat, o: nat := BlockOf(bs, pos), OffsetOf(bs, pos);
    WalkVisitsRange(pos, size);
    Located(bs, pos);
    while current < end
      invariant o < bs && (current < end ==> current == BlockStart(bs, b) + o)
      invariant current <= Max(pos, end) && b == BlockOf(bs, pos) + |blocks|
      invariant |blocks| + |Pieces(bs, b, o, Max(end - current, 0))| == |Walk(bs, pos, Visited(pos, size))|
      invariant forall i :: 0 <= i < |blocks| ==> blocks[i] == BlockOf(bs, pos) + i
      decreases end - current
    {
      var block, offset := Locate(bs, current, b, o);
      blocks := blocks + [block];
      current := current + Min(end - current, bs - offset);
      b, o := b + 1, 0;
    }
    PiecesPartition(bs, BlockOf(bs, pos), OffsetOf(bs, pos), size);
  }

  /** A write starts inside a block, past its first byte, and ends inside the same block. */
  predicate InsideOneBlock(bs: nat, pos: nat, size: nat)
    requires bs > 0
  {
    OffsetOf(bs, pos) != 0 && OffsetOf(bs, pos) + size <= bs
  }

  /** What a write request takes for the new size of its file. */
  function NewSize(bs: nat, pos: nat, size: nat): nat
    requires bs > 0
  {
    if size == 0 || pos + size >= U32 then 0
    else if InsideOneBlock(bs, pos, size) then pos + size - OffsetOf(bs, pos)
    else pos + size
  }

  /** The file size that a write request computes: the last block times the block size plus
      the size of the last piece.  For a nonempty write it is the end of the write exactly
      when that fits in 32 bits and the write is not inside one block; there it forgets the
      offset, and a wrapped end gives zero. */
  method NewFileSize(bs: nat, pos: nat, size: nat) returns (newSize: nat)
    requires bs > 0 && pos < U32 && size < U32
    ensures newSize == NewSize(bs, pos, size)
    ensures size > 0 ==> (newSize == pos + size <==> pos + size < U32 && !InsideOneBlock(bs, pos, size))
  {
    var end := EndPos(pos, size);
    var block, last := 0, 0;
    var current := pos;
    ghost var b: nat, o: nat := BlockOf(bs, pos), OffsetOf(bs, pos);
    ghost var n := Visited(pos, size);
    ghost var goal := if n == 0 then Piece(0, 0, 0) else LastOf(bs, b, o, n);
    WalkVisitsRange(pos, size);
    Located(bs, pos);
    while current < end
      invariant o < bs && (current < end ==> current == BlockStart(bs, b) + o)
      invariant current <= Max(pos, end)
      invariant if current < end then goal == LastOf(bs, b, o, end - current)
                else block == goal.block && last == goal.len
      decreases end - current
    {
      var offset;
      block, offset := Locate(bs, current, b, o);
      last := Min(end - current, bs - offset);
      current := current + last;
      b, o := b + 1, 0;
    }
    newSize := block * bs + last;
    BlockStartIsProduct(bs, block);
    if n > 0 {
      LastPiece(bs, BlockOf(bs, pos), OffsetOf(bs, pos), n);
    }
  }
}
