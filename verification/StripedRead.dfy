/** Reading a byte range: one request per piece, replies in any order, glued together in
    the order of the pieces. */
module StripedRead {
  import opened ByteSeq
  import opened StorageKey
  import opened BlockWalk
  import opened TwoPhaseCommit
  import opened FlatFile

  // ----- collecting the replies

  predicate AllReady(slots: seq<Option<Bytes>>) {
    forall i :: 0 <= i < |slots| ==> slots[i].Some?
  }

  /** The buffers of all slots, in slot order. */
  function Glue(slots: seq<Option<Bytes>>): Bytes
    requires AllReady(slots)
  {
    if slots == [] then [] else Glue(slots[..|slots| - 1]) + slots[|slots| - 1].value
  }

  /** The result accumulator that the reply callbacks of one read share. */
  class Accumulator {
    var slots: seq<Option<Bytes>>

    constructor (count: nat)
      ensures slots == seq(count, _ => None)
    {
      slots := seq(count, _ => None);
    }

    /** A reply callback: store the buffer; when every slot is filled, hand over all of
        them glued together. */
    method OnReply(index: nat, buf: Bytes) returns (collected: Option<Bytes>)
      requires index < |slots|
      modifies this
      ensures slots == old(slots)[index := Some(buf)]
      ensures collected.Some? <==> AllReady(slots)
      ensures collected.Some? ==> collected.value == Glue(slots)
    {
      slots := slots[index := Some(buf)];
      for i := 0 to |slots|
        invariant forall k :: 0 <= k < i ==> slots[k].Some?
      {
        if slots[i].None? {
          return None;
        }
      }
      var collect := [];
      for i := 0 to |slots|
        invariant collect == Glue(slots[..i])
      {
        assert slots[..i + 1][..i] == slots[..i];
        collect := collect + slots[i].value;
      }
      assert slots[..|slots|] == slots;
      collected := Some(collect);
    }
  }

  /** The slots after the replies of `order` have come in, each with its own buffer. */
  function Filled(replies: seq<Bytes>, order: seq<nat>): (slots: seq<Option<Bytes>>)
    requires forall k :: 0 <= k < |order| ==> order[k] < |replies|
    ensures |slots| == |replies|
    ensures forall i :: 0 <= i < |replies| ==> slots[i] == if i in order then Some(replies[i]) else None
  {
    if order == [] then seq(|replies|, _ => None)
    else
      var before := Filled(replies, order[..|order| - 1]);
      var last := order[|order| - 1];
      before[last := Some(replies[last])]
  }

  function Concat(parts: seq<Bytes>): Bytes {
    if parts == [] then [] else parts[0] + Concat(parts[1..])
  }

  lemma {:induction false} ConcatSnoc(parts: seq<Bytes>, last: Bytes)
    ensures Concat(parts + [last]) == Concat(parts) + last
  {
    if parts == [] {
      assert [last][1..] == [];
    } else {
      assert (parts + [last])[1..] == parts[1..] + [last];
      ConcatSnoc(parts[1..], last);
    }
  }

  lemma {:induction false} GlueIsConcat(slots: seq<Option<Bytes>>, parts: seq<Bytes>)
    requires |slots| == |parts| && forall i :: 0 <= i < |slots| ==> slots[i] == Some(parts[i])
    ensures Glue(slots) == Concat(parts)
    decreases |slots|
  {
    if slots != [] {
      var n := |slots| - 1;
      GlueIsConcat(slots[..n], parts[..n]);
      ConcatSnoc(parts[..n], parts[n]);
      assert parts == parts[..n] + [parts[n]];
    }
  }

  /** An order in which `n` pieces are answered, each of them once. */
  predicate EachOnce(order: seq<nat>, n: nat) {
    && |order| == n
    && (forall i :: 0 <= i < |order| ==> order[i] < n)
    && (forall i, j :: 0 <= i < j < |order| ==> order[i] != order[j])
    && (forall i :: 0 <= i < n ==> i in order)
  }

  /** When every piece is answered once, the read completes at the last reply and not
      before, with the same result whatever the order of the replies. */
  lemma ReplyOrderIrrelevant(replies: seq<Bytes>, order: seq<nat>, k: nat)
    requires EachOnce(order, |replies|) && k <= |order|
    ensures AllReady(Filled(replies, order[..k])) <==> k == |order|
    ensures k == |order| ==> Glue(Filled(replies, order[..k])) == Concat(replies)
  {
    if k == |order| {
      assert order[..k] == order;
      GlueIsConcat(Filled(replies, order), replies);
    } else {
      NotYetReady(replies, order, k);
    }
  }

  lemma NotYetReady(replies: seq<Bytes>, order: seq<nat>, k: nat)
    requires EachOnce(order, |replies|) && k < |order|
    ensures !AllReady(Filled(replies, order[..k]))
  {
    assert order[k] !in order[..k];
    assert Filled(replies, order[..k])[order[k]] == None;
  }

  // ----- what is read

  /** The stored blocks of one file. */
  type Blocks = map<nat, Bytes>

  function BlockAt(f: Blocks, b: nat): Bytes {
    if b in f then f[b] else []
  }

  function ByteOf(bs: nat, f: Blocks, a: nat): byte
    requires bs > 0
  {
    At(BlockAt(f, BlockOf(bs, a)), OffsetOf(bs, a))
  }

  /** A node must find the first requested byte inside the block or right at its end. */
  predicate Readable(f: Blocks, p: Piece) {
    p.block in f ==> p.offset <= |f[p.block]|
  }

  /** The reply of a node for one piece: `len` bytes of the block, zeros past its end, or
      nothing when the block is absent. */
  function ReadPiece(f: Blocks, p: Piece): Bytes
    requires Readable(f, p)
  {
    if p.block in f then Resize(f[p.block][p.offset..], p.len) else []
  }

  predicate AllReadable(f: Blocks, ps: seq<Piece>) {
    ps == [] || (Readable(f, ps[0]) && AllReadable(f, ps[1..]))
  }

  predicate AllPresent(f: Blocks, ps: seq<Piece>) {
    ps == [] || (ps[0].block in f && AllPresent(f, ps[1..]))
  }

  /** The replies of a read, in the order of the pieces. */
  function Replies(f: Blocks, ps: seq<Piece>): (parts: seq<Bytes>)
    requires AllReadable(f, ps)
    ensures |parts| == |ps|
  {
    if ps == [] then [] else [ReadPiece(f, ps[0])] + Replies(f, ps[1..])
  }

  /** The result of a read. */
  function ReadPieces(f: Blocks, ps: seq<Piece>): Bytes
    requires AllReadable(f, ps)
  {
    if ps == [] then [] else ReadPiece(f, ps[0]) + ReadPieces(f, ps[1..])
  }

  lemma {:induction false} RepliesGlued(f: Blocks, ps: seq<Piece>)
    requires AllReadable(f, ps)
    ensures Concat(Replies(f, ps)) == ReadPieces(f, ps)
  {
    if ps != [] {
      RepliesGlued(f, ps[1..]);
      assert Replies(f, ps)[1..] == Replies(f, ps[1..]);
    }
  }

  /** The bytes are those of the flat file from `pos` on. */
  predicate IsSlice(bs: nat, f: Blocks, pos: nat, bytes: Bytes)
    requires bs > 0
  {
    forall i :: 0 <= i < |bytes| ==> bytes[i] == ByteOf(bs, f, pos + i)
  }

  lemma SliceAppend(bs: nat, f: Blocks, pos: nat, a: Bytes, b: Bytes)
    requires bs > 0 && IsSlice(bs, f, pos, a) && IsSlice(bs, f, pos + |a|, b)
    ensures IsSlice(bs, f, pos, a + b)
  {
    forall i | 0 <= i < |a + b|
      ensures (a + b)[i] == ByteOf(bs, f, pos + i)
    {
      if i >= |a| {
        assert b[i - |a|] == ByteOf(bs, f, pos + |a| + (i - |a|));
      }
    }
  }

  lemma PieceIsSlice(bs: nat, f: Blocks, p: Piece)
    requires p.offset + p.len <= bs && p.len > 0 && p.block in f && Readable(f, p)
    ensures |ReadPiece(f, p)| == p.len && IsSlice(bs, f, BlockStart(bs, p.block) + p.offset, ReadPiece(f, p))
  {
    var pos := BlockStart(bs, p.block) + p.offset;
    forall i | 0 <= i < p.len
      ensures ReadPiece(f, p)[i] == ByteOf(bs, f, pos + i)
    {
      LocationUnique(bs, p.block, p.offset + i);
      assert pos + i == BlockStart(bs, p.block) + (p.offset + i);
    }
  }

  lemma NextPieces(bs: nat, block: nat, offset: nat, size: nat)
    requires offset < bs && size > 0
    ensures var ps, len := Pieces(bs, block, offset, size), Min(size, bs - offset);
            && |ps| > 0 && ps[0] == Piece(block, offset, len)
            && ps[1..] == Pieces(bs, block + 1, 0, size - len)
  {
  }

  /** Each absent block shortens the result. */
  lemma {:induction false} ReadLength(bs: nat, f: Blocks, block: nat, offset: nat, size: nat)
    requires offset < bs && AllReadable(f, Pieces(bs, block, offset, size))
    ensures var ps := Pieces(bs, block, offset, size);
            && |ReadPieces(f, ps)| <= size
            && (|ReadPieces(f, ps)| == size <==> AllPresent(f, ps))
    decreases size
  {
    if size > 0 {
      NextPieces(bs, block, offset, size);
      ReadLength(bs, f, block + 1, 0, size - Min(size, bs - offset));
    }
  }

  /** When no block is absent the result is the flat slice. */
  lemma {:induction false} ReadContent(bs: nat, f: Blocks, block: nat, offset: nat, size: nat)
    requires offset < bs && AllReadable(f, Pieces(bs, block, offset, size))
    requires AllPresent(f, Pieces(bs, block, offset, size))
    ensures IsSlice(bs, f, BlockStart(bs, block) + offset, ReadPieces(f, Pieces(bs, block, offset, size)))
    decreases size
  {
    if size > 0 {
      var len, pos := Min(size, bs - offset), BlockStart(bs, block) + offset;
      var first, rest := Piece(block, offset, len), Pieces(bs, block + 1, 0, size - len);
      NextPieces(bs, block, offset, size);
      PieceIsSlice(bs, f, first);
      ReadContent(bs, f, block + 1, 0, size - len);
      if len < size {
        assert pos + len == BlockStart(bs, block + 1) + 0;
      } else {
        assert ReadPieces(f, rest) == [];
      }
      SliceAppend(bs, f, pos, ReadPiece(f, first), ReadPieces(f, rest));
    }
  }

  /** Pieces that start at the beginning of their block are always readable. */
  lemma {:induction false} AlignedReadable(bs: nat, f: Blocks, block: nat, size: nat)
    requires bs > 0
    ensures AllReadable(f, Pieces(bs, block, 0, size))
    decreases size
  {
    if size > 0 {
      NextPieces(bs, block, 0, size);
      AlignedReadable(bs, f, block + 1, size - Min(size, bs));
    }
  }

  /** A striped read of `size` bytes at `pos` equals the flat slice if and only if every
      block of the range is present; an absent block shortens the result and shifts what
      is behind it.  Only the first piece starts inside its block, so only there must
      the position lie within the stored bytes. */
  lemma StripedReadIsFlat(bs: nat, f: Blocks, pos: nat, size: nat)
    requires bs > 0 && (BlockOf(bs, pos) in f ==> OffsetOf(bs, pos) <= |f[BlockOf(bs, pos)]|)
    ensures AllReadable(f, Walk(bs, pos, size))
    ensures |ReadPieces(f, Walk(bs, pos, size))| == size && IsSlice(bs, f, pos, ReadPieces(f, Walk(bs, pos, size))) <==>
            AllPresent(f, Walk(bs, pos, size))
  {
    var block, offset := BlockOf(bs, pos), OffsetOf(bs, pos);
    if size > 0 {
      AlignedReadable(bs, f, block + 1, size - Min(size, bs - offset));
      NextPieces(bs, block, offset, size);
    }
    ReadLength(bs, f, block, offset, size);
    if AllPresent(f, Walk(bs, pos, size)) {
      Located(bs, pos);
      ReadContent(bs, f, block, offset, size);
    }
  }

  // ----- the blocks in the store

  /** `f` is what the store has committed for a file. */
  ghost predicate Stores(s: State, file: Uuid, f: Blocks) {
    forall b: nat :: var r := RecordAt(s, BlockId(file, b));
                     (b in f <==> r.committed.Some?) && (b in f ==> r.committed == Some(f[b]))
  }

  /** A read whose blocks are all present returns the flat bytes, whatever the order in
      which its replies arrive. */
  lemma ReadAnyOrder(bs: nat, f: Blocks, pos: nat, size: nat, order: seq<nat>)
    requires bs > 0 && (BlockOf(bs, pos) in f ==> OffsetOf(bs, pos) <= |f[BlockOf(bs, pos)]|)
    requires AllPresent(f, Walk(bs, pos, size)) && EachOnce(order, |Walk(bs, pos, size)|)
    ensures AllReadable(f, Walk(bs, pos, size))
    ensures var slots := Filled(Replies(f, Walk(bs, pos, size)), order);
            AllReady(slots) && |Glue(slots)| == size && IsSlice(bs, f, pos, Glue(slots))
  {
    var ps := Walk(bs, pos, size);
    StripedReadIsFlat(bs, f, pos, size);
    RepliesGlued(f, ps);
    ReplyOrderIrrelevant(Replies(f, ps), order, |order|);
    assert order[..|order|] == order;
  }

  /** The read at address `a`, whatever the order of its replies. */
  lemma ReadByte(bs: nat, f: Blocks, pos: nat, size: nat, order: seq<nat>, a: nat)
    requires bs > 0 && (BlockOf(bs, pos) in f ==> OffsetOf(bs, pos) <= |f[BlockOf(bs, pos)]|)
    requires AllPresent(f, Walk(bs, pos, size)) && EachOnce(order, |Walk(bs, pos, size)|) && pos <= a < pos + size
    ensures AllReadable(f, Walk(bs, pos, size))
    ensures var slots := Filled(Replies(f, Walk(bs, pos, size)), order);
            AllReady(slots) && |Glue(slots)| == size && Glue(slots)[a - pos] == ByteOf(bs, f, a)
  {
    ReadAnyOrder(bs, f, pos, size, order);
    assert a == pos + (a - pos);
  }

  lemma StoredAfterRun(bs: nat, s: State, run: seq<Action>, requests: map<nat, seq<Input>>, file: Uuid, f: Blocks,
                       a: nat)
    requires bs > 0 && Idle(s) && ValidRun(s, run) && RunFromRequests(bs, run, requests)
    requires Stores(Final(s, run), file, f) && !Held(Final(s, run), BlockId(file, BlockOf(bs, a)))
    ensures HistoryFromRequests(bs, History(s, run), requests)
    ensures ByteOf(bs, f, a) == FlatReplay(ByteAt(bs, s, file, a), History(s, run), requests, file, a)
  {
    StripedStoreIsFlat(bs, s, run, requests, file, a);
    StoredByte(bs, Final(s, run), file, f, a);
  }

  /** A read of blocks at rest after any run of the commit protocol, with its replies in any
      order, returns the bytes of the flat file as the committed write requests left them. */
  lemma ReadAfterRunIsFlat(bs: nat, s: State, run: seq<Action>, requests: map<nat, seq<Input>>, file: Uuid,
                           f: Blocks, pos: nat, size: nat, order: seq<nat>, a: nat)
    requires bs > 0 && Idle(s) && ValidRun(s, run) && RunFromRequests(bs, run, requests)
    requires Stores(Final(s, run), file, f) && AllPresent(f, Walk(bs, pos, size))
    requires EachOnce(order, |Walk(bs, pos, size)|)
    requires BlockOf(bs, pos) in f ==> OffsetOf(bs, pos) <= |f[BlockOf(bs, pos)]|
    requires pos <= a < pos + size && !Held(Final(s, run), BlockId(file, BlockOf(bs, a)))
    ensures HistoryFromRequests(bs, History(s, run), requests) && AllReadable(f, Walk(bs, pos, size))
    ensures var slots := Filled(Replies(f, Walk(bs, pos, size)), order);
            && AllReady(slots) && |Glue(slots)| == size
            && Glue(slots)[a - pos] == FlatReplay(ByteAt(bs, s, file, a), History(s, run), requests, file, a)
  {
    ReadByte(bs, f, pos, size, order, a);
    StoredAfterRun(bs, s, run, requests, file, f, a);
  }

  lemma StoredByte(bs: nat, s: State, file: Uuid, f: Blocks, a: nat)
    requires bs > 0 && Stores(s, file, f)
    ensures ByteAt(bs, s, file, a) == ByteOf(bs, f, a)
  {
    var b := BlockOf(bs, a);
    assert RecordAt(s, BlockId(file, b)).committed.Some? <==> b in f;
  }
}
