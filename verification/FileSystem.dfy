/** Directories on top of the striped store.  Every operation reads the directory's bytes
    through a striped read, edits them and writes them back from position 0 as one
    transaction.  The entries that the stored bytes denote are tracked next to them. */
module FileSystem {
  import opened ByteSeq
  import opened StorageKey
  import opened BlockWalk
  import opened FlatFile
  import opened StripedRead
  import opened Directory

  // ----- writing and reading from position 0

  /** The blocks of a file after a committed write of the given requests. */
  function WriteBlocks(f: Blocks, rs: seq<Request>): Blocks {
    if rs == [] then f
    else
      var g := WriteBlocks(f, rs[1..]);
      g[rs[0].block := Overlay(BlockAt(f, rs[0].block), rs[0].position, rs[0].data)]
  }

  /** Every block of the first `len` bytes is stored. */
  ghost predicate Covered(bs: nat, f: Blocks, len: nat) {
    forall b: nat :: BlockStart(bs, b) < len ==> b in f
  }

  lemma {:induction false} WriteBlocksAt(f: Blocks, rs: seq<Request>, b: nat)
    ensures b in WriteBlocks(f, rs) <==> b in f || FindRequest(rs, b).Some?
    ensures var r := FindRequest(rs, b);
            BlockAt(WriteBlocks(f, rs), b) ==
            if r.Some? then Overlay(BlockAt(f, b), r.value.position, r.value.data) else BlockAt(f, b)
  {
    if rs != [] {
      WriteBlocksAt(f, rs[1..], b);
    }
  }

  lemma WrittenBlock(f: Blocks, rs: seq<Request>, b: nat, x: nat)
    ensures At(BlockAt(WriteBlocks(f, rs), b), x) == RequestByte(At(BlockAt(f, b), x), FindRequest(rs, b), x)
  {
    WriteBlocksAt(f, rs, b);
  }

  /** A write changes the bytes of its range and no others. */
  lemma WrittenByte(bs: nat, f: Blocks, pos: nat, data: Bytes, rs: seq<Request>, a: nat)
    requires bs > 0 && Carries(bs, pos, data, rs)
    ensures ByteOf(bs, WriteBlocks(f, rs), a) == Patched(ByteOf(bs, f, a), pos, data, a)
  {
    var b, x := BlockOf(bs, a), OffsetOf(bs, a);
    Located(bs, a);
    WrittenBlock(f, rs, b, x);
    CarriedByte(bs, pos, data, rs, b, x, At(BlockAt(f, b), x));
  }

  lemma CarriedByte(bs: nat, pos: nat, data: Bytes, rs: seq<Request>, b: nat, x: nat, y: byte)
    requires Carries(bs, pos, data, rs) && x < bs
    ensures RequestByte(y, FindRequest(rs, b), x) == Patched(y, pos, data, BlockStart(bs, b) + x)
  {
  }

  lemma {:induction false} CutReaches(bs: nat, block: nat, data: Bytes, b: nat)
    requires bs > 0 && block <= b && BlockStart(bs, b) < BlockStart(bs, block) + |data|
    ensures FindRequest(Cut(bs, block, 0, data), b).Some?
    decreases |data|
  {
    if b == block {
      assert data != [];
    } else {
      BlocksInOrder(bs, block, b);
      assert Cut(bs, block, 0, data)[1..] == Cut(bs, block + 1, 0, data[bs..]);
      CutReaches(bs, block + 1, data[bs..], b);
    }
  }

  /** A write from position 0 covers what it writes, and keeps covered what was. */
  lemma WriteCovers(bs: nat, f: Blocks, data: Bytes, len: nat)
    requires bs > 0 && (len <= |data| || Covered(bs, f, len))
    ensures Covered(bs, WriteBlocks(f, Cut(bs, 0, 0, data)), len)
  {
    var rs := Cut(bs, 0, 0, data);
    forall b: nat | BlockStart(bs, b) < len
      ensures b in WriteBlocks(f, rs)
    {
      WriteBlocksAt(f, rs, b);
      if len <= |data| {
        CutReaches(bs, 0, data, b);
      }
    }
  }

  /** A read from position 0, at least as long as a covered prefix, starts with it. */
  lemma {:induction false} ReadCovered(bs: nat, f: Blocks, block: nat, size: nat, len: nat)
    requires bs > 0 && len <= size
    requires forall b: nat :: block <= b && BlockStart(bs, b) < BlockStart(bs, block) + len ==> b in f
    requires AllReadable(f, Pieces(bs, block, 0, size))
    ensures var bytes := ReadPieces(f, Pieces(bs, block, 0, size));
            |bytes| >= len && IsSlice(bs, f, BlockStart(bs, block), bytes[..len])
    decreases size
  {
    if len > 0 {
      var n := Min(size, bs);
      var first, rest := Piece(block, 0, n), Pieces(bs, block + 1, 0, size - n);
      NextPieces(bs, block, 0, size);
      PieceIsSlice(bs, f, first);
      var head := ReadPiece(f, first);
      if len <= n {
        assert ReadPieces(f, Pieces(bs, block, 0, size))[..len] == head[..len];
      } else {
        ReadCovered(bs, f, block + 1, size - n, len - n);
        var tail := ReadPieces(f, rest);
        SliceAppend(bs, f, BlockStart(bs, block), head, tail[..len - n]);
        assert ReadPieces(f, Pieces(bs, block, 0, size))[..len] == head + tail[..len - n];
      }
    }
  }

  /** The bytes returned by a read from position 0. */
  function ReadFrom0(bs: nat, f: Blocks, size: nat): Bytes
    requires bs > 0
  {
    AlignedReadable(bs, f, 0, size);
    ReadPieces(f, Pieces(bs, 0, 0, size))
  }

  // ----- a directory at rest

  function Flat(bs: nat, f: Blocks, n: nat): (bytes: Bytes)
    requires bs > 0
    ensures |bytes| == n && IsSlice(bs, f, 0, bytes)
  {
    seq<byte>(n, i requires 0 <= i < n => ByteOf(bs, f, i))
  }

  /** The stored blocks are a directory with exactly these entries. */
  ghost predicate DirAt(bs: nat, f: Blocks, es: seq<DirEntry>)
    requires bs > 0
  {
    Covered(bs, f, Extent(|es|)) && Extent(|es|) < U32 && Holds(Flat(bs, f, Extent(|es|)), es)
  }

  lemma HoldsByPrefix(c: Bytes, d: Bytes, es: seq<DirEntry>)
    requires Holds(c, es) && |c| == Extent(|es|) <= |d| && d[..|c|] == c
    ensures Holds(d, es)
  {
    assert d[..4] == c[..4] by {
      assert d[..|c|][..4] == d[..4];
    }
    forall i | 0 <= i < |es|
      ensures EntryAt(d, i) == es[i]
    {
      assert d[..|c|][Extent(i)..Extent(i + 1)] == d[Extent(i)..Extent(i + 1)];
    }
  }

  /** A read of a directory that is long enough finds its entries. */
  lemma ReadDirectory(bs: nat, f: Blocks, es: seq<DirEntry>, size: nat)
    requires bs > 0 && DirAt(bs, f, es) && size >= Extent(|es|)
    ensures Holds(ReadFrom0(bs, f, size), es)
  {
    var n := Extent(|es|);
    AlignedReadable(bs, f, 0, size);
    ReadCovered(bs, f, 0, size, n);
    var content := ReadFrom0(bs, f, size);
    assert content[..n] == Flat(bs, f, n);
    HoldsByPrefix(Flat(bs, f, n), content, es);
  }

  lemma WrittenPrefix(bs: nat, f: Blocks, content: Bytes, rs: seq<Request>)
    requires bs > 0 && Carries(bs, 0, content, rs)
    ensures Flat(bs, WriteBlocks(f, rs), |content|) == content
  {
    var g := WriteBlocks(f, rs);
    forall i | 0 <= i < |content|
      ensures ByteOf(bs, g, i) == content[i]
    {
      WrittenByte(bs, f, 0, content, rs, i);
    }
  }

  /** Writing a directory's new content from position 0 makes it the directory, whatever
      longer content was there before. */
  lemma WriteDirectory(bs: nat, f: Blocks, content: Bytes, es: seq<DirEntry>)
    requires bs > 0 && Holds(content, es) && |content| == Extent(|es|) < U32
    ensures DirAt(bs, WriteBlocks(f, Cut(bs, 0, 0, content)), es)
  {
    WriteCovers(bs, f, content, |content|);
    CutCarries(bs, 0, 0, content);
    WrittenPrefix(bs, f, content, Cut(bs, 0, 0, content));
  }

  // ----- loading a directory

  /** The size of the first read of every directory operation. */
  const FIRST_READ := 4096

  datatype Load = NoDirectory | Reread(size: nat) | Loaded(content: Bytes)

  /** What the bytes of one read come to: too short to be a directory, too short for its
      count of entries (to be read again, with a 32-bit size), or complete. */
  function Judge(content: Bytes): Load {
    if |content| < RECORD then NoDirectory
    else if Extent(CountOf(content)) > |content| then Reread(Extent(CountOf(content)) % U32)
    else Loaded(content)
  }

  function Attempt(bs: nat, f: Blocks, size: nat): Load
    requires bs > 0
  {
    Judge(ReadFrom0(bs, f, size))
  }

  lemma ReadBound(bs: nat, f: Blocks, size: nat)
    requires bs > 0
    ensures |ReadFrom0(bs, f, size)| <= size
    ensures |ReadFrom0(bs, f, size)| == size <==> AllPresent(f, Pieces(bs, 0, 0, size))
  {
    AlignedReadable(bs, f, 0, size);
    ReadLength(bs, f, 0, 0, size);
  }

  /** Every read that returns the header returns the same count. */
  lemma SameCount(bs: nat, f: Blocks, size: nat)
    requires bs > 0 && Covered(bs, f, RECORD) && size >= RECORD
    ensures |ReadFrom0(bs, f, size)| >= RECORD
    ensures CountOf(ReadFrom0(bs, f, size)) == CountOf(Flat(bs, f, RECORD))
  {
    AlignedReadable(bs, f, 0, size);
    ReadCovered(bs, f, 0, size, RECORD);
    var content := ReadFrom0(bs, f, size);
    assert content[..RECORD] == Flat(bs, f, RECORD);
    assert content[..RECORD][..4] == content[..4];
  }

  lemma CoveredPrefix(bs: nat, f: Blocks, len: nat, n: nat)
    requires Covered(bs, f, n) && len <= n
    ensures Covered(bs, f, len)
  {
  }

  lemma CountOfPrefix(bs: nat, f: Blocks, n: nat)
    requires bs > 0 && n >= RECORD
    ensures CountOf(Flat(bs, f, n)) == CountOf(Flat(bs, f, RECORD))
  {
    assert Flat(bs, f, n)[..4] == Flat(bs, f, RECORD)[..4];
  }

  lemma HoldsIsLoaded(content: Bytes, es: seq<DirEntry>)
    requires Holds(content, es)
    ensures Judge(content) == Loaded(content)
  {
  }

  lemma TooShort(content: Bytes, n: nat)
    requires RECORD <= |content| < Extent(n) < U32 && CountOf(content) == n
    ensures Judge(content) == Reread(Extent(n))
  {
  }

  lemma CountOfDirectory(bs: nat, f: Blocks, es: seq<DirEntry>)
    requires bs > 0 && DirAt(bs, f, es)
    ensures Covered(bs, f, RECORD) && CountOf(Flat(bs, f, RECORD)) == |es|
  {
    CoveredPrefix(bs, f, RECORD, Extent(|es|));
    CountOfPrefix(bs, f, Extent(|es|));
  }

  /** A well-formed directory is loaded by the first read, exactly when it has at most 63 entries,
      or by one more. */
  lemma AtMostOneReread(bs: nat, f: Blocks, es: seq<DirEntry>)
    requires bs > 0 && DirAt(bs, f, es)
    ensures var first := Attempt(bs, f, FIRST_READ);
            var last := if first.Reread? then Attempt(bs, f, first.size) else first;
            last.Loaded? && Holds(last.content, es) && (first.Loaded? <==> |es| <= 63)
  {
    var n := Extent(|es|);
    var size := Max(n, FIRST_READ);
    ReadDirectory(bs, f, es, size);
    HoldsIsLoaded(ReadFrom0(bs, f, size), es);
    if FIRST_READ < n {
      CountOfDirectory(bs, f, es);
      SameCount(bs, f, FIRST_READ);
      ReadBound(bs, f, FIRST_READ);
      TooShort(ReadFrom0(bs, f, FIRST_READ), |es|);
    }
  }

  lemma {:induction false} PresentIffCovered(bs: nat, f: Blocks, block: nat, size: nat)
    requires bs > 0
    ensures AllPresent(f, Pieces(bs, block, 0, size)) <==>
            forall b: nat :: block <= b && BlockStart(bs, b) < BlockStart(bs, block) + size ==> b in f
    decreases size
  {
    if size > 0 {
      var n := Min(size, bs);
      NextPieces(bs, block, 0, size);
      PresentIffCovered(bs, f, block + 1, size - n);
      forall b: nat | block < b
        ensures BlockStart(bs, b) >= BlockStart(bs, block) + bs
      {
        BlocksInOrder(bs, block, b);
      }
    } else {
      forall b: nat | block <= b
        ensures BlockStart(bs, b) >= BlockStart(bs, block)
      {
        if block < b {
          BlocksInOrder(bs, block, b);
        }
      }
    }
  }

  /** A second read of `size` bytes for a directory that counts `count` entries. */
  lemma SecondRead(content: Bytes, count: nat, size: nat)
    requires size == Extent(count) % U32 && |content| <= size
    requires size >= RECORD ==> |content| >= RECORD && CountOf(content) == count
    ensures Judge(content).Loaded? <==> Extent(count) < U32 && |content| == size
    ensures Judge(content).NoDirectory? <==> size == 0
    ensures Judge(content).Reread? ==> Judge(content) == Reread(size)
  {
    assert size < RECORD ==> size == 0;
  }

  /** What the second read of any stored file with a header comes to.  It is complete if
      and only if all entries it counts are stored and end below 4 GiB.  When their end is
      a multiple of 4 GiB the request reads nothing and the directory is reported as
      missing.  In every other case the same read is issued again, forever. */
  lemma RereadOutcome(bs: nat, f: Blocks)
    requires bs > 0 && Covered(bs, f, RECORD) && Attempt(bs, f, FIRST_READ).Reread?
    ensures var need := Extent(CountOf(Flat(bs, f, RECORD)));
            var size := Attempt(bs, f, FIRST_READ).size;
            var second := Attempt(bs, f, size);
            && size == need % U32
            && (second.Loaded? <==> need < U32 && Covered(bs, f, need))
            && (second.NoDirectory? <==> need % U32 == 0)
            && (second.Reread? ==> second == Reread(size))
  {
    var count := CountOf(Flat(bs, f, RECORD));
    var size := Extent(count) % U32;
    SameCount(bs, f, FIRST_READ);
    if size >= RECORD {
      SameCount(bs, f, size);
    }
    ReadBound(bs, f, size);
    SecondRead(ReadFrom0(bs, f, size), count, size);
    PresentIffCovered(bs, f, 0, size);
  }

  // ----- several files

  type Files = map<Uuid, Blocks>

  function FileOf(files: Files, u: Uuid): Blocks {
    if u in files then files[u] else map[]
  }

  function RequestsOf(bs: nat, input: Input): seq<Request>
    requires bs > 0
  {
    if Fits(input) then Cut(bs, BlockOf(bs, input.pos), OffsetOf(bs, input.pos), input.data) else []
  }

  /** The prepare loop sends the requests of an input, which are its writes in the transaction. */
  method SendInput(bs: nat, input: Input) returns (sent: seq<Request>)
    requires 0 < bs <= U16 && input.pos < U32 && |input.data| < U32
    ensures sent == RequestsOf(bs, input) && WritesTo(input.file, sent) == WritesOf(bs, input)
  {
    sent := SendPrepares(bs, input.pos, input.data);
  }

  /** A file after a committed write request. */
  function WriteInput(bs: nat, f: Blocks, input: Input): Blocks
    requires bs > 0
  {
    WriteBlocks(f, RequestsOf(bs, input))
  }

  /** The files after a committed transaction of these requests. */
  function PutAll(bs: nat, files: Files, inputs: seq<Input>): Files
    requires bs > 0
    decreases |inputs|
  {
    if inputs == [] then files
    else
      var u := inputs[0].file;
      PutAll(bs, files[u := WriteInput(bs, FileOf(files, u), inputs[0])], inputs[1..])
  }

  function FindInput(inputs: seq<Input>, u: Uuid): Option<Input> {
    if inputs == [] then None else if inputs[0].file == u then Some(inputs[0]) else FindInput(inputs[1..], u)
  }

  lemma {:induction false} FindGiven(inputs: seq<Input>, i: nat)
    requires DistinctFiles(inputs) && i < |inputs|
    ensures FindInput(inputs, inputs[i].file) == Some(inputs[i])
  {
    if i > 0 {
      FindGiven(inputs[1..], i - 1);
    }
  }

  lemma {:induction false} NoInput(inputs: seq<Input>, u: Uuid)
    requires forall i :: 0 <= i < |inputs| ==> inputs[i].file != u
    ensures FindInput(inputs, u) == None
  {
    if inputs != [] {
      NoInput(inputs[1..], u);
    }
  }

  /** Over distinct files a transaction writes every file once. */
  lemma {:induction false} PutAllAt(bs: nat, files: Files, inputs: seq<Input>, u: Uuid)
    requires bs > 0 && DistinctFiles(inputs)
    ensures var i := FindInput(inputs, u);
            FileOf(PutAll(bs, files, inputs), u) ==
            if i.Some? then WriteInput(bs, FileOf(files, u), i.value) else FileOf(files, u)
    decreases |inputs|
  {
    if inputs != [] {
      var v := inputs[0].file;
      PutAllAt(bs, files[v := WriteInput(bs, FileOf(files, v), inputs[0])], inputs[1..], u);
      if v == u {
        NoInput(inputs[1..], u);
      }
    }
  }

  /** The transaction has a prepare for this block. */
  predicate WritesBlock(bs: nat, inputs: seq<Input>, u: Uuid, b: nat)
    requires bs > 0
  {
    var i := FindInput(inputs, u);
    i.Some? && FindRequest(RequestsOf(bs, i.value), b).Some?
  }

  /** The same bytes, and perhaps some empty blocks more. */
  ghost predicate Extends(f: Blocks, g: Blocks) {
    (forall b :: b in f ==> b in g) && forall b: nat :: BlockAt(g, b) == BlockAt(f, b)
  }

  /** The files after an aborted transaction: its prepares may have created empty blocks, and
      nothing takes them away. */
  ghost predicate AbortOf(bs: nat, files: Files, files': Files, inputs: seq<Input>)
    requires bs > 0
  {
    forall u :: AbortAt(bs, files, files', inputs, u)
  }

  ghost predicate AbortAt(bs: nat, files: Files, files': Files, inputs: seq<Input>, u: Uuid)
    requires bs > 0
  {
    && Extends(FileOf(files, u), FileOf(files', u))
    && forall b :: b in FileOf(files', u) && b !in FileOf(files, u) ==> WritesBlock(bs, inputs, u, b)
  }

  /** Data written from byte 0 of a file: its bytes are there, all others are as before, and
      its blocks are stored. */
  ghost predicate Wrote(bs: nat, f: Blocks, g: Blocks, data: Bytes)
    requires bs > 0
  {
    (forall a: nat :: ByteOf(bs, g, a) == Patched(ByteOf(bs, f, a), 0, data, a))
    && Covered(bs, g, |data|) && forall b :: b in f ==> b in g
  }

  lemma InputAtStart(bs: nat, u: Uuid, data: Bytes)
    requires bs > 0 && |data| < U32
    ensures RequestsOf(bs, Input(u, 0, data)) == Cut(bs, 0, 0, data)
  {
  }

  lemma WriteInputWrote(bs: nat, f: Blocks, u: Uuid, data: Bytes)
    requires bs > 0 && |data| < U32
    ensures Wrote(bs, f, WriteInput(bs, f, Input(u, 0, data)), data)
  {
    InputAtStart(bs, u, data);
    CutCarries(bs, 0, 0, data);
    WriteCovers(bs, f, data, |data|);
    RequestsWrote(bs, f, data, Cut(bs, 0, 0, data));
  }

  lemma RequestsWrote(bs: nat, f: Blocks, data: Bytes, rs: seq<Request>)
    requires bs > 0 && Carries(bs, 0, data, rs) && Covered(bs, WriteBlocks(f, rs), |data|)
    ensures Wrote(bs, f, WriteBlocks(f, rs), data)
  {
    forall a: nat ensures ByteOf(bs, WriteBlocks(f, rs), a) == Patched(ByteOf(bs, f, a), 0, data, a) {
      WrittenByte(bs, f, 0, data, rs, a);
    }
    forall b | b in f ensures b in WriteBlocks(f, rs) {
      WriteBlocksAt(f, rs, b);
    }
  }

  lemma WriteInputDirectory(bs: nat, f: Blocks, u: Uuid, content: Bytes, es: seq<DirEntry>)
    requires bs > 0 && Holds(content, es) && |content| == Extent(|es|) < U32
    ensures DirAt(bs, WriteInput(bs, f, Input(u, 0, content)), es)
  {
    InputAtStart(bs, u, content);
    WriteDirectory(bs, f, content, es);
  }

  // ----- the directory under a key

  /** The outcome of the first read and, if asked for, the second one. */
  function LoadOf(bs: nat, f: Blocks): Load
    requires bs > 0
  {
    var first := Attempt(bs, f, FIRST_READ);
    if first.Reread? then Attempt(bs, f, first.size) else first
  }

  /** The second read, at the latest, is not asked for again. */
  predicate Settles(bs: nat, f: Blocks)
    requires bs > 0
  {
    !LoadOf(bs, f).Reread?
  }

  function EntriesIn(content: Bytes): (es: seq<DirEntry>)
    requires Judge(content).Loaded?
    ensures Holds(content, es)
  {
    seq(CountOf(content), i requires 0 <= i < CountOf(content) => EntryAt(content, i))
  }

  /** The entries that the program finds under a key, whatever put the bytes there. */
  function DirOf(bs: nat, f: Blocks): Option<seq<DirEntry>>
    requires bs > 0
  {
    var load := LoadOf(bs, f);
    if load.Loaded? && Judge(load.content).Loaded? then Some(EntriesIn(load.content)) else None
  }

  lemma HeldEntriesUnique(content: Bytes, es: seq<DirEntry>, es': seq<DirEntry>)
    requires Holds(content, es) && Holds(content, es')
    ensures es == es'
  {
    forall i | 0 <= i < |es| ensures es[i] == es'[i] {
      assert EntryAt(content, i) == es[i];
    }
  }

  /** A well-formed directory is found with its own entries. */
  lemma DirectoryIsFound(bs: nat, f: Blocks, es: seq<DirEntry>)
    requires bs > 0 && DirAt(bs, f, es)
    ensures Settles(bs, f) && DirOf(bs, f) == Some(es)
  {
    AtMostOneReread(bs, f, es);
    var content := LoadOf(bs, f).content;
    HoldsIsLoaded(content, es);
    HeldEntriesUnique(content, EntriesIn(content), es);
  }

  lemma SameDirectory(content: Bytes, es: seq<DirEntry>)
    requires Holds(content, es)
    ensures Holds(Resize(content, Extent(|es|)), es)
  {
    var r := Resize(content, Extent(|es|));
    assert r[..4] == content[..4];
    forall i | 0 <= i < |es|
      ensures EntryAt(r, i) == es[i]
    {
      SameEntry(r, content, i);
    }
  }

  /** Empty blocks that an abort leaves behind do not touch a directory. */
  lemma EmptyBlocksKeepDirectory(bs: nat, f: Blocks, g: Blocks, es: seq<DirEntry>)
    requires bs > 0 && DirAt(bs, f, es) && Extends(f, g)
    ensures DirAt(bs, g, es)
  {
    var n := Extent(|es|);
    assert Flat(bs, g, n) == Flat(bs, f, n);
  }

  lemma EmptyFile(bs: nat, size: nat)
    requires bs > 0
    ensures Attempt(bs, map[], size) == NoDirectory
  {
    AlignedReadable(bs, map[], 0, size);
    NothingToRead(bs, 0, size);
  }

  lemma {:induction false} NothingToRead(bs: nat, block: nat, size: nat)
    requires bs > 0 && AllReadable(map[], Pieces(bs, block, 0, size))
    ensures ReadPieces(map[], Pieces(bs, block, 0, size)) == []
    decreases size
  {
    if size > 0 {
      NextPieces(bs, block, 0, size);
      NothingToRead(bs, block + 1, size - Min(size, bs));
    }
  }

  lemma EmptyDirectory(reserved: Bytes)
    requires |reserved| == RECORD - 4
    ensures Holds(Put32(0) + reserved, [])
  {
    assert (Put32(0) + reserved)[..4] == Put32(0);
    PutGet32(0);
  }
}
