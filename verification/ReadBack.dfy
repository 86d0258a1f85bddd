/** A committed write can be read back: its blocks are stored, long enough for the read, and
    the read returns the written bytes until a later commit writes over them. */
module ReadBack {
  import opened ByteSeq
  import opened StorageKey
  import opened BlockWalk
  import opened TwoPhaseCommit
  import opened FlatFile
  import opened StripedRead
  import opened FileSystem
  import opened StoredFiles

  // ----- blocks never shrink

  lemma {:induction false} ReplayNeverShrinks(c: Cell, h: seq<Entry>, b: BlockId)
    ensures |Replay(c, h, b).content| >= |c.content|
    decreases |h|
  {
    if h != [] {
      ReplayNeverShrinks(ApplyTxn(c, h[0].txn, b), h[1..], b);
    }
  }

  /** A block is at least as long as any committed write to it needs. */
  lemma {:induction false} ReplayCovers(c: Cell, h: seq<Entry>, k: nat, b: BlockId, w: Write)
    requires k < |h| && FindWrite(h[k].txn.writes, b) == Some(w)
    ensures |Replay(c, h, b).content| >= w.at + |w.data|
    decreases |h|
  {
    var next := ApplyTxn(c, h[0].txn, b);
    if k == 0 {
      ReplayNeverShrinks(next, h[1..], b);
    } else {
      ReplayCovers(next, h[1..], k - 1, b, w);
    }
  }

  // ----- the request for a piece

  lemma {:induction false} RequestForPiece(bs: nat, block: nat, offset: nat, data: Bytes, i: nat)
    requires offset < bs && i < |Pieces(bs, block, offset, |data|)|
    ensures var p := Pieces(bs, block, offset, |data|)[i];
            var r := FindRequest(Cut(bs, block, offset, data), p.block);
            && p.block >= block && (i == 0 ==> p.block == block && p.offset == offset) && p.len > 0
            && r.Some? && r.value.position == p.offset && |r.value.data| == p.len
    decreases |data|
  {
    var len := Min(|data|, bs - offset);
    NextPieces(bs, block, offset, |data|);
    FirstOrLater(Request(block, offset, data[..len]), Cut(bs, block + 1, 0, data[len..]),
                 Pieces(bs, block, offset, |data|)[i].block);
    if i > 0 {
      RequestForPiece(bs, block + 1, 0, data[len..], i - 1);
      assert Pieces(bs, block, offset, |data|)[i] == Pieces(bs, block + 1, 0, |data| - len)[i - 1];
    }
  }

  /** No block of the file is held by a transaction. */
  ghost predicate FileAtRest(s: State, file: Uuid) {
    forall b: nat :: !Held(s, BlockId(file, b))
  }

  /** `input` is the `j`-th write request of the `k`-th committed transaction. */
  ghost predicate Committed(h: seq<Entry>, requests: map<nat, seq<Input>>, k: nat, j: nat, input: Input) {
    && k < |h| && h[k].t in requests && j < |requests[h[k].t]|
    && requests[h[k].t][j] == input && Fits(input)
  }

  /** The block of each piece of a committed write is stored up to the end of the piece. */
  lemma PieceIsStored(bs: nat, s: State, run: seq<Action>, requests: map<nat, seq<Input>>, k: nat, j: nat,
                      input: Input, f: Blocks, i: nat)
    requires bs > 0 && Idle(s) && ValidRun(s, run) && RunFromRequests(bs, run, requests)
    requires Committed(History(s, run), requests, k, j, input)
    requires Stores(Final(s, run), input.file, f) && FileAtRest(Final(s, run), input.file)
    requires i < |Walk(bs, input.pos, |input.data|)|
    ensures var p := Walk(bs, input.pos, |input.data|)[i];
            p.block in f && p.offset + p.len <= |f[p.block]| && p.len > 0
  {
    var h := History(s, run);
    var inputs := requests[h[k].t];
    var p := Walk(bs, input.pos, |input.data|)[i];
    var id := BlockId(input.file, p.block);
    RunHistoryFromRequests(bs, s, run, requests);
    assert FromRequest(bs, h[k].t, h[k].txn, requests);
    FindGiven(inputs, j);
    FindInAllWrites(bs, inputs, id);
    RequestForPiece(bs, BlockOf(bs, input.pos), OffsetOf(bs, input.pos), input.data, i);
    var w := FindWrite(h[k].txn.writes, id).value;
    CommitProtocolIsAtomic(s, run, id);
    ReplayCovers(CellOf(RecordAt(s, id)), h, k, id, w);
    assert RecordAt(Final(s, run), id).committed.Some?;
  }

  lemma {:induction false} EachPresent(f: Blocks, ps: seq<Piece>)
    requires forall i :: 0 <= i < |ps| ==> ps[i].block in f
    ensures AllPresent(f, ps)
  {
    if ps != [] {
      EachPresent(f, ps[1..]);
    }
  }

  /** A read of the range of a committed write finds all its blocks, and its first byte
      within the first of them. */
  lemma CommittedRangeIsPresent(bs: nat, s: State, run: seq<Action>, requests: map<nat, seq<Input>>, k: nat, j: nat,
                                input: Input, f: Blocks)
    requires bs > 0 && Idle(s) && ValidRun(s, run) && RunFromRequests(bs, run, requests)
    requires Committed(History(s, run), requests, k, j, input) && input.data != []
    requires Stores(Final(s, run), input.file, f) && FileAtRest(Final(s, run), input.file)
    ensures AllPresent(f, Walk(bs, input.pos, |input.data|))
    ensures BlockOf(bs, input.pos) in f && OffsetOf(bs, input.pos) < |f[BlockOf(bs, input.pos)]|
  {
    var ps := Walk(bs, input.pos, |input.data|);
    forall i | 0 <= i < |ps|
      ensures ps[i].block in f
    {
      PieceIsStored(bs, s, run, requests, k, j, input, f, i);
    }
    EachPresent(f, ps);
    NextPieces(bs, BlockOf(bs, input.pos), OffsetOf(bs, input.pos), |input.data|);
    PieceIsStored(bs, s, run, requests, k, j, input, f, 0);
  }

  // ----- the last write to an address

  /** One of the requests writes address `a` of the file. */
  predicate Writes(inputs: seq<Input>, file: Uuid, a: nat) {
    && inputs != []
    && var first := inputs[0];
       || (first.file == file && Fits(first) && first.pos <= a < first.pos + |first.data|)
       || Writes(inputs[1..], file, a)
  }

  lemma {:induction false} NotWritten(y: byte, inputs: seq<Input>, file: Uuid, a: nat)
    requires !Writes(inputs, file, a)
    ensures FlatWrites(y, inputs, file, a) == y
    decreases |inputs|
  {
    if inputs != [] {
      NotWritten(y, inputs[1..], file, a);
    }
  }

  lemma {:induction false} OtherFilesDoNotWrite(inputs: seq<Input>, file: Uuid, a: nat)
    requires forall i :: 0 <= i < |inputs| ==> inputs[i].file != file
    ensures !Writes(inputs, file, a)
  {
    if inputs != [] {
      OtherFilesDoNotWrite(inputs[1..], file, a);
    }
  }

  lemma {:induction false} WrittenBy(y: byte, inputs: seq<Input>, j: nat, a: nat)
    requires DistinctFiles(inputs) && j < |inputs| && Fits(inputs[j])
    requires inputs[j].pos <= a < inputs[j].pos + |inputs[j].data|
    ensures FlatWrites(y, inputs, inputs[j].file, a) == inputs[j].data[a - inputs[j].pos]
    decreases |inputs|
  {
    var file := inputs[j].file;
    var next := FlatWrite(y, inputs[0], file, a);
    if j == 0 {
      OtherFilesDoNotWrite(inputs[1..], file, a);
      NotWritten(next, inputs[1..], file, a);
    } else {
      WrittenBy(next, inputs[1..], j - 1, a);
    }
  }

  ghost predicate WritesAt(h: seq<Entry>, m: nat, requests: map<nat, seq<Input>>, file: Uuid, a: nat) {
    m < |h| && h[m].t in requests && Writes(requests[h[m].t], file, a)
  }

  /** No transaction from the `n`-th on writes address `a` of the file. */
  ghost predicate Untouched(h: seq<Entry>, n: nat, requests: map<nat, seq<Input>>, file: Uuid, a: nat) {
    forall m: nat :: n <= m ==> !WritesAt(h, m, requests, file, a)
  }

  lemma UntouchedTail(h: seq<Entry>, n: nat, requests: map<nat, seq<Input>>, file: Uuid, a: nat)
    requires h != [] && Untouched(h, n + 1, requests, file, a)
    ensures Untouched(h[1..], n, requests, file, a)
  {
    forall m: nat | n <= m
      ensures !WritesAt(h[1..], m, requests, file, a)
    {
      assert !WritesAt(h, m + 1, requests, file, a);
    }
  }

  lemma {:induction false} UntouchedKept(y: byte, h: seq<Entry>, requests: map<nat, seq<Input>>, file: Uuid, a: nat)
    requires forall i :: 0 <= i < |h| ==> h[i].t in requests
    requires Untouched(h, 0, requests, file, a)
    ensures FlatReplay(y, h, requests, file, a) == y
    decreases |h|
  {
    if h != [] {
      assert !WritesAt(h, 0, requests, file, a);
      NotWritten(y, requests[h[0].t], file, a);
      UntouchedTail(h, 0, requests, file, a);
      UntouchedKept(y, h[1..], requests, file, a);
    }
  }

  lemma {:induction false} LastWriteWins(bs: nat, y: byte, h: seq<Entry>, requests: map<nat, seq<Input>>, k: nat,
                                         j: nat, input: Input, a: nat)
    requires bs > 0 && HistoryFromRequests(bs, h, requests) && Committed(h, requests, k, j, input)
    requires input.pos <= a < input.pos + |input.data| && Untouched(h, k + 1, requests, input.file, a)
    ensures FlatReplay(y, h, requests, input.file, a) == input.data[a - input.pos]
    decreases |h|
  {
    assert FromRequest(bs, h[0].t, h[0].txn, requests);
    var next := FlatWrites(y, requests[h[0].t], input.file, a);
    UntouchedTail(h, k, requests, input.file, a);
    if k == 0 {
      WrittenBy(y, requests[h[0].t], j, a);
      UntouchedKept(next, h[1..], requests, input.file, a);
    } else {
      LastWriteWins(bs, next, h[1..], requests, k - 1, j, input, a);
    }
  }

  // ----- reading back

  /** Each byte of a committed write is stored until a later committed request writes it. */
  lemma CommittedByte(bs: nat, s: State, run: seq<Action>, requests: map<nat, seq<Input>>, k: nat, j: nat,
                      input: Input, f: Blocks, a: nat)
    requires bs > 0 && Idle(s) && ValidRun(s, run) && RunFromRequests(bs, run, requests)
    requires Committed(History(s, run), requests, k, j, input) && input.pos <= a < input.pos + |input.data|
    requires Stores(Final(s, run), input.file, f) && FileAtRest(Final(s, run), input.file)
    requires Untouched(History(s, run), k + 1, requests, input.file, a)
    ensures ByteOf(bs, f, a) == input.data[a - input.pos]
  {
    StoredAfterRun(bs, s, run, requests, input.file, f, a);
    LastWriteWins(bs, ByteAt(bs, s, input.file, a), History(s, run), requests, k, j, input, a);
  }

  /** The read of a range returns what is stored for it. */
  lemma ReadsBack(bs: nat, input: Input, f: Blocks, order: seq<nat>, a: nat)
    requires bs > 0 && AllPresent(f, Walk(bs, input.pos, |input.data|)) && input.pos <= a < input.pos + |input.data|
    requires BlockOf(bs, input.pos) in f && OffsetOf(bs, input.pos) < |f[BlockOf(bs, input.pos)]|
    requires EachOnce(order, |Walk(bs, input.pos, |input.data|)|) && ByteOf(bs, f, a) == input.data[a - input.pos]
    ensures AllReadable(f, Walk(bs, input.pos, |input.data|))
    ensures var slots := Filled(Replies(f, Walk(bs, input.pos, |input.data|)), order);
            AllReady(slots) && |Glue(slots)| == |input.data| && Glue(slots)[a - input.pos] == input.data[a - input.pos]
  {
    ReadAnyOrder(bs, f, input.pos, |input.data|, order);
    assert a == input.pos + (a - input.pos);
  }

  /** A committed write reads back.  After any run of the commit protocol that leaves the file
      at rest, a read of the range of a committed write request, with its replies in any order,
      is full, and each byte of it that no later committed request writes is the written one. */
  lemma CommittedWriteReadsBack(bs: nat, s: State, run: seq<Action>, requests: map<nat, seq<Input>>, k: nat, j: nat,
                                input: Input, f: Blocks, order: seq<nat>, a: nat)
    requires bs > 0 && Idle(s) && ValidRun(s, run) && RunFromRequests(bs, run, requests)
    requires Committed(History(s, run), requests, k, j, input) && input.pos <= a < input.pos + |input.data|
    requires Stores(Final(s, run), input.file, f) && FileAtRest(Final(s, run), input.file)
    requires Untouched(History(s, run), k + 1, requests, input.file, a)
    requires EachOnce(order, |Walk(bs, input.pos, |input.data|)|)
    ensures AllReadable(f, Walk(bs, input.pos, |input.data|))
    ensures var slots := Filled(Replies(f, Walk(bs, input.pos, |input.data|)), order);
            AllReady(slots) && |Glue(slots)| == |input.data| && Glue(slots)[a - input.pos] == input.data[a - input.pos]
  {
    CommittedRangeIsPresent(bs, s, run, requests, k, j, input, f);
    CommittedByte(bs, s, run, requests, k, j, input, f, a);
    ReadsBack(bs, input, f, order, a);
  }
}
