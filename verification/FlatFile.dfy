/** Files as flat byte arrays.  A file is striped over blocks; a write request is cut into
    pieces that become one transaction, a read request is cut into the same pieces whose
    replies are glued together.  Both are proved to act on the flat array. */
module FlatFile {
  import opened ByteSeq
  import opened StorageKey
  import opened BlockRecord
  import opened BlockWalk
  import opened TwoPhaseCommit

  /** One write request: `data` at position `pos` of a file. */
  datatype Input = Input(file: Uuid, pos: nat, data: Bytes)

  /** The end of the range fits in 32 bits; otherwise the request sends nothing. */
  predicate Fits(input: Input) {
    input.pos + |input.data| < U32
  }

  function WritesTo(file: Uuid, rs: seq<Request>): (ws: seq<Write>) {
    if rs == [] then []
    else [Write(BlockId(file, rs[0].block), rs[0].position, rs[0].data)] + WritesTo(file, rs[1..])
  }

  /** The prepares of a request, one per piece. */
  function WritesOf(bs: nat, input: Input): seq<Write>
    requires bs > 0
  {
    if Fits(input)
    then WritesTo(input.file, Cut(bs, BlockOf(bs, input.pos), OffsetOf(bs, input.pos), input.data)) else []
  }

  /** All requests of one multi-input transaction. */
  function AllWrites(bs: nat, inputs: seq<Input>): seq<Write>
    requires bs > 0
  {
    if inputs == [] then [] else WritesOf(bs, inputs[0]) + AllWrites(bs, inputs[1..])
  }

  function TxnOf(bs: nat, version: nat, inputs: seq<Input>): Txn
    requires bs > 0
  {
    Txn(version, AllWrites(bs, inputs))
  }

  predicate DistinctFiles(inputs: seq<Input>) {
    forall i, j :: 0 <= i < j < |inputs| ==> inputs[i].file != inputs[j].file
  }

  // ----- one transaction on one byte

  /** What a write does to byte `x` of its block. */
  function ByteAfter(y: byte, found: Option<Write>, x: nat): byte {
    if found.Some? && found.value.at <= x < found.value.at + |found.value.data|
    then found.value.data[x - found.value.at] else y
  }

  lemma TxnOnByte(c: Cell, txn: Txn, b: BlockId, x: nat)
    ensures At(ApplyTxn(c, txn, b).content, x) == ByteAfter(At(c.content, x), FindWrite(txn.writes, b), x)
  {
  }

  function FindRequest(rs: seq<Request>, b: nat): Option<Request> {
    if rs == [] then None else if rs[0].block == b then Some(rs[0]) else FindRequest(rs[1..], b)
  }

  lemma {:induction false} FindInFile(file: Uuid, rs: seq<Request>, id: BlockId)
    ensures var r := FindRequest(rs, id.block);
            FindWrite(WritesTo(file, rs), id) ==
            if id.file == file && r.Some? then Some(Write(id, r.value.position, r.value.data)) else None
    decreases |rs|
  {
    if rs != [] {
      assert WritesTo(file, rs)[1..] == WritesTo(file, rs[1..]);
      FindInFile(file, rs[1..], id);
    }
  }

  lemma {:induction false} BlocksInOrder(bs: nat, b: nat, block: nat)
    requires b < block
    ensures BlockStart(bs, b) + bs <= BlockStart(bs, block)
  {
    if b < block - 1 {
      BlocksInOrder(bs, b, block - 1);
    }
  }

  function RequestByte(y: byte, r: Option<Request>, x: nat): byte {
    if r.Some? && r.value.position <= x < r.value.position + |r.value.data|
    then r.value.data[x - r.value.position] else y
  }

  /** Byte `a` after a flat write of `data` at `pos`. */
  function Patched(y: byte, pos: nat, data: Bytes, a: nat): byte {
    if pos <= a < pos + |data| then data[a - pos] else y
  }

  /** The requests do to byte `x` of every block what a flat write of `data` at `pos` does
      to the byte's position. */
  ghost predicate Carries(bs: nat, pos: nat, data: Bytes, rs: seq<Request>) {
    forall b: nat, x: nat, y: byte :: x < bs ==>
      RequestByte(y, FindRequest(rs, b), x) == Patched(y, pos, data, BlockStart(bs, b) + x)
  }

  lemma FirstOrLater(first: Request, rest: seq<Request>, b: nat)
    ensures FindRequest([first] + rest, b) == if first.block == b then Some(first) else FindRequest(rest, b)
  {
    assert ([first] + rest)[1..] == rest;
  }

  lemma CarriesStep(bs: nat, block: nat, offset: nat, data: Bytes, len: nat, rest: seq<Request>)
    requires offset < bs && data != [] && len == Min(|data|, bs - offset)
    requires Carries(bs, BlockStart(bs, block + 1), data[len..], rest)
    ensures Carries(bs, BlockStart(bs, block) + offset, data, [Request(block, offset, data[..len])] + rest)
  {
    var first := Request(block, offset, data[..len]);
    var pos := BlockStart(bs, block) + offset;
    forall b: nat, x: nat, y: byte | x < bs
      ensures RequestByte(y, FindRequest([first] + rest, b), x) == Patched(y, pos, data, BlockStart(bs, b) + x)
    {
      FirstOrLater(first, rest, b);
      if b < block {
        BlocksInOrder(bs, b, block);
      } else if block < b {
        BlocksInOrder(bs, block, b);
      }
    }
  }

  /** A cut buffer is written where a flat write would put it. */
  lemma {:induction false} CutCarries(bs: nat, block: nat, offset: nat, data: Bytes)
    requires offset < bs
    ensures Carries(bs, BlockStart(bs, block) + offset, data, Cut(bs, block, offset, data))
    decreases |data|
  {
    if data != [] {
      var len := Min(|data|, bs - offset);
      CutCarries(bs, block + 1, 0, data[len..]);
      CarriesStep(bs, block, offset, data, len, Cut(bs, block + 1, 0, data[len..]));
    }
  }

  lemma FoundByte(bs: nat, y: byte, file: Uuid, rs: seq<Request>, id: BlockId, x: nat, pos: nat, data: Bytes)
    requires Carries(bs, pos, data, rs) && x < bs
    ensures ByteAfter(y, FindWrite(WritesTo(file, rs), id), x) ==
            if id.file == file then Patched(y, pos, data, BlockStart(bs, id.block) + x) else y
    ensures id.file != file ==> FindWrite(WritesTo(file, rs), id) == None
  {
    FindInFile(file, rs, id);
    assert RequestByte(y, FindRequest(rs, id.block), x) == Patched(y, pos, data, BlockStart(bs, id.block) + x);
  }

  /** A flat write, seen at one address. */
  function FlatWrite(y: byte, input: Input, file: Uuid, a: nat): byte {
    if input.file == file && Fits(input) then Patched(y, input.pos, input.data, a) else y
  }

  function FlatWrites(y: byte, inputs: seq<Input>, file: Uuid, a: nat): byte
    decreases |inputs|
  {
    if inputs == [] then y else FlatWrites(FlatWrite(y, inputs[0], file, a), inputs[1..], file, a)
  }

  lemma OneWriteIsFlat(bs: nat, input: Input, y: byte, id: BlockId, x: nat)
    requires x < bs
    ensures ByteAfter(y, FindWrite(WritesOf(bs, input), id), x) ==
            FlatWrite(y, input, id.file, BlockStart(bs, id.block) + x)
    ensures input.file != id.file ==> FindWrite(WritesOf(bs, input), id) == None
  {
    var block, offset := BlockOf(bs, input.pos), OffsetOf(bs, input.pos);
    Located(bs, input.pos);
    CutCarries(bs, block, offset, input.data);
    FoundByte(bs, y, input.file, Cut(bs, block, offset, input.data), id, x, input.pos, input.data);
  }

  lemma {:induction false} FindInAppend(ws: seq<Write>, ws': seq<Write>, b: BlockId)
    ensures FindWrite(ws + ws', b) == if FindWrite(ws, b).Some? then FindWrite(ws, b) else FindWrite(ws', b)
    decreases |ws|
  {
    if ws == [] {
      assert ws + ws' == ws';
    } else {
      assert (ws + ws')[1..] == ws[1..] + ws';
      FindInAppend(ws[1..], ws', b);
    }
  }

  lemma {:induction false} NoWriteElsewhere(bs: nat, inputs: seq<Input>, y: byte, id: BlockId, a: nat)
    requires bs > 0 && forall i :: 0 <= i < |inputs| ==> inputs[i].file != id.file
    ensures FindWrite(AllWrites(bs, inputs), id) == None
    ensures FlatWrites(y, inputs, id.file, a) == y
    decreases |inputs|
  {
    if inputs != [] {
      OneWriteIsFlat(bs, inputs[0], y, id, 0);
      FindInAppend(WritesOf(bs, inputs[0]), AllWrites(bs, inputs[1..]), id);
      NoWriteElsewhere(bs, inputs[1..], y, id, a);
    }
  }

  /** The first input decides about the bytes of its own file. */
  lemma FirstInputIsFlat(bs: nat, inputs: seq<Input>, y: byte, id: BlockId, x: nat)
    requires x < bs && DistinctFiles(inputs) && inputs != [] && inputs[0].file == id.file
    ensures ByteAfter(y, FindWrite(AllWrites(bs, inputs), id), x) ==
            FlatWrites(y, inputs, id.file, BlockStart(bs, id.block) + x)
  {
    var rest, a := inputs[1..], BlockStart(bs, id.block) + x;
    FindInAppend(WritesOf(bs, inputs[0]), AllWrites(bs, rest), id);
    OneWriteIsFlat(bs, inputs[0], y, id, x);
    NoWriteElsewhere(bs, rest, FlatWrite(y, inputs[0], id.file, a), id, a);
  }

  /** A striped transaction acts on every byte of every file as its flat writes do. */
  lemma {:induction false} StripedTxnIsFlat(bs: nat, inputs: seq<Input>, y: byte, id: BlockId, x: nat)
    requires x < bs && DistinctFiles(inputs)
    ensures ByteAfter(y, FindWrite(AllWrites(bs, inputs), id), x) ==
            FlatWrites(y, inputs, id.file, BlockStart(bs, id.block) + x)
    decreases |inputs|
  {
    if inputs != [] {
      if inputs[0].file == id.file {
        FirstInputIsFlat(bs, inputs, y, id, x);
      } else {
        FindInAppend(WritesOf(bs, inputs[0]), AllWrites(bs, inputs[1..]), id);
        OneWriteIsFlat(bs, inputs[0], y, id, x);
        StripedTxnIsFlat(bs, inputs[1..], y, id, x);
      }
    }
  }

  lemma {:induction false} WritesToShape(file: Uuid, rs: seq<Request>)
    ensures |WritesTo(file, rs)| == |rs|
    ensures forall i :: 0 <= i < |rs| ==>
              WritesTo(file, rs)[i] == Write(BlockId(file, rs[i].block), rs[i].position, rs[i].data)
  {
    if rs != [] {
      WritesToShape(file, rs[1..]);
    }
  }

  lemma RequestBlocksDistinct(bs: nat, input: Input)
    requires bs > 0
    ensures DistinctBlocks(WritesOf(bs, input))
    ensures forall i :: 0 <= i < |WritesOf(bs, input)| ==> WritesOf(bs, input)[i].id.file == input.file
  {
    var block, offset := BlockOf(bs, input.pos), OffsetOf(bs, input.pos);
    CutFollowsPieces(bs, block, offset, input.data);
    PiecesPartition(bs, block, offset, |input.data|);
    WritesToShape(input.file, Cut(bs, block, offset, input.data));
  }

  lemma DistinctAppend(ws: seq<Write>, ws': seq<Write>)
    requires DistinctBlocks(ws) && DistinctBlocks(ws')
    requires forall i, j :: 0 <= i < |ws| && 0 <= j < |ws'| ==> ws[i].id != ws'[j].id
    ensures DistinctBlocks(ws + ws')
  {
  }

  /** The blocks of a transaction over distinct files are distinct, as the protocol asks. */
  lemma {:induction false} TxnBlocksDistinct(bs: nat, inputs: seq<Input>)
    requires bs > 0 && DistinctFiles(inputs)
    ensures DistinctBlocks(AllWrites(bs, inputs))
    decreases |inputs|
  {
    if inputs != [] {
      var rest := inputs[1..];
      var ws, ws' := WritesOf(bs, inputs[0]), AllWrites(bs, rest);
      RequestBlocksDistinct(bs, inputs[0]);
      TxnBlocksDistinct(bs, rest);
      forall i, j | 0 <= i < |ws| && 0 <= j < |ws'|
        ensures ws[i].id != ws'[j].id
      {
        if ws'[j].id.file == inputs[0].file {
          NoWriteElsewhere(bs, rest, 0, ws'[j].id, 0);
          FindWriteFinds(ws', ws'[j].id);
        }
      }
      DistinctAppend(ws, ws');
    }
  }

  // ----- whole runs

  /** A transaction is the one of a known write request over distinct files. */
  ghost predicate FromRequest(bs: nat, t: nat, txn: Txn, requests: map<nat, seq<Input>>)
    requires bs > 0
  {
    t in requests && DistinctFiles(requests[t]) && txn == TxnOf(bs, txn.version, requests[t])
  }

  ghost predicate RunFromRequests(bs: nat, run: seq<Action>, requests: map<nat, seq<Input>>)
    requires bs > 0
  {
    forall i :: 0 <= i < |run| && run[i].Start? ==> FromRequest(bs, run[i].t, run[i].txn, requests)
  }

  ghost predicate CoordsFromRequests(bs: nat, s: State, requests: map<nat, seq<Input>>)
    requires bs > 0
  {
    forall t :: t in s.coords ==> FromRequest(bs, t, s.coords[t].txn, requests)
  }

  ghost predicate HistoryFromRequests(bs: nat, h: seq<Entry>, requests: map<nat, seq<Input>>)
    requires bs > 0
  {
    forall i :: 0 <= i < |h| ==> FromRequest(bs, h[i].t, h[i].txn, requests)
  }

  /** The committed requests, replayed on one byte of one file. */
  function FlatReplay(y: byte, h: seq<Entry>, requests: map<nat, seq<Input>>, file: Uuid, a: nat): byte
    requires forall i :: 0 <= i < |h| ==> h[i].t in requests
    decreases |h|
  {
    if h == [] then y else FlatReplay(FlatWrites(y, requests[h[0].t], file, a), h[1..], requests, file, a)
  }

  lemma StepFromRequests(bs: nat, s: State, a: Action, requests: map<nat, seq<Input>>)
    requires bs > 0 && Enabled(s, a) && CoordsFromRequests(bs, s, requests)
    requires a.Start? ==> FromRequest(bs, a.t, a.txn, requests)
    ensures CoordsFromRequests(bs, Next(s, a), requests)
    ensures HistoryFromRequests(bs, Effect(s, a), requests)
  {
    var s' := Next(s, a);
    assert forall t :: t in s'.coords && t != a.t ==> s'.coords[t] == s.coords[t];
    assert !a.Start? ==> s'.coords[a.t].txn == s.coords[a.t].txn;
  }

  lemma {:induction false} RunHistoryFromRequests(bs: nat, s: State, run: seq<Action>, requests: map<nat, seq<Input>>)
    requires bs > 0 && ValidRun(s, run) && RunFromRequests(bs, run, requests) && CoordsFromRequests(bs, s, requests)
    ensures HistoryFromRequests(bs, History(s, run), requests)
    decreases |run|
  {
    if run != [] {
      StepFromRequests(bs, s, run[0], requests);
      RunHistoryFromRequests(bs, Next(s, run[0]), run[1..], requests);
    }
  }

  lemma {:induction false} ReplayIsFlat(bs: nat, c: Cell, h: seq<Entry>, requests: map<nat, seq<Input>>, id: BlockId,
                                        x: nat)
    requires x < bs && HistoryFromRequests(bs, h, requests)
    ensures At(Replay(c, h, id).content, x) ==
            FlatReplay(At(c.content, x), h, requests, id.file, BlockStart(bs, id.block) + x)
    decreases |h|
  {
    if h != [] {
      assert FromRequest(bs, h[0].t, h[0].txn, requests);
      TxnOnByte(c, h[0].txn, id, x);
      StripedTxnIsFlat(bs, requests[h[0].t], At(c.content, x), id, x);
      ReplayIsFlat(bs, ApplyTxn(c, h[0].txn, id), h[1..], requests, id, x);
    }
  }

  /** The byte that the store holds for address `a` of a file. */
  function ByteAt(bs: nat, s: State, file: Uuid, a: nat): byte
    requires bs > 0
  {
    At(Content(RecordAt(s, BlockId(file, BlockOf(bs, a)))), OffsetOf(bs, a))
  }

  /** The store refines flat files.  After any run of the message protocol, every byte of
      every file whose block is at rest is the one a flat array would hold after the
      committed write requests, in the order of their decisions; bytes never written
      keep their value, zero in a gap. */
  lemma StripedStoreIsFlat(bs: nat, s: State, run: seq<Action>, requests: map<nat, seq<Input>>, file: Uuid, a: nat)
    requires bs > 0 && Idle(s) && ValidRun(s, run) && RunFromRequests(bs, run, requests)
    requires !Held(Final(s, run), BlockId(file, BlockOf(bs, a)))
    ensures HistoryFromRequests(bs, History(s, run), requests)
    ensures ByteAt(bs, Final(s, run), file, a) == FlatReplay(ByteAt(bs, s, file, a), History(s, run), requests, file, a)
  {
    var id := BlockId(file, BlockOf(bs, a));
    CommitProtocolIsAtomic(s, run, id);
    RunHistoryFromRequests(bs, s, run, requests);
    Located(bs, a);
    ReplayIsFlat(bs, CellOf(RecordAt(s, id)), History(s, run), requests, id, OffsetOf(bs, a));
  }
}
