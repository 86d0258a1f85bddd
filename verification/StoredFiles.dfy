/** The files of the metadata operations are what the storage nodes hold.  A run of the commit
    protocol ends in the blocks that `PutAll` of its committed transactions gives, plus empty
    blocks that aborted ones created. */
module StoredFiles {
  import opened ByteSeq
  import opened StorageKey
  import opened BlockRecord
  import opened BlockWalk
  import opened TwoPhaseCommit
  import opened FlatFile
  import opened StripedRead
  import opened FileSystem

  /** The nodes have committed exactly these blocks. */
  ghost predicate StoresAll(s: State, files: Files) {
    forall u :: Stores(s, u, FileOf(files, u))
  }

  // ----- one transaction on one block

  function ToWrite(id: BlockId, r: Option<Request>): Option<Write> {
    if r.Some? then Some(Write(id, r.value.position, r.value.data)) else None
  }

  lemma FindInWritesOf(bs: nat, input: Input, id: BlockId)
    requires bs > 0
    ensures FindWrite(WritesOf(bs, input), id) ==
            if id.file == input.file then ToWrite(id, FindRequest(RequestsOf(bs, input), id.block)) else None
  {
    if Fits(input) {
      FindInFile(input.file, RequestsOf(bs, input), id);
    }
  }

  /** The write of a transaction to a block is the request for it of the file's own input. */
  lemma {:induction false} FindInAllWrites(bs: nat, inputs: seq<Input>, id: BlockId)
    requires bs > 0 && DistinctFiles(inputs)
    ensures var i := FindInput(inputs, id.file);
            FindWrite(AllWrites(bs, inputs), id) ==
            if i.Some? then ToWrite(id, FindRequest(RequestsOf(bs, i.value), id.block)) else None
    decreases |inputs|
  {
    if inputs != [] {
      var rest := inputs[1..];
      FindInAppend(WritesOf(bs, inputs[0]), AllWrites(bs, rest), id);
      FindInWritesOf(bs, inputs[0], id);
      if inputs[0].file == id.file {
        NoWriteElsewhere(bs, rest, 0, id, 0);
      } else {
        FindInAllWrites(bs, rest, id);
      }
    }
  }

  lemma TxnIsPutAll(bs: nat, files: Files, inputs: seq<Input>, txn: Txn, id: BlockId, version: nat)
    requires bs > 0 && DistinctFiles(inputs) && txn == TxnOf(bs, txn.version, inputs)
    ensures ApplyTxn(Cell(BlockAt(FileOf(files, id.file), id.block), version), txn, id).content ==
            BlockAt(FileOf(PutAll(bs, files, inputs), id.file), id.block)
  {
    FindInAllWrites(bs, inputs, id);
    PutAllAt(bs, files, inputs, id.file);
    var i := FindInput(inputs, id.file);
    if i.Some? {
      WriteBlocksAt(FileOf(files, id.file), RequestsOf(bs, i.value), id.block);
    }
  }

  // ----- the committed transactions of a run

  function PutHistory(bs: nat, files: Files, h: seq<Entry>, requests: map<nat, seq<Input>>): Files
    requires bs > 0 && forall i :: 0 <= i < |h| ==> h[i].t in requests
    decreases |h|
  {
    if h == [] then files else PutHistory(bs, PutAll(bs, files, requests[h[0].t]), h[1..], requests)
  }

  lemma {:induction false} ReplayIsPutHistory(bs: nat, files: Files, h: seq<Entry>, requests: map<nat, seq<Input>>,
                                              id: BlockId, version: nat)
    requires bs > 0 && HistoryFromRequests(bs, h, requests)
    ensures Replay(Cell(BlockAt(FileOf(files, id.file), id.block), version), h, id).content ==
            BlockAt(FileOf(PutHistory(bs, files, h, requests), id.file), id.block)
    decreases |h|
  {
    if h != [] {
      var inputs := requests[h[0].t];
      assert FromRequest(bs, h[0].t, h[0].txn, requests);
      TxnIsPutAll(bs, files, inputs, h[0].txn, id, version);
      var next := ApplyTxn(Cell(BlockAt(FileOf(files, id.file), id.block), version), h[0].txn, id);
      ReplayIsPutHistory(bs, PutAll(bs, files, inputs), h[1..], requests, id, next.version);
    }
  }

  // ----- which blocks are stored

  lemma {:induction false} CutIsNonempty(bs: nat, block: nat, offset: nat, data: Bytes, b: nat)
    requires offset < bs
    ensures var r := FindRequest(Cut(bs, block, offset, data), b);
            r.Some? ==> r.value.data != []
    decreases |data|
  {
    if data != [] {
      var len := Min(|data|, bs - offset);
      CutIsNonempty(bs, block + 1, 0, data[len..], b);
      FirstOrLater(Request(block, offset, data[..len]), Cut(bs, block + 1, 0, data[len..]), b);
    }
  }

  /** A block a write adds to a file is not empty. */
  lemma NewBlockIsNonempty(bs: nat, files: Files, inputs: seq<Input>, u: Uuid, b: nat)
    requires bs > 0 && DistinctFiles(inputs)
    ensures var f, g := FileOf(files, u), FileOf(PutAll(bs, files, inputs), u);
            && (b in g <==> b in f || WritesBlock(bs, inputs, u, b))
            && (b in g && b !in f ==> BlockAt(g, b) != [])
            && (BlockAt(f, b) != [] ==> BlockAt(g, b) != [])
  {
    PutAllAt(bs, files, inputs, u);
    var i := FindInput(inputs, u);
    if i.Some? {
      WriteBlocksAt(FileOf(files, u), RequestsOf(bs, i.value), b);
      if Fits(i.value) {
        CutIsNonempty(bs, BlockOf(bs, i.value.pos), OffsetOf(bs, i.value.pos), i.value.data, b);
      }
    }
  }

  lemma {:induction false} HistoryBlockIsNonempty(bs: nat, files: Files, h: seq<Entry>, requests: map<nat, seq<Input>>,
                                                  u: Uuid, b: nat)
    requires bs > 0 && HistoryFromRequests(bs, h, requests)
    ensures var f, g := FileOf(files, u), FileOf(PutHistory(bs, files, h, requests), u);
            && (b in f ==> b in g) && (b in g ==> b in f || BlockAt(g, b) != [])
            && (BlockAt(f, b) != [] ==> BlockAt(g, b) != [])
    decreases |h|
  {
    if h != [] {
      assert FromRequest(bs, h[0].t, h[0].txn, requests);
      NewBlockIsNonempty(bs, files, requests[h[0].t], u, b);
      HistoryBlockIsNonempty(bs, PutAll(bs, files, requests[h[0].t]), h[1..], requests, u, b);
    }
  }

  // ----- whole runs

  lemma PrepareCreates(bs: nat, s: State, a: Action, requests: map<nat, seq<Input>>, id: BlockId)
    requires bs > 0 && a.DeliverPrepare? && Enabled(s, a) && CoordsFromRequests(bs, s, requests)
    ensures RecordAt(s, id).committed.Some? ==> RecordAt(Next(s, a), id).committed.Some?
    ensures RecordAt(s, id).committed.None? && RecordAt(Next(s, a), id).committed.Some? ==>
              a.t in requests && FindWrite(AllWrites(bs, requests[a.t]), id).Some?
  {
    var ws := s.coords[a.t].txn.writes;
    assert FromRequest(bs, a.t, s.coords[a.t].txn, requests);
    assert ws == AllWrites(bs, requests[a.t]);
    FindWriteFinds(ws, id);
    assert ws[a.i] in ws;
  }

  lemma DecisionCreatesNothing(s: State, a: Action, id: BlockId)
    requires a.DeliverDecision? && Inv(s) && Enabled(s, a)
    ensures RecordAt(s, id).committed.Some? <==> RecordAt(Next(s, a), id).committed.Some?
  {
    var w := s.coords[a.t].txn.writes[a.i].id;
    assert HeldBy(s, a.t, a.i, w) && BlockInv(RecordAt(s, w), s.coords[a.t], a.i);
  }

  /** A block that exists stays; a block appears only by a prepare of one of the requests. */
  lemma StepCreates(bs: nat, s: State, a: Action, requests: map<nat, seq<Input>>, id: BlockId)
    requires bs > 0 && Inv(s) && Enabled(s, a) && CoordsFromRequests(bs, s, requests)
    ensures RecordAt(s, id).committed.Some? ==> RecordAt(Next(s, a), id).committed.Some?
    ensures RecordAt(s, id).committed.None? && RecordAt(Next(s, a), id).committed.Some? ==>
              a.DeliverPrepare? && a.t in requests && FindWrite(AllWrites(bs, requests[a.t]), id).Some?
  {
    if a.DeliverPrepare? {
      PrepareCreates(bs, s, a, requests, id);
    } else if a.DeliverDecision? {
      DecisionCreatesNothing(s, a, id);
    }
  }

  ghost predicate Requested(bs: nat, requests: map<nat, seq<Input>>, id: BlockId)
    requires bs > 0
  {
    exists t :: t in requests && FindWrite(AllWrites(bs, requests[t]), id).Some?
  }

  lemma {:induction false} RunCreates(bs: nat, s: State, run: seq<Action>, requests: map<nat, seq<Input>>, id: BlockId)
    requires bs > 0 && Inv(s) && ValidRun(s, run)
    requires RunFromRequests(bs, run, requests) && CoordsFromRequests(bs, s, requests)
    ensures RecordAt(s, id).committed.Some? ==> RecordAt(Final(s, run), id).committed.Some?
    ensures RecordAt(s, id).committed.None? && RecordAt(Final(s, run), id).committed.Some? ==>
              Requested(bs, requests, id)
    decreases |run|
  {
    if run != [] {
      StepCreates(bs, s, run[0], requests, id);
      StepRefines(s, run[0]);
      StepFromRequests(bs, s, run[0], requests);
      RunCreates(bs, Next(s, run[0]), run[1..], requests, id);
    }
  }

  /** No transaction is between a prepare and its decision on any block. */
  ghost predicate AtRest(s: State) {
    forall b :: !Held(s, b)
  }

  lemma StoredContent(s: State, files: Files, id: BlockId)
    requires StoresAll(s, files)
    ensures Content(RecordAt(s, id)) == BlockAt(FileOf(files, id.file), id.block)
    ensures RecordAt(s, id).committed.Some? <==> id.block in FileOf(files, id.file)
  {
    assert Stores(s, id.file, FileOf(files, id.file));
    assert BlockId(id.file, id.block) == id;
  }

  lemma RunStoresBlock(bs: nat, s: State, run: seq<Action>, requests: map<nat, seq<Input>>, files: Files, files': Files,
                       id: BlockId)
    requires bs > 0 && Idle(s) && ValidRun(s, run) && RunFromRequests(bs, run, requests) && AtRest(Final(s, run))
    requires StoresAll(s, files) && StoresAll(Final(s, run), files')
    ensures HistoryFromRequests(bs, History(s, run), requests)
    ensures var g := FileOf(PutHistory(bs, files, History(s, run), requests), id.file);
            var g' := FileOf(files', id.file);
            && BlockAt(g', id.block) == BlockAt(g, id.block) && (id.block in g ==> id.block in g')
            && (id.block in g' ==> id.block in FileOf(files, id.file) || Requested(bs, requests, id))
  {
    var h := History(s, run);
    assert Inv(s);
    CommitProtocolIsAtomic(s, run, id);
    RunHistoryFromRequests(bs, s, run, requests);
    StoredContent(s, files, id);
    StoredContent(Final(s, run), files', id);
    ReplayIsPutHistory(bs, files, h, requests, id, RecordAt(s, id).committedVersion);
    HistoryBlockIsNonempty(bs, files, h, requests, id.file, id.block);
    RunCreates(bs, s, run, requests, id);
  }

  /** Any run of any number of transactions: the nodes hold what the committed ones put, in
      the order of their decisions, and perhaps empty blocks that some request asked for. */
  lemma RunStoresPuts(bs: nat, s: State, run: seq<Action>, requests: map<nat, seq<Input>>, files: Files, files': Files,
                      u: Uuid)
    requires bs > 0 && Idle(s) && ValidRun(s, run) && RunFromRequests(bs, run, requests) && AtRest(Final(s, run))
    requires StoresAll(s, files) && StoresAll(Final(s, run), files')
    ensures HistoryFromRequests(bs, History(s, run), requests)
    ensures Extends(FileOf(PutHistory(bs, files, History(s, run), requests), u), FileOf(files', u))
    ensures forall b :: b in FileOf(files', u) ==> b in FileOf(files, u) || Requested(bs, requests, BlockId(u, b))
  {
    RunHistoryFromRequests(bs, s, run, requests);
    var g, g' := FileOf(PutHistory(bs, files, History(s, run), requests), u), FileOf(files', u);
    forall b: nat
      ensures BlockAt(g', b) == BlockAt(g, b) && (b in g ==> b in g')
      ensures b in g' ==> b in FileOf(files, u) || Requested(bs, requests, BlockId(u, b))
    {
      RunStoresBlock(bs, s, run, requests, files, files', BlockId(u, b));
    }
  }

  lemma OneRequest(bs: nat, inputs: seq<Input>, t: nat, u: Uuid, b: nat)
    requires bs > 0 && DistinctFiles(inputs)
    ensures Requested(bs, map[t := inputs], BlockId(u, b)) <==> WritesBlock(bs, inputs, u, b)
  {
    FindInAllWrites(bs, inputs, BlockId(u, b));
    assert t in map[t := inputs];
  }

  lemma AtMostOneEntry(bs: nat, s: State, run: seq<Action>, t: nat, inputs: seq<Input>)
    requires bs > 0 && Idle(s) && ValidRun(s, run) && RunFromRequests(bs, run, map[t := inputs])
    ensures HistoryFromRequests(bs, History(s, run), map[t := inputs]) && |History(s, run)| <= 1
  {
    var h := History(s, run);
    RunHistoryFromRequests(bs, s, run, map[t := inputs]);
    assert Inv(s);
    DecisionsAreFinal(s, run, t);
    forall i | 0 <= i < |h| ensures h[i].t == t {
      assert FromRequest(bs, h[i].t, h[i].txn, map[t := inputs]);
    }
    OnceOnly(h, t);
  }

  /** A run of one transaction ends in the files a metadata operation leaves: all its writes,
      exactly, when it committed, and otherwise the old bytes with some of its blocks created
      empty. */
  lemma OneTransaction(bs: nat, s: State, run: seq<Action>, t: nat, inputs: seq<Input>, files: Files, files': Files)
    requires bs > 0 && Idle(s) && ValidRun(s, run) && AtRest(Final(s, run))
    requires DistinctFiles(inputs) && RunFromRequests(bs, run, map[t := inputs])
    requires StoresAll(s, files) && StoresAll(Final(s, run), files')
    ensures if History(s, run) == [] then AbortOf(bs, files, files', inputs)
            else forall u :: FileOf(files', u) == FileOf(PutAll(bs, files, inputs), u)
  {
    forall u
      ensures History(s, run) == [] ==> AbortAt(bs, files, files', inputs, u)
      ensures History(s, run) != [] ==> FileOf(files', u) == FileOf(PutAll(bs, files, inputs), u)
    {
      OneTransactionAt(bs, s, run, t, inputs, files, files', u);
      if History(s, run) != [] {
        SameBlocks(bs, files, files', inputs, u);
      }
    }
  }

  lemma OneTransactionAt(bs: nat, s: State, run: seq<Action>, t: nat, inputs: seq<Input>, files: Files, files': Files,
                         u: Uuid)
    requires bs > 0 && Idle(s) && ValidRun(s, run) && AtRest(Final(s, run))
    requires DistinctFiles(inputs) && RunFromRequests(bs, run, map[t := inputs])
    requires StoresAll(s, files) && StoresAll(Final(s, run), files')
    ensures var put := if History(s, run) == [] then files else PutAll(bs, files, inputs);
            Extends(FileOf(put, u), FileOf(files', u))
    ensures forall b :: b in FileOf(files', u) && b !in FileOf(files, u) ==> WritesBlock(bs, inputs, u, b)
  {
    var h, requests := History(s, run), map[t := inputs];
    AtMostOneEntry(bs, s, run, t, inputs);
    RunStoresPuts(bs, s, run, requests, files, files', u);
    HistoryOfOne(bs, files, h, t, inputs);
    forall b: nat ensures b in FileOf(files', u) && b !in FileOf(files, u) ==> WritesBlock(bs, inputs, u, b) {
      OneRequest(bs, inputs, t, u, b);
    }
  }

  lemma HistoryOfOne(bs: nat, files: Files, h: seq<Entry>, t: nat, inputs: seq<Input>)
    requires bs > 0 && |h| <= 1 && HistoryFromRequests(bs, h, map[t := inputs])
    ensures PutHistory(bs, files, h, map[t := inputs]) == if h == [] then files else PutAll(bs, files, inputs)
  {
    if h != [] {
      assert FromRequest(bs, h[0].t, h[0].txn, map[t := inputs]);
      assert h[1..] == [];
    }
  }

  lemma SameBlocks(bs: nat, files: Files, files': Files, inputs: seq<Input>, u: Uuid)
    requires bs > 0 && DistinctFiles(inputs) && Extends(FileOf(PutAll(bs, files, inputs), u), FileOf(files', u))
    requires forall b :: b in FileOf(files', u) && b !in FileOf(files, u) ==> WritesBlock(bs, inputs, u, b)
    ensures FileOf(files', u) == FileOf(PutAll(bs, files, inputs), u)
  {
    var g, g' := FileOf(PutAll(bs, files, inputs), u), FileOf(files', u);
    forall b: nat ensures b in g' <==> b in g {
      NewBlockIsNonempty(bs, files, inputs, u, b);
    }
    forall b | b in g ensures g'[b] == g[b] {
      assert BlockAt(g', b) == BlockAt(g, b);
    }
  }
}
