/** The commit protocol between coordinators and storage nodes, one message at a time.
    Any number of transactions run at once, prepares, votes and decisions arrive in any
    order, and a prepare may be lost.  The protocol is proved to refine a store on which
    whole transactions act atomically, at the moment the last vote is counted. */
module TwoPhaseCommit {
  import opened ByteSeq
  import opened StorageKey
  import opened BlockRecord

  datatype BlockId = BlockId(file: Uuid, block: nat)

  datatype Write = Write(id: BlockId, at: nat, data: Bytes)

  /** All writes of one request, under one version number. */
  datatype Txn = Txn(version: nat, writes: seq<Write>)

  predicate DistinctBlocks(ws: seq<Write>) {
    forall i, j :: 0 <= i < j < |ws| ==> ws[i].id != ws[j].id
  }

  /** Where the messages about one block of a transaction stand: prepare sent, vote on its
      way back, vote counted, decision sent, decision applied. */
  datatype Stage = Preparing | Replied | Counted | Deciding | Applied

  datatype Slot = Slot(stage: Stage, vote: bool)

  /** A coordinator: the shared counter and flag of its callbacks, the decision once it is
      taken, and its messages. */
  datatype Coord = Coord(txn: Txn, outstanding: int, allAgree: bool, decision: Option<bool>, slots: seq<Slot>)

  datatype State = State(store: map<BlockId, Record>, coords: map<nat, Coord>)

  /** How a prepare fares: answered by the node, or failed (an error counts as a refusal)
      after or before it reached the node. */
  datatype Fate = Answered | FailedAfter | FailedBefore

  datatype Action = Start(t: nat, txn: Txn)
                  | DeliverPrepare(t: nat, i: nat, quick: bool, fate: Fate)
                  | CountVote(t: nat, i: nat)
                  | DeliverDecision(t: nat, i: nat)

  function RecordAt(s: State, b: BlockId): Record {
    if b in s.store then s.store[b] else FRESH
  }

  // ----- steps

  predicate SlotAt(s: State, t: nat, i: nat, stage: Stage) {
    && t in s.coords && i < |s.coords[t].slots| && |s.coords[t].slots| == |s.coords[t].txn.writes|
    && s.coords[t].slots[i].stage == stage
  }

  /** Transaction `t` has prepared block `b`, or failed to, and its decision is still to come. */
  predicate HeldBy(s: State, t: nat, i: nat, b: BlockId) {
    && t in s.coords && i < |s.coords[t].slots| && |s.coords[t].slots| == |s.coords[t].txn.writes|
    && s.coords[t].slots[i].stage !in {Preparing, Applied} && s.coords[t].txn.writes[i].id == b
  }

  ghost predicate Held(s: State, b: BlockId) {
    exists t, i :: HeldBy(s, t, i, b)
  }

  /** Transactions start at any time.  A prepare finds its block free: no other transaction
      is between its prepare and its decision there. */
  ghost predicate Enabled(s: State, a: Action) {
    match a
    case Start(t, txn) => t !in s.coords && DistinctBlocks(txn.writes)
    case DeliverPrepare(t, i, _, _) => SlotAt(s, t, i, Preparing) && !Held(s, s.coords[t].txn.writes[i].id)
    case CountVote(t, i) => SlotAt(s, t, i, Replied)
    case DeliverDecision(t, i) => SlotAt(s, t, i, Deciding) && s.coords[t].decision.Some?
  }

  function NewCoord(txn: Txn): Coord {
    Coord(txn, |txn.writes|, true, None, seq(|txn.writes|, _ => Slot(Preparing, false)))
  }

  function SendDecisions(slots: seq<Slot>): (r: seq<Slot>)
    ensures |r| == |slots|
    ensures forall i :: 0 <= i < |r| ==> r[i] == Slot(Deciding, slots[i].vote)
  {
    seq(|slots|, i requires 0 <= i < |slots| => Slot(Deciding, slots[i].vote))
  }

  /** The callback of a prepare reply. */
  function OnVote(c: Coord, i: nat): Coord
    requires i < |c.slots|
  {
    var agree := c.allAgree && c.slots[i].vote;
    var counted := c.slots[i := c.slots[i].(stage := Counted)];
    if c.outstanding - 1 == 0
    then Coord(c.txn, 0, agree, Some(agree), SendDecisions(counted))
    else c.(outstanding := c.outstanding - 1, allAgree := agree, slots := counted)
  }

  function PrepareOutcome(r: Record, w: Write, version: nat, quick: bool, fate: Fate): Voted {
    var v := PrepareAs(quick, r, w.at, w.data, version);
    match fate
    case Answered => v
    case FailedAfter => Voted(v.record, false)
    case FailedBefore => Voted(r, false)
  }

  function Update(s: State, t: nat, c: Coord, b: BlockId, r: Record): State {
    State(s.store[b := r], s.coords[t := c])
  }

  ghost function Next(s: State, a: Action): State
    requires Enabled(s, a)
  {
    match a
    case Start(t, txn) => s.(coords := s.coords[t := NewCoord(txn)])
    case DeliverPrepare(t, i, quick, fate) =>
      var c := s.coords[t];
      var w := c.txn.writes[i];
      var v := PrepareOutcome(RecordAt(s, w.id), w, c.txn.version, quick, fate);
      Update(s, t, c.(slots := c.slots[i := Slot(Replied, v.agree)]), w.id, v.record)
    case CountVote(t, i) =>
      s.(coords := s.coords[t := OnVote(s.coords[t], i)])
    case DeliverDecision(t, i) =>
      var c := s.coords[t];
      var w := c.txn.writes[i];
      Update(s, t, c.(slots := c.slots[i := c.slots[i].(stage := Applied)]), w.id,
             Decide(c.decision.value, RecordAt(s, w.id)))
  }

  // ----- the atomic store that the protocol refines

  /** A block as its readers see it. */
  datatype Cell = Cell(content: Bytes, version: nat)

  function CellOf(r: Record): Cell {
    Cell(Content(r), r.committedVersion)
  }

  /** A whole transaction, applied at once. */
  function ApplyTxn(c: Cell, txn: Txn, b: BlockId): Cell {
    match FindWrite(txn.writes, b)
    case None => c
    case Some(w) => Cell(Overlay(c.content, w.at, w.data), txn.version)
  }

  function FindWrite(ws: seq<Write>, b: BlockId): Option<Write> {
    if ws == [] then None else if ws[0].id == b then Some(ws[0]) else FindWrite(ws[1..], b)
  }

  lemma {:induction false} FindWriteFinds(ws: seq<Write>, b: BlockId)
    ensures FindWrite(ws, b).None? <==> forall i :: 0 <= i < |ws| ==> ws[i].id != b
    ensures FindWrite(ws, b).Some? ==> FindWrite(ws, b).value in ws && FindWrite(ws, b).value.id == b
  {
    if ws != [] && ws[0].id != b {
      FindWriteFinds(ws[1..], b);
    }
  }

  ghost predicate Committing(s: State, b: BlockId) {
    exists t, i :: HeldBy(s, t, i, b) && s.coords[t].decision == Some(true)
  }

  /** The abstract content of a block: what is committed, or what is logged when a decision
      to commit it is on its way. */
  ghost function View(s: State, b: BlockId): Cell {
    var r := RecordAt(s, b);
    if Committing(s, b) then Cell(r.pendingData, r.pendingVersion) else CellOf(r)
  }

  // ----- invariant

  /** Votes still to be counted. */
  function Open(slots: seq<Slot>): nat {
    if slots == [] then 0
    else Open(slots[..|slots| - 1]) + (if slots[|slots| - 1].stage in {Preparing, Replied} then 1 else 0)
  }

  predicate AllVotesAgree(slots: seq<Slot>) {
    forall i :: 0 <= i < |slots| ==> slots[i].vote
  }

  predicate CountedAgree(slots: seq<Slot>) {
    forall i :: 0 <= i < |slots| && slots[i].stage == Counted ==> slots[i].vote
  }

  /** The coordinator decides once, when every vote is counted, and decides the
      conjunction of all votes. */
  ghost predicate CoordInv(c: Coord) {
    && |c.slots| == |c.txn.writes|
    && DistinctBlocks(c.txn.writes)
    && match c.decision
       case None =>
         && c.outstanding == Open(c.slots)
         && (c.slots != [] ==> c.outstanding > 0)
         && (forall i :: 0 <= i < |c.slots| ==> c.slots[i].stage in {Preparing, Replied, Counted})
         && (c.allAgree <==> CountedAgree(c.slots))
       case Some(d) =>
         && (forall i :: 0 <= i < |c.slots| ==> c.slots[i].stage in {Deciding, Applied})
         && (d <==> AllVotesAgree(c.slots))
  }

  predicate LoggedFor(r: Record, w: Write, version: nat) {
    r.committed.Some? && r.pendingVersion == version && r.pendingData == Overlay(Content(r), w.at, w.data)
  }

  /** The record of a held block: after an agreeing vote and while a commit is under way it
      logs the transaction's merged block. */
  predicate BlockInv(r: Record, c: Coord, i: nat)
    requires i < |c.slots| == |c.txn.writes|
  {
    match c.slots[i].stage
    case Preparing => true
    case Replied => c.slots[i].vote ==> LoggedFor(r, c.txn.writes[i], c.txn.version)
    case Counted => c.slots[i].vote ==> LoggedFor(r, c.txn.writes[i], c.txn.version)
    case Deciding => c.decision == Some(true) ==> LoggedFor(r, c.txn.writes[i], c.txn.version)
    case Applied => true
  }

  predicate Sane(r: Record) {
    r.committed.None? ==> r.committedVersion == 0
  }

  ghost predicate CoordsInv(s: State) {
    forall t :: t in s.coords ==> CoordInv(s.coords[t])
  }

  ghost predicate Exclusive(s: State) {
    forall t, i, t', i', b :: HeldBy(s, t, i, b) && HeldBy(s, t', i', b) ==> t == t' && i == i'
  }

  ghost predicate BlocksInv(s: State) {
    && (forall t, i, b :: HeldBy(s, t, i, b) ==> BlockInv(RecordAt(s, b), s.coords[t], i))
    && (forall b :: !Held(s, b) ==> !HavePending(RecordAt(s, b)))
    && (forall b :: Sane(RecordAt(s, b)))
  }

  ghost predicate Inv(s: State) {
    CoordsInv(s) && Exclusive(s) && BlocksInv(s)
  }

  // ----- counting

  lemma {:induction false} OpenOfUpdate(slots: seq<Slot>, i: nat, slot: Slot)
    requires i < |slots|
    ensures Open(slots[i := slot]) ==
            Open(slots) - (if slots[i].stage in {Preparing, Replied} then 1 else 0)
                        + (if slot.stage in {Preparing, Replied} then 1 else 0)
    decreases |slots|
  {
    var n := |slots| - 1;
    var changed := slots[i := slot];
    if i == n {
      assert changed[..n] == slots[..n];
    } else {
      assert changed[..n] == slots[..n][i := slot];
      OpenOfUpdate(slots[..n], i, slot);
    }
  }

  lemma {:induction false} OpenZero(slots: seq<Slot>)
    requires Open(slots) == 0
    ensures forall i :: 0 <= i < |slots| ==> slots[i].stage !in {Preparing, Replied}
    decreases |slots|
  {
    if slots != [] {
      OpenZero(slots[..|slots| - 1]);
    }
  }

  lemma {:induction false} OpenAll(slots: seq<Slot>)
    requires forall i :: 0 <= i < |slots| ==> slots[i].stage == Preparing
    ensures Open(slots) == |slots|
    decreases |slots|
  {
    if slots != [] {
      OpenAll(slots[..|slots| - 1]);
    }
  }

  // ----- every step keeps the invariant and refines the atomic store

  lemma CommittingHolder(s: State, t: nat, i: nat, b: BlockId)
    requires Exclusive(s) && HeldBy(s, t, i, b)
    ensures Committing(s, b) <==> s.coords[t].decision == Some(true)
  {
    if Committing(s, b) {
      var t', i' :| HeldBy(s, t', i', b) && s.coords[t'].decision == Some(true);
      assert t' == t;
    }
  }

  lemma StartKeepsInv(s: State, t: nat, txn: Txn)
    requires Inv(s) && Enabled(s, Start(t, txn))
    ensures Inv(Next(s, Start(t, txn)))
    ensures forall b :: View(Next(s, Start(t, txn)), b) == View(s, b)
  {
    var s' := Next(s, Start(t, txn));
    OpenAll(NewCoord(txn).slots);
    assert forall b :: RecordAt(s', b) == RecordAt(s, b);
    assert forall t', i, b :: HeldBy(s', t', i, b) <==> HeldBy(s, t', i, b);
    SameHolders(s, s');
    forall t', j, b | HeldBy(s', t', j, b)
      ensures BlockInv(RecordAt(s', b), s'.coords[t'], j)
    {
      assert HeldBy(s, t', j, b);
    }
  }

  /** A step that changes the coordinator `t` in its slot `i` and the record of that
      slot's block, without releasing the block or taking a decision. */
  ghost predicate QuietStep(s: State, t: nat, i: nat, c: Coord, r: Record) {
    && t in s.coords && i < |s.coords[t].slots| && i < |c.slots|
    && c.txn == s.coords[t].txn && c.decision == s.coords[t].decision == None && CoordInv(c)
    && (forall j :: 0 <= j < |c.slots| && j != i ==> j < |s.coords[t].slots| && c.slots[j] == s.coords[t].slots[j])
    && s.coords[t].slots[i].stage !in {Preparing, Applied} && c.slots[i].stage !in {Preparing, Applied}
    && BlockInv(r, c, i) && Sane(r) && CellOf(r) == CellOf(RecordAt(s, c.txn.writes[i].id))
  }

  /** The state after such a step. */
  ghost predicate Changed(s: State, s': State, t: nat, c: Coord, b: BlockId, r: Record) {
    && s'.coords == s.coords[t := c]
    && forall b' :: RecordAt(s', b') == if b' == b then r else RecordAt(s, b')
  }

  lemma QuietStepHolders(s: State, s': State, t: nat, i: nat, c: Coord, r: Record)
    requires Inv(s) && QuietStep(s, t, i, c, r) && Changed(s, s', t, c, c.txn.writes[i].id, r)
    ensures forall t', j, b :: HeldBy(s, t', j, b) <==> HeldBy(s', t', j, b)
  {
    assert CoordInv(s.coords[t]);
    forall t': nat, j: nat, b
      ensures HeldBy(s, t', j, b) <==> HeldBy(s', t', j, b)
    {
      if t' == t && j != i && j < |c.slots| {
        assert c.slots[j] == s.coords[t].slots[j];
      }
    }
  }

  lemma QuietStepBlock(s: State, s': State, t: nat, i: nat, c: Coord, r: Record, t': nat, j: nat, b: BlockId)
    requires Inv(s) && QuietStep(s, t, i, c, r) && HeldBy(s, t', j, b)
    requires HeldBy(s, t, i, c.txn.writes[i].id) && Changed(s, s', t, c, c.txn.writes[i].id, r)
    ensures j < |s'.coords[t'].slots| == |s'.coords[t'].txn.writes|
    ensures BlockInv(RecordAt(s', b), s'.coords[t'], j)
  {
    assert CoordInv(s.coords[t]);
    assert BlockInv(RecordAt(s, b), s.coords[t'], j);
    if b == c.txn.writes[i].id {
      assert t' == t && j == i;
    } else if t' == t {
      assert j != i;
    }
  }

  lemma QuietStepKeepsInv(s: State, s': State, t: nat, i: nat, c: Coord, r: Record)
    requires Inv(s) && QuietStep(s, t, i, c, r) && Changed(s, s', t, c, c.txn.writes[i].id, r)
    ensures Inv(s')
    ensures forall b :: View(s', b) == View(s, b)
  {
    var w := c.txn.writes[i].id;
    QuietStepHolders(s, s', t, i, c, r);
    assert CoordInv(s.coords[t]);
    assert HeldBy(s, t, i, w);
    assert Exclusive(s');
    SameHolders(s, s');
    CommittingHolder(s, t, i, w);
    forall t', j, b | HeldBy(s', t', j, b)
      ensures BlockInv(RecordAt(s', b), s'.coords[t'], j)
    {
      QuietStepBlock(s, s', t, i, c, r, t', j, b);
    }
  }

  lemma SameHolders(s: State, s': State)
    requires forall t, i, b :: HeldBy(s, t, i, b) <==> HeldBy(s', t, i, b)
    requires forall t :: t in s.coords && t in s'.coords ==> s.coords[t].decision == s'.coords[t].decision
    ensures forall b :: Held(s, b) <==> Held(s', b)
    ensures forall b :: Committing(s, b) <==> Committing(s', b)
  {
    forall b
      ensures Held(s, b) <==> Held(s', b)
      ensures Committing(s, b) <==> Committing(s', b)
    {
      if Held(s, b) {
        var t, i :| HeldBy(s, t, i, b);
        assert HeldBy(s', t, i, b);
      }
      if Held(s', b) {
        var t, i :| HeldBy(s', t, i, b);
        assert HeldBy(s, t, i, b);
      }
      if Committing(s, b) {
        var t, i :| HeldBy(s, t, i, b) && s.coords[t].decision == Some(true);
        assert HeldBy(s', t, i, b);
      }
      if Committing(s', b) {
        var t, i :| HeldBy(s', t, i, b) && s'.coords[t].decision == Some(true);
        assert HeldBy(s, t, i, b);
      }
    }
  }

  /** A prepare changes neither the content nor the version that readers see, and an
      agreeing vote means the merged block is logged. */
  lemma PrepareKeepsCell(r: Record, w: Write, version: nat, quick: bool, fate: Fate)
    requires !HavePending(r) && Sane(r)
    ensures var v := PrepareOutcome(r, w, version, quick, fate);
            && CellOf(v.record) == CellOf(r) && Sane(v.record)
            && (v.agree ==> LoggedFor(v.record, w, version))
  {
  }

  lemma PrepareKeepsCoord(c: Coord, i: nat, vote: bool)
    requires CoordInv(c) && i < |c.slots| && c.slots[i].stage == Preparing
    ensures c.decision == None
    ensures CoordInv(c.(slots := c.slots[i := Slot(Replied, vote)]))
  {
    var slots := c.slots[i := Slot(Replied, vote)];
    OpenOfUpdate(c.slots, i, Slot(Replied, vote));
    AgreementOfUpdate(c.slots, i, Slot(Replied, vote));
  }

  /** Marking a vote that was not counted before. */
  lemma AgreementOfUpdate(slots: seq<Slot>, i: nat, slot: Slot)
    requires i < |slots| && slots[i].stage in {Preparing, Replied}
    ensures CountedAgree(slots[i := slot]) <==> CountedAgree(slots) && (slot.stage == Counted ==> slot.vote)
  {
    var changed := slots[i := slot];
    assert forall j :: 0 <= j < |slots| && j != i ==> changed[j] == slots[j];
    assert changed[i] == slot;
    if CountedAgree(changed) {
      assert forall j :: 0 <= j < |slots| && slots[j].stage == Counted ==> j != i && changed[j].vote;
    }
  }

  lemma PrepareKeepsInv(s: State, t: nat, i: nat, quick: bool, fate: Fate)
    requires Inv(s) && Enabled(s, DeliverPrepare(t, i, quick, fate))
    ensures Inv(Next(s, DeliverPrepare(t, i, quick, fate)))
    ensures forall b :: View(Next(s, DeliverPrepare(t, i, quick, fate)), b) == View(s, b)
  {
    var s' := Next(s, DeliverPrepare(t, i, quick, fate));
    var c := s.coords[t];
    var w := c.txn.writes[i];
    var v := PrepareOutcome(RecordAt(s, w.id), w, c.txn.version, quick, fate);
    PrepareKeepsCell(RecordAt(s, w.id), w, c.txn.version, quick, fate);
    PreparedKeepsInv(s, s', t, i, v);
  }

  lemma PreparedKeepsInv(s: State, s': State, t: nat, i: nat, v: Voted)
    requires Inv(s) && SlotAt(s, t, i, Preparing) && !Held(s, s.coords[t].txn.writes[i].id)
    requires var c := s.coords[t];
             && CellOf(v.record) == CellOf(RecordAt(s, c.txn.writes[i].id)) && Sane(v.record)
             && (v.agree ==> LoggedFor(v.record, c.txn.writes[i], c.txn.version))
             && s' == Update(s, t, c.(slots := c.slots[i := Slot(Replied, v.agree)]), c.txn.writes[i].id, v.record)
    ensures Inv(s')
    ensures forall b :: View(s', b) == View(s, b)
  {
    var w := s.coords[t].txn.writes[i].id;
    PrepareKeepsCoord(s.coords[t], i, v.agree);
    PrepareTakesBlock(s, s', t, i, v);
    assert forall b :: b != w ==> RecordAt(s', b) == RecordAt(s, b);
    forall t', j, b | HeldBy(s', t', j, b)
      ensures BlockInv(RecordAt(s', b), s'.coords[t'], j)
    {
      assert b != w ==> HeldBy(s, t', j, b);
    }
  }

  /** After its prepare a transaction holds the block, and nothing else has changed hands. */
  lemma PrepareTakesBlock(s: State, s': State, t: nat, i: nat, v: Voted)
    requires CoordsInv(s) && Exclusive(s) && SlotAt(s, t, i, Preparing) && !Held(s, s.coords[t].txn.writes[i].id)
    requires var c := s.coords[t];
             s' == Update(s, t, c.(slots := c.slots[i := Slot(Replied, v.agree)]), c.txn.writes[i].id, v.record)
    ensures var w := s.coords[t].txn.writes[i].id;
            && (forall t', j, b :: HeldBy(s', t', j, b) <==> HeldBy(s, t', j, b) || (t' == t && j == i && b == w))
            && Exclusive(s') && Held(s', w) && !Committing(s', w)
            && (forall b :: b != w ==> (Held(s, b) <==> Held(s', b)))
            && (forall b :: Committing(s, b) <==> Committing(s', b))
  {
    var c := s.coords[t];
    var w := c.txn.writes[i].id;
    assert CoordInv(c) && c.decision == None;
    assert forall t', j, b :: HeldBy(s', t', j, b) <==> HeldBy(s, t', j, b) || (t' == t && j == i && b == w);
    assert HeldBy(s', t, i, w);
    assert Exclusive(s');
    forall b
      ensures b != w ==> (Held(s, b) <==> Held(s', b))
      ensures Committing(s, b) <==> Committing(s', b)
    {
      if b != w && Held(s, b) {
        var t', j :| HeldBy(s, t', j, b);
        assert HeldBy(s', t', j, b);
      }
      if Committing(s, b) {
        var t', j :| HeldBy(s, t', j, b) && s.coords[t'].decision == Some(true);
        assert HeldBy(s', t', j, b);
      }
    }
  }

  /** Counting a vote: all votes but the last leave the transaction undecided, the last one
      decides the conjunction of all of them. */
  lemma VoteKeepsCoord(c: Coord, i: nat)
    requires CoordInv(c) && i < |c.slots| && c.slots[i].stage == Replied
    ensures c.decision == None && CoordInv(OnVote(c, i))
    ensures c.outstanding != 1 ==> OnVote(c, i).decision == None
    ensures c.outstanding == 1 ==> OnVote(c, i).decision == Some(AllVotesAgree(c.slots))
  {
    var slot := c.slots[i].(stage := Counted);
    var counted := c.slots[i := slot];
    OpenOfUpdate(c.slots, i, slot);
    AgreementOfUpdate(c.slots, i, slot);
    if c.outstanding == 1 {
      OpenZero(counted);
      LastVoteCounts(c.slots, counted);
    }
  }

  lemma LastVoteCounts(slots: seq<Slot>, counted: seq<Slot>)
    requires |slots| == |counted|
    requires forall j :: 0 <= j < |slots| ==> counted[j].vote == slots[j].vote
    requires forall j :: 0 <= j < |slots| ==> counted[j].stage == Counted
    ensures CountedAgree(counted) <==> AllVotesAgree(slots)
    ensures AllVotesAgree(SendDecisions(counted)) <==> AllVotesAgree(slots)
  {
    if AllVotesAgree(SendDecisions(counted)) {
      assert forall j :: 0 <= j < |slots| ==> SendDecisions(counted)[j].vote;
    }
  }

  lemma VoteKeepsInv(s: State, t: nat, i: nat)
    requires Inv(s) && Enabled(s, CountVote(t, i)) && s.coords[t].outstanding != 1
    ensures Inv(Next(s, CountVote(t, i)))
    ensures forall b :: View(Next(s, CountVote(t, i)), b) == View(s, b)
  {
    var c := s.coords[t];
    VoteKeepsCoord(c, i);
    assert HeldBy(s, t, i, c.txn.writes[i].id);
    QuietStepKeepsInv(s, Next(s, CountVote(t, i)), t, i, OnVote(c, i), RecordAt(s, c.txn.writes[i].id));
  }

  lemma NoPrepareLeft(c: Coord, i: nat)
    requires CoordInv(c) && i < |c.slots| && c.slots[i].stage == Replied && c.outstanding == 1
    ensures forall j :: 0 <= j < |c.slots| ==> c.slots[j].stage in {Replied, Counted}
  {
    var counted := c.slots[i := c.slots[i].(stage := Counted)];
    OpenOfUpdate(c.slots, i, c.slots[i].(stage := Counted));
    OpenZero(counted);
    forall j | 0 <= j < |c.slots|
      ensures c.slots[j].stage in {Replied, Counted}
    {
      assert counted[j].stage !in {Preparing, Replied};
    }
  }

  /** The last vote: the decision is taken, and with a commit the whole transaction takes
      effect at once in the atomic store. */
  lemma LastVoteHolders(s: State, t: nat, i: nat)
    requires Inv(s) && Enabled(s, CountVote(t, i)) && s.coords[t].outstanding == 1
    ensures var s' := Next(s, CountVote(t, i));
            && (forall t', j, b :: HeldBy(s, t', j, b) <==> HeldBy(s', t', j, b))
            && (forall b :: Held(s, b) <==> Held(s', b))
            && CoordsInv(s') && Exclusive(s')
            && forall b :: RecordAt(s', b) == RecordAt(s, b)
  {
    var s' := Next(s, CountVote(t, i));
    var c := s.coords[t];
    VoteKeepsCoord(c, i);
    NoPrepareLeft(c, i);
    assert forall t', j, b :: HeldBy(s, t', j, b) <==> HeldBy(s', t', j, b);
    forall b
      ensures Held(s, b) <==> Held(s', b)
    {
      if Held(s, b) {
        var t', j :| HeldBy(s, t', j, b);
        assert HeldBy(s', t', j, b);
      }
      if Held(s', b) {
        var t', j :| HeldBy(s', t', j, b);
        assert HeldBy(s, t', j, b);
      }
    }
  }

  lemma AgreedBlockIsLogged(s: State, t: nat, i: nat, j: nat)
    requires Inv(s) && Enabled(s, CountVote(t, i)) && s.coords[t].outstanding == 1
    requires j < |s.coords[t].slots| && s.coords[t].slots[j].vote
    ensures LoggedFor(RecordAt(s, s.coords[t].txn.writes[j].id), s.coords[t].txn.writes[j], s.coords[t].txn.version)
  {
    var c := s.coords[t];
    NoPrepareLeft(c, i);
    assert HeldBy(s, t, j, c.txn.writes[j].id);
  }

  lemma LastVoteKeepsInv(s: State, t: nat, i: nat)
    requires Inv(s) && Enabled(s, CountVote(t, i)) && s.coords[t].outstanding == 1
    ensures Inv(Next(s, CountVote(t, i)))
  {
    var s' := Next(s, CountVote(t, i));
    var c := s.coords[t];
    VoteKeepsCoord(c, i);
    LastVoteHolders(s, t, i);
    forall t': nat, j: nat, b | HeldBy(s', t', j, b)
      ensures BlockInv(RecordAt(s', b), s'.coords[t'], j)
    {
      assert HeldBy(s, t', j, b);
      if t' == t && c.slots[j].vote {
        AgreedBlockIsLogged(s, t, i, j);
      }
    }
  }

  lemma LastVoteAppliesTxn(s: State, t: nat, i: nat, b: BlockId)
    requires Inv(s) && Enabled(s, CountVote(t, i)) && s.coords[t].outstanding == 1
    ensures var d := OnVote(s.coords[t], i).decision;
            View(Next(s, CountVote(t, i)), b) ==
            if d == Some(true) then ApplyTxn(View(s, b), s.coords[t].txn, b) else View(s, b)
  {
    var s' := Next(s, CountVote(t, i));
    var c := s.coords[t];
    var d := OnVote(c, i).decision;
    VoteKeepsCoord(c, i);
    LastVoteHolders(s, t, i);
    if w :| w in c.txn.writes && w.id == b {
      var j :| 0 <= j < |c.txn.writes| && c.txn.writes[j] == w;
      NoPrepareLeft(c, i);
      assert HeldBy(s, t, j, b) && HeldBy(s', t, j, b);
      CommittingHolder(s, t, j, b);
      CommittingHolder(s', t, j, b);
      if d == Some(true) {
        AgreedBlockIsLogged(s, t, i, j);
        UniqueWrite(c.txn.writes, j);
      }
    } else {
      FindWriteFinds(c.txn.writes, b);
      assert forall j :: !HeldBy(s, t, j, b);
      if Committing(s, b) {
        var t', j :| HeldBy(s, t', j, b) && s.coords[t'].decision == Some(true);
        assert HeldBy(s', t', j, b);
      }
      if Committing(s', b) {
        var t', j :| HeldBy(s', t', j, b) && s'.coords[t'].decision == Some(true);
        assert HeldBy(s, t', j, b);
      }
    }
  }

  lemma UniqueWrite(ws: seq<Write>, j: nat)
    requires DistinctBlocks(ws) && j < |ws|
    ensures FindWrite(ws, ws[j].id) == Some(ws[j])
  {
    FindWriteFinds(ws, ws[j].id);
    var f := FindWrite(ws, ws[j].id);
    var k :| 0 <= k < |ws| && ws[k] == f.value;
    assert k == j;
  }

  lemma ApplyKeepsCoord(c: Coord, i: nat)
    requires CoordInv(c) && i < |c.slots| && c.slots[i].stage == Deciding
    ensures CoordInv(c.(slots := c.slots[i := c.slots[i].(stage := Applied)]))
  {
    var slots := c.slots[i := c.slots[i].(stage := Applied)];
    assert forall j :: 0 <= j < |slots| ==> slots[j].vote == c.slots[j].vote;
    assert AllVotesAgree(slots) <==> AllVotesAgree(c.slots);
  }

  /** Applying a decision to a block releases it with the content readers already saw. */
  lemma DecisionKeepsInv(s: State, t: nat, i: nat)
    requires Inv(s) && Enabled(s, DeliverDecision(t, i))
    ensures Inv(Next(s, DeliverDecision(t, i)))
    ensures forall b :: View(Next(s, DeliverDecision(t, i)), b) == View(s, b)
  {
    var s' := Next(s, DeliverDecision(t, i));
    var c := s.coords[t];
    var w := c.txn.writes[i].id;
    assert CoordInv(c) && HeldBy(s, t, i, w) && BlockInv(RecordAt(s, w), c, i) && Sane(RecordAt(s, w));
    ApplyKeepsCoord(c, i);
    CommittingHolder(s, t, i, w);
    DecisionHolders(s, t, i);
    assert forall b :: RecordAt(s', b) == if b == w then Decide(c.decision.value, RecordAt(s, w)) else RecordAt(s, b);
    forall t', j, b | HeldBy(s', t', j, b)
      ensures BlockInv(RecordAt(s', b), s'.coords[t'], j)
    {
      assert HeldBy(s, t', j, b);
    }
  }

  lemma DecisionHolders(s: State, t: nat, i: nat)
    requires Inv(s) && Enabled(s, DeliverDecision(t, i))
    ensures var s' := Next(s, DeliverDecision(t, i));
            var w := s.coords[t].txn.writes[i].id;
            && (forall t', j, b :: HeldBy(s', t', j, b) <==> HeldBy(s, t', j, b) && b != w)
            && !Held(s', w) && !Committing(s', w)
            && (forall b :: b != w ==> (Held(s, b) <==> Held(s', b)))
            && (forall b :: b != w ==> (Committing(s, b) <==> Committing(s', b)))
  {
    var s' := Next(s, DeliverDecision(t, i));
    var c := s.coords[t];
    var w := c.txn.writes[i].id;
    assert CoordInv(c) && HeldBy(s, t, i, w);
    assert forall t', j, b :: HeldBy(s', t', j, b) <==> HeldBy(s, t', j, b) && b != w;
    forall b | b != w
      ensures Held(s, b) <==> Held(s', b)
      ensures Committing(s, b) <==> Committing(s', b)
    {
      if Held(s, b) {
        var t', j :| HeldBy(s, t', j, b);
        assert HeldBy(s', t', j, b);
      }
      if Committing(s, b) {
        var t', j :| HeldBy(s, t', j, b) && s.coords[t'].decision == Some(true);
        assert HeldBy(s', t', j, b);
      }
    }
  }

  // ----- whole runs

  /** The transaction that a step commits, if it is the one that counts a last vote. */
  ghost function Effect(s: State, a: Action): seq<Entry>
    requires Enabled(s, a)
  {
    if a.CountVote? && s.coords[a.t].outstanding == 1 && OnVote(s.coords[a.t], a.i).decision == Some(true)
    then [Entry(a.t, s.coords[a.t].txn)] else []
  }

  datatype Entry = Entry(t: nat, txn: Txn)

  /** The transactions applied to a cell, one after another. */
  function Replay(c: Cell, h: seq<Entry>, b: BlockId): Cell
    decreases |h|
  {
    if h == [] then c else Replay(ApplyTxn(c, h[0].txn, b), h[1..], b)
  }

  lemma StepRefines(s: State, a: Action)
    requires Inv(s) && Enabled(s, a)
    ensures Inv(Next(s, a))
    ensures forall b :: View(Next(s, a), b) == Replay(View(s, b), Effect(s, a), b)
  {
    match a
    case Start(t, txn) => StartKeepsInv(s, t, txn);
    case DeliverPrepare(t, i, quick, fate) => PrepareKeepsInv(s, t, i, quick, fate);
    case DeliverDecision(t, i) => DecisionKeepsInv(s, t, i);
    case CountVote(t, i) =>
      if s.coords[t].outstanding == 1 {
        LastVoteKeepsInv(s, t, i);
        forall b
          ensures View(Next(s, a), b) == Replay(View(s, b), Effect(s, a), b)
        {
          LastVoteAppliesTxn(s, t, i, b);
        }
      } else {
        VoteKeepsInv(s, t, i);
      }
  }

  ghost predicate ValidRun(s: State, run: seq<Action>)
    decreases |run|
  {
    run == [] || (Enabled(s, run[0]) && ValidRun(Next(s, run[0]), run[1..]))
  }

  ghost function Final(s: State, run: seq<Action>): State
    requires ValidRun(s, run)
    decreases |run|
  {
    if run == [] then s else Final(Next(s, run[0]), run[1..])
  }

  /** The committed transactions of a run, in the order of their decisions. */
  ghost function History(s: State, run: seq<Action>): seq<Entry>
    requires ValidRun(s, run)
    decreases |run|
  {
    if run == [] then [] else Effect(s, run[0]) + History(Next(s, run[0]), run[1..])
  }

  lemma {:induction false} ReplayAppend(c: Cell, h: seq<Entry>, h': seq<Entry>, b: BlockId)
    ensures Replay(c, h + h', b) == Replay(Replay(c, h, b), h', b)
    decreases |h|
  {
    if h == [] {
      assert h + h' == h';
    } else {
      assert (h + h')[1..] == h[1..] + h';
      ReplayAppend(ApplyTxn(c, h[0].txn, b), h[1..], h', b);
    }
  }

  lemma {:induction false} RunRefines(s: State, run: seq<Action>)
    requires Inv(s) && ValidRun(s, run)
    ensures Inv(Final(s, run))
    ensures forall b :: View(Final(s, run), b) == Replay(View(s, b), History(s, run), b)
    decreases |run|
  {
    if run != [] {
      var s' := Next(s, run[0]);
      StepRefines(s, run[0]);
      RunRefines(s', run[1..]);
      forall b
        ensures View(Final(s, run), b) == Replay(View(s, b), History(s, run), b)
      {
        ReplayAppend(View(s, b), Effect(s, run[0]), History(s', run[1..]), b);
      }
    }
  }

  /** A store on which nothing is under way. */
  ghost predicate Idle(s: State) {
    s.coords == map[] && forall b :: !HavePending(RecordAt(s, b)) && Sane(RecordAt(s, b))
  }

  /** Two-phase commit refines atomic transactions.  Whatever the order in which messages
      arrive, every block that no transaction holds at the end of a run has the content
      and version it would have if the committed transactions had run one by one, each
      at once, in the order of their decisions.  And it has no pending log. */
  lemma CommitProtocolIsAtomic(s: State, run: seq<Action>, b: BlockId)
    requires Idle(s) && ValidRun(s, run) && !Held(Final(s, run), b)
    ensures CellOf(RecordAt(Final(s, run), b)) == Replay(CellOf(RecordAt(s, b)), History(s, run), b)
    ensures !HavePending(RecordAt(Final(s, run), b))
  {
    assert Inv(s);
    RunRefines(s, run);
    assert !Committing(s, b);
    assert View(Final(s, run), b) == Replay(View(s, b), History(s, run), b);
    var f := Final(s, run);
    assert !Committing(f, b);
  }

  /** No block takes new data unless every block of its transaction voted to agree: the
      only step that changes a content is the delivery of an agreed commit, and it
      merges exactly the transaction's own data into the block. */
  lemma ContentChangesOnlyWhenAllAgree(s: State, a: Action, b: BlockId)
    requires Inv(s) && Enabled(s, a)
    requires Content(RecordAt(Next(s, a), b)) != Content(RecordAt(s, b))
    ensures a.DeliverDecision? && s.coords[a.t].decision == Some(true)
    ensures AllVotesAgree(s.coords[a.t].slots)
    ensures a.i < |s.coords[a.t].txn.writes|
    ensures var w := s.coords[a.t].txn.writes[a.i];
            w.id == b && Content(RecordAt(Next(s, a), b)) == Overlay(Content(RecordAt(s, b)), w.at, w.data)
  {
    if a.DeliverPrepare? {
      var c := s.coords[a.t];
      var w := c.txn.writes[a.i];
      PrepareKeepsCell(RecordAt(s, w.id), w, c.txn.version, a.quick, a.fate);
    } else if a.DeliverDecision? {
      var w := s.coords[a.t].txn.writes[a.i].id;
      assert HeldBy(s, a.t, a.i, w);
    }
  }

  ghost predicate Decided(s: State, t: nat, d: bool) {
    t in s.coords && s.coords[t].decision == Some(d)
  }

  predicate Mentions(h: seq<Entry>, t: nat) {
    exists i :: 0 <= i < |h| && h[i].t == t
  }

  /** A transaction is in the history exactly when its coordinator decided to commit,
      and it is there once; a decision never changes. */
  lemma {:induction false} DecisionsAreFinal(s: State, run: seq<Action>, t: nat)
    requires Inv(s) && ValidRun(s, run)
    ensures forall d :: Decided(s, t, d) ==> Decided(Final(s, run), t, d)
    ensures Decided(Final(s, run), t, true) <==> Decided(s, t, true) || Mentions(History(s, run), t)
    ensures Decided(s, t, true) ==> !Mentions(History(s, run), t)
    ensures MentionsOnce(History(s, run), t)
    decreases |run|
  {
    if run != [] {
      var s' := Next(s, run[0]);
      StepRefines(s, run[0]);
      StepDecides(s, run[0], t);
      DecisionsAreFinal(s', run[1..], t);
      MentionsAppend(Effect(s, run[0]), History(s', run[1..]), t);
    }
  }

  predicate MentionsOnce(h: seq<Entry>, t: nat) {
    forall i, j :: 0 <= i < j < |h| && h[i].t == t ==> h[j].t != t
  }

  lemma OnceOnly(h: seq<Entry>, t: nat)
    requires MentionsOnce(h, t)
    ensures |h| >= 2 ==> h[0].t != t || h[1].t != t
  {
  }

  lemma MentionsAppend(e: seq<Entry>, h: seq<Entry>, t: nat)
    requires |e| <= 1
    ensures Mentions(e + h, t) <==> Mentions(e, t) || Mentions(h, t)
    ensures MentionsOnce(e + h, t) <==> MentionsOnce(h, t) && !(Mentions(e, t) && Mentions(h, t))
  {
    var eh := e + h;
    assert forall i :: 0 <= i < |h| ==> h[i] == eh[|e| + i];
    assert forall i :: 0 <= i < |e| ==> e[i] == eh[i];
    assert forall i :: |e| <= i < |eh| ==> eh[i] == h[i - |e|];
  }

  lemma StepDecides(s: State, a: Action, t: nat)
    requires Inv(s) && Enabled(s, a)
    ensures forall d :: Decided(s, t, d) ==> Decided(Next(s, a), t, d)
    ensures Decided(Next(s, a), t, true) <==> Decided(s, t, true) || Mentions(Effect(s, a), t)
    ensures Decided(s, t, true) ==> !Mentions(Effect(s, a), t)
    ensures |Effect(s, a)| <= 1
  {
    if a.CountVote? {
      VoteKeepsCoord(s.coords[a.t], a.i);
      if Effect(s, a) != [] {
        assert Effect(s, a)[0].t == a.t;
      }
    }
  }

  // ----- the order of disjoint transactions does not matter

  predicate Touches(txn: Txn, b: BlockId) {
    FindWrite(txn.writes, b).Some?
  }

  ghost predicate PairwiseDisjoint(h: seq<Entry>) {
    forall i, j, b :: 0 <= i < j < |h| && Touches(h[i].txn, b) ==> !Touches(h[j].txn, b)
  }

  predicate DistinctEntries(h: seq<Entry>) {
    forall i, j :: 0 <= i < j < |h| ==> h[i] != h[j]
  }

  lemma {:induction false} ReplayUntouched(c: Cell, h: seq<Entry>, b: BlockId)
    requires forall i :: 0 <= i < |h| ==> !Touches(h[i].txn, b)
    ensures Replay(c, h, b) == c
    decreases |h|
  {
    if h != [] {
      assert !Touches(h[0].txn, b);
      ReplayUntouched(c, h[1..], b);
    }
  }

  lemma ReplayOnce(c: Cell, h: seq<Entry>, k: nat, b: BlockId)
    requires k < |h| && forall i :: 0 <= i < |h| && i != k ==> !Touches(h[i].txn, b)
    ensures Replay(c, h, b) == ApplyTxn(c, h[k].txn, b)
  {
    assert h == h[..k] + ([h[k]] + h[k + 1..]);
    ReplayAppend(c, h[..k], [h[k]] + h[k + 1..], b);
    ReplayUntouched(c, h[..k], b);
    ReplayAppend(c, [h[k]], h[k + 1..], b);
    assert [h[k]][1..] == [];
    ReplayUntouched(ApplyTxn(c, h[k].txn, b), h[k + 1..], b);
  }

  /** Transactions over pairwise disjoint blocks are serialisable in every order: any
      reordering of the history replays to the same store. */
  lemma DisjointTxnsCommute(c: Cell, h: seq<Entry>, h': seq<Entry>, b: BlockId)
    requires PairwiseDisjoint(h) && DistinctEntries(h) && DistinctEntries(h')
    requires forall e :: e in h <==> e in h'
    ensures Replay(c, h, b) == Replay(c, h', b)
  {
    if k :| 0 <= k < |h| && Touches(h[k].txn, b) {
      assert h[k] in h';
      var k' :| 0 <= k' < |h'| && h'[k'] == h[k];
      forall j | 0 <= j < |h'| && j != k'
        ensures !Touches(h'[j].txn, b)
      {
        assert h'[j] in h;
        var i :| 0 <= i < |h| && h[i] == h'[j];
        assert i != k;
        var lo, hi := Min(i, k), Max(i, k);
        assert Touches(h[lo].txn, b) ==> !Touches(h[hi].txn, b);
      }
      ReplayOnce(c, h, k, b);
      ReplayOnce(c, h', k', b);
    } else {
      forall j | 0 <= j < |h'|
        ensures !Touches(h'[j].txn, b)
      {
        assert h'[j] in h;
      }
      ReplayUntouched(c, h, b);
      ReplayUntouched(c, h', b);
    }
  }

  /** The interleaved run of transactions that turn out pairwise disjoint ends in the
      store of any serial execution of the committed ones. */
  lemma InterleavingIsSerialisable(s: State, run: seq<Action>, serial: seq<Entry>, b: BlockId)
    requires Idle(s) && ValidRun(s, run) && !Held(Final(s, run), b)
    requires PairwiseDisjoint(History(s, run)) && DistinctEntries(serial)
    requires forall e :: e in serial <==> e in History(s, run)
    ensures CellOf(RecordAt(Final(s, run), b)) == Replay(CellOf(RecordAt(s, b)), serial, b)
  {
    CommitProtocolIsAtomic(s, run, b);
    var h := History(s, run);
    forall i, j | 0 <= i < j < |h|
      ensures h[i] != h[j]
    {
      DecisionsAreFinal(s, run, h[i].t);
    }
    DisjointTxnsCommute(CellOf(RecordAt(s, b)), h, serial, b);
  }

  // ----- quick prepare

  /** In every state the protocol reaches, the quick prepare and the full prepare of the
      same message give the same vote and the same record. */
  lemma QuickPrepareIsFull(s: State, t: nat, i: nat, fate: Fate)
    requires Inv(s) && Enabled(s, DeliverPrepare(t, i, true, fate))
    ensures Next(s, DeliverPrepare(t, i, true, fate)) == Next(s, DeliverPrepare(t, i, false, fate))
  {
    assert !HavePending(RecordAt(s, s.coords[t].txn.writes[i].id));
  }

  predicate SameButQuick(a: Action, a': Action) {
    a == a' || (a.DeliverPrepare? && a'.DeliverPrepare? && a.(quick := a'.quick) == a')
  }

  /** So a run may use the quick form for any of its prepares without any effect. */
  lemma {:induction false} QuickPreparesNeverMatter(s: State, run: seq<Action>, run': seq<Action>)
    requires Inv(s) && ValidRun(s, run) && |run| == |run'|
    requires forall i :: 0 <= i < |run| ==> SameButQuick(run[i], run'[i])
    ensures ValidRun(s, run') && Final(s, run) == Final(s, run')
    decreases |run|
  {
    if run != [] {
      var a, a' := run[0], run'[0];
      if a != a' {
        QuickPrepareIsFull(s, a.t, a.i, a.fate);
      }
      StepRefines(s, a);
      QuickPreparesNeverMatter(Next(s, a), run[1..], run'[1..]);
    }
  }

  // ----- the counters of the callbacks

  /** The shared variables that the reply callbacks of one transaction update. */
  class Counters {
    var outstanding: int
    var allAgree: bool
    var decision: Option<bool>

    ghost predicate Matches(c: Coord)
      reads this
    {
      outstanding == c.outstanding && allAgree == c.allAgree && decision == c.decision
    }

    constructor (ghost txn: Txn, requests: nat)
      requires requests == |txn.writes|
      ensures Matches(NewCoord(txn))
    {
      outstanding, allAgree, decision := requests, true, None;
    }

    method OnReply(agree: bool, ghost c: Coord, ghost i: nat)
      requires Matches(c) && CoordInv(c) && i < |c.slots| && c.slots[i] == Slot(Replied, agree)
      modifies this
      ensures Matches(OnVote(c, i))
      ensures decision.Some? <==> outstanding == 0
      ensures decision.Some? ==> decision.value == AllVotesAgree(c.slots)
    {
      VoteKeepsCoord(c, i);
      if !agree {
        allAgree := false;
      }
      outstanding := outstanding - 1;
      if outstanding == 0 {
        decision := Some(allAgree);
      }
    }
  }
}
