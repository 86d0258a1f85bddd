/** What a run of the commit protocol decides, read off its messages alone: when a transaction
    decides, which way, which blocks are held and which exist.  And every transaction can commit. */
module CommitDecision {
  import opened ByteSeq
  import opened BlockRecord
  import opened TwoPhaseCommit

  // ----- what the messages of a run say

  /** Action `k` delivers the prepare for slot `i` of transaction `t`. */
  predicate PreparesAt(run: seq<Action>, k: int, t: nat, i: nat) {
    0 <= k < |run| && run[k].DeliverPrepare? && run[k].t == t && run[k].i == i
  }

  ghost predicate Prepared(run: seq<Action>, t: nat, i: nat) {
    exists k :: PreparesAt(run, k, t, i)
  }

  /** No prepare of the transaction has failed. */
  predicate AllAnswered(run: seq<Action>, t: nat) {
    forall k :: 0 <= k < |run| && run[k].DeliverPrepare? && run[k].t == t ==> run[k].fate == Answered
  }

  /** The vote of every block of the transaction has been counted, and there is one. */
  predicate AllCounted(run: seq<Action>, t: nat, txn: Txn) {
    txn.writes != [] && forall i: nat :: i < |txn.writes| ==> CountVote(t, i) in run
  }

  /** Every block of the transaction has its decision. */
  predicate AllDelivered(run: seq<Action>, t: nat, txn: Txn) {
    forall i: nat :: i < |txn.writes| ==> DeliverDecision(t, i) in run
  }

  // ----- the state follows the messages

  ghost predicate SlotFollows(slot: Slot, done: seq<Action>, t: nat, i: nat) {
    && (slot.stage != Preparing <==> Prepared(done, t, i))
    && (forall k :: PreparesAt(done, k, t, i) ==> (slot.vote <==> done[k].fate == Answered))
    && (slot.stage in {Counted, Deciding, Applied} <==> CountVote(t, i) in done)
    && (slot.stage == Applied <==> DeliverDecision(t, i) in done)
  }

  ghost predicate CoordFollows(c: Coord, done: seq<Action>, t: nat) {
    && Start(t, c.txn) in done && (c.slots == [] ==> c.decision == None)
    && forall i: nat :: i < |c.slots| ==> SlotFollows(c.slots[i], done, t, i)
  }

  /** A message is about a slot of a transaction that has started. */
  ghost predicate Known(s: State, a: Action) {
    a.t in s.coords && (a.Start? ==> s.coords[a.t].txn == a.txn) && (!a.Start? ==> a.i < |s.coords[a.t].slots|)
  }

  ghost predicate Follows(s: State, done: seq<Action>) {
    && (forall t :: t in s.coords ==> CoordFollows(s.coords[t], done, t))
    && (forall k :: 0 <= k < |done| ==> Known(s, done[k]))
  }

  lemma PreparedNext(done: seq<Action>, a: Action, t: nat, i: nat)
    ensures Prepared(done + [a], t, i) <==> Prepared(done, t, i) || (a.DeliverPrepare? && a.t == t && a.i == i)
  {
    var next := done + [a];
    if k :| PreparesAt(done, k, t, i) {
      assert PreparesAt(next, k, t, i);
    }
    if a.DeliverPrepare? && a.t == t && a.i == i {
      assert PreparesAt(next, |done|, t, i);
    }
    if k :| PreparesAt(next, k, t, i) {
      assert k < |done| ==> PreparesAt(done, k, t, i);
    }
  }

  /** A free block agrees to every prepare that is answered, in either form. */
  lemma FreeBlockAgrees(r: Record, w: Write, version: nat, quick: bool, fate: Fate)
    requires !HavePending(r)
    ensures PrepareOutcome(r, w, version, quick, fate).agree <==> fate == Answered
  {
  }

  /** A slot that a message is not about. */
  lemma OtherSlotFollows(slot: Slot, done: seq<Action>, a: Action, t: nat, i: nat)
    requires SlotFollows(slot, done, t, i) && (a.Start? || a.t != t || a.i != i)
    ensures SlotFollows(slot, done + [a], t, i)
  {
    var next := done + [a];
    PreparedNext(done, a, t, i);
    forall k | PreparesAt(next, k, t, i) ensures slot.vote <==> next[k].fate == Answered {
      assert PreparesAt(done, k, t, i);
    }
  }

  lemma OwnSlotFollows(slot: Slot, slot': Slot, done: seq<Action>, a: Action)
    requires !a.Start? && SlotFollows(slot, done, a.t, a.i)
    requires a.DeliverPrepare? ==> slot.stage == Preparing && slot' == Slot(Replied, a.fate == Answered)
    requires a.CountVote? ==> slot.stage == Replied && slot'.stage in {Counted, Deciding} && slot'.vote == slot.vote
    requires a.DeliverDecision? ==> slot.stage == Deciding && slot' == slot.(stage := Applied)
    ensures SlotFollows(slot', done + [a], a.t, a.i)
  {
    var next := done + [a];
    PreparedNext(done, a, a.t, a.i);
    assert a in next;
    forall k | PreparesAt(next, k, a.t, a.i) ensures slot'.vote <==> next[k].fate == Answered {
      if k < |done| {
        assert PreparesAt(done, k, a.t, a.i);
      }
    }
  }

  /** A decision moves counted slots on. */
  lemma DecidedSlotFollows(slot: Slot, done: seq<Action>, t: nat, i: nat)
    requires SlotFollows(slot, done, t, i) && slot.stage == Counted
    ensures SlotFollows(slot.(stage := Deciding), done, t, i)
  {
  }

  lemma StartFollows(s: State, done: seq<Action>, a: Action)
    requires Inv(s) && Follows(s, done) && a.Start? && Enabled(s, a)
    ensures Follows(Next(s, a), done + [a])
  {
    var s', next := Next(s, a), done + [a];
    forall t | t in s'.coords ensures CoordFollows(s'.coords[t], next, t) {
      if t == a.t {
        FreshCoordFollows(s, done, a);
      } else {
        OtherCoordFollows(s.coords[t], done, a, t);
      }
    }
    StepKnows(s, done, a);
  }

  lemma FreshCoordFollows(s: State, done: seq<Action>, a: Action)
    requires Follows(s, done) && a.Start? && a.t !in s.coords
    ensures CoordFollows(NewCoord(a.txn), done + [a], a.t)
  {
    var c, next := NewCoord(a.txn), done + [a];
    assert next[|done|] == a;
    forall k | 0 <= k < |done| ensures done[k].t != a.t {
      assert Known(s, done[k]);
    }
    forall i: nat | i < |c.slots| ensures SlotFollows(c.slots[i], next, a.t, i) {
      forall k ensures !PreparesAt(next, k, a.t, i) {
        assert 0 <= k < |done| ==> next[k] == done[k];
      }
    }
  }

  lemma OtherCoordFollows(c: Coord, done: seq<Action>, a: Action, t: nat)
    requires CoordFollows(c, done, t) && a.t != t
    ensures CoordFollows(c, done + [a], t)
  {
    forall i: nat | i < |c.slots| ensures SlotFollows(c.slots[i], done + [a], t, i) {
      OtherSlotFollows(c.slots[i], done, a, t, i);
    }
  }

  lemma StepKnows(s: State, done: seq<Action>, a: Action)
    requires Inv(s) && Follows(s, done) && Enabled(s, a)
    ensures forall k :: 0 <= k < |done + [a]| ==> Known(Next(s, a), (done + [a])[k])
  {
    var next := done + [a];
    forall k | 0 <= k < |next| ensures Known(Next(s, a), next[k]) {
      if k < |done| {
        assert Known(s, done[k]);
      }
    }
  }

  /** The coordinator of a step that is not a start. */
  ghost function CoordAfter(s: State, a: Action): Coord
    requires Enabled(s, a) && !a.Start?
  {
    Next(s, a).coords[a.t]
  }

  lemma PrepareFollows(s: State, done: seq<Action>, a: Action)
    requires Inv(s) && Follows(s, done) && a.DeliverPrepare? && Enabled(s, a)
    ensures CoordFollows(CoordAfter(s, a), done + [a], a.t)
  {
    var c, c', next := s.coords[a.t], CoordAfter(s, a), done + [a];
    var w := c.txn.writes[a.i];
    assert CoordFollows(c, done, a.t);
    assert !HavePending(RecordAt(s, w.id));
    FreeBlockAgrees(RecordAt(s, w.id), w, c.txn.version, a.quick, a.fate);
    forall i: nat | i < |c'.slots| ensures SlotFollows(c'.slots[i], next, a.t, i) {
      if i == a.i {
        OwnSlotFollows(c.slots[i], c'.slots[i], done, a);
      } else {
        OtherSlotFollows(c.slots[i], done, a, a.t, i);
      }
    }
  }

  lemma DecisionFollows(s: State, done: seq<Action>, a: Action)
    requires Inv(s) && Follows(s, done) && a.DeliverDecision? && Enabled(s, a)
    ensures CoordFollows(CoordAfter(s, a), done + [a], a.t)
  {
    var c, c', next := s.coords[a.t], CoordAfter(s, a), done + [a];
    assert CoordFollows(c, done, a.t);
    forall i: nat | i < |c'.slots| ensures SlotFollows(c'.slots[i], next, a.t, i) {
      if i == a.i {
        OwnSlotFollows(c.slots[i], c'.slots[i], done, a);
      } else {
        OtherSlotFollows(c.slots[i], done, a, a.t, i);
      }
    }
  }

  lemma CountFollows(s: State, done: seq<Action>, a: Action)
    requires Inv(s) && Follows(s, done) && a.CountVote? && Enabled(s, a)
    ensures CoordFollows(CoordAfter(s, a), done + [a], a.t)
  {
    var c, c', next := s.coords[a.t], CoordAfter(s, a), done + [a];
    assert CoordFollows(c, done, a.t) && CoordInv(c);
    if c.outstanding == 1 {
      LastCounted(c, a.i);
    }
    forall i: nat | i < |c'.slots| ensures SlotFollows(c'.slots[i], next, a.t, i) {
      if i == a.i {
        OwnSlotFollows(c.slots[i], c'.slots[i], done, a);
      } else {
        OtherSlotFollows(c.slots[i], done, a, a.t, i);
        if c.outstanding == 1 {
          DecidedSlotFollows(c.slots[i], next, a.t, i);
        }
      }
    }
  }

  /** When the last vote is counted, all the others are. */
  lemma LastCounted(c: Coord, i: nat)
    requires CoordInv(c) && i < |c.slots| && c.slots[i].stage == Replied && c.outstanding == 1
    ensures forall j :: 0 <= j < |c.slots| && j != i ==> c.slots[j].stage == Counted
  {
    var counted := c.slots[i := c.slots[i].(stage := Counted)];
    OpenOfUpdate(c.slots, i, c.slots[i].(stage := Counted));
    OpenZero(counted);
    forall j | 0 <= j < |c.slots| && j != i ensures c.slots[j].stage == Counted {
      assert counted[j] == c.slots[j];
    }
  }

  lemma StepFollows(s: State, done: seq<Action>, a: Action)
    requires Inv(s) && Follows(s, done) && Enabled(s, a)
    ensures Follows(Next(s, a), done + [a])
  {
    if a.Start? {
      StartFollows(s, done, a);
    } else {
      match a {
        case DeliverPrepare(_, _, _, _) => PrepareFollows(s, done, a);
        case CountVote(_, _) => CountFollows(s, done, a);
        case DeliverDecision(_, _) => DecisionFollows(s, done, a);
        case Start(_, _) =>
      }
      StepKnows(s, done, a);
      forall t | t in s.coords && t != a.t ensures CoordFollows(Next(s, a).coords[t], done + [a], t) {
        OtherCoordFollows(s.coords[t], done, a, t);
      }
    }
  }

  lemma Shifted<T>(a: seq<T>, b: seq<T>)
    requires b != []
    ensures a + [b[0]] + b[1..] == a + b
  {
  }

  lemma {:induction false} RunFollows(s: State, done: seq<Action>, run: seq<Action>)
    requires Inv(s) && Follows(s, done) && ValidRun(s, run)
    ensures Inv(Final(s, run)) && Follows(Final(s, run), done + run)
    decreases |run|
  {
    if run == [] {
      assert done + run == done;
    } else {
      StepRefines(s, run[0]);
      StepFollows(s, done, run[0]);
      RunFollows(Next(s, run[0]), done + [run[0]], run[1..]);
      Shifted(done, run);
    }
  }

  lemma IdleRunFollows(s: State, run: seq<Action>)
    requires Idle(s) && ValidRun(s, run)
    ensures Inv(Final(s, run)) && Follows(Final(s, run), run)
  {
    assert Follows(s, []);
    RunFollows(s, [], run);
    assert [] + run == run;
  }

  // ----- when, and which way, a transaction decides

  lemma {:induction false} SomeOpen(slots: seq<Slot>)
    requires Open(slots) > 0
    ensures exists i :: 0 <= i < |slots| && slots[i].stage in {Preparing, Replied}
  {
    var n := |slots| - 1;
    if slots[n].stage !in {Preparing, Replied} {
      SomeOpen(slots[..n]);
      var i :| 0 <= i < n && slots[..n][i].stage in {Preparing, Replied};
      assert slots[i].stage in {Preparing, Replied};
    }
  }

  /** In every run a transaction has decided exactly when the votes of all its blocks are
      counted. */
  lemma DecidesExactlyWhen(s: State, run: seq<Action>, t: nat, txn: Txn)
    requires Idle(s) && ValidRun(s, run) && Start(t, txn) in run
    ensures Decided(Final(s, run), t, true) || Decided(Final(s, run), t, false) <==> AllCounted(run, t, txn)
  {
    IdleRunFollows(s, run);
    var f := Final(s, run);
    var k :| 0 <= k < |run| && run[k] == Start(t, txn);
    assert Known(f, run[k]);
    var c := f.coords[t];
    assert CoordFollows(c, run, t) && CoordInv(c);
    if c.decision.None? && c.slots != [] {
      SomeOpen(c.slots);
      var i: nat :| i < |c.slots| && c.slots[i].stage in {Preparing, Replied};
      assert SlotFollows(c.slots[i], run, t, i);
    } else {
      forall i: nat | i < |c.slots| ensures c.decision.Some? ==> CountVote(t, i) in run {
        assert SlotFollows(c.slots[i], run, t, i);
      }
    }
  }

  /** In every run a transaction that has decided has decided to commit exactly when all its
      prepares were answered. */
  lemma CommitsExactlyWhen(s: State, run: seq<Action>, t: nat)
    requires Idle(s) && ValidRun(s, run)
    requires Decided(Final(s, run), t, true) || Decided(Final(s, run), t, false)
    ensures Decided(Final(s, run), t, true) <==> AllAnswered(run, t)
  {
    IdleRunFollows(s, run);
    var f := Final(s, run);
    var c := f.coords[t];
    assert CoordFollows(c, run, t) && CoordInv(c);
    if AllVotesAgree(c.slots) {
      forall k | 0 <= k < |run| && run[k].DeliverPrepare? && run[k].t == t ensures run[k].fate == Answered {
        assert Known(f, run[k]);
        var i := run[k].i;
        assert SlotFollows(c.slots[i], run, t, i) && PreparesAt(run, k, t, i);
      }
    }
    if AllAnswered(run, t) {
      forall i: nat | i < |c.slots| ensures c.slots[i].vote {
        assert SlotFollows(c.slots[i], run, t, i);
        var k :| PreparesAt(run, k, t, i);
      }
    }
  }

  lemma {:induction false} HistoryTxns(s: State, run: seq<Action>, k: nat)
    requires Inv(s) && ValidRun(s, run) && k < |History(s, run)|
    ensures var e := History(s, run)[k];
            e.t in Final(s, run).coords && Final(s, run).coords[e.t].txn == e.txn
    decreases |run|
  {
    var s', e := Next(s, run[0]), Effect(s, run[0]);
    StepRefines(s, run[0]);
    if k < |e| {
      TxnStays(s', run[1..], e[k].t);
    } else {
      HistoryTxns(s', run[1..], k - |e|);
    }
  }

  lemma {:induction false} TxnStays(s: State, run: seq<Action>, t: nat)
    requires ValidRun(s, run) && t in s.coords
    ensures t in Final(s, run).coords && Final(s, run).coords[t].txn == s.coords[t].txn
    decreases |run|
  {
    if run != [] {
      TxnStays(Next(s, run[0]), run[1..], t);
    }
  }

  /** In every run the history has exactly the transactions whose votes are all counted and
      whose prepares were all answered. */
  lemma HistoryExactlyWhen(s: State, run: seq<Action>, t: nat, txn: Txn)
    requires Idle(s) && ValidRun(s, run) && Start(t, txn) in run
    ensures Mentions(History(s, run), t) <==> AllCounted(run, t, txn) && AllAnswered(run, t)
  {
    assert Inv(s);
    DecisionsAreFinal(s, run, t);
    DecidesExactlyWhen(s, run, t, txn);
    if AllCounted(run, t, txn) {
      CommitsExactlyWhen(s, run, t);
    }
  }

  // ----- which blocks are held

  /** The block is prepared by this slot, and the decision has not reached it. */
  ghost predicate HeldInRun(run: seq<Action>, t: nat, txn: Txn, i: nat, b: BlockId) {
    && Start(t, txn) in run && i < |txn.writes| && txn.writes[i].id == b
    && Prepared(run, t, i) && DeliverDecision(t, i) !in run
  }

  lemma HeldIsInRun(s: State, run: seq<Action>, t: nat, i: nat, b: BlockId)
    requires Idle(s) && ValidRun(s, run) && HeldBy(Final(s, run), t, i, b)
    ensures HeldInRun(run, t, Final(s, run).coords[t].txn, i, b)
  {
    IdleRunFollows(s, run);
    var c := Final(s, run).coords[t];
    assert CoordFollows(c, run, t) && SlotFollows(c.slots[i], run, t, i);
  }

  lemma InRunIsHeld(s: State, run: seq<Action>, t: nat, txn: Txn, i: nat, b: BlockId)
    requires Idle(s) && ValidRun(s, run) && HeldInRun(run, t, txn, i, b)
    ensures HeldBy(Final(s, run), t, i, b)
  {
    IdleRunFollows(s, run);
    var f := Final(s, run);
    var k :| 0 <= k < |run| && run[k] == Start(t, txn);
    assert Known(f, run[k]);
    assert CoordInv(f.coords[t]) && CoordFollows(f.coords[t], run, t) && SlotFollows(f.coords[t].slots[i], run, t, i);
  }

  /** In every run a block is held exactly when some transaction has prepared it and its decision
      has not reached the block. */
  lemma HeldExactlyWhen(s: State, run: seq<Action>, b: BlockId)
    requires Idle(s) && ValidRun(s, run)
    ensures Held(Final(s, run), b) <==> exists t: nat, txn, i: nat :: HeldInRun(run, t, txn, i, b)
  {
    if Held(Final(s, run), b) {
      var t, i :| HeldBy(Final(s, run), t, i, b);
      HeldIsInRun(s, run, t, i, b);
    }
    if exists t: nat, txn, i: nat :: HeldInRun(run, t, txn, i, b) {
      var t: nat, txn, i: nat :| HeldInRun(run, t, txn, i, b);
      InRunIsHeld(s, run, t, txn, i, b);
    }
  }

  // ----- which blocks exist

  /** Action `k` delivers a prepare to the block, and it reaches the node. */
  ghost predicate ReachesAt(run: seq<Action>, k: int, txn: Txn, b: BlockId) {
    && 0 <= k < |run| && run[k].DeliverPrepare? && run[k].fate != FailedBefore
    && Start(run[k].t, txn) in run && run[k].i < |txn.writes| && txn.writes[run[k].i].id == b
  }

  ghost predicate Reached(run: seq<Action>, b: BlockId) {
    exists k, txn :: ReachesAt(run, k, txn, b)
  }

  lemma ReachedNext(s: State, done: seq<Action>, a: Action, b: BlockId)
    requires Inv(s) && Follows(s, done) && Enabled(s, a)
    ensures Reached(done + [a], b) <==>
            || Reached(done, b)
            || (a.DeliverPrepare? && a.fate != FailedBefore && s.coords[a.t].txn.writes[a.i].id == b)
  {
    var next := done + [a];
    if Reached(done, b) {
      var k, txn :| ReachesAt(done, k, txn, b);
      assert next[k] == done[k];
      assert ReachesAt(next, k, txn, b);
    }
    if a.DeliverPrepare? {
      var c := s.coords[a.t];
      assert CoordFollows(c, done, a.t);
      if a.fate != FailedBefore && c.txn.writes[a.i].id == b {
        assert ReachesAt(next, |done|, c.txn, b);
      }
    }
    if Reached(next, b) {
      var k, txn :| ReachesAt(next, k, txn, b);
      NewOrOld(s, done, a, k, txn, b);
    }
  }

  lemma NewOrOld(s: State, done: seq<Action>, a: Action, k: int, txn: Txn, b: BlockId)
    requires Inv(s) && Follows(s, done) && Enabled(s, a) && ReachesAt(done + [a], k, txn, b)
    ensures k < |done| ==> ReachesAt(done, k, txn, b)
    ensures k == |done| ==> a.DeliverPrepare? && s.coords[a.t].txn == txn
  {
    var next := done + [a];
    var j :| 0 <= j < |next| && next[j] == Start(next[k].t, txn);
    if k < |done| {
      assert Known(s, done[k]);
    }
    if j < |done| {
      assert Known(s, done[j]);
    }
  }

  lemma StepExists(s: State, done: seq<Action>, a: Action, b: BlockId)
    requires Inv(s) && Follows(s, done) && Enabled(s, a)
    ensures RecordAt(Next(s, a), b).committed.Some? <==>
            || RecordAt(s, b).committed.Some?
            || (a.DeliverPrepare? && a.fate != FailedBefore && s.coords[a.t].txn.writes[a.i].id == b)
  {
    if a.DeliverDecision? {
      var w := s.coords[a.t].txn.writes[a.i].id;
      assert HeldBy(s, a.t, a.i, w) && BlockInv(RecordAt(s, w), s.coords[a.t], a.i);
    }
  }

  lemma {:induction false} RunExists(s: State, done: seq<Action>, run: seq<Action>, b: BlockId, before: bool)
    requires Inv(s) && Follows(s, done) && ValidRun(s, run)
    requires RecordAt(s, b).committed.Some? <==> before || Reached(done, b)
    ensures RecordAt(Final(s, run), b).committed.Some? <==> before || Reached(done + run, b)
    decreases |run|
  {
    if run == [] {
      assert done + run == done;
    } else {
      StepRefines(s, run[0]);
      StepFollows(s, done, run[0]);
      StepExists(s, done, run[0], b);
      ReachedNext(s, done, run[0], b);
      RunExists(Next(s, run[0]), done + [run[0]], run[1..], b, before);
      Shifted(done, run);
    }
  }

  /** In every run a block exists exactly when it did before, or a prepare reached its node. */
  lemma ExistsExactlyWhen(s: State, run: seq<Action>, b: BlockId)
    requires Idle(s) && ValidRun(s, run)
    ensures RecordAt(Final(s, run), b).committed.Some? <==> RecordAt(s, b).committed.Some? || Reached(run, b)
  {
    assert !Reached([], b);
    RunExists(s, [], run, b, RecordAt(s, b).committed.Some?);
    assert [] + run == run;
  }

  // ----- one transaction

  /** All messages of the run belong to one transaction. */
  predicate OnlyOne(run: seq<Action>, t: nat, txn: Txn) {
    && Start(t, txn) in run
    && forall k :: 0 <= k < |run| ==> run[k].t == t && (run[k].Start? ==> run[k].txn == txn)
  }

  lemma OneHistory(s: State, run: seq<Action>, t: nat, txn: Txn)
    requires Idle(s) && ValidRun(s, run) && OnlyOne(run, t, txn)
    ensures History(s, run) == if Mentions(History(s, run), t) then [Entry(t, txn)] else []
  {
    IdleRunFollows(s, run);
    var h, f := History(s, run), Final(s, run);
    assert Inv(s);
    DecisionsAreFinal(s, run, t);
    forall k | 0 <= k < |h| ensures h[k] == Entry(t, txn) {
      HistoryTxns(s, run, k);
      assert CoordFollows(f.coords[h[k].t], run, h[k].t);
    }
    AllTheSame(h, Entry(t, txn));
  }

  lemma AllTheSame(h: seq<Entry>, e: Entry)
    requires MentionsOnce(h, e.t) && forall k :: 0 <= k < |h| ==> h[k] == e
    ensures h == if Mentions(h, e.t) then [e] else []
  {
    OnceOnly(h, e.t);
    assert h != [] ==> h[0] == e && Mentions(h, e.t);
  }

  /** A run of one transaction that delivers all its decisions leaves its data in every block if
      all prepares were answered, and otherwise every block as it was. */
  lemma OneTransactionStores(s: State, run: seq<Action>, t: nat, txn: Txn, b: BlockId)
    requires Idle(s) && ValidRun(s, run) && OnlyOne(run, t, txn) && AllDelivered(run, t, txn)
    ensures !Held(Final(s, run), b)
    ensures CellOf(RecordAt(Final(s, run), b)) ==
            if AllAnswered(run, t) then ApplyTxn(CellOf(RecordAt(s, b)), txn, b) else CellOf(RecordAt(s, b))
  {
    HeldExactlyWhen(s, run, b);
    assert !Held(Final(s, run), b) by {
      forall t': nat, txn', i: nat ensures !HeldInRun(run, t', txn', i, b) {
      }
    }
    CommitProtocolIsAtomic(s, run, b);
    HistoryExactlyWhen(s, run, t, txn);
    OneHistory(s, run, t, txn);
    DeliveredIsCounted(s, run, t, txn);
    assert [Entry(t, txn)][1..] == [];
  }

  lemma DeliveredIsCounted(s: State, run: seq<Action>, t: nat, txn: Txn)
    requires Idle(s) && ValidRun(s, run) && Start(t, txn) in run && AllDelivered(run, t, txn)
    ensures txn.writes != [] ==> AllCounted(run, t, txn)
  {
    IdleRunFollows(s, run);
    var f := Final(s, run);
    var k :| 0 <= k < |run| && run[k] == Start(t, txn);
    assert Known(f, run[k]);
    var c := f.coords[t];
    assert CoordFollows(c, run, t) && CoordInv(c);
    forall i: nat | i < |txn.writes| ensures CountVote(t, i) in run {
      assert SlotFollows(c.slots[i], run, t, i);
    }
  }

  // ----- every transaction can commit

  function Prepares(t: nat, n: nat): seq<Action> {
    if n == 0 then [] else Prepares(t, n - 1) + [DeliverPrepare(t, n - 1, false, Answered)]
  }

  function Counts(t: nat, n: nat): seq<Action> {
    if n == 0 then [] else Counts(t, n - 1) + [CountVote(t, n - 1)]
  }

  function Decisions(t: nat, n: nat): seq<Action> {
    if n == 0 then [] else Decisions(t, n - 1) + [DeliverDecision(t, n - 1)]
  }

  lemma {:induction false} Members(t: nat, n: nat, a: Action)
    ensures a in Prepares(t, n) <==> a.DeliverPrepare? && a == DeliverPrepare(t, a.i, false, Answered) && a.i < n
    ensures a in Counts(t, n) <==> a.CountVote? && a.t == t && a.i < n
    ensures a in Decisions(t, n) <==> a.DeliverDecision? && a.t == t && a.i < n
  {
    if n > 0 {
      Members(t, n - 1, a);
    }
  }

  lemma {:induction false} OneMore(s: State, run: seq<Action>, a: Action)
    requires ValidRun(s, run) && Enabled(Final(s, run), a)
    ensures ValidRun(s, run + [a])
    decreases |run|
  {
    if run == [] {
      assert run + [a] == [a];
    } else {
      OneMore(Next(s, run[0]), run[1..], a);
      assert (run + [a])[1..] == run[1..] + [a];
    }
  }

  /** What is left to do for the next slot, by the messages so far. */
  lemma NextIsEnabled(s: State, run: seq<Action>, t: nat, txn: Txn, a: Action)
    requires Idle(s) && ValidRun(s, run) && OnlyOne(run, t, txn) && !a.Start? && a.t == t && a.i < |txn.writes|
    requires a.DeliverPrepare? ==> forall k :: 0 <= k < |run| && run[k].DeliverPrepare? ==> run[k].i < a.i
    requires a.CountVote? ==> Prepared(run, t, a.i) && a !in run
    requires a.DeliverDecision? ==> AllCounted(run, t, txn) && a !in run
    ensures Enabled(Final(s, run), a)
  {
    IdleRunFollows(s, run);
    var f := Final(s, run);
    var k :| 0 <= k < |run| && run[k] == Start(t, txn);
    assert Known(f, run[k]);
    var c := f.coords[t];
    assert CoordFollows(c, run, t) && CoordInv(c) && SlotFollows(c.slots[a.i], run, t, a.i);
    match a {
      case DeliverPrepare(_, i, _, _) =>
        assert !Prepared(run, t, i);
        HeldExactlyWhen(s, run, txn.writes[i].id);
        assert DistinctBlocks(txn.writes);
      case CountVote(_, _) =>
      case DeliverDecision(_, i) =>
        DecidesExactlyWhen(s, run, t, txn);
      case Start(_, _) =>
    }
  }

  lemma AddedOne(run: seq<Action>, t: nat, txn: Txn, a: Action)
    requires OnlyOne(run, t, txn) && a.t == t && !a.Start?
    ensures OnlyOne(run + [a], t, txn)
  {
    var k :| 0 <= k < |run| && run[k] == Start(t, txn);
    assert (run + [a])[k] == Start(t, txn);
  }

  lemma ExtendRun(s: State, run: seq<Action>, t: nat, txn: Txn, a: Action)
    requires Idle(s) && ValidRun(s, run) && OnlyOne(run, t, txn) && !a.Start? && a.t == t && a.i < |txn.writes|
    requires a.DeliverPrepare? ==> forall k :: 0 <= k < |run| && run[k].DeliverPrepare? ==> run[k].i < a.i
    requires a.CountVote? ==> Prepared(run, t, a.i) && a !in run
    requires a.DeliverDecision? ==> AllCounted(run, t, txn) && a !in run
    ensures ValidRun(s, run + [a]) && OnlyOne(run + [a], t, txn)
  {
    NextIsEnabled(s, run, t, txn, a);
    OneMore(s, run, a);
    AddedOne(run, t, txn, a);
  }

  lemma Snoc<T>(a: seq<T>, b: seq<T>, x: T)
    ensures a + (b + [x]) == a + b + [x]
  {
  }

  function Started(t: nat, txn: Txn): seq<Action> {
    [Start(t, txn)] + Prepares(t, |txn.writes|)
  }

  function Voting(t: nat, txn: Txn): seq<Action> {
    Started(t, txn) + Counts(t, |txn.writes|)
  }

  /** The messages of a commit, in order. */
  function CommitRun(t: nat, txn: Txn): seq<Action> {
    Voting(t, txn) + Decisions(t, |txn.writes|)
  }

  lemma {:induction false} PreparesRun(s: State, t: nat, txn: Txn, n: nat)
    requires Idle(s) && DistinctBlocks(txn.writes) && n <= |txn.writes|
    ensures ValidRun(s, [Start(t, txn)] + Prepares(t, n)) && OnlyOne([Start(t, txn)] + Prepares(t, n), t, txn)
  {
    var start := [Start(t, txn)];
    if n == 0 {
      assert start + [] == start && start[1..] == [];
    } else {
      var run := start + Prepares(t, n - 1);
      PreparesRun(s, t, txn, n - 1);
      forall k | 0 <= k < |run| && run[k].DeliverPrepare? ensures run[k].i < n - 1 {
        assert k > 0 ==> run[k] == Prepares(t, n - 1)[k - 1];
        Members(t, n - 1, run[k]);
      }
      ExtendRun(s, run, t, txn, DeliverPrepare(t, n - 1, false, Answered));
      Snoc(start, Prepares(t, n - 1), DeliverPrepare(t, n - 1, false, Answered));
    }
  }

  lemma NotYetCounted(t: nat, txn: Txn, n: nat)
    ensures CountVote(t, n) !in Started(t, txn) + Counts(t, n)
  {
    Members(t, n, CountVote(t, n));
    Members(t, |txn.writes|, CountVote(t, n));
  }

  lemma PreparedByNow(t: nat, txn: Txn, i: nat, rest: seq<Action>)
    requires i < |txn.writes|
    ensures Prepared(Started(t, txn) + rest, t, i)
  {
    var a := DeliverPrepare(t, i, false, Answered);
    Members(t, |txn.writes|, a);
    var k :| 0 <= k < |Prepares(t, |txn.writes|)| && Prepares(t, |txn.writes|)[k] == a;
    assert Started(t, txn)[k + 1] == a;
    assert PreparesAt(Started(t, txn) + rest, k + 1, t, i);
  }

  lemma {:induction false} CountsRun(s: State, t: nat, txn: Txn, n: nat)
    requires Idle(s) && DistinctBlocks(txn.writes) && n <= |txn.writes|
    ensures ValidRun(s, Started(t, txn) + Counts(t, n)) && OnlyOne(Started(t, txn) + Counts(t, n), t, txn)
  {
    if n == 0 {
      PreparesRun(s, t, txn, |txn.writes|);
      assert Started(t, txn) + [] == Started(t, txn);
    } else {
      CountsRun(s, t, txn, n - 1);
      NotYetCounted(t, txn, n - 1);
      PreparedByNow(t, txn, n - 1, Counts(t, n - 1));
      ExtendRun(s, Started(t, txn) + Counts(t, n - 1), t, txn, CountVote(t, n - 1));
      Snoc(Started(t, txn), Counts(t, n - 1), CountVote(t, n - 1));
    }
  }

  lemma AllCountedByNow(t: nat, txn: Txn, n: nat)
    requires txn.writes != []
    ensures AllCounted(Voting(t, txn) + Decisions(t, n), t, txn)
    ensures DeliverDecision(t, n) !in Voting(t, txn) + Decisions(t, n)
  {
    forall i: nat | i < |txn.writes| ensures CountVote(t, i) in Voting(t, txn) + Decisions(t, n) {
      Members(t, |txn.writes|, CountVote(t, i));
    }
    Members(t, n, DeliverDecision(t, n));
    Members(t, |txn.writes|, DeliverDecision(t, n));
  }

  lemma OneMoreDecision(s: State, t: nat, txn: Txn, n: nat)
    requires Idle(s) && n < |txn.writes|
    requires ValidRun(s, Voting(t, txn) + Decisions(t, n)) && OnlyOne(Voting(t, txn) + Decisions(t, n), t, txn)
    ensures ValidRun(s, Voting(t, txn) + Decisions(t, n + 1))
    ensures OnlyOne(Voting(t, txn) + Decisions(t, n + 1), t, txn)
  {
    AllCountedByNow(t, txn, n);
    ExtendRun(s, Voting(t, txn) + Decisions(t, n), t, txn, DeliverDecision(t, n));
    Snoc(Voting(t, txn), Decisions(t, n), DeliverDecision(t, n));
  }

  lemma {:induction false} DecisionsRun(s: State, t: nat, txn: Txn, n: nat)
    requires Idle(s) && DistinctBlocks(txn.writes) && n <= |txn.writes|
    ensures ValidRun(s, Voting(t, txn) + Decisions(t, n)) && OnlyOne(Voting(t, txn) + Decisions(t, n), t, txn)
  {
    if n == 0 {
      CountsRun(s, t, txn, |txn.writes|);
      assert Voting(t, txn) + [] == Voting(t, txn);
    } else {
      DecisionsRun(s, t, txn, n - 1);
      OneMoreDecision(s, t, txn, n - 1);
    }
  }

  /** On an idle store every transaction over distinct blocks has a run that stores its data. */
  lemma EveryTransactionCanCommit(s: State, t: nat, txn: Txn, b: BlockId)
    requires Idle(s) && DistinctBlocks(txn.writes)
    ensures ValidRun(s, CommitRun(t, txn))
    ensures CellOf(RecordAt(Final(s, CommitRun(t, txn)), b)) == ApplyTxn(CellOf(RecordAt(s, b)), txn, b)
  {
    var n, run := |txn.writes|, CommitRun(t, txn);
    DecisionsRun(s, t, txn, n);
    forall i: nat | i < n ensures DeliverDecision(t, i) in run {
      Members(t, n, DeliverDecision(t, i));
    }
    forall k | 0 <= k < |run| && run[k].DeliverPrepare? ensures run[k].fate == Answered {
      assert run[k] in Prepares(t, n) || run[k] in Counts(t, n) || run[k] in Decisions(t, n);
      Members(t, n, run[k]);
    }
    OneTransactionStores(s, run, t, txn, b);
  }
}
