/** Transactions that follow each other closely.  A coordinator answers its client when it has
    decided, then sends the decisions; a next transaction on the same blocks may start while
    they are still on their way.  The messages for a block are delivered in the order in which
    they are sent.  The commit protocol then refines atomic transactions, if no transaction
    starts before the decisions of those before it on its blocks are sent. */
module CommitOrder {
  import opened ByteSeq
  import opened TwoPhaseCommit

  /** A prepare or a decision for slot `i` of transaction `t`. */
  datatype Msg = Msg(t: nat, i: nat, decision: bool)

  /** The protocol with the messages on their way, a queue per block, and the transactions that
      have sent their decisions. */
  datatype Net = Net(s: State, queues: BlockId -> seq<Msg>, sent: set<nat>)

  datatype Step = Begin(t: nat, txn: Txn)
                | Deliver(b: BlockId, quick: bool, fate: Fate)
                | Count(t: nat, i: nat)
                | Send(t: nat)

  function SlotOf(ws: seq<Write>, b: BlockId): (i: nat)
    ensures i <= |ws| && (i < |ws| ==> ws[i].id == b)
    ensures forall j :: 0 <= j < i ==> ws[j].id != b
  {
    if ws == [] || ws[0].id == b then 0 else 1 + SlotOf(ws[1..], b)
  }

  /** The queue of a block behind the prepare or the decision of a transaction. */
  function Posted(q: seq<Msg>, t: nat, txn: Txn, decision: bool, b: BlockId): seq<Msg> {
    var i := SlotOf(txn.writes, b);
    if i < |txn.writes| then q + [Msg(t, i, decision)] else q
  }

  /** All other transactions on these blocks have sent their decisions. */
  ghost predicate PredecessorsSent(n: Net, t: nat, txn: Txn) {
    forall t', b :: t' in n.s.coords && t' != t && Touches(n.s.coords[t'].txn, b) && Touches(txn, b) ==> t' in n.sent
  }

  ghost predicate Allowed(n: Net, step: Step) {
    match step
    case Begin(t, txn) => t !in n.s.coords && DistinctBlocks(txn.writes) && PredecessorsSent(n, t, txn)
    case Deliver(b, _, _) => n.queues(b) != []
    case Count(t, i) => SlotAt(n.s, t, i, Replied)
    case Send(t) => t in n.s.coords && n.s.coords[t].decision.Some? && t !in n.sent
  }

  /** The step of the protocol in a step of the network; sending decisions is none. */
  function ActionOf(n: Net, step: Step): Option<Action> {
    match step
    case Begin(t, txn) => Some(Start(t, txn))
    case Deliver(b, quick, fate) =>
      var q := n.queues(b);
      if q == [] then None
      else if q[0].decision then Some(DeliverDecision(q[0].t, q[0].i))
      else Some(DeliverPrepare(q[0].t, q[0].i, quick, fate))
    case Count(t, i) => Some(CountVote(t, i))
    case Send(_) => None
  }

  ghost predicate Possible(n: Net, step: Step) {
    Allowed(n, step) && (ActionOf(n, step).Some? ==> Enabled(n.s, ActionOf(n, step).value))
  }

  ghost function After(n: Net, step: Step): Net
    requires Possible(n, step)
  {
    var s := if ActionOf(n, step).Some? then Next(n.s, ActionOf(n, step).value) else n.s;
    match step
    case Begin(t, txn) => Net(s, b => Posted(n.queues(b), t, txn, false, b), n.sent)
    case Deliver(b, _, _) => Net(s, b' => if b' == b then n.queues(b)[1..] else n.queues(b'), n.sent)
    case Count(_, _) => Net(s, n.queues, n.sent)
    case Send(t) => Net(s, b => Posted(n.queues(b), t, n.s.coords[t].txn, true, b), n.sent + {t})
  }

  // ----- invariant

  ghost predicate MsgOk(n: Net, b: BlockId, m: Msg) {
    && SlotAt(n.s, m.t, m.i, if m.decision then Deciding else Preparing)
    && n.s.coords[m.t].txn.writes[m.i].id == b && (m.decision ==> m.t in n.sent)
  }

  /** No message is there twice, and a prepare stands behind all decisions. */
  ghost predicate QueueOk(n: Net, b: BlockId) {
    var q := n.queues(b);
    && (forall p :: 0 <= p < |q| ==> MsgOk(n, b, q[p]))
    && (forall p, p' :: 0 <= p < p' < |q| ==> q[p] != q[p'])
    && (forall p :: 0 <= p < |q| - 1 ==> q[p].decision)
  }

  ghost predicate QueuesOk(n: Net) {
    forall b :: QueueOk(n, b)
  }

  /** A transaction has sent its decisions only after it decided, and until then no block of it
      has its decision. */
  ghost predicate SentOk(n: Net) {
    && (forall t :: t in n.sent ==> t in n.s.coords && n.s.coords[t].decision.Some?)
    && (forall t, j: nat ::
          t in n.s.coords && n.s.coords[t].decision.Some? && t !in n.sent && j < |n.s.coords[t].slots| ==>
            SlotAt(n.s, t, j, Deciding))
  }

  /** A decision that is sent and not applied is in the queue of its block. */
  ghost predicate InTransit(n: Net) {
    forall t, j: nat :: t in n.sent && SlotAt(n.s, t, j, Deciding) ==>
                          Msg(t, j, true) in n.queues(n.s.coords[t].txn.writes[j].id)
  }

  /** Of all transactions on a block at most one has not sent its decisions. */
  ghost predicate OneUnsent(n: Net) {
    forall t :: t in n.s.coords && t !in n.sent ==> PredecessorsSent(n, t, n.s.coords[t].txn)
  }

  ghost predicate NetInv(n: Net) {
    Inv(n.s) && QueuesOk(n) && SentOk(n) && InTransit(n) && OneUnsent(n)
  }

  lemma TouchesAt(c: Coord, i: nat)
    requires i < |c.txn.writes|
    ensures Touches(c.txn, c.txn.writes[i].id)
  {
    FindWriteFinds(c.txn.writes, c.txn.writes[i].id);
  }

  /** Transactions with messages, or held blocks, at one block: all but one have sent. */
  lemma OnlyOneUnsent(n: Net, t: nat, i: nat, t': nat, j: nat)
    requires CoordsInv(n.s) && OneUnsent(n) && t in n.s.coords && t' in n.s.coords && t != t' && t !in n.sent
    requires i < |n.s.coords[t].txn.writes| && j < |n.s.coords[t'].txn.writes|
    requires n.s.coords[t].txn.writes[i].id == n.s.coords[t'].txn.writes[j].id
    ensures t' in n.sent
  {
    TouchesAt(n.s.coords[t], i);
    TouchesAt(n.s.coords[t'], j);
    assert PredecessorsSent(n, t, n.s.coords[t].txn);
  }

  lemma PreparingIsUnsent(n: Net, t: nat, i: nat)
    requires CoordsInv(n.s) && SentOk(n) && SlotAt(n.s, t, i, Preparing)
    ensures t !in n.sent && n.s.coords[t].decision == None
  {
    assert CoordInv(n.s.coords[t]);
  }

  // ----- a prepare at the head of its queue finds the block free

  lemma HeadIsFree(n: Net, b: BlockId, t': nat, j: nat)
    requires NetInv(n) && n.queues(b) != [] && !n.queues(b)[0].decision
    ensures !HeldBy(n.s, t', j, b)
  {
    var q := n.queues(b);
    var m := q[0];
    assert QueueOk(n, b);
    assert MsgOk(n, b, m);
    PreparingIsUnsent(n, m.t, m.i);
    assert CoordInv(n.s.coords[m.t]) && |q| == 1;
    if HeldBy(n.s, t', j, b) && t' != m.t {
      assert CoordInv(n.s.coords[t']);
      OnlyOneUnsent(n, m.t, m.i, t', j);
      assert SlotAt(n.s, t', j, Deciding);
    }
  }

  lemma AllowedIsPossible(n: Net, step: Step)
    requires NetInv(n) && Allowed(n, step)
    ensures Possible(n, step)
  {
    if step.Deliver? {
      var m := n.queues(step.b)[0];
      assert QueueOk(n, step.b);
      assert MsgOk(n, step.b, m);
      if !m.decision {
        forall t', j ensures !HeldBy(n.s, t', j, n.s.coords[m.t].txn.writes[m.i].id) {
          HeadIsFree(n, step.b, t', j);
        }
      }
    }
  }

  /** Before the decisions of a transaction are sent, its blocks are held and their queues have
      none of them: a prepare that is posted then is delivered to a held block. */
  lemma UnsentBlocksAreHeld(n: Net, t: nat, j: nat)
    requires NetInv(n) && t in n.s.coords && t !in n.sent && n.s.coords[t].decision.Some?
    requires j < |n.s.coords[t].slots|
    ensures SlotAt(n.s, t, j, Deciding)
    ensures var b := n.s.coords[t].txn.writes[j].id;
            Held(n.s, b) && Msg(t, j, true) !in n.queues(b)
  {
    assert SlotAt(n.s, t, j, Deciding);
    var b := n.s.coords[t].txn.writes[j].id;
    assert HeldBy(n.s, t, j, b);
    assert QueueOk(n, b);
  }

  // ----- every step keeps the invariant

  /** A new transaction finds only decisions in the queues of its blocks. */
  lemma NoPrepareBefore(n: Net, t: nat, txn: Txn, b: BlockId, m: Msg)
    requires NetInv(n) && t !in n.s.coords && PredecessorsSent(n, t, txn) && Touches(txn, b) && MsgOk(n, b, m)
    ensures m.decision
  {
    if !m.decision {
      PreparingIsUnsent(n, m.t, m.i);
      TouchesAt(n.s.coords[m.t], m.i);
    }
  }

  lemma Postable(n: Net, q: seq<Msg>, m: Msg, b: BlockId)
    requires forall p :: 0 <= p < |q| ==> MsgOk(n, b, q[p]) && q[p].decision && q[p] != m
    requires forall p, p' :: 0 <= p < p' < |q| ==> q[p] != q[p']
    requires n.queues(b) == q + [m] && MsgOk(n, b, m)
    ensures QueueOk(n, b)
  {
  }

  lemma BeginQueue(n: Net, step: Step, b: BlockId)
    requires NetInv(n) && step.Begin? && Possible(n, step)
    ensures QueueOk(After(n, step), b)
  {
    var n', q, i := After(n, step), n.queues(b), SlotOf(step.txn.writes, b);
    assert QueueOk(n, b);
    forall p | 0 <= p < |q| ensures MsgOk(n', b, q[p]) && q[p].t != step.t {
      assert MsgOk(n, b, q[p]);
    }
    if i < |step.txn.writes| {
      FindWriteFinds(step.txn.writes, b);
      forall p | 0 <= p < |q| ensures q[p].decision {
        assert MsgOk(n, b, q[p]);
        NoPrepareBefore(n, step.t, step.txn, b, q[p]);
      }
      Postable(n', q, Msg(step.t, i, false), b);
    }
  }

  lemma BeginKeeps(n: Net, step: Step)
    requires NetInv(n) && step.Begin? && Possible(n, step)
    ensures NetInv(After(n, step))
  {
    var n' := After(n, step);
    StepRefines(n.s, Start(step.t, step.txn));
    forall b ensures QueueOk(n', b) {
      BeginQueue(n, step, b);
    }
    BeginRest(n, step);
  }

  lemma BeginRest(n: Net, step: Step)
    requires NetInv(n) && step.Begin? && Possible(n, step)
    ensures SentOk(After(n, step)) && InTransit(After(n, step)) && OneUnsent(After(n, step))
  {
    var n' := After(n, step);
    forall t, j: nat | t in n'.sent && SlotAt(n'.s, t, j, Deciding)
      ensures Msg(t, j, true) in n'.queues(n'.s.coords[t].txn.writes[j].id)
    {
      assert SlotAt(n.s, t, j, Deciding);
    }
    forall t, j: nat | t in n'.s.coords && n'.s.coords[t].decision.Some? && t !in n'.sent && j < |n'.s.coords[t].slots|
      ensures SlotAt(n'.s, t, j, Deciding)
    {
      assert SlotAt(n.s, t, j, Deciding);
    }
    forall t | t in n'.s.coords && t !in n'.sent ensures PredecessorsSent(n', t, n'.s.coords[t].txn) {
      if t != step.t {
        assert PredecessorsSent(n, t, n.s.coords[t].txn);
      }
      assert PredecessorsSent(n, step.t, step.txn);
    }
  }

  /** A step that changes one slot of one transaction. */
  ghost predicate OneSlot(s: State, s': State, t: nat, i: nat, stage: Stage) {
    && t in s.coords && s'.coords.Keys == s.coords.Keys
    && (forall t' :: t' in s.coords && t' != t ==> s'.coords[t'] == s.coords[t'])
    && i < |s.coords[t].slots| == |s'.coords[t].slots| == |s.coords[t].txn.writes|
    && s'.coords[t].txn == s.coords[t].txn && s'.coords[t].decision == s.coords[t].decision
    && s'.coords[t].slots[i].stage == stage
    && forall j :: 0 <= j < |s.coords[t].slots| && j != i ==> s'.coords[t].slots[j] == s.coords[t].slots[j]
  }

  lemma OtherSlots(s: State, s': State, t: nat, i: nat, stage: Stage, t': nat, j: nat, x: Stage)
    requires OneSlot(s, s', t, i, stage) && (t' != t || j != i)
    ensures SlotAt(s', t', j, x) <==> SlotAt(s, t', j, x)
  {
  }

  lemma DeliverSlot(n: Net, step: Step)
    requires NetInv(n) && step.Deliver? && Possible(n, step)
    ensures var m := n.queues(step.b)[0];
            && MsgOk(n, step.b, m)
            && OneSlot(n.s, After(n, step).s, m.t, m.i, if m.decision then Applied else Replied)
  {
    assert QueueOk(n, step.b);
    assert CoordInv(n.s.coords[n.queues(step.b)[0].t]);
  }

  lemma DeliverQueue(n: Net, step: Step, b: BlockId)
    requires NetInv(n) && step.Deliver? && Possible(n, step)
    ensures QueueOk(After(n, step), b)
  {
    var n', m, q := After(n, step), n.queues(step.b)[0], n.queues(b);
    var stage := if m.decision then Applied else Replied;
    DeliverSlot(n, step);
    assert QueueOk(n, b) && QueueOk(n, step.b);
    forall p | 0 <= p < |q| && q[p] != m ensures MsgOk(n', b, q[p]) {
      assert MsgOk(n, b, q[p]);
      OtherSlots(n.s, n'.s, m.t, m.i, stage, q[p].t, q[p].i, if q[p].decision then Deciding else Preparing);
    }
    if b == step.b {
      assert forall p :: 0 <= p < |q[1..]| ==> q[1..][p] == q[p + 1];
    } else {
      forall p | 0 <= p < |q| ensures q[p] != m {
        assert MsgOk(n, b, q[p]);
      }
    }
  }

  lemma DeliverTransit(n: Net, step: Step)
    requires NetInv(n) && step.Deliver? && Possible(n, step)
    ensures InTransit(After(n, step))
  {
    var n', m := After(n, step), n.queues(step.b)[0];
    var stage := if m.decision then Applied else Replied;
    DeliverSlot(n, step);
    forall t, j: nat | t in n'.sent && SlotAt(n'.s, t, j, Deciding)
      ensures Msg(t, j, true) in n'.queues(n'.s.coords[t].txn.writes[j].id)
    {
      assert t != m.t || j != m.i;
      OtherSlots(n.s, n'.s, m.t, m.i, stage, t, j, Deciding);
      StaysIn(n.queues(n.s.coords[t].txn.writes[j].id), Msg(t, j, true));
    }
  }

  lemma StaysIn(q: seq<Msg>, m: Msg)
    requires m in q
    ensures m != q[0] ==> m in q[1..]
  {
  }

  lemma DeliverRest(n: Net, step: Step)
    requires NetInv(n) && step.Deliver? && Possible(n, step)
    ensures SentOk(After(n, step)) && OneUnsent(After(n, step))
  {
    var n', m := After(n, step), n.queues(step.b)[0];
    var stage := if m.decision then Applied else Replied;
    DeliverSlot(n, step);
    forall t, j: nat | t in n'.s.coords && n'.s.coords[t].decision.Some? && t !in n'.sent && j < |n'.s.coords[t].slots|
      ensures SlotAt(n'.s, t, j, Deciding)
    {
      assert SlotAt(n.s, t, j, Deciding);
      OtherSlots(n.s, n'.s, m.t, m.i, stage, t, j, Deciding);
    }
    forall t | t in n'.s.coords && t !in n'.sent ensures PredecessorsSent(n', t, n'.s.coords[t].txn) {
      assert PredecessorsSent(n, t, n.s.coords[t].txn);
    }
  }

  lemma DeliverKeeps(n: Net, step: Step)
    requires NetInv(n) && step.Deliver? && Possible(n, step)
    ensures NetInv(After(n, step))
  {
    StepRefines(n.s, ActionOf(n, step).value);
    forall b ensures QueueOk(After(n, step), b) {
      DeliverQueue(n, step, b);
    }
    DeliverTransit(n, step);
    DeliverRest(n, step);
  }

  /** Counting a vote moves no slot that has a message. */
  lemma CountSlots(n: Net, step: Step, t: nat, j: nat)
    requires NetInv(n) && step.Count? && Possible(n, step)
    ensures SlotAt(n.s, t, j, Preparing) ==> SlotAt(After(n, step).s, t, j, Preparing)
    ensures t in n.sent ==> (SlotAt(n.s, t, j, Deciding) <==> SlotAt(After(n, step).s, t, j, Deciding))
    ensures step.t !in n.sent
  {
    var c := n.s.coords[step.t];
    assert CoordInv(c);
    VoteKeepsCoord(c, step.i);
    if c.outstanding == 1 {
      NoPrepareLeft(c, step.i);
    }
  }

  lemma CountKeeps(n: Net, step: Step)
    requires NetInv(n) && step.Count? && Possible(n, step)
    ensures NetInv(After(n, step))
  {
    var n' := After(n, step);
    StepRefines(n.s, CountVote(step.t, step.i));
    CountSlots(n, step, step.t, step.i);
    forall b ensures QueueOk(n', b) {
      assert QueueOk(n, b);
      forall p | 0 <= p < |n.queues(b)| ensures MsgOk(n', b, n.queues(b)[p]) {
        assert MsgOk(n, b, n.queues(b)[p]);
        CountSlots(n, step, n.queues(b)[p].t, n.queues(b)[p].i);
      }
    }
    CountTransit(n, step);
    CountRest(n, step);
  }

  lemma CountTransit(n: Net, step: Step)
    requires NetInv(n) && step.Count? && Possible(n, step)
    ensures InTransit(After(n, step))
  {
    var n' := After(n, step);
    forall t, j: nat | t in n'.sent && SlotAt(n'.s, t, j, Deciding)
      ensures Msg(t, j, true) in n'.queues(n'.s.coords[t].txn.writes[j].id)
    {
      CountSlots(n, step, t, j);
    }
  }

  lemma CountRest(n: Net, step: Step)
    requires NetInv(n) && step.Count? && Possible(n, step)
    ensures SentOk(After(n, step)) && OneUnsent(After(n, step))
  {
    var n', c := After(n, step), n.s.coords[step.t];
    assert CoordInv(c);
    VoteKeepsCoord(c, step.i);
    CountSlots(n, step, step.t, step.i);
    forall t, j: nat | t in n'.s.coords && n'.s.coords[t].decision.Some? && t !in n'.sent && j < |n'.s.coords[t].slots|
      ensures SlotAt(n'.s, t, j, Deciding)
    {
      assert t != step.t ==> SlotAt(n.s, t, j, Deciding);
    }
    forall t | t in n'.s.coords && t !in n'.sent ensures PredecessorsSent(n', t, n'.s.coords[t].txn) {
      assert PredecessorsSent(n, t, n.s.coords[t].txn);
    }
  }

  lemma SendQueue(n: Net, step: Step, b: BlockId)
    requires NetInv(n) && step.Send? && Possible(n, step)
    ensures QueueOk(After(n, step), b)
  {
    var n', q, c := After(n, step), n.queues(b), n.s.coords[step.t];
    var i := SlotOf(c.txn.writes, b);
    assert QueueOk(n, b) && CoordInv(c);
    forall p | 0 <= p < |q|
      ensures MsgOk(n', b, q[p]) && q[p] != Msg(step.t, i, true) && (i < |c.txn.writes| ==> q[p].decision)
    {
      assert MsgOk(n, b, q[p]);
      if i < |c.txn.writes| && !q[p].decision {
        PreparingIsUnsent(n, q[p].t, q[p].i);
        assert CoordInv(n.s.coords[q[p].t]);
        OnlyOneUnsent(n, q[p].t, q[p].i, step.t, i);
      }
    }
    assert i < |c.txn.writes| ==> SlotAt(n.s, step.t, i, Deciding);
  }

  lemma PostedKeeps(n: Net, t: nat, j: nat, t': nat, txn: Txn)
    requires t in n.s.coords && j < |n.s.coords[t].txn.writes| && DistinctBlocks(n.s.coords[t].txn.writes)
    requires t' == t ==> txn == n.s.coords[t].txn
    requires t' != t ==> Msg(t, j, true) in n.queues(n.s.coords[t].txn.writes[j].id)
    ensures var b := n.s.coords[t].txn.writes[j].id;
            Msg(t, j, true) in Posted(n.queues(b), t', txn, true, b)
  {
    var ws := n.s.coords[t].txn.writes;
    assert SlotOf(ws, ws[j].id) == j;
  }

  lemma SendKeeps(n: Net, step: Step)
    requires NetInv(n) && step.Send? && Possible(n, step)
    ensures NetInv(After(n, step))
  {
    var n' := After(n, step);
    forall b ensures QueueOk(n', b) {
      SendQueue(n, step, b);
    }
    forall t, j: nat | t in n'.sent && SlotAt(n'.s, t, j, Deciding)
      ensures Msg(t, j, true) in n'.queues(n'.s.coords[t].txn.writes[j].id)
    {
      var ws := n.s.coords[t].txn.writes;
      assert CoordInv(n.s.coords[t]);
      PostedKeeps(n, t, j, step.t, n.s.coords[step.t].txn);
    }
    forall t | t in n'.s.coords && t !in n'.sent ensures PredecessorsSent(n', t, n'.s.coords[t].txn) {
      assert PredecessorsSent(n, t, n.s.coords[t].txn);
    }
  }

  lemma StepKeepsNet(n: Net, step: Step)
    requires NetInv(n) && Possible(n, step)
    ensures NetInv(After(n, step))
  {
    match step
    case Begin(_, _) => BeginKeeps(n, step);
    case Deliver(_, _, _) => DeliverKeeps(n, step);
    case Count(_, _) => CountKeeps(n, step);
    case Send(_) => SendKeeps(n, step);
  }

  // ----- whole runs

  /** Every step is allowed; that it is also possible is proved, not assumed. */
  ghost predicate NetRun(n: Net, run: seq<Step>)
    decreases |run|
  {
    run == [] || (Allowed(n, run[0]) && (Possible(n, run[0]) ==> NetRun(After(n, run[0]), run[1..])))
  }

  ghost function Actions(n: Net, run: seq<Step>): seq<Action>
    decreases |run|
  {
    if run == [] || !Possible(n, run[0]) then []
    else
      var rest := Actions(After(n, run[0]), run[1..]);
      if ActionOf(n, run[0]).Some? then [ActionOf(n, run[0]).value] + rest else rest
  }

  ghost function NetAfter(n: Net, run: seq<Step>): Net
    decreases |run|
  {
    if run == [] || !Possible(n, run[0]) then n else NetAfter(After(n, run[0]), run[1..])
  }

  /** A run of the network is a run of the protocol: no prepare ever meets another transaction. */
  lemma {:induction false} NetRunIsValid(n: Net, run: seq<Step>)
    requires NetInv(n) && NetRun(n, run)
    ensures ValidRun(n.s, Actions(n, run)) && Final(n.s, Actions(n, run)) == NetAfter(n, run).s
    decreases |run|
  {
    if run != [] {
      AllowedIsPossible(n, run[0]);
      StepKeepsNet(n, run[0]);
      NetRunIsValid(After(n, run[0]), run[1..]);
      var a, rest := ActionOf(n, run[0]), Actions(After(n, run[0]), run[1..]);
      if a.Some? {
        assert ([a.value] + rest)[1..] == rest;
      }
    }
  }

  /** Nothing is on its way. */
  function AtStart(s: State): Net {
    Net(s, b => [], {})
  }

  /** Transactions that start as soon as those before them on their blocks have sent their
      decisions are atomic, in the order of their decisions. */
  lemma EarlyStartsAreAtomic(s: State, run: seq<Step>, b: BlockId)
    requires Idle(s) && NetRun(AtStart(s), run)
    ensures var actions := Actions(AtStart(s), run);
            && ValidRun(s, actions) && Final(s, actions) == NetAfter(AtStart(s), run).s
            && (!Held(Final(s, actions), b) ==>
                  CellOf(RecordAt(Final(s, actions), b)) == Replay(CellOf(RecordAt(s, b)), History(s, actions), b))
  {
    NetRunIsValid(AtStart(s), run);
    var actions := Actions(AtStart(s), run);
    if !Held(Final(s, actions), b) {
      CommitProtocolIsAtomic(s, actions, b);
    }
  }
}
