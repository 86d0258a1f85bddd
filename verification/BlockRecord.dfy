/** What a storage node knows about one block, and what each message does to it. */
module BlockRecord {
  import opened ByteSeq

  /** The committed block (absent until first prepared), its version, and the pending
      version and block of the log.  Pending version 0 stands for an empty log. */
  datatype Record = Record(committed: Option<Bytes>, committedVersion: nat,
                           pendingVersion: nat, pendingData: Bytes)

  const FRESH := Record(None, 0, 0, [])

  /** The content of the block, an absent block being empty. */
  function Content(r: Record): Bytes {
    if r.committed.Some? then r.committed.value else []
  }

  predicate HavePending(r: Record) {
    !(r.pendingVersion == r.committedVersion || r.pendingVersion == 0)
  }

  /** A prepare first creates an absent block, empty and with an empty log. */
  function Created(r: Record): Record {
    if r.committed.Some? then r else Record(Some([]), 0, 0, [])
  }

  function Logged(r: Record, at: nat, data: Bytes, version: nat): Record {
    r.(pendingVersion := version, pendingData := Overlay(Content(r), at, data))
  }

  datatype Voted = Voted(record: Record, agree: bool)

  /** Full prepare: refuse when the log holds a pending block, else log the merged block. */
  function Prepare(r: Record, at: nat, data: Bytes, version: nat): Voted {
    var c := Created(r);
    if HavePending(c) then Voted(c, false) else Voted(Logged(c, at, data, version), true)
  }

  /** Quick prepare: log the merged block without looking at the log. */
  function PrepareQuick(r: Record, at: nat, data: Bytes, version: nat): Voted {
    Voted(Logged(Created(r), at, data, version), true)
  }

  function PrepareAs(quick: bool, r: Record, at: nat, data: Bytes, version: nat): Voted {
    if quick then PrepareQuick(r, at, data, version) else Prepare(r, at, data, version)
  }

  /** Commit makes whatever is logged the committed block. */
  function Commit(r: Record): Record {
    r.(committed := Some(r.pendingData), committedVersion := r.pendingVersion)
  }

  /** Rollback empties the log, whoever filled it. */
  function Rollback(r: Record): Record {
    r.(pendingVersion := 0, pendingData := [])
  }

  function Decide(commit: bool, r: Record): Record {
    if commit then Commit(r) else Rollback(r)
  }

  /** A prepare of an absent block is granted whatever an old log says, and a rollback then
      leaves an empty block of version 0. */
  lemma AbsentBlockIsGranted(r: Record, at: nat, data: Bytes, version: nat)
    requires r.committed.None?
    ensures var v := Prepare(r, at, data, version);
            && v.agree && Rollback(v.record) == Record(Some([]), 0, 0, [])
            && Content(Commit(v.record)) == Overlay([], at, data) && Commit(v.record).committedVersion == version
  {
  }

  // ----- several transactions on one block

  /** A message that some other transaction sends to the block. */
  datatype Message = PrepareMsg(quick: bool, at: nat, data: Bytes, version: nat)
                   | CommitMsg
                   | RollbackMsg

  function Deliver(r: Record, m: Message): Record {
    match m
    case PrepareMsg(quick, at, data, version) => PrepareAs(quick, r, at, data, version).record
    case CommitMsg => Commit(r)
    case RollbackMsg => Rollback(r)
  }

  function DeliverAll(r: Record, ms: seq<Message>): Record {
    if ms == [] then r else Deliver(DeliverAll(r, ms[..|ms| - 1]), ms[|ms| - 1])
  }

  /** Messages that leave a pending block in place: full prepares, as long as no commit
      came before them, and commits. */
  predicate Harmless(ms: seq<Message>) {
    forall i :: 0 <= i < |ms| ==>
      match ms[i]
      case PrepareMsg(quick, _, _, _) => !quick && CommitMsg !in ms[..i]
      case CommitMsg => true
      case RollbackMsg => false
  }

  /** Commit and rollback do not look at versions.  A transaction prepares a free block,
      any messages of other transactions arrive, and then it commits.  The commit installs
      the transaction's own version if and only if those messages were harmless, and
      then the block is the one it prepared. */
  lemma {:induction false} CommitInstallsOwnWrite(r: Record, at: nat, data: Bytes, version: nat, ms: seq<Message>)
    requires !HavePending(r) && version != 0 && version != r.committedVersion
    requires r.committed.None? ==> r.committedVersion == 0
    requires forall i :: 0 <= i < |ms| && ms[i].PrepareMsg? ==> ms[i].version != version
    ensures var done := Commit(DeliverAll(Prepare(r, at, data, version).record, ms));
            && (done.committedVersion == version <==> Harmless(ms))
            && (Harmless(ms) ==> Content(done) == Overlay(Content(r), at, data))
  {
    PendingSurvives(r, at, data, version, ms);
  }

  lemma {:induction false} PendingSurvives(r: Record, at: nat, data: Bytes, version: nat, ms: seq<Message>)
    requires !HavePending(r) && version != 0 && version != r.committedVersion
    requires r.committed.None? ==> r.committedVersion == 0
    requires forall i :: 0 <= i < |ms| && ms[i].PrepareMsg? ==> ms[i].version != version
    ensures var p := DeliverAll(Prepare(r, at, data, version).record, ms);
            && p.committed.Some?
            && (p.pendingVersion == version <==> Harmless(ms))
            && (Harmless(ms) ==>
                  && p.pendingData == Overlay(Content(r), at, data)
                  && p.committedVersion == if CommitMsg in ms then version else r.committedVersion)
  {
    if ms != [] {
      var front, m := ms[..|ms| - 1], ms[|ms| - 1];
      PendingSurvives(r, at, data, version, front);
      assert ms == front + [m];
      assert Harmless(ms) ==> Harmless(front) by {
        assert forall i :: 0 <= i < |front| ==> front[i] == ms[i] && front[..i] == ms[..i];
      }
      assert Harmless(front) && !Harmless(ms) ==> !HarmlessLast(front, m) by {
        assert forall i :: 0 <= i < |front| ==> front[i] == ms[i] && front[..i] == ms[..i];
      }
      assert Harmless(ms) ==> HarmlessLast(front, m) by {
        assert ms[..|front|] == front;
      }
    }
  }

  predicate HarmlessLast(front: seq<Message>, m: Message) {
    match m
    case PrepareMsg(quick, _, _, _) => !quick && CommitMsg !in front
    case CommitMsg => true
    case RollbackMsg => false
  }

  /** So a second transaction that runs to its end on a prepared block always destroys the
      first one's write: refused, it rolls the first one back; quick, it replaces it. */
  lemma CompleteOverlapDestroysWrite(r: Record, at: nat, data: Bytes, version: nat,
                                     quick: bool, at': nat, data': Bytes, version': nat, othersAgree: bool)
    requires !HavePending(r) && version != 0 && version != r.committedVersion && version' != version
    requires r.committed.None? ==> r.committedVersion == 0
    ensures var first := Prepare(r, at, data, version);
            var second := PrepareAs(quick, first.record, at', data', version');
            var decision := if second.agree && othersAgree then CommitMsg else RollbackMsg;
            var ms := [PrepareMsg(quick, at', data', version'), decision];
            && first.agree
            && Commit(DeliverAll(first.record, ms)).committedVersion != version
            && (!(quick && othersAgree) ==> Content(Commit(DeliverAll(first.record, ms))) == [])
  {
    var first := Prepare(r, at, data, version);
    var second := PrepareAs(quick, first.record, at', data', version');
    var decision := if second.agree && othersAgree then CommitMsg else RollbackMsg;
    var m := PrepareMsg(quick, at', data', version');
    assert [m, decision][..1] == [m] && [m][..0] == [];
    assert DeliverAll(first.record, [m]) == second.record;
    assert DeliverAll(first.record, [m, decision]) == Deliver(second.record, decision);
  }
}
