/** The guard a proxy keeps in front of its workers: which files are open, which are being
    opened, and which directories a rename has locked. */
module Proxy {
  /** File and directory keys; the guard only compares them. */
  type Id = nat

  datatype Op = Open | Delete | Rename(source: Id) | Close | OtherMeta | Data
  /** A request, keyed by a directory for the rename lock and by a file for the open tables. */
  datatype Request = Request(dir: Id, file: Id, op: Op)
  /** What happens to a request: a worker gets it, or the proxy answers it. */
  datatype Verdict = Forward | SendIp | SendOk | SendError

  datatype Tables = Tables(counts: map<Id, nat>, pending: map<Id, nat>, locked: set<Id>)

  function CountIn(m: map<Id, nat>, f: Id): nat {
    if f in m then m[f] else 0
  }

  function Raise(m: map<Id, nat>, f: Id): map<Id, nat> {
    m[f := CountIn(m, f) + 1]
  }

  /** One less, and no entry at zero. */
  function Lower(m: map<Id, nat>, f: Id): map<Id, nat> {
    if CountIn(m, f) <= 1 then m - {f} else m[f := m[f] - 1]
  }

  // ----- the handlers, as functions of the tables

  function Judge(t: Tables, q: Request): Verdict {
    if q.dir in t.locked then SendError
    else match q.op
      case Open => if q.file in t.counts then SendIp else Forward
      case Delete => if q.file in t.pending || q.file in t.counts then SendError else Forward
      case Rename(_) => if q.file in t.pending || q.file in t.counts then SendError else Forward
      case Close => if q.file in t.counts then SendOk else SendError
      case OtherMeta => Forward
      case Data => if q.file in t.counts then Forward else SendError
  }

  function Admit(t: Tables, q: Request): Tables {
    var v := Judge(t, q);
    match q.op
    case Open =>
      if v == SendIp then t.(counts := Raise(t.counts, q.file))
      else if v == Forward then t.(pending := Raise(t.pending, q.file))
      else t
    case Rename(source) => if v == Forward then t.(locked := t.locked + {source}) else t
    case Close => if v == SendOk then t.(counts := Lower(t.counts, q.file)) else t
    case _ => t
  }

  /** A successful open forgets every open of the file that is still under way. */
  function Opened(t: Tables, f: Id, success: bool): Tables {
    if success then t.(counts := Raise(t.counts, f), pending := t.pending - {f})
    else t.(pending := Lower(t.pending, f))
  }

  function Renamed(t: Tables, source: Id): Tables {
    t.(locked := t.locked - {source})
  }

  /** The launcher's three tables and the handlers that decide on them. */
  class Launcher {
    var counts: map<Id, nat>
    var pending: map<Id, nat>
    var locked: set<Id>

    ghost function State(): Tables
      reads this
    {
      Tables(counts, pending, locked)
    }

    ghost predicate Valid()
      reads this
    {
      (forall f :: f in counts ==> counts[f] >= 1) && (forall f :: f in pending ==> pending[f] >= 1)
    }

    constructor ()
      ensures Valid() && State() == Tables(map[], map[], {})
    {
      counts, pending, locked := map[], map[], {};
    }

    method OnRequest(q: Request) returns (v: Verdict)
      requires Valid()
      modifies this
      ensures Valid() && v == Judge(old(State()), q)
      ensures State() == Admit(old(State()), q)
    {
      if q.dir in locked {
        return SendError;
      }
      match q.op
      case Open =>
        if q.file in counts {
          counts := counts[q.file := counts[q.file] + 1];
          v := SendIp;
        } else {
          if q.file !in pending {
            pending := pending[q.file := 1];
          } else {
            pending := pending[q.file := pending[q.file] + 1];
          }
          v := Forward;
        }
      case Delete =>
        v := if q.file in pending || q.file in counts then SendError else Forward;
      case Rename(source) =>
        if q.file in pending || q.file in counts {
          v := SendError;
        } else {
          locked := locked + {source};
          v := Forward;
        }
      case Close =>
        if q.file in counts {
          if counts[q.file] >= 1 {
            counts := counts[q.file := counts[q.file] - 1];
            if counts[q.file] == 0 {
              counts := counts - {q.file};
            }
          }
          v := SendOk;
        } else {
          v := SendError;
        }
      case OtherMeta =>
        v := Forward;
      case Data =>
        v := if q.file in counts then Forward else SendError;
    }

    method OnOpened(f: Id, success: bool)
      requires Valid()
      modifies this
      ensures Valid() && State() == Opened(old(State()), f, success)
    {
      if success {
        if f !in counts {
          counts := counts[f := 1];
        } else {
          counts := counts[f := counts[f] + 1];
        }
      }
      if f in pending {
        if success {
          pending := pending - {f};
        } else if pending[f] >= 1 {
          pending := pending[f := pending[f] - 1];
          if pending[f] == 0 {
            pending := pending - {f};
          }
        }
      }
    }
  }

  // ----- runs

  datatype Event = Arrive(request: Request) | OpenReply(file: Id, success: bool) | RenameReply(source: Id)

  function After(t: Tables, e: Event): Tables {
    match e
    case Arrive(q) => Admit(t, q)
    case OpenReply(f, success) => Opened(t, f, success)
    case RenameReply(d) => Renamed(t, d)
  }

  function Run(t: Tables, es: seq<Event>): Tables
    decreases |es|
  {
    if es == [] then t else Run(After(t, es[0]), es[1..])
  }

  const EMPTY := Tables(map[], map[], {})

  /** What has happened to one key: its opens that the workers have not answered yet, the
      unanswered renames out of it, its granted opens and its accepted closes. */
  datatype Tally = Tally(opens: int, renames: int, grants: int, closes: int)

  const NOTHING := Tally(0, 0, 0, 0)

  function Arrived(t: Tables, n: Tally, q: Request, f: Id): Tally {
    var v := Judge(t, q);
    if q.op.Open? && q.file == f && v == Forward then n.(opens := n.opens + 1)
    else if q.op.Open? && q.file == f && v == SendIp then n.(grants := n.grants + 1)
    else if q.op.Close? && q.file == f && v == SendOk then n.(closes := n.closes + 1)
    else if q.op == Rename(f) && v == Forward then n.(renames := n.renames + 1)
    else n
  }

  function Tick(t: Tables, n: Tally, e: Event, f: Id): Tally {
    match e
    case Arrive(q) => Arrived(t, n, q, f)
    case OpenReply(g, success) =>
      if g != f then n
      else n.(opens := n.opens - 1, grants := if success then n.grants + 1 else n.grants)
    case RenameReply(d) => if d != f then n else n.(renames := n.renames - 1)
  }

  /** A reply answers an open or a rename that is under way. */
  predicate Enabled(n: Tally, e: Event, f: Id) {
    (e.OpenReply? && e.file == f ==> n.opens > 0) && (e.RenameReply? && e.source == f ==> n.renames > 0)
  }

  predicate ValidFor(t: Tables, n: Tally, es: seq<Event>, f: Id)
    decreases |es|
  {
    es == [] || (Enabled(n, es[0], f) && ValidFor(After(t, es[0]), Tick(t, n, es[0], f), es[1..], f))
  }

  ghost predicate ValidRun(es: seq<Event>) {
    forall f :: ValidFor(EMPTY, NOTHING, es, f)
  }

  function Tallied(t: Tables, n: Tally, es: seq<Event>, f: Id): Tally
    decreases |es|
  {
    if es == [] then n else Tallied(After(t, es[0]), Tick(t, n, es[0], f), es[1..], f)
  }

  // ----- conservation

  /** The open count of a file is the grants not yet closed, stored only when positive. */
  predicate CountsRight(t: Tables, n: Tally, f: Id) {
    CountIn(t.counts, f) + n.closes == n.grants && (f in t.counts ==> t.counts[f] >= 1)
  }

  /** No more opens of a file are pending than are under way. */
  predicate PendingBounded(t: Tables, n: Tally, f: Id) {
    (f in t.pending ==> t.pending[f] >= 1) && CountIn(t.pending, f) <= n.opens
  }

  predicate LockHasReason(t: Tables, n: Tally, d: Id) {
    n.renames >= 0 && (d in t.locked ==> n.renames > 0)
  }

  predicate Accounted(t: Tables, n: Tally, f: Id) {
    CountsRight(t, n, f) && PendingBounded(t, n, f) && LockHasReason(t, n, f)
  }

  lemma StepAccounted(t: Tables, n: Tally, e: Event, f: Id)
    requires Accounted(t, n, f) && Enabled(n, e, f)
    ensures Accounted(After(t, e), Tick(t, n, e, f), f)
  {
  }

  lemma {:induction false} RunAccounted(t: Tables, n: Tally, es: seq<Event>, f: Id)
    requires ValidFor(t, n, es, f) && Accounted(t, n, f)
    ensures Accounted(Run(t, es), Tallied(t, n, es, f), f)
    decreases |es|
  {
    if es != [] {
      StepAccounted(t, n, es[0], f);
      RunAccounted(After(t, es[0]), Tick(t, n, es[0], f), es[1..], f);
    }
  }

  /** In every run: open counts are grants minus accepted closes, stored counts are positive,
      pending opens never exceed the opens under way, and a directory is locked only while a
      rename out of it is under way. */
  lemma OpensAreConserved(es: seq<Event>, f: Id)
    requires ValidRun(es)
    ensures Accounted(Run(EMPTY, es), Tallied(EMPTY, NOTHING, es, f), f)
  {
    RunAccounted(EMPTY, NOTHING, es, f);
  }

  // ----- what the guard refuses

  /** The pending entry of a file counts exactly the opens of it that are under way. */
  predicate OpensTracked(t: Tables, n: Tally, f: Id) {
    CountIn(t.pending, f) == n.opens
  }

  /** A step keeps that exact, unless it is a successful reply while another open of the file
      is under way: the pending entry is then erased as a whole. */
  lemma TrackingBreaksExactlyWhen(t: Tables, n: Tally, e: Event, f: Id)
    requires PendingBounded(t, n, f) && Enabled(n, e, f) && OpensTracked(t, n, f)
    ensures OpensTracked(After(t, e), Tick(t, n, e, f), f) <==> !(e == OpenReply(f, true) && n.opens > 1)
  {
  }

  /** In every state of the run at most one open of the file is under way. */
  predicate OneOpen(t: Tables, n: Tally, es: seq<Event>, f: Id)
    decreases |es|
  {
    n.opens <= 1 && (es != [] ==> OneOpen(After(t, es[0]), Tick(t, n, es[0], f), es[1..], f))
  }

  /** The file is open, or an open of it is under way. */
  predicate InUse(n: Tally) {
    n.grants > n.closes || n.opens > 0
  }

  /** The tables know of the file while an open of it is under way. */
  predicate Guarded(t: Tables, n: Tally, f: Id) {
    n.opens > 0 ==> f in t.pending || f in t.counts
  }

  /** The last known open is closed, or the last pending one fails, while another open of the
      file is under way that the pending table has forgotten. */
  predicate LosesGuard(t: Tables, n: Tally, e: Event, f: Id) {
    match e
    case Arrive(q) =>
      && q.op.Close? && q.file == f && Judge(t, q) == SendOk
      && CountIn(t.counts, f) == 1 && f !in t.pending && n.opens > 0
    case OpenReply(g, success) =>
      g == f && !success && f !in t.counts && CountIn(t.pending, f) == 1 && n.opens > 1
    case RenameReply(_) => false
  }

  /** A step keeps the guard exactly when it is none of those. */
  lemma GuardLostExactlyWhen(t: Tables, n: Tally, e: Event, f: Id)
    requires Accounted(t, n, f) && Enabled(n, e, f) && Guarded(t, n, f)
    ensures Guarded(After(t, e), Tick(t, n, e, f), f) <==> !LosesGuard(t, n, e, f)
  {
  }

  predicate NeverLosesGuard(t: Tables, n: Tally, es: seq<Event>, f: Id)
    decreases |es|
  {
    es == [] || (!LosesGuard(t, n, es[0], f) && NeverLosesGuard(After(t, es[0]), Tick(t, n, es[0], f), es[1..], f))
  }

  /** A request to delete or rename the file, keyed by an unlocked directory. */
  predicate Removes(t: Tables, q: Request, f: Id) {
    q.file == f && (q.op.Delete? || q.op.Rename?) && q.dir !in t.locked
  }

  /** Such a request is refused while the file is in use exactly when the tables guard it. */
  lemma RefusedExactlyWhenGuarded(t: Tables, n: Tally, q: Request, f: Id)
    requires Accounted(t, n, f) && InUse(n) && Removes(t, q, f)
    ensures Judge(t, q) == SendError <==> Guarded(t, n, f)
  {
  }

  /** While the file is in use, every such request is refused. */
  ghost predicate Refuses(t: Tables, n: Tally, f: Id) {
    forall q :: InUse(n) && Removes(t, q, f) ==> Judge(t, q) == SendError
  }

  lemma {:induction false} Beyond(s: set<Id>) returns (bound: Id)
    ensures forall d :: d in s ==> d < bound
    decreases s
  {
    bound := 0;
    if s != {} {
      var d :| d in s;
      var below := Beyond(s - {d});
      bound := if d < below then below else d + 1;
      assert forall x :: x in s ==> x == d || x in s - {d};
    }
  }

  lemma RefusesExactlyWhenGuarded(t: Tables, n: Tally, f: Id)
    requires Accounted(t, n, f)
    ensures Refuses(t, n, f) <==> Guarded(t, n, f)
  {
    if Guarded(t, n, f) {
      forall q | InUse(n) && Removes(t, q, f) ensures Judge(t, q) == SendError {
        RefusedExactlyWhenGuarded(t, n, q, f);
      }
    } else {
      var d := Beyond(t.locked);
      var q := Request(d, f, Delete);
      assert Removes(t, q, f);
      RefusedExactlyWhenGuarded(t, n, q, f);
    }
  }

  /** In every state of the run, every such request is refused while the file is in use. */
  ghost predicate RefusesThroughout(t: Tables, n: Tally, es: seq<Event>, f: Id)
    decreases |es|
  {
    Refuses(t, n, f) && (es != [] ==> RefusesThroughout(After(t, es[0]), Tick(t, n, es[0], f), es[1..], f))
  }

  lemma {:induction false} RefusesThroughoutExactlyWhen(t: Tables, n: Tally, es: seq<Event>, f: Id)
    requires ValidFor(t, n, es, f) && Accounted(t, n, f) && Guarded(t, n, f)
    ensures RefusesThroughout(t, n, es, f) <==> NeverLosesGuard(t, n, es, f)
    decreases |es|
  {
    RefusesExactlyWhenGuarded(t, n, f);
    if es != [] {
      var t', n' := After(t, es[0]), Tick(t, n, es[0], f);
      StepAccounted(t, n, es[0], f);
      GuardLostExactlyWhen(t, n, es[0], f);
      RefusesExactlyWhenGuarded(t', n', f);
      if Guarded(t', n', f) {
        RefusesThroughoutExactlyWhen(t', n', es[1..], f);
      }
    }
  }

  /** In every run: all deletes and renames that arrive, keyed by an unlocked directory, while
      their file is open or being opened are refused, exactly when the run never takes a step
      that loses the guard. */
  lemma OpenFilesAreGuarded(es: seq<Event>, f: Id)
    requires ValidRun(es)
    ensures RefusesThroughout(EMPTY, NOTHING, es, f) <==> NeverLosesGuard(EMPTY, NOTHING, es, f)
  {
    RefusesThroughoutExactlyWhen(EMPTY, NOTHING, es, f);
  }

  /** With at most one open of the file under way at a time no step does. */
  lemma {:induction false} OneOpenKeepsGuard(t: Tables, n: Tally, es: seq<Event>, f: Id)
    requires ValidFor(t, n, es, f) && Accounted(t, n, f) && OpensTracked(t, n, f) && OneOpen(t, n, es, f)
    ensures NeverLosesGuard(t, n, es, f)
    decreases |es|
  {
    if es != [] {
      StepAccounted(t, n, es[0], f);
      TrackingBreaksExactlyWhen(t, n, es[0], f);
      OneOpenKeepsGuard(After(t, es[0]), Tick(t, n, es[0], f), es[1..], f);
    }
  }

  /** The verdict on a request keyed by an unlocked directory, by the tally of its file. */
  function VerdictFor(n: Tally, op: Op, guarded: bool): Verdict {
    var open := n.grants > n.closes;
    match op
    case Open => if open then SendIp else Forward
    case Close => if open then SendOk else SendError
    case Data => if open then Forward else SendError
    case OtherMeta => Forward
    case Delete => if InUse(n) && guarded then SendError else Forward
    case Rename(_) => if InUse(n) && guarded then SendError else Forward
  }

  /** In every run: an open is answered by the proxy, a close accepted and a data request
      forwarded exactly when the file has more granted opens than accepted closes; other
      metadata requests are forwarded; a delete or rename is forwarded exactly when the file is
      not in use or the guard is lost; and all are refused when their directory is locked. */
  lemma VerdictsFollowTheTally(es: seq<Event>, q: Request)
    requires ValidRun(es)
    ensures var t, n := Run(EMPTY, es), Tallied(EMPTY, NOTHING, es, q.file);
            Judge(t, q) == if q.dir in t.locked then SendError else VerdictFor(n, q.op, Guarded(t, n, q.file))
  {
    OpensAreConserved(es, q.file);
  }

  lemma FirstEvent(t: Tables, n: Tally, e: Event, es: seq<Event>, f: Id)
    ensures Run(t, [e] + es) == Run(After(t, e), es)
    ensures Tallied(t, n, [e] + es, f) == Tallied(After(t, e), Tick(t, n, e, f), es, f)
    ensures ValidFor(t, n, [e] + es, f) <==> Enabled(n, e, f) && ValidFor(After(t, e), Tick(t, n, e, f), es, f)
  {
    assert ([e] + es)[1..] == es;
  }

  /** With two opens under way the first success also forgets the second one, and after a
      close the file can be deleted while it is still being opened. */
  lemma TwoOpensLoseTheGuard(d: Id, f: Id)
    ensures var es := [Arrive(Request(d, f, Open)), Arrive(Request(d, f, Open)), OpenReply(f, true),
                       Arrive(Request(d, f, Close))];
            && ValidRun(es) && Tallied(EMPTY, NOTHING, es, f).opens == 1
            && Judge(Run(EMPTY, es), Request(d, f, Delete)) == Forward
  {
    var ask, done, shut := Arrive(Request(d, f, Open)), OpenReply(f, true), Arrive(Request(d, f, Close));
    var es := [ask, ask, done, shut];
    assert es == [ask] + ([ask] + ([done] + ([shut] + [])));
    var t1 := After(EMPTY, ask);
    var t2 := After(t1, ask);
    var t3 := After(t2, done);
    forall g
      ensures ValidFor(EMPTY, NOTHING, es, g)
      ensures Tallied(EMPTY, NOTHING, es, g).opens == if g == f then 1 else 0
      ensures Run(EMPTY, es) == After(t3, shut)
    {
      var n1 := Tick(EMPTY, NOTHING, ask, g);
      var n2 := Tick(t1, n1, ask, g);
      var n3 := Tick(t2, n2, done, g);
      FirstEvent(t3, n3, shut, [], g);
      FirstEvent(t2, n2, done, [shut] + [], g);
      FirstEvent(t1, n1, ask, [done] + ([shut] + []), g);
      FirstEvent(EMPTY, NOTHING, ask, [ask] + ([done] + ([shut] + [])), g);
    }
  }

  /** A directory is locked exactly while a rename out of it is under way. */
  predicate RenamesTracked(t: Tables, n: Tally, d: Id) {
    n.renames >= 0 && (d in t.locked <==> n.renames > 0)
  }

  /** A step keeps that exact, unless it is a reply while another rename is under way. */
  lemma UnlockedTooEarlyExactlyWhen(t: Tables, n: Tally, e: Event, d: Id)
    requires Enabled(n, e, d) && RenamesTracked(t, n, d)
    ensures RenamesTracked(After(t, e), Tick(t, n, e, d), d) <==> !(e == RenameReply(d) && n.renames > 1)
  {
  }

  /** No reply to a rename out of the directory comes while another one is under way. */
  predicate NeverUnlocksEarly(t: Tables, n: Tally, es: seq<Event>, d: Id)
    decreases |es|
  {
    es == [] || (!(es[0] == RenameReply(d) && n.renames > 1)
                 && NeverUnlocksEarly(After(t, es[0]), Tick(t, n, es[0], d), es[1..], d))
  }

  predicate LockedThroughout(t: Tables, n: Tally, es: seq<Event>, d: Id)
    decreases |es|
  {
    RenamesTracked(t, n, d) && (es != [] ==> LockedThroughout(After(t, es[0]), Tick(t, n, es[0], d), es[1..], d))
  }

  lemma {:induction false} LockedThroughoutExactlyWhen(t: Tables, n: Tally, es: seq<Event>, d: Id)
    requires ValidFor(t, n, es, d) && RenamesTracked(t, n, d)
    ensures LockedThroughout(t, n, es, d) <==> NeverUnlocksEarly(t, n, es, d)
    decreases |es|
  {
    if es != [] {
      var t', n' := After(t, es[0]), Tick(t, n, es[0], d);
      UnlockedTooEarlyExactlyWhen(t, n, es[0], d);
      if RenamesTracked(t', n', d) {
        LockedThroughoutExactlyWhen(t', n', es[1..], d);
      }
    }
  }

  /** In every run: a directory is locked exactly while a rename out of it is under way, in
      every state, if and only if no reply comes while another such rename is under way. */
  lemma LocksAreExact(es: seq<Event>, d: Id)
    requires ValidRun(es)
    ensures LockedThroughout(EMPTY, NOTHING, es, d) <==> NeverUnlocksEarly(EMPTY, NOTHING, es, d)
  {
    LockedThroughoutExactlyWhen(EMPTY, NOTHING, es, d);
  }

  predicate OneRename(t: Tables, n: Tally, es: seq<Event>, d: Id)
    decreases |es|
  {
    n.renames <= 1 && (es != [] ==> OneRename(After(t, es[0]), Tick(t, n, es[0], d), es[1..], d))
  }

  lemma {:induction false} OneRenameIsTracked(t: Tables, n: Tally, es: seq<Event>, d: Id)
    requires ValidFor(t, n, es, d) && RenamesTracked(t, n, d) && OneRename(t, n, es, d)
    ensures RenamesTracked(Run(t, es), Tallied(t, n, es, d), d)
    decreases |es|
  {
    if es != [] {
      UnlockedTooEarlyExactlyWhen(t, n, es[0], d);
      OneRenameIsTracked(After(t, es[0]), Tick(t, n, es[0], d), es[1..], d);
    }
  }

  /** Every request keyed by a directory that arrives before the reply of a rename out of it is
      refused, in every run with at most one such rename at a time. */
  lemma RenamingLocksTheDirectory(es: seq<Event>, q: Request)
    requires ValidRun(es) && OneRename(EMPTY, NOTHING, es, q.dir)
    ensures var t := Run(EMPTY, es);
            Tallied(EMPTY, NOTHING, es, q.dir).renames > 0 ==> Judge(t, q) == SendError && Admit(t, q) == t
  {
    OneRenameIsTracked(EMPTY, NOTHING, es, q.dir);
  }

  /** Every rename out of the directory is keyed by the directory itself. */
  predicate KeyedBySource(es: seq<Event>, d: Id) {
    forall i :: 0 <= i < |es| && es[i].Arrive? && es[i].request.op == Rename(d) ==> es[i].request.dir == d
  }

  /** Then the lock itself keeps a second rename out. */
  lemma {:induction false} KeyedRenamesComeOneByOne(t: Tables, n: Tally, es: seq<Event>, d: Id)
    requires ValidFor(t, n, es, d) && KeyedBySource(es, d) && RenamesTracked(t, n, d) && n.renames <= 1
    ensures OneRename(t, n, es, d)
    decreases |es|
  {
    if es != [] {
      UnlockedTooEarlyExactlyWhen(t, n, es[0], d);
      KeyedRenamesComeOneByOne(After(t, es[0]), Tick(t, n, es[0], d), es[1..], d);
    }
  }
}
