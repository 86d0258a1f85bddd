/** Operations that overlap.  An operation reads its directories, and its transaction is decided
    later; other operations may end in between.  Runs in which none of them changes what an
    operation has read are runs of whole operations, in the order of the decisions; where one
    does, the later decision brings back what its operation had read. */
module Overlap {
  import opened ByteSeq
  import opened StorageKey
  import opened FlatFile
  import opened StripedRead
  import opened Directory
  import opened DirectoryRun
  import opened FileSystem
  import opened Leftovers
  import opened Metadata
  import opened MetadataRun

  // ----- what an operation reads

  predicate Renames(op: Op) {
    op.RenameIn? || op.RenameTo?
  }

  /** What the reads of an operation give it: its directory, the destination of a rename, and
      the bytes to copy; and whether those loads end. */
  datatype Glimpse = Glimpse(own: Option<seq<DirEntry>>, ownEnds: bool, dst: Option<seq<DirEntry>>, dstEnds: bool,
                             copy: Bytes)

  function CopyFor(bs: nat, files: Files, op: Op, own: Option<seq<DirEntry>>): Bytes
    requires bs > 0
  {
    if Renames(op) && own.Some? && Has(own.value, op.name)
    then CopyOf(bs, files, op.oldKey, EntryOf(own.value, op.name)) else []
  }

  function ReadsOf(bs: nat, files: Files, op: Op): Glimpse
    requires bs > 0
  {
    var own := if op.Init? then None else EntriesAt(bs, files, op.dir);
    Glimpse(own,
            op.Init? || Settles(bs, FileOf(files, op.dir)),
            if op.RenameTo? then EntriesAt(bs, files, op.dst) else None,
            op.RenameTo? ==> Settles(bs, FileOf(files, op.dst)),
            CopyFor(bs, files, op, own))
  }

  lemma ReadsPose(bs: nat, seen: Files, files: Files, op: Op)
    requires bs > 0 && ReadsOf(bs, seen, op) == ReadsOf(bs, files, op)
    requires WellPosed(bs, seen, op) && ReplyOf(bs, seen, op, true) == Ok
    ensures WellPosed(bs, files, op) && ReplyOf(bs, files, op, true) == Ok
  {
  }

  /** The reply and the transaction depend on nothing else. */
  lemma ReadsDecide(bs: nat, seen: Files, files: Files, op: Op, inputs: seq<Input>)
    requires bs > 0 && ReadsOf(bs, seen, op) == ReadsOf(bs, files, op)
    requires WellPosed(bs, seen, op) && ReplyOf(bs, seen, op, true) == Ok && Sends(bs, seen, op, inputs)
    ensures WellPosed(bs, files, op) && ReplyOf(bs, files, op, true) == Ok && Sends(bs, files, op, inputs)
  {
    ReadsPose(bs, seen, files, op);
    if Renames(op) {
      assert CopyFor(bs, seen, op, EntriesAt(bs, seen, op.dir)) == CopyFor(bs, files, op, EntriesAt(bs, files, op.dir));
    }
  }

  /** The keys an operation reads. */
  function ReadKeys(op: Op): set<Uuid> {
    match op
    case RenameIn(d, _, _, oldKey, _) => {d, oldKey}
    case RenameTo(d, dst, _, _, oldKey, _) => {d, dst, oldKey}
    case Init(_, _) => {}
    case _ => {op.dir}
  }

  lemma OthersKeepReads(bs: nat, files: Files, files': Files, op: Op)
    requires bs > 0 && forall u :: u in ReadKeys(op) ==> FileOf(files', u) == FileOf(files, u)
    ensures ReadsOf(bs, files', op) == ReadsOf(bs, files, op)
  {
    if !op.Init? {
      assert FileOf(files', op.dir) == FileOf(files, op.dir);
      assert op.RenameTo? ==> FileOf(files', op.dst) == FileOf(files, op.dst);
      assert Renames(op) ==> FileOf(files', op.oldKey) == FileOf(files, op.oldKey);
    }
  }

  /** The directories are whole, and all blocks of the bytes to copy are stored. */
  ghost predicate Steady(bs: nat, files: Files, op: Op)
    requires bs > 0
  {
    var own := EntriesAt(bs, files, op.dir);
    && (!op.Init? ==> own.Some? && DirAt(bs, FileOf(files, op.dir), own.value))
    && (op.RenameTo? ==>
          var dst := EntriesAt(bs, files, op.dst);
          dst.Some? && DirAt(bs, FileOf(files, op.dst), dst.value))
    && (Renames(op) && Has(own.value, op.name) ==>
          Covered(bs, FileOf(files, op.oldKey), SizeOf(EntryOf(own.value, op.name))))
  }

  lemma ExtendedDirectory(bs: nat, f: Blocks, g: Blocks, es: seq<DirEntry>)
    requires bs > 0 && DirAt(bs, f, es) && Extends(f, g)
    ensures Settles(bs, f) && Settles(bs, g) && DirOf(bs, f) == DirOf(bs, g) == Some(es)
  {
    EmptyBlocksKeepDirectory(bs, f, g, es);
    DirectoryIsFound(bs, f, es);
    DirectoryIsFound(bs, g, es);
  }

  lemma ExtendedCopy(bs: nat, f: Blocks, g: Blocks, n: nat)
    requires bs > 0 && Covered(bs, f, n) && Extends(f, g)
    ensures ReadFrom0(bs, g, n) == ReadFrom0(bs, f, n)
  {
    CopyIsExactlyWhen(bs, f, n);
    CopyIsExactlyWhen(bs, g, n);
    var a, b := ReadFrom0(bs, f, n), ReadFrom0(bs, g, n);
    forall i | 0 <= i < n ensures b[i] == a[i] {
      assert a[i] == ByteOf(bs, f, 0 + i) && b[i] == ByteOf(bs, g, 0 + i);
    }
  }

  /** Empty blocks do not change what such an operation reads. */
  lemma AbortsKeepReads(bs: nat, files: Files, files': Files, op: Op)
    requires bs > 0 && Steady(bs, files, op) && forall u :: Extends(FileOf(files, u), FileOf(files', u))
    ensures ReadsOf(bs, files', op) == ReadsOf(bs, files, op)
  {
    if !op.Init? {
      var own := EntriesAt(bs, files, op.dir).value;
      ExtendedDirectory(bs, FileOf(files, op.dir), FileOf(files', op.dir), own);
      if op.RenameTo? {
        ExtendedDirectory(bs, FileOf(files, op.dst), FileOf(files', op.dst), EntriesAt(bs, files, op.dst).value);
      }
      if Renames(op) && Has(own, op.name) {
        ExtendedCopy(bs, FileOf(files, op.oldKey), FileOf(files', op.oldKey), SizeOf(EntryOf(own, op.name)));
      }
    }
  }

  // ----- overlapping runs

  /** An operation whose transaction is not decided yet: its inputs and the files it read. */
  datatype Flight = Flight(op: Op, inputs: seq<Input>, seen: Files)

  datatype System = System(files: Files, flights: map<nat, Flight>)

  /** An operation reads and sends its transaction, or is refused by what it reads; or the
      transaction of an operation is decided. */
  datatype Step = Send(t: nat, op: Op, inputs: seq<Input>) | Refuse(op: Op, reply: Reply) | Decide(t: nat, commit: bool)

  ghost predicate StepFrom(bs: nat, s: System, step: Step, s': System)
    requires bs > 0
  {
    match step
    case Send(t, op, inputs) =>
      && t !in s.flights && WellPosed(bs, s.files, op) && ReplyOf(bs, s.files, op, true) == Ok
      && Sends(bs, s.files, op, inputs) && s' == s.(flights := s.flights[t := Flight(op, inputs, s.files)])
    case Refuse(op, reply) =>
      WellPosed(bs, s.files, op) && reply == ReplyOf(bs, s.files, op, true) && reply != Ok && s' == s
    case Decide(t, commit) =>
      && t in s.flights && s'.flights == s.flights - {t}
      && Outcome(bs, s.files, s.flights[t].inputs, commit, s'.files)
  }

  ghost predicate StepAt(bs: nat, states: seq<System>, steps: seq<Step>, i: nat)
    requires bs > 0 && i < |steps| < |states|
  {
    StepFrom(bs, states[i], steps[i], states[i + 1])
  }

  /** A run from a state with no operation under way. */
  ghost predicate OverlapRun(bs: nat, states: seq<System>, steps: seq<Step>)
    requires bs > 0
  {
    && |states| == |steps| + 1 && states[0].flights == map[]
    && forall i: nat :: i < |steps| ==> StepAt(bs, states, steps, i)
  }

  /** Every operation under way would read the same again. */
  ghost predicate Unchanged(bs: nat, s: System)
    requires bs > 0
  {
    forall t :: t in s.flights ==> StillReads(bs, s, s.flights[t])
  }

  ghost predicate StillReads(bs: nat, s: System, f: Flight)
    requires bs > 0
  {
    && ReadsOf(bs, f.seen, f.op) == ReadsOf(bs, s.files, f.op)
    && WellPosed(bs, f.seen, f.op) && ReplyOf(bs, f.seen, f.op, true) == Ok && Sends(bs, f.seen, f.op, f.inputs)
  }

  /** A decision leaves what another operation has read: it ends on other keys, or it aborts
      and the other operation reads nothing that empty blocks change. */
  ghost predicate Spares(bs: nat, s: System, op: Op, commit: bool, other: Op)
    requires bs > 0
  {
    KeysOf(op) !! ReadKeys(other) || (!commit && Steady(bs, s.files, other))
  }

  ghost predicate SparesAll(bs: nat, s: System, step: Step)
    requires bs > 0
  {
    step.Decide? && step.t in s.flights ==>
      forall t :: t in s.flights && t != step.t ==> Spares(bs, s, s.flights[step.t].op, step.commit, s.flights[t].op)
  }

  /** No decision between the reads of an operation and its own decision changes what it read. */
  ghost predicate Isolated(bs: nat, states: seq<System>, steps: seq<Step>)
    requires bs > 0 && |states| > |steps|
  {
    forall i: nat :: i < |steps| ==> SparesAll(bs, states[i], steps[i])
  }

  lemma DecisionSpares(bs: nat, s: System, op: Op, inputs: seq<Input>, commit: bool, files': Files, other: Op)
    requires bs > 0 && Outcome(bs, s.files, inputs, commit, files') && TxnKeys(inputs, op)
    requires Spares(bs, s, op, commit, other)
    ensures ReadsOf(bs, files', other) == ReadsOf(bs, s.files, other)
  {
    if KeysOf(op) !! ReadKeys(other) {
      forall u | u in ReadKeys(other) ensures FileOf(files', u) == FileOf(s.files, u) {
        OutcomeElsewhere(bs, s.files, inputs, commit, files', u);
      }
      OthersKeepReads(bs, s.files, files', other);
    } else {
      forall u ensures Extends(FileOf(s.files, u), FileOf(files', u)) {
        assert AbortAt(bs, s.files, files', inputs, u);
      }
      AbortsKeepReads(bs, s.files, files', other);
    }
  }

  lemma StepKeepsReads(bs: nat, s: System, step: Step, s': System)
    requires bs > 0 && StepFrom(bs, s, step, s') && Unchanged(bs, s) && SparesAll(bs, s, step)
    ensures Unchanged(bs, s')
  {
    forall t | t in s'.flights ensures StillReads(bs, s', s'.flights[t]) {
      if step.Decide? {
        assert StillReads(bs, s, s.flights[t]) && StillReads(bs, s, s.flights[step.t]);
        DecisionSpares(bs, s, s.flights[step.t].op, s.flights[step.t].inputs, step.commit, s'.files, s.flights[t].op);
      } else if t in s.flights && (step.Send? ==> t != step.t) {
        assert StillReads(bs, s, s.flights[t]);
      }
    }
  }

  lemma {:induction false} ReadsStay(bs: nat, states: seq<System>, steps: seq<Step>, n: nat)
    requires bs > 0 && OverlapRun(bs, states, steps) && Isolated(bs, states, steps) && n <= |steps|
    ensures Unchanged(bs, states[n])
  {
    if n > 0 {
      ReadsStay(bs, states, steps, n - 1);
      assert StepAt(bs, states, steps, n - 1) && SparesAll(bs, states[n - 1], steps[n - 1]);
      StepKeepsReads(bs, states[n - 1], steps[n - 1], states[n]);
    }
  }

  // ----- the same run, one operation after another

  /** The requests that the first `n` steps answer, in the order of the answers. */
  function Answers(states: seq<System>, steps: seq<Step>, n: nat): seq<Event>
    requires n <= |steps| < |states|
  {
    if n == 0 then []
    else Answers(states, steps, n - 1) +
         match steps[n - 1]
         case Send(_, _, _) => []
         case Refuse(op, reply) => [Event(op, true, reply)]
         case Decide(t, commit) =>
           var s := states[n - 1];
           if t in s.flights then [Event(s.flights[t].op, commit, Decided(commit))] else []
  }

  /** The stored files before, between and after those answers. */
  function Stored(states: seq<System>, steps: seq<Step>, n: nat): (files: seq<Files>)
    requires n <= |steps| < |states|
    ensures files != []
  {
    if n == 0 then [states[0].files]
    else if steps[n - 1].Send? then Stored(states, steps, n - 1)
    else Stored(states, steps, n - 1) + [states[n].files]
  }

  lemma OneMoreHandled(bs: nat, files: seq<Files>, run: seq<Event>, e: Event, next: Files)
    requires bs > 0 && ServiceRun(bs, files, run) && Handled(bs, files[|run|], e, next)
    ensures ServiceRun(bs, files + [next], run + [e])
  {
    var files', run' := files + [next], run + [e];
    forall i | 0 <= i < |run'| ensures HandledAt(bs, files', run', i) {
      if i < |run| {
        assert HandledAt(bs, files, run, i);
        assert files'[i] == files[i] && files'[i + 1] == files[i + 1] && run'[i] == run[i];
      } else {
        assert files'[i] == files[|run|] && files'[i + 1] == next && run'[i] == e;
      }
    }
  }

  /** A decision on what the operation still reads is the whole operation, done there. */
  lemma DecisionIsHandled(bs: nat, s: System, t: nat, commit: bool, s': System)
    requires bs > 0 && StepFrom(bs, s, Decide(t, commit), s') && Unchanged(bs, s)
    ensures Handled(bs, s.files, Event(s.flights[t].op, commit, Decided(commit)), s'.files)
  {
    var f := s.flights[t];
    assert StillReads(bs, s, f);
    ReadsDecide(bs, f.seen, s.files, f.op, f.inputs);
    OutcomePerforms(bs, s.files, f.op, f.inputs, commit, s'.files);
  }

  lemma StepIsSerial(bs: nat, states: seq<System>, steps: seq<Step>, n: nat)
    requires bs > 0 && OverlapRun(bs, states, steps) && 0 < n <= |steps| && Unchanged(bs, states[n - 1])
    requires ServiceRun(bs, Stored(states, steps, n - 1), Answers(states, steps, n - 1))
    requires Stored(states, steps, n - 1)[|Answers(states, steps, n - 1)|] == states[n - 1].files
    ensures ServiceRun(bs, Stored(states, steps, n), Answers(states, steps, n))
    ensures Stored(states, steps, n)[|Answers(states, steps, n)|] == states[n].files
  {
    var files, run, step := Stored(states, steps, n - 1), Answers(states, steps, n - 1), steps[n - 1];
    assert StepAt(bs, states, steps, n - 1);
    match step
    case Send(_, _, _) =>
      assert run + [] == run;
    case Refuse(op, reply) =>
      OneMoreHandled(bs, files, run, Event(op, true, reply), states[n].files);
    case Decide(t, commit) =>
      DecisionIsHandled(bs, states[n - 1], t, commit, states[n]);
      OneMoreHandled(bs, files, run, Event(states[n - 1].flights[t].op, commit, Decided(commit)), states[n].files);
  }

  /** An isolated run of overlapping operations is a run of whole operations, in the order of
      their decisions, on the same stored files. */
  lemma {:induction false} OverlapIsSerial(bs: nat, states: seq<System>, steps: seq<Step>, n: nat)
    requires bs > 0 && OverlapRun(bs, states, steps) && Isolated(bs, states, steps) && n <= |steps|
    ensures ServiceRun(bs, Stored(states, steps, n), Answers(states, steps, n))
    ensures Stored(states, steps, n)[|Answers(states, steps, n)|] == states[n].files
  {
    if n > 0 {
      OverlapIsSerial(bs, states, steps, n - 1);
      ReadsStay(bs, states, steps, n - 1);
      StepIsSerial(bs, states, steps, n);
    }
  }

  lemma {:induction false} FirstStored(states: seq<System>, steps: seq<Step>, n: nat)
    requires n <= |steps| < |states|
    ensures Stored(states, steps, n)[0] == states[0].files
  {
    if n > 0 {
      FirstStored(states, steps, n - 1);
    }
  }

  /** So the stored directories are maps after it, as after the answered operations. */
  lemma OverlappingDirectoriesAreMaps(bs: nat, states: seq<System>, steps: seq<Step>, m: Model)
    requires bs > 0 && OverlapRun(bs, states, steps) && Isolated(bs, states, steps) && Tracks(bs, states[0].files, m)
    ensures var run := Answers(states, steps, |steps|);
            Tracks(bs, states[|steps|].files, ModelAt(bs, m, run, |run|))
  {
    var n := |steps|;
    var run := Answers(states, steps, n);
    OverlapIsSerial(bs, states, steps, n);
    FirstStored(states, steps, n);
    DirectoriesAreMaps(bs, Stored(states, steps, n), m, run, |run|);
  }

  // ----- when something has changed

  /** A commit leaves the directory as its operation read it, edited, whatever is stored at the
      decision. */
  lemma CommitRestoresRead(bs: nat, seen: Files, files: Files, op: Op, inputs: seq<Input>, files': Files)
    requires bs > 0 && !op.Init? && WellPosed(bs, seen, op) && ReplyOf(bs, seen, op, true) == Ok
    requires Sends(bs, seen, op, inputs) && Outcome(bs, files, inputs, true, files')
    ensures DirAt(bs, FileOf(files', op.dir), Edited(EntriesAt(bs, seen, op.dir).value, EditOf(bs, op)))
  {
    var es := EntriesAt(bs, seen, op.dir).value;
    PutDirectory(bs, files, inputs, 0, op.dir, inputs[0].data, Edited(es, EditOf(bs, op)));
  }

  /** Two files are added from one read of their directory and both commit: the first is lost. */
  lemma LostEntry(bs: nat, files: Files, op1: Op, op2: Op, inputs1: seq<Input>, inputs2: seq<Input>,
                  files1: Files, files2: Files)
    requires bs > 0 && op1.Add? && op2.Add? && op1.dir == op2.dir && op1.name != op2.name
    requires WellPosed(bs, files, op1) && ReplyOf(bs, files, op1, true) == Ok && Sends(bs, files, op1, inputs1)
    requires WellPosed(bs, files, op2) && ReplyOf(bs, files, op2, true) == Ok && Sends(bs, files, op2, inputs2)
    requires Outcome(bs, files, inputs1, true, files1) && Outcome(bs, files1, inputs2, true, files2)
    ensures EntriesAt(bs, files1, op1.dir).Some? && Has(EntriesAt(bs, files1, op1.dir).value, op1.name)
    ensures EntriesAt(bs, files2, op1.dir).Some? && !Has(EntriesAt(bs, files2, op1.dir).value, op1.name)
  {
    var es := EntriesAt(bs, files, op1.dir).value;
    var e1, e2 := NewEntry(op1.meta, op1.name), NewEntry(op2.meta, op2.name);
    NewEntryFields(op1.meta, op1.name);
    NewEntryFields(op2.meta, op2.name);
    CommitRestoresRead(bs, files, files, op1, inputs1, files1);
    CommitRestoresRead(bs, files, files1, op2, inputs2, files2);
    DirectoryIsFound(bs, FileOf(files1, op1.dir), es + [e1]);
    DirectoryIsFound(bs, FileOf(files2, op1.dir), es + [e2]);
    HasAppended(es, e1, op1.name);
    HasAppended(es, e2, op1.name);
  }

  lemma HasAppended(es: seq<DirEntry>, e: DirEntry, x: Name)
    ensures Has(es + [e], x) <==> Has(es, x) || NameOf(e) == x
  {
    if i :| 0 <= i < |es| && NameOf(es[i]) == x {
      assert NameOf((es + [e])[i]) == x;
    } else {
      assert NameOf((es + [e])[|es|]) == NameOf(e);
    }
  }

  /** A directory has one map. */
  lemma OneMap(bs: nat, f: Blocks, m1: map<Name, Meta>, m2: map<Name, Meta>)
    requires bs > 0 && Keeps(bs, f, m1) && Keeps(bs, f, m2)
    ensures m1 == m2
  {
    var es1 := KeptEntries(bs, f, m1);
    var es2 := KeptEntries(bs, f, m2);
    forall x: Name ensures InMap(m1, x) == InMap(m2, x) {
      assert Lookup(es1, x) == InMap(m1, x) && Lookup(es1, x) == InMap(m2, x);
    }
    SameMap(m1, m2);
  }

  lemma SameMap(m1: map<Name, Meta>, m2: map<Name, Meta>)
    requires forall x: Name :: InMap(m1, x) == InMap(m2, x)
    ensures m1 == m2
  {
    forall x: Name ensures (x in m1 <==> x in m2) && (x in m1 ==> m1[x] == m2[x]) {
      assert InMap(m1, x) == InMap(m2, x);
    }
  }

  /** The maps agree on all names but one, and on whether that one is there. */
  ghost predicate AgreeBut(m1: map<Name, Meta>, m2: map<Name, Meta>, name: Name) {
    (name in m1 <==> name in m2) && forall x: Name :: x != name ==> InMap(m1, x) == InMap(m2, x)
  }

  lemma EditsAgreeExactlyWhen(m1: map<Name, Meta>, m2: map<Name, Meta>, edit: Edit, name: Name)
    requires || (edit.Insert? && NameOf(edit.entry) == name && name !in m1 && name !in m2)
             || (edit == Drop(name) && name in m1 && name in m2)
    ensures EditedMap(m1, edit) == EditedMap(m2, edit) <==> AgreeBut(m1, m2, name)
  {
    var n1, n2 := EditedMap(m1, edit), EditedMap(m2, edit);
    if n1 == n2 {
      forall x: Name | x != name ensures InMap(m1, x) == InMap(m2, x) {
        assert InMap(n1, x) == InMap(m1, x) && InMap(n2, x) == InMap(m2, x);
      }
    }
    if AgreeBut(m1, m2, name) {
      forall x: Name ensures InMap(n1, x) == InMap(n2, x) {
        assert x != name ==> InMap(m1, x) == InMap(m2, x);
      }
      SameMap(n1, n2);
    }
  }

  /** The commit is what the operation would do on the directory as it is at the decision. */
  ghost predicate AsIfReadNow(bs: nat, op: Op, now: map<Name, Meta>, f': Blocks)
    requires bs > 0 && (op.Add? || op.MakeDir? || op.Delete?) && Shaped(op)
  {
    (op.Delete? <==> op.name in now) && Keeps(bs, f', EditedMap(now, EditOf(bs, op)))
  }

  /** A committed add, mkdir or delete is exactly then as if it had read its directory at the
      decision, when all other names are there as they were at the read, and its own name is
      there or not as at the read. */
  lemma CommitIsCurrentExactlyWhen(bs: nat, seen: Files, files: Files, op: Op, inputs: seq<Input>, files': Files,
                                   before: map<Name, Meta>, now: map<Name, Meta>)
    requires bs > 0 && (op.Add? || op.MakeDir? || op.Delete?)
    requires WellPosed(bs, seen, op) && ReplyOf(bs, seen, op, true) == Ok && Sends(bs, seen, op, inputs)
    requires Outcome(bs, files, inputs, true, files')
    requires Keeps(bs, FileOf(seen, op.dir), before) && Keeps(bs, FileOf(files, op.dir), now)
    ensures Keeps(bs, FileOf(files', op.dir), EditedMap(before, EditOf(bs, op)))
    ensures AsIfReadNow(bs, op, now, FileOf(files', op.dir)) <==> AgreeBut(before, now, op.name)
  {
    var es := KeptEntries(bs, FileOf(seen, op.dir), before);
    HasInMap(es, before, op.name);
    CommitRestoresRead(bs, seen, files, op, inputs, files');
    EditKept(bs, FileOf(seen, op.dir), FileOf(files', op.dir), before, EditOf(bs, op), es);
    if !op.Delete? {
      NewEntryFields(op.meta, op.name);
    }
    if op.Delete? <==> op.name in now {
      EditsAgreeExactlyWhen(before, now, EditOf(bs, op), op.name);
      if Keeps(bs, FileOf(files', op.dir), EditedMap(now, EditOf(bs, op))) {
        OneMap(bs, FileOf(files', op.dir), EditedMap(before, EditOf(bs, op)), EditedMap(now, EditOf(bs, op)));
      }
    }
  }
}
