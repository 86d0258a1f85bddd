/** Runs of metadata operations on the stored files: the directories behave as maps from names
    to metadata, whatever aborts, re-reads and stale bytes come in between. */
module MetadataRun {
  import opened ByteSeq
  import opened StorageKey
  import opened Directory
  import opened DirectoryRun
  import opened StripedRead
  import opened FileSystem
  import opened Leftovers
  import opened BlockWalk
  import opened Metadata

  /** The directories that are known, by key. */
  type Model = map<Uuid, map<Name, Meta>>

  /** The stored blocks are a directory whose entries stand for the map. */
  ghost predicate Stands(bs: nat, f: Blocks, es: seq<DirEntry>, names: map<Name, Meta>)
    requires bs > 0
  {
    DirAt(bs, f, es) && Represents(es, names)
  }

  ghost predicate Keeps(bs: nat, f: Blocks, names: map<Name, Meta>)
    requires bs > 0
  {
    exists es :: Stands(bs, f, es, names)
  }

  ghost predicate Tracks(bs: nat, files: Files, m: Model)
    requires bs > 0
  {
    forall d :: d in m ==> Keeps(bs, FileOf(files, d), m[d])
  }

  // ----- the operations on maps

  predicate Shaped(op: Op) {
    (op.Add? || op.MakeDir? ==> |op.meta| == NAME_AT) && (op.Write? ==> |op.time| == 8)
  }

  function Filed(names: map<Name, Meta>, x: Name, meta: Meta): map<Name, Meta> {
    names[x := meta]
  }

  function Known(m: Model, d: Uuid, edit: Edit): Model
    requires edit.SetSize? ==> |edit.time| == 8
  {
    if d in m then m[d := EditedMap(m[d], edit)] else m
  }

  /** The maps after a committed operation.  A key that takes data is no longer a known
      directory, and neither is one with a name twice. */
  function After(bs: nat, m: Model, op: Op): Model
    requires bs > 0 && Shaped(op)
  {
    match op
    case Add(d, _, _) => Known(m, d, EditOf(bs, op))
    case MakeDir(d, _, _, child, _) => Known(m, d, EditOf(bs, op))[child := map[]]
    case Delete(d, _) => Known(m, d, EditOf(bs, op))
    case Write(d, _, _, _, file, _) => Known(m, d, EditOf(bs, op)) - {file}
    case RenameIn(d, _, newName, _, newKey) =>
      (if d in m && newName in m[d] then m - {d} else Known(m, d, EditOf(bs, op))) - {newKey}
    case RenameTo(d, dst, name, newName, _, newKey) =>
      var removed := Known(m, d, EditOf(bs, op));
      (if dst in m && d in m && name in m[d]
       then removed[dst := Filed(m[dst], newName, m[d][name])] else removed - {dst}) - {newKey}
    case Init(d, _) => m[d := map[]]
  }

  /** The reply, by the maps alone. */
  function ReplyByMap(m: Model, op: Op, commit: bool): Reply
    requires op.dir in m && (op.RenameTo? ==> op.dst in m)
  {
    match op
    case Add(d, name, _) => if name in m[d] then AlreadyExists else Decided(commit)
    case MakeDir(d, name, _, _, _) => if name in m[d] then AlreadyExists else Decided(commit)
    case Delete(d, name) => if name in m[d] then Decided(commit) else NotFound
    case Write(_, _, _, _, _, _) => Decided(commit)
    case RenameIn(d, name, newName, _, _) =>
      if name !in m[d] then NotFound else if newName == name then AlreadyExists else Decided(commit)
    case RenameTo(d, dst, name, newName, _, _) =>
      if name !in m[d] then NotFound else if newName in m[dst] then AlreadyExists else Decided(commit)
    case Init(_, _) => Decided(commit)
  }

  // ----- one directory

  lemma KeptEntries(bs: nat, f: Blocks, names: map<Name, Meta>) returns (es: seq<DirEntry>)
    requires bs > 0 && Keeps(bs, f, names)
    ensures Stands(bs, f, es, names) && Settles(bs, f) && DirOf(bs, f) == Some(es)
  {
    es :| Stands(bs, f, es, names);
    DirectoryIsFound(bs, f, es);
  }

  lemma HasInMap(es: seq<DirEntry>, names: map<Name, Meta>, x: Name)
    requires Represents(es, names)
    ensures Has(es, x) <==> x in names
    ensures x in names ==> MetaOf(EntryOf(es, x)) == names[x]
  {
    assert Lookup(es, x) == InMap(names, x);
  }

  lemma EditKept(bs: nat, f: Blocks, f': Blocks, names: map<Name, Meta>, edit: Edit, es: seq<DirEntry>)
    requires bs > 0 && Stands(bs, f, es, names) && Legal(es, edit) && DirAt(bs, f', Edited(es, edit))
    ensures Keeps(bs, f', EditedMap(names, edit))
  {
    EditRepresents(es, names, edit);
    assert Stands(bs, f', Edited(es, edit), EditedMap(names, edit));
  }

  lemma EmptyKept(bs: nat, f: Blocks)
    requires bs > 0 && DirAt(bs, f, [])
    ensures Keeps(bs, f, map[])
  {
    assert Represents([], map[]);
    assert Stands(bs, f, [], map[]);
  }

  lemma ExtendedKept(bs: nat, f: Blocks, g: Blocks, names: map<Name, Meta>)
    requires bs > 0 && Keeps(bs, f, names) && Extends(f, g)
    ensures Keeps(bs, g, names)
  {
    var es :| Stands(bs, f, es, names);
    EmptyBlocksKeepDirectory(bs, f, g, es);
    assert Stands(bs, g, es, names);
  }

  /** On known directories the reply is the one the maps give. */
  lemma ReplyFollowsMap(bs: nat, files: Files, m: Model, op: Op, commit: bool)
    requires bs > 0 && Tracks(bs, files, m) && op.dir in m && (op.RenameTo? ==> op.dst in m)
    ensures ReplyOf(bs, files, op, commit) == ReplyByMap(m, op, commit)
  {
    var es := KeptEntries(bs, FileOf(files, op.dir), m[op.dir]);
    if op.RenameTo? {
      var es' := KeptEntries(bs, FileOf(files, op.dst), m[op.dst]);
      HasInMap(es', m[op.dst], op.newName);
    }
    if !op.Init? {
      HasInMap(es, m[op.dir], op.name);
    }
  }

  /** The own directory of a committed operation. */
  lemma OwnKept(bs: nat, files: Files, op: Op, files': Files, m: Model)
    requires bs > 0 && Tracks(bs, files, m) && op.dir in m && !op.Init? && WellPosed(bs, files, op)
    requires ReplyOf(bs, files, op, true) == Ok && Done(bs, files, op, files')
    requires op.RenameIn? ==> op.newName !in m[op.dir]
    ensures Keeps(bs, FileOf(files', op.dir), EditedMap(m[op.dir], EditOf(bs, op)))
  {
    var es := KeptEntries(bs, FileOf(files, op.dir), m[op.dir]);
    if op.RenameIn? {
      HasInMap(es, m[op.dir], op.newName);
    }
    EditKept(bs, FileOf(files, op.dir), FileOf(files', op.dir), m[op.dir], EditOf(bs, op), es);
  }

  /** The destination of a committed rename, when both directories are known. */
  lemma DestinationKept(bs: nat, files: Files, op: Op, files': Files, m: Model)
    requires bs > 0 && Tracks(bs, files, m) && op.RenameTo? && WellPosed(bs, files, op)
    requires op.dir in m && op.dst in m && op.name in m[op.dir]
    requires ReplyOf(bs, files, op, true) == Ok && Done(bs, files, op, files')
    ensures Keeps(bs, FileOf(files', op.dst), Filed(m[op.dst], op.newName, m[op.dir][op.name]))
  {
    var src := KeptEntries(bs, FileOf(files, op.dir), m[op.dir]);
    var dst := KeptEntries(bs, FileOf(files, op.dst), m[op.dst]);
    HasInMap(src, m[op.dir], op.name);
    HasInMap(dst, m[op.dst], op.newName);
    var moved := WithName(EntryOf(src, op.name), op.newName);
    RenamedEntry(EntryOf(src, op.name), op.newName);
    EditKept(bs, FileOf(files, op.dst), FileOf(files', op.dst), m[op.dst], Insert(moved), dst);
  }

  // ----- every operation, and every run

  predicate Apart(op: Op) {
    match op
    case MakeDir(d, _, _, child, _) => d != child
    case Write(d, _, _, _, file, _) => d != file
    case RenameIn(d, _, _, _, newKey) => d != newKey
    case RenameTo(d, dst, _, _, _, newKey) => d != dst && d != newKey && dst != newKey
    case _ => true
  }

  /** Key `d` has the map `names` after the operation. */
  predicate MapAt(bs: nat, m: Model, op: Op, d: Uuid, names: map<Name, Meta>)
    requires bs > 0 && Shaped(op)
  {
    if d !in KeysOf(op) then d in m && names == m[d]
    else if op.Init? then names == map[]
    else if d == op.dir then
      d in m && (op.RenameIn? ==> op.newName !in m[d]) && names == EditedMap(m[d], EditOf(bs, op))
    else if op.RenameTo? then
      && d == op.dst && d in m && op.dir in m && op.name in m[op.dir]
      && names == Filed(m[d], op.newName, m[op.dir][op.name])
    else op.MakeDir? && names == map[]
  }

  lemma AfterAt(bs: nat, m: Model, op: Op, d: Uuid)
    requires bs > 0 && Shaped(op) && Apart(op) && d in After(bs, m, op)
    ensures MapAt(bs, m, op, d, After(bs, m, op)[d])
  {
  }

  lemma KeyTracks(bs: nat, files: Files, op: Op, files': Files, m: Model, d: Uuid, names: map<Name, Meta>)
    requires bs > 0 && Tracks(bs, files, m) && WellPosed(bs, files, op)
    requires ReplyOf(bs, files, op, true) == Ok && Done(bs, files, op, files') && MapAt(bs, m, op, d, names)
    ensures Keeps(bs, FileOf(files', d), names)
  {
    if d !in KeysOf(op) {
      assert FileOf(files', d) == FileOf(files, d);
    } else if op.Init? {
      EmptyKept(bs, FileOf(files', d));
    } else if d == op.dir {
      OwnKept(bs, files, op, files', m);
    } else if op.RenameTo? {
      DestinationKept(bs, files, op, files', m);
    } else {
      EmptyKept(bs, FileOf(files', d));
    }
  }

  /** A step of the service on the stored files is the matching step on the maps; an abort or
      an error is no step at all. */
  lemma StepTracks(bs: nat, files: Files, op: Op, commit: bool, reply: Reply, files': Files, m: Model)
    requires bs > 0 && Tracks(bs, files, m) && WellPosed(bs, files, op)
    requires Performed(bs, files, op, commit, reply, files')
    ensures Tracks(bs, files', if reply == Ok then After(bs, m, op) else m)
  {
    if reply == Ok {
      forall d | d in After(bs, m, op) ensures Keeps(bs, FileOf(files', d), After(bs, m, op)[d]) {
        AfterAt(bs, m, op, d);
        KeyTracks(bs, files, op, files', m, d, After(bs, m, op)[d]);
      }
    } else if reply == Conflict {
      forall d | d in m ensures Keeps(bs, FileOf(files', d), m[d]) {
        ExtendedKept(bs, FileOf(files, d), FileOf(files', d), m[d]);
      }
    }
  }

  /** After a failed attempt to make a directory under a key with nothing stored, the key loads
      as an empty directory if and only if every block of the header was created; with blocks
      of a record's length or more, if and only if block 0 was. */
  lemma FailedMkdirLoadsExactlyWhen(bs: nat, files: Files, op: Op, files': Files)
    requires bs > 0 && op.MakeDir? && WellPosed(bs, files, op) && Performed(bs, files, op, false, Conflict, files')
    requires FileOf(files, op.child) == map[]
    ensures var f := FileOf(files', op.child);
            && Settles(bs, f) && (Covered(bs, f, RECORD) ==> DirOf(bs, f) == Some([]))
            && (DirOf(bs, f).Some? <==> Covered(bs, f, RECORD))
            && (bs >= RECORD ==> (DirOf(bs, f).Some? <==> 0 in f))
  {
    var f := FileOf(files', op.child);
    assert Extends(FileOf(files, op.child), f);
    forall b | b in f ensures f[b] == [] && BlockStart(bs, b) < RECORD {
      assert BlockAt(f, b) == BlockAt(map[], b);
    }
    BlankHeaderLoadsExactlyWhen(bs, f);
  }

  /** A request and its outcome. */
  datatype Event = Event(op: Op, commit: bool, reply: Reply)

  ghost predicate Handled(bs: nat, files: Files, e: Event, files': Files)
    requires bs > 0
  {
    WellPosed(bs, files, e.op) && Performed(bs, files, e.op, e.commit, e.reply, files')
  }

  /** The service handles the requests one after another; `states` are the stored files before,
      between and after them. */
  ghost predicate ServiceRun(bs: nat, states: seq<Files>, run: seq<Event>)
    requires bs > 0
  {
    |states| == |run| + 1 && forall i :: 0 <= i < |run| ==> HandledAt(bs, states, run, i)
  }

  ghost predicate HandledAt(bs: nat, states: seq<Files>, run: seq<Event>, i: int)
    requires bs > 0 && 0 <= i < |run| < |states|
  {
    Handled(bs, states[i], run[i], states[i + 1])
  }

  function AfterEvent(bs: nat, m: Model, e: Event): Model
    requires bs > 0
  {
    if e.reply == Ok && Shaped(e.op) then After(bs, m, e.op) else m
  }

  /** The maps after the first `n` requests. */
  function ModelAt(bs: nat, m: Model, run: seq<Event>, n: nat): Model
    requires bs > 0 && n <= |run|
  {
    if n == 0 then m else AfterEvent(bs, ModelAt(bs, m, run, n - 1), run[n - 1])
  }

  lemma EventTracks(bs: nat, files: Files, e: Event, files': Files, m: Model, m': Model)
    requires bs > 0 && Handled(bs, files, e, files') && Tracks(bs, files, m) && m' == AfterEvent(bs, m, e)
    ensures Tracks(bs, files', m')
  {
    StepTracks(bs, files, e.op, e.commit, e.reply, files', m);
  }

  lemma RunStepTracks(bs: nat, states: seq<Files>, run: seq<Event>, n: nat, m: Model, m': Model)
    requires bs > 0 && ServiceRun(bs, states, run) && 0 < n <= |run| && Tracks(bs, states[n - 1], m)
    requires m' == AfterEvent(bs, m, run[n - 1])
    ensures Tracks(bs, states[n], m')
  {
    assert HandledAt(bs, states, run, n - 1);
    EventTracks(bs, states[n - 1], run[n - 1], states[n], m, m');
  }

  /** Every run of add, mkdir, delete, write, rename and init, with any aborts in between, acts
      on the stored directories as the committed operations act on maps. */
  lemma {:induction false} DirectoriesAreMaps(bs: nat, states: seq<Files>, m: Model, run: seq<Event>, n: nat)
    requires bs > 0 && ServiceRun(bs, states, run) && Tracks(bs, states[0], m) && n <= |run|
    ensures Tracks(bs, states[n], ModelAt(bs, m, run, n))
  {
    if n > 0 {
      DirectoriesAreMaps(bs, states, m, run, n - 1);
      RunStepTracks(bs, states, run, n, ModelAt(bs, m, run, n - 1), ModelAt(bs, m, run, n));
    }
  }

  /** In every run the reply to a request on known directories is the one the maps give. */
  lemma RepliesFollowMaps(bs: nat, states: seq<Files>, m: Model, run: seq<Event>, n: nat)
    requires bs > 0 && ServiceRun(bs, states, run) && Tracks(bs, states[0], m) && n < |run|
    requires var known, op := ModelAt(bs, m, run, n), run[n].op;
             op.dir in known && (op.RenameTo? ==> op.dst in known)
    ensures run[n].reply == ReplyByMap(ModelAt(bs, m, run, n), run[n].op, run[n].commit)
  {
    DirectoriesAreMaps(bs, states, m, run, n);
    assert HandledAt(bs, states, run, n);
    ReplyFollowsMap(bs, states[n], ModelAt(bs, m, run, n), run[n].op, run[n].commit);
  }
}
