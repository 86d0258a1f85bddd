/** The metadata operations of a data function: create, delete, make a directory, write,
    rename.  Each is proved to act on the stored bytes as the matching update of the
    directories' entries, for all directories at once. */
module Metadata {
  import opened ByteSeq
  import opened StorageKey
  import opened BlockWalk
  import opened FlatFile
  import opened StripedRead
  import opened Directory
  import opened DirectoryRun
  import opened FileSystem
  import opened Leftovers

  // ----- joining the two sub-reads of a rename

  /** The reply of a directory operation. */
  datatype Reply = Ok | NoSuchDirectory | AlreadyExists | NotFound | Conflict

  /** What a sub-read of a rename reports: the edited destination directory, an error about
      it, or the content to copy. */
  datatype Part = BadDestination(error: Reply) | Destination(content: Bytes) | Copy(content: Bytes)

  /** The variables that the callbacks of both sub-reads share. */
  datatype Join = Join(outstanding: int, allOk: bool, error: Reply, destination: Bytes, copy: Bytes)

  datatype Joined = Waiting | Failed(error: Reply) | BothRead(destination: Bytes, copy: Bytes)

  function OnPart(j: Join, p: Part): Join {
    var k := j.(outstanding := j.outstanding - 1);
    match p
    case BadDestination(error) => k.(allOk := false, error := error)
    case Destination(content) => k.(destination := content)
    case Copy(content) => k.(copy := content)
  }

  function Collected(j: Join): Joined {
    if j.outstanding != 0 then Waiting
    else if j.allOk then BothRead(j.destination, j.copy)
    else Failed(j.error)
  }

  /** Whichever sub-read comes back first, nothing is written before both are back, and the
      outcome is the same: a failed destination fails the rename. */
  lemma RenameJoinsInAnyOrder(p: Part, copy: Bytes)
    requires !p.Copy?
    ensures var start := Join(2, true, Ok, [], []);
            var p3 := Copy(copy);
            && Collected(OnPart(start, p)) == Collected(OnPart(start, p3)) == Waiting
            && Collected(OnPart(OnPart(start, p), p3)) == Collected(OnPart(OnPart(start, p3), p)) ==
               match p
               case BadDestination(error) => Failed(error)
               case Destination(content) => BothRead(content, copy)
               case Copy(_) => Waiting
  {
  }

  /** Both callbacks, in one of the two orders. */
  method JoinParts(p: Part, copy: Bytes, destinationFirst: bool) returns (outcome: Joined)
    requires !p.Copy?
    ensures outcome == match p
                       case BadDestination(error) => Failed(error)
                       case Destination(content) => BothRead(content, copy)
                       case Copy(_) => Waiting
  {
    var start, p3 := Join(2, true, Ok, [], []), Copy(copy);
    RenameJoinsInAnyOrder(p, copy);
    outcome := Collected(if destinationFirst then OnPart(OnPart(start, p), p3) else OnPart(OnPart(start, p3), p));
  }

  // ----- the operations

  /** The directory stays below 4 GiB with one more entry. */
  predicate RoomForOne(es: seq<DirEntry>) {
    Extent(|es| + 1) < U32
  }

  /** A new entry: owner, permission, size and times from `meta`, and the name. */
  function NewEntry(meta: Bytes, name: Name): DirEntry
    requires |meta| == NAME_AT
  {
    WithName(meta + Zeros(RECORD - NAME_AT), name)
  }

  lemma NewEntryFields(meta: Bytes, name: Name)
    requires |meta| == NAME_AT
    ensures NameOf(NewEntry(meta, name)) == name && MetaOf(NewEntry(meta, name)) == meta
  {
    RenamedEntry(meta + Zeros(RECORD - NAME_AT), name);
  }

  /** The directory content that a write request stores: the entry with its new size, or the
      same entries when the name is not there. */
  method SizeEdit(content: Bytes, k: nat, found: bool, name: Name, newSize: nat, time: Bytes, ghost es: seq<DirEntry>)
    returns (edited: Bytes)
    requires Holds(content, es) && k == IndexOf(es, name) && found == Has(es, name) && |time| == 8
    ensures var es' := AfterWrite(es, name, newSize, time);
            Holds(edited, es') && |edited| == Extent(|es|) == Extent(|es'|)
  {
    if found {
      edited := RewriteEntry(content, k, WithSize(EntryAt(content, k), newSize, time), es);
    } else {
      edited := Resize(content, Extent(CountOf(content)));
      SameDirectory(content, es);
    }
  }

  // ----- what an operation does to the stored files

  datatype Op =
    | Add(dir: Uuid, name: Name, meta: Bytes)
    | MakeDir(dir: Uuid, name: Name, meta: Bytes, child: Uuid, reserved: Bytes)
    | Delete(dir: Uuid, name: Name)
    | Write(dir: Uuid, name: Name, pos: nat, time: Bytes, file: Uuid, data: Bytes)
    | RenameIn(dir: Uuid, name: Name, newName: Name, oldKey: Uuid, newKey: Uuid)
    | RenameTo(dir: Uuid, dst: Uuid, name: Name, newName: Name, oldKey: Uuid, newKey: Uuid)
    | Init(dir: Uuid, reserved: Bytes)

  function EntriesAt(bs: nat, files: Files, d: Uuid): Option<seq<DirEntry>>
    requires bs > 0
  {
    DirOf(bs, FileOf(files, d))
  }

  /** The keys an operation writes. */
  function KeysOf(op: Op): set<Uuid> {
    match op
    case MakeDir(d, _, _, child, _) => {d, child}
    case Write(d, _, _, _, file, _) => {d, file}
    case RenameIn(d, _, _, _, newKey) => {d, newKey}
    case RenameTo(d, dst, _, _, _, newKey) => {d, dst, newKey}
    case _ => {op.dir}
  }

  predicate Sized(bs: nat, files: Files, d: Uuid)
    requires bs > 0
  {
    Settles(bs, FileOf(files, d)) && (EntriesAt(bs, files, d).Some? ==> RoomForOne(EntriesAt(bs, files, d).value))
  }

  /** Keys are hashes of different paths; field lengths are those of the records; and the
      directories are ones whose load comes to an end. */
  predicate WellPosed(bs: nat, files: Files, op: Op)
    requires bs > 0
  {
    (op.Init? || Sized(bs, files, op.dir)) &&
    match op
    case Add(_, _, meta) => |meta| == NAME_AT
    case MakeDir(d, _, meta, child, reserved) => d != child && |meta| == NAME_AT && |reserved| == RECORD - 4
    case Delete(_, _) => true
    case Write(d, _, pos, time, file, data) => d != file && |time| == 8 && pos < U32 && |data| < U32
    case RenameIn(d, _, _, _, newKey) => d != newKey
    case RenameTo(d, dst, _, _, _, newKey) => d != dst && d != newKey && dst != newKey && Sized(bs, files, dst)
    case Init(_, reserved) => |reserved| == RECORD - 4
  }

  function Decided(commit: bool): Reply {
    if commit then Ok else Conflict
  }

  /** The reply, by what the program finds under the keys. */
  function ReplyOf(bs: nat, files: Files, op: Op, commit: bool): Reply
    requires bs > 0
  {
    if op.Init? then Decided(commit)
    else
      var found := EntriesAt(bs, files, op.dir);
      if found.None? then NoSuchDirectory
      else match op
        case Add(_, name, _) => if Has(found.value, name) then AlreadyExists else Decided(commit)
        case MakeDir(_, name, _, _, _) => if Has(found.value, name) then AlreadyExists else Decided(commit)
        case Delete(_, name) => if Has(found.value, name) then Decided(commit) else NotFound
        case Write(_, _, _, _, _, _) => Decided(commit)
        case RenameIn(_, name, newName, _, _) =>
          if !Has(found.value, name) then NotFound
          else if newName == name then AlreadyExists
          else Decided(commit)
        case RenameTo(_, dst, name, newName, _, _) =>
          if !Has(found.value, name) then NotFound
          else if EntriesAt(bs, files, dst).None? then NoSuchDirectory
          else if Has(EntriesAt(bs, files, dst).value, newName) then AlreadyExists
          else Decided(commit)
        case Init(_, _) => Decided(commit)
  }

  /** The edit of the operation's own directory. */
  function EditOf(bs: nat, op: Op): Edit
    requires bs > 0 && !op.Init? && (op.Add? || op.MakeDir? ==> |op.meta| == NAME_AT)
  {
    match op
    case Add(_, name, meta) => Insert(NewEntry(meta, name))
    case MakeDir(_, name, meta, _, _) => Insert(NewEntry(meta, name))
    case Delete(_, name) => Drop(name)
    case Write(_, name, pos, time, _, data) => SetSize(name, NewSize(bs, pos, |data|), time)
    case RenameIn(_, name, newName, _, _) => Move(name, newName)
    case RenameTo(_, _, name, _, _, _) => Drop(name)
  }

  /** The bytes that a rename copies: a read of the recorded size from the old key. */
  function CopyOf(bs: nat, files: Files, oldKey: Uuid, e: DirEntry): (copy: Bytes)
    requires bs > 0
  {
    ReadFrom0(bs, FileOf(files, oldKey), SizeOf(e))
  }

  /** The new key holds the copy; when all blocks of the recorded size were stored, that is the
      old key's first bytes, as many as the entry says. */
  ghost predicate Copied(bs: nat, files: Files, files': Files, oldKey: Uuid, newKey: Uuid, e: DirEntry)
    requires bs > 0
  {
    var f := FileOf(files, oldKey);
    && Wrote(bs, FileOf(files, newKey), FileOf(files', newKey), CopyOf(bs, files, oldKey, e))
    && (Covered(bs, f, SizeOf(e)) ==>
          forall a: nat :: ByteOf(bs, FileOf(files', newKey), a) ==
            if a < SizeOf(e) then ByteOf(bs, f, a) else ByteOf(bs, FileOf(files, newKey), a))
  }

  /** A committed operation: its directories hold the edited entries, its other keys the new
      content, and no other file has changed. */
  ghost predicate Done(bs: nat, files: Files, op: Op, files': Files)
    requires bs > 0 && WellPosed(bs, files, op) && ReplyOf(bs, files, op, true) == Ok
  {
    && (forall u :: u !in KeysOf(op) ==> FileOf(files', u) == FileOf(files, u))
    && (!op.Init? ==> DirAt(bs, FileOf(files', op.dir), Edited(EntriesAt(bs, files, op.dir).value, EditOf(bs, op))))
    && match op
       case MakeDir(_, _, _, child, _) => DirAt(bs, FileOf(files', child), [])
       case Write(_, _, _, _, file, data) => Wrote(bs, FileOf(files, file), FileOf(files', file), data)
       case RenameIn(d, name, _, oldKey, newKey) =>
         Copied(bs, files, files', oldKey, newKey, EntryOf(EntriesAt(bs, files, d).value, name))
       case RenameTo(d, dst, name, newName, oldKey, newKey) =>
         var e := EntryOf(EntriesAt(bs, files, d).value, name);
         && DirAt(bs, FileOf(files', dst), Edited(EntriesAt(bs, files, dst).value, Insert(WithName(e, newName))))
         && Copied(bs, files, files', oldKey, newKey, e)
       case Init(d, _) => DirAt(bs, FileOf(files', d), [])
       case _ => true
  }

  /** An aborted operation: the bytes of all files are as before; its own keys may have empty
      blocks more, the key of a directory to be made those of its header. */
  ghost predicate Undone(bs: nat, files: Files, op: Op, files': Files) {
    && (forall u :: && Extends(FileOf(files, u), FileOf(files', u))
                    && (u !in KeysOf(op) ==> FileOf(files', u) == FileOf(files, u)))
    && (op.MakeDir? ==>
          forall b :: b in FileOf(files', op.child) && b !in FileOf(files, op.child) ==> BlockStart(bs, b) < RECORD)
  }

  ghost predicate Performed(bs: nat, files: Files, op: Op, commit: bool, reply: Reply, files': Files)
    requires bs > 0 && WellPosed(bs, files, op)
  {
    && reply == ReplyOf(bs, files, op, commit)
    && (reply == Ok ==> ReplyOf(bs, files, op, true) == Ok && Done(bs, files, op, files'))
    && (reply == Conflict ==> Undone(bs, files, op, files'))
    && (reply != Ok && reply != Conflict ==> files' == files)
  }

  // ----- transactions

  function Among(created: map<Uuid, set<nat>>, u: Uuid): set<nat> {
    if u in created then created[u] else {}
  }

  function WithEmpty(f: Blocks, blocks: set<nat>): Blocks {
    map b | b in f.Keys + blocks :: BlockAt(f, b)
  }

  /** The files after an abort in which the prepares of these blocks reached their nodes. */
  function LeaveEmpty(bs: nat, files: Files, inputs: seq<Input>, created: map<Uuid, set<nat>>): Files
    requires bs > 0
    decreases |inputs|
  {
    if inputs == [] then files
    else
      var u := inputs[0].file;
      var blocks := set b | b in Among(created, u) && FindRequest(RequestsOf(bs, inputs[0]), b).Some?;
      LeaveEmpty(bs, files[u := WithEmpty(FileOf(files, u), blocks)], inputs[1..], created)
  }

  lemma {:induction false} LeaveEmptyAborts(bs: nat, files: Files, inputs: seq<Input>, created: map<Uuid, set<nat>>,
                                            u: Uuid)
    requires bs > 0 && DistinctFiles(inputs)
    ensures AbortAt(bs, files, LeaveEmpty(bs, files, inputs, created), inputs, u)
    decreases |inputs|
  {
    if inputs != [] {
      var v := inputs[0].file;
      var blocks := set b | b in Among(created, v) && FindRequest(RequestsOf(bs, inputs[0]), b).Some?;
      var next := files[v := WithEmpty(FileOf(files, v), blocks)];
      LeaveEmptyAborts(bs, next, inputs[1..], created, u);
      if v == u {
        NoInput(inputs[1..], u);
      }
    }
  }

  /** The created blocks are those of the transaction's own blocks whose prepares arrived. */
  ghost predicate CreatedOnly(bs: nat, files: Files, files': Files, inputs: seq<Input>, created: map<Uuid, set<nat>>)
    requires bs > 0
  {
    forall u, b :: b in FileOf(files', u) <==>
                     b in FileOf(files, u) || (b in Among(created, u) && WritesBlock(bs, inputs, u, b))
  }

  lemma {:induction false} LeaveEmptyCreates(bs: nat, files: Files, inputs: seq<Input>, created: map<Uuid, set<nat>>,
                                             u: Uuid, b: nat)
    requires bs > 0 && DistinctFiles(inputs)
    ensures b in FileOf(LeaveEmpty(bs, files, inputs, created), u) <==>
              b in FileOf(files, u) || (b in Among(created, u) && WritesBlock(bs, inputs, u, b))
    decreases |inputs|
  {
    if inputs != [] {
      var v := inputs[0].file;
      var blocks := set b | b in Among(created, v) && FindRequest(RequestsOf(bs, inputs[0]), b).Some?;
      LeaveEmptyCreates(bs, files[v := WithEmpty(FileOf(files, v), blocks)], inputs[1..], created, u, b);
      if v == u {
        NoInput(inputs[1..], u);
      }
    }
  }

  lemma LeaveEmptyOutcome(bs: nat, files: Files, inputs: seq<Input>, created: map<Uuid, set<nat>>)
    requires bs > 0 && DistinctFiles(inputs)
    ensures var files' := LeaveEmpty(bs, files, inputs, created);
            AbortOf(bs, files, files', inputs) && CreatedOnly(bs, files, files', inputs, created)
  {
    var files' := LeaveEmpty(bs, files, inputs, created);
    forall u ensures AbortAt(bs, files, files', inputs, u) {
      LeaveEmptyAborts(bs, files, inputs, created, u);
    }
    forall u, b
      ensures b in FileOf(files', u) <==>
                b in FileOf(files, u) || (b in Among(created, u) && WritesBlock(bs, inputs, u, b))
    {
      LeaveEmptyCreates(bs, files, inputs, created, u, b);
    }
  }

  lemma PutDirectory(bs: nat, files: Files, inputs: seq<Input>, i: nat, d: Uuid, content: Bytes, es: seq<DirEntry>)
    requires bs > 0 && DistinctFiles(inputs) && i < |inputs| && inputs[i] == Input(d, 0, content)
    requires Holds(content, es) && |content| == Extent(|es|) < U32
    ensures DirAt(bs, FileOf(PutAll(bs, files, inputs), d), es)
  {
    FindGiven(inputs, i);
    PutAllAt(bs, files, inputs, d);
    WriteInputDirectory(bs, FileOf(files, d), d, content, es);
  }

  lemma PutData(bs: nat, files: Files, inputs: seq<Input>, i: nat, u: Uuid, data: Bytes)
    requires bs > 0 && DistinctFiles(inputs) && i < |inputs| && inputs[i] == Input(u, 0, data) && |data| < U32
    ensures Wrote(bs, FileOf(files, u), FileOf(PutAll(bs, files, inputs), u), data)
  {
    FindGiven(inputs, i);
    PutAllAt(bs, files, inputs, u);
    WriteInputWrote(bs, FileOf(files, u), u, data);
  }

  lemma PutElsewhere(bs: nat, files: Files, inputs: seq<Input>, u: Uuid)
    requires bs > 0 && DistinctFiles(inputs) && forall i :: 0 <= i < |inputs| ==> inputs[i].file != u
    ensures FileOf(PutAll(bs, files, inputs), u) == FileOf(files, u)
  {
    NoInput(inputs, u);
    PutAllAt(bs, files, inputs, u);
  }

  lemma AbortElsewhere(bs: nat, files: Files, files': Files, inputs: seq<Input>, u: Uuid)
    requires bs > 0 && AbortAt(bs, files, files', inputs, u) && forall i :: 0 <= i < |inputs| ==> inputs[i].file != u
    ensures FileOf(files', u) == FileOf(files, u)
  {
    NoInput(inputs, u);
    var f, g := FileOf(files, u), FileOf(files', u);
    assert forall b :: b in g <==> b in f;
    forall b | b in f ensures g[b] == f[b] {
      assert BlockAt(g, b) == BlockAt(f, b);
    }
  }

  /** The transaction of an operation writes the operation's keys. */
  predicate TxnKeys(inputs: seq<Input>, op: Op) {
    && DistinctFiles(inputs) && (forall i :: 0 <= i < |inputs| ==> inputs[i].file in KeysOf(op))
    && (op.MakeDir? ==> |inputs| == 2 && inputs[1].file == op.child && inputs[1].pos == 0 && |inputs[1].data| == RECORD)
  }

  lemma AbortedHeader(bs: nat, files: Files, files': Files, inputs: seq<Input>, op: Op)
    requires bs > 0 && AbortOf(bs, files, files', inputs) && TxnKeys(inputs, op) && op.MakeDir?
    ensures forall b :: b in FileOf(files', op.child) && b !in FileOf(files, op.child) ==> BlockStart(bs, b) < RECORD
  {
    FindGiven(inputs, 1);
    InputAtStart(bs, op.child, inputs[1].data);
    assert AbortAt(bs, files, files', inputs, op.child);
    forall b | b in FileOf(files', op.child) && b !in FileOf(files, op.child) ensures BlockStart(bs, b) < RECORD {
      CutStaysInside(bs, 0, inputs[1].data, b);
    }
  }

  lemma AbortIsUndone(bs: nat, files: Files, files': Files, inputs: seq<Input>, op: Op)
    requires bs > 0 && AbortOf(bs, files, files', inputs) && TxnKeys(inputs, op)
    ensures Undone(bs, files, op, files')
  {
    if op.MakeDir? {
      AbortedHeader(bs, files, files', inputs, op);
    }
    forall u
      ensures Extends(FileOf(files, u), FileOf(files', u))
      ensures u !in KeysOf(op) ==> FileOf(files', u) == FileOf(files, u)
    {
      assert AbortAt(bs, files, files', inputs, u);
      if u !in KeysOf(op) {
        AbortElsewhere(bs, files, files', inputs, u);
      }
    }
  }

  /** The own directory of a committed operation, and all files it does not write. */
  lemma CommitDirectory(bs: nat, files: Files, op: Op, inputs: seq<Input>, content: Bytes, es: seq<DirEntry>)
    requires bs > 0 && TxnKeys(inputs, op) && inputs != [] && inputs[0] == Input(op.dir, 0, content)
    requires Holds(content, es) && |content| == Extent(|es|) < U32
    ensures DirAt(bs, FileOf(PutAll(bs, files, inputs), op.dir), es)
    ensures forall u :: u !in KeysOf(op) ==> FileOf(PutAll(bs, files, inputs), u) == FileOf(files, u)
  {
    PutDirectory(bs, files, inputs, 0, op.dir, content, es);
    forall u | u !in KeysOf(op) ensures FileOf(PutAll(bs, files, inputs), u) == FileOf(files, u) {
      PutElsewhere(bs, files, inputs, u);
    }
  }

  lemma CopyWrote(bs: nat, files: Files, files': Files, oldKey: Uuid, newKey: Uuid, e: DirEntry)
    requires bs > 0 && Wrote(bs, FileOf(files, newKey), FileOf(files', newKey), CopyOf(bs, files, oldKey, e))
    ensures Copied(bs, files, files', oldKey, newKey, e)
  {
    CopyIsExactlyWhen(bs, FileOf(files, oldKey), SizeOf(e));
  }

  /** The copy is never longer than the recorded size, which has 16 bits. */
  lemma CopyFits(bs: nat, files: Files, oldKey: Uuid, e: DirEntry)
    requires bs > 0
    ensures |CopyOf(bs, files, oldKey, e)| < U32
  {
    ReadBound(bs, FileOf(files, oldKey), SizeOf(e));
  }

  lemma ReplyIsDecided(bs: nat, files: Files, op: Op, commit: bool)
    requires bs > 0 && ReplyOf(bs, files, op, true) == Ok
    ensures ReplyOf(bs, files, op, commit) == Decided(commit)
  {
  }

  /** What a transaction leaves, said of its result alone. */
  ghost predicate DirStored(bs: nat, files': Files, d: Uuid, es: seq<DirEntry>)
    requires bs > 0
  {
    DirAt(bs, FileOf(files', d), es)
  }

  ghost predicate OthersKept(files: Files, op: Op, files': Files) {
    forall u :: u !in KeysOf(op) ==> FileOf(files', u) == FileOf(files, u)
  }

  lemma CommitMakeDir(bs: nat, files: Files, op: Op, inputs: seq<Input>, es: seq<DirEntry>)
    requires bs > 0 && op.MakeDir? && TxnKeys(inputs, op) && |op.reserved| == RECORD - 4
    requires |inputs| == 2 && inputs[0].file == op.dir && inputs[0].pos == 0
    requires inputs[1] == Input(op.child, 0, Put32(0) + op.reserved)
    requires Holds(inputs[0].data, es) && |inputs[0].data| == Extent(|es|) < U32
    ensures OthersKept(files, op, PutAll(bs, files, inputs))
    ensures DirStored(bs, PutAll(bs, files, inputs), op.dir, es)
    ensures DirStored(bs, PutAll(bs, files, inputs), op.child, [])
  {
    CommitDirectory(bs, files, op, inputs, inputs[0].data, es);
    EmptyDirectory(op.reserved);
    PutDirectory(bs, files, inputs, 1, op.child, inputs[1].data, []);
  }

  lemma CommitWrite(bs: nat, files: Files, op: Op, inputs: seq<Input>, es: seq<DirEntry>)
    requires bs > 0 && op.Write? && TxnKeys(inputs, op) && |op.data| < U32
    requires |inputs| == 2 && inputs[0].file == op.dir && inputs[0].pos == 0 && inputs[1] == Input(op.file, 0, op.data)
    requires Holds(inputs[0].data, es) && |inputs[0].data| == Extent(|es|) < U32
    ensures OthersKept(files, op, PutAll(bs, files, inputs)) && DirStored(bs, PutAll(bs, files, inputs), op.dir, es)
    ensures Wrote(bs, FileOf(files, op.file), FileOf(PutAll(bs, files, inputs), op.file), op.data)
  {
    CommitDirectory(bs, files, op, inputs, inputs[0].data, es);
    PutData(bs, files, inputs, 1, op.file, op.data);
  }

  lemma CommitRenameIn(bs: nat, files: Files, op: Op, inputs: seq<Input>, e: DirEntry, es: seq<DirEntry>)
    requires bs > 0 && op.RenameIn? && TxnKeys(inputs, op)
    requires |inputs| == 2 && inputs[0].file == op.dir && inputs[0].pos == 0
    requires inputs[1] == Input(op.newKey, 0, CopyOf(bs, files, op.oldKey, e))
    requires Holds(inputs[0].data, es) && |inputs[0].data| == Extent(|es|) < U32
    ensures OthersKept(files, op, PutAll(bs, files, inputs)) && DirStored(bs, PutAll(bs, files, inputs), op.dir, es)
    ensures Copied(bs, files, PutAll(bs, files, inputs), op.oldKey, op.newKey, e)
  {
    CommitDirectory(bs, files, op, inputs, inputs[0].data, es);
    CopyStored(bs, files, inputs, 1, op.oldKey, op.newKey, e);
  }

  lemma CopyStored(bs: nat, files: Files, inputs: seq<Input>, i: nat, oldKey: Uuid, newKey: Uuid, e: DirEntry)
    requires bs > 0 && DistinctFiles(inputs) && i < |inputs|
    requires inputs[i] == Input(newKey, 0, CopyOf(bs, files, oldKey, e))
    ensures Copied(bs, files, PutAll(bs, files, inputs), oldKey, newKey, e)
  {
    CopyFits(bs, files, oldKey, e);
    PutData(bs, files, inputs, i, newKey, inputs[i].data);
    CopyWrote(bs, files, PutAll(bs, files, inputs), oldKey, newKey, e);
  }

  lemma CommitRename(bs: nat, files: Files, op: Op, inputs: seq<Input>, e: DirEntry, src: seq<DirEntry>,
                     dst: seq<DirEntry>)
    requires bs > 0 && op.RenameTo? && TxnKeys(inputs, op) && |inputs| == 3
    requires inputs[0].file == op.dir && inputs[1].file == op.dst && inputs[0].pos == inputs[1].pos == 0
    requires inputs[2] == Input(op.newKey, 0, CopyOf(bs, files, op.oldKey, e))
    requires Holds(inputs[0].data, src) && |inputs[0].data| == Extent(|src|) < U32
    requires Holds(inputs[1].data, dst) && |inputs[1].data| == Extent(|dst|) < U32
    ensures var files' := PutAll(bs, files, inputs);
            && OthersKept(files, op, files') && DirStored(bs, files', op.dir, src) && DirStored(bs, files', op.dst, dst)
            && Copied(bs, files, files', op.oldKey, op.newKey, e)
  {
    CommitDirectory(bs, files, op, inputs, inputs[0].data, src);
    PutDirectory(bs, files, inputs, 1, op.dst, inputs[1].data, dst);
    CopyStored(bs, files, inputs, 2, op.oldKey, op.newKey, e);
  }

  // ----- what an operation sends

  /** New directory content for these entries, from byte 0 on. */
  ghost predicate Rewrites(input: Input, d: Uuid, es: seq<DirEntry>) {
    input.file == d && input.pos == 0 && Holds(input.data, es) && |input.data| == Extent(|es|) < U32
  }

  /** The inputs of the transaction that an operation sends after its reads. */
  ghost predicate Sends(bs: nat, files: Files, op: Op, inputs: seq<Input>)
    requires bs > 0 && WellPosed(bs, files, op) && ReplyOf(bs, files, op, true) == Ok
  {
    && inputs != [] && TxnKeys(inputs, op)
    && (!op.Init? ==> Rewrites(inputs[0], op.dir, Edited(EntriesAt(bs, files, op.dir).value, EditOf(bs, op))))
    && match op
       case MakeDir(_, _, _, child, reserved) => |inputs| == 2 && inputs[1] == Input(child, 0, Put32(0) + reserved)
       case Write(_, _, _, _, file, data) => |inputs| == 2 && inputs[1] == Input(file, 0, data)
       case RenameIn(d, name, _, oldKey, newKey) =>
         var e := EntryOf(EntriesAt(bs, files, d).value, name);
         |inputs| == 2 && inputs[1] == Input(newKey, 0, CopyOf(bs, files, oldKey, e))
       case RenameTo(d, dst, name, newName, oldKey, newKey) =>
         var e := EntryOf(EntriesAt(bs, files, d).value, name);
         && |inputs| == 3 && inputs[2] == Input(newKey, 0, CopyOf(bs, files, oldKey, e))
         && Rewrites(inputs[1], dst, Edited(EntriesAt(bs, files, dst).value, Insert(WithName(e, newName))))
       case Init(d, reserved) => inputs == [Input(d, 0, Put32(0) + reserved)]
       case _ => |inputs| == 1
  }

  lemma RenameInSends(bs: nat, files: Files, op: Op, edited: Bytes, e: DirEntry)
    requires bs > 0 && op.RenameIn? && WellPosed(bs, files, op) && ReplyOf(bs, files, op, true) == Ok
    requires var es := EntriesAt(bs, files, op.dir).value;
             && e == EntryOf(es, op.name) && Holds(edited, WithNameAt(es, op.name, op.newName))
             && |edited| == Extent(|es|) < U32
    ensures Sends(bs, files, op, [Input(op.dir, 0, edited), Input(op.newKey, 0, CopyOf(bs, files, op.oldKey, e))])
  {
  }

  lemma RenameToSends(bs: nat, files: Files, op: Op, shortened: Bytes, destination: Bytes, e: DirEntry)
    requires bs > 0 && op.RenameTo? && WellPosed(bs, files, op) && ReplyOf(bs, files, op, true) == Ok
    requires var src, dst := EntriesAt(bs, files, op.dir).value, EntriesAt(bs, files, op.dst).value;
             && e == EntryOf(src, op.name)
             && Holds(shortened, WithoutEntry(src, op.name)) && |shortened| == Extent(|src| - 1)
             && Holds(destination, dst + [WithName(e, op.newName)]) && |destination| == Extent(|dst| + 1)
    ensures Sends(bs, files, op, [Input(op.dir, 0, shortened), Input(op.dst, 0, destination),
                                  Input(op.newKey, 0, CopyOf(bs, files, op.oldKey, e))])
  {
    RenamedEntry(e, op.newName);
  }

  lemma SendsToOne(bs: nat, files: Files, op: Op, inputs: seq<Input>)
    requires bs > 0 && WellPosed(bs, files, op) && ReplyOf(bs, files, op, true) == Ok && Sends(bs, files, op, inputs)
    requires op.Add? || op.Delete? || op.Init?
    ensures Done(bs, files, op, PutAll(bs, files, inputs))
  {
    if op.Init? {
      EmptyDirectory(op.reserved);
      CommitDirectory(bs, files, op, inputs, inputs[0].data, []);
    } else {
      var es := EntriesAt(bs, files, op.dir).value;
      CommitDirectory(bs, files, op, inputs, inputs[0].data, Edited(es, EditOf(bs, op)));
    }
  }

  lemma SendsToTwo(bs: nat, files: Files, op: Op, inputs: seq<Input>)
    requires bs > 0 && WellPosed(bs, files, op) && ReplyOf(bs, files, op, true) == Ok && Sends(bs, files, op, inputs)
    requires op.MakeDir? || op.Write? || op.RenameIn?
    ensures Done(bs, files, op, PutAll(bs, files, inputs))
  {
    var es := EntriesAt(bs, files, op.dir).value;
    if op.MakeDir? {
      CommitMakeDir(bs, files, op, inputs, Edited(es, EditOf(bs, op)));
    } else if op.Write? {
      CommitWrite(bs, files, op, inputs, Edited(es, EditOf(bs, op)));
    } else {
      CommitRenameIn(bs, files, op, inputs, EntryOf(es, op.name), Edited(es, EditOf(bs, op)));
    }
  }

  lemma SendsToThree(bs: nat, files: Files, op: Op, inputs: seq<Input>)
    requires bs > 0 && WellPosed(bs, files, op) && ReplyOf(bs, files, op, true) == Ok && Sends(bs, files, op, inputs)
    requires op.RenameTo?
    ensures Done(bs, files, op, PutAll(bs, files, inputs))
  {
    var src, dst := EntriesAt(bs, files, op.dir).value, EntriesAt(bs, files, op.dst).value;
    var e := EntryOf(src, op.name);
    CommitRename(bs, files, op, inputs, e, Edited(src, EditOf(bs, op)), Edited(dst, Insert(WithName(e, op.newName))));
  }

  /** The transaction of an operation, committed, does what the operation promises. */
  lemma SendsDone(bs: nat, files: Files, op: Op, inputs: seq<Input>)
    requires bs > 0 && WellPosed(bs, files, op) && ReplyOf(bs, files, op, true) == Ok && Sends(bs, files, op, inputs)
    ensures Done(bs, files, op, PutAll(bs, files, inputs))
  {
    if op.Add? || op.Delete? || op.Init? {
      SendsToOne(bs, files, op, inputs);
    } else if op.RenameTo? {
      SendsToThree(bs, files, op, inputs);
    } else {
      SendsToTwo(bs, files, op, inputs);
    }
  }

  // ----- how a transaction ends

  /** The same blocks under every key. */
  ghost predicate SameFiles(files: Files, files': Files) {
    forall u :: FileOf(files', u) == FileOf(files, u)
  }

  /** A committed transaction has put all its inputs, an aborted one has put none. */
  ghost predicate Outcome(bs: nat, files: Files, inputs: seq<Input>, commit: bool, files': Files)
    requires bs > 0
  {
    if commit then SameFiles(PutAll(bs, files, inputs), files') else AbortOf(bs, files, files', inputs)
  }

  lemma OutcomeElsewhere(bs: nat, files: Files, inputs: seq<Input>, commit: bool, files': Files, u: Uuid)
    requires bs > 0 && DistinctFiles(inputs) && Outcome(bs, files, inputs, commit, files')
    requires forall i :: 0 <= i < |inputs| ==> inputs[i].file != u
    ensures FileOf(files', u) == FileOf(files, u)
  {
    if commit {
      PutElsewhere(bs, files, inputs, u);
    } else {
      assert AbortAt(bs, files, files', inputs, u);
      AbortElsewhere(bs, files, files', inputs, u);
    }
  }

  lemma SameFilesDone(bs: nat, files: Files, op: Op, put: Files, files': Files)
    requires bs > 0 && WellPosed(bs, files, op) && ReplyOf(bs, files, op, true) == Ok
    requires Done(bs, files, op, put) && SameFiles(put, files')
    ensures Done(bs, files, op, files')
  {
  }

  /** Either way the operation that sent it is performed. */
  lemma OutcomePerforms(bs: nat, files: Files, op: Op, inputs: seq<Input>, commit: bool, files': Files)
    requires bs > 0 && WellPosed(bs, files, op) && ReplyOf(bs, files, op, true) == Ok && Sends(bs, files, op, inputs)
    requires Outcome(bs, files, inputs, commit, files')
    ensures Performed(bs, files, op, commit, Decided(commit), files')
  {
    ReplyIsDecided(bs, files, op, commit);
    if commit {
      SendsDone(bs, files, op, inputs);
      SameFilesDone(bs, files, op, PutAll(bs, files, inputs), files');
    } else {
      AbortIsUndone(bs, files, files', inputs, op);
    }
  }

  // ----- the operations

  /** The metadata side of the data functions, over the files of the striped store.  The
      outcome of each write transaction is a parameter: `commit` is false when it aborts, and
      then `created` says which of its prepares had created their blocks. */
  class Service {
    const bs: nat
    var files: Files

    ghost predicate Valid()
      reads this
    {
      bs > 0
    }

    constructor (blocksize: nat)
      requires blocksize > 0
      ensures Valid() && bs == blocksize && files == map[]
    {
      bs, files := blocksize, map[];
    }

    /** The read, and at most one more, that every operation starts with. */
    method LoadDirectory(d: Uuid) returns (content: Option<Bytes>)
      requires Valid() && Settles(bs, FileOf(files, d))
      ensures content.Some? <==> EntriesAt(bs, files, d).Some?
      ensures content.Some? ==> Holds(content.value, EntriesAt(bs, files, d).value)
    {
      var load := Attempt(bs, FileOf(files, d), FIRST_READ);
      if load.Reread? {
        load := Attempt(bs, FileOf(files, d), load.size);
      }
      content := if load.Loaded? then Some(load.content) else None;
    }

    /** The scan that most operations do next: the position of a name, or the count. */
    method LoadAndFind(d: Uuid, name: Name) returns (content: Option<Bytes>, k: nat, found: bool)
      requires Valid() && Settles(bs, FileOf(files, d))
      ensures content.Some? <==> EntriesAt(bs, files, d).Some?
      ensures content.Some? ==> var es := EntriesAt(bs, files, d).value;
                Holds(content.value, es) && k == IndexOf(es, name) && found == Has(es, name)
    {
      content := LoadDirectory(d);
      k, found := 0, false;
      if content.Some? {
        k := FindEntry(content.value, name, EntriesAt(bs, files, d).value);
        found := k < CountOf(content.value);
      }
    }

    /** One transaction over distinct files: all of its writes, or none and some blocks created
        empty. */
    method Transact(inputs: seq<Input>, commit: bool, created: map<Uuid, set<nat>>)
      requires Valid() && DistinctFiles(inputs)
      modifies this
      ensures Outcome(bs, old(files), inputs, commit, files) && (commit ==> files == PutAll(bs, old(files), inputs))
      ensures !commit ==> CreatedOnly(bs, old(files), files, inputs, created)
    {
      if commit {
        files := PutAll(bs, files, inputs);
      } else {
        LeaveEmptyOutcome(bs, files, inputs, created);
        files := LeaveEmpty(bs, files, inputs, created);
      }
    }

    /** The end of every operation: its transaction and the reply. */
    method Finish(op: Op, inputs: seq<Input>, commit: bool, created: map<Uuid, set<nat>>) returns (reply: Reply)
      requires Valid() && WellPosed(bs, files, op) && ReplyOf(bs, files, op, true) == Ok && Sends(bs, files, op, inputs)
      modifies this
      ensures Performed(bs, old(files), op, commit, reply, files)
    {
      Transact(inputs, commit, created);
      OutcomePerforms(bs, old(files), op, inputs, commit, files);
      reply := Decided(commit);
    }

    /** Create a file: append an entry under a free name. */
    method AddFile(op: Op, commit: bool, created: map<Uuid, set<nat>>) returns (reply: Reply)
      requires Valid() && op.Add? && WellPosed(bs, files, op)
      modifies this
      ensures Performed(bs, old(files), op, commit, reply, files)
    {
      var content, _, found := LoadAndFind(op.dir, op.name);
      if content.None? {
        return NoSuchDirectory;
      }
      if found {
        return AlreadyExists;
      }
      ghost var es := EntriesAt(bs, files, op.dir).value;
      var e := NewEntry(op.meta, op.name);
      NewEntryFields(op.meta, op.name);
      var edited := AppendEntry(content.value, e, es);
      var inputs := [Input(op.dir, 0, edited)];
      reply := Finish(op, inputs, commit, created);
    }

    /** Create a directory: append an entry and write an empty header under the new key, in
        one transaction. */
    method MakeDirectory(op: Op, commit: bool, created: map<Uuid, set<nat>>) returns (reply: Reply)
      requires Valid() && op.MakeDir? && WellPosed(bs, files, op)
      modifies this
      ensures Performed(bs, old(files), op, commit, reply, files)
    {
      var content, _, found := LoadAndFind(op.dir, op.name);
      if content.None? {
        return NoSuchDirectory;
      }
      if found {
        return AlreadyExists;
      }
      ghost var es := EntriesAt(bs, files, op.dir).value;
      var e := NewEntry(op.meta, op.name);
      NewEntryFields(op.meta, op.name);
      var edited := AppendEntry(content.value, e, es);
      var header := Put32(0) + op.reserved;
      var inputs := [Input(op.dir, 0, edited), Input(op.child, 0, header)];
      reply := Finish(op, inputs, commit, created);
    }

    /** Write the header of an empty directory, whatever is stored under the key. */
    method InitDirectory(op: Op, commit: bool, created: map<Uuid, set<nat>>) returns (reply: Reply)
      requires Valid() && op.Init? && WellPosed(bs, files, op)
      modifies this
      ensures Performed(bs, old(files), op, commit, reply, files)
    {
      var header := Put32(0) + op.reserved;
      var inputs := [Input(op.dir, 0, header)];
      EmptyDirectory(op.reserved);
      reply := Finish(op, inputs, commit, created);
    }

    /** Delete a file: the last entry takes its place. */
    method DeleteFile(op: Op, commit: bool, created: map<Uuid, set<nat>>) returns (reply: Reply)
      requires Valid() && op.Delete? && WellPosed(bs, files, op)
      modifies this
      ensures Performed(bs, old(files), op, commit, reply, files)
    {
      var content, k, found := LoadAndFind(op.dir, op.name);
      if content.None? {
        return NoSuchDirectory;
      }
      if !found {
        return NotFound;
      }
      ghost var es := EntriesAt(bs, files, op.dir).value;
      var edited := DeleteEntry(content.value, k, es);
      var inputs := [Input(op.dir, 0, edited)];
      reply := Finish(op, inputs, commit, created);
    }

    /** Write to a file: update its entry, if it has one, and write the data, in one
        transaction.  The data goes to the start of the file. */
    method WriteFile(op: Op, commit: bool, created: map<Uuid, set<nat>>) returns (reply: Reply)
      requires Valid() && op.Write? && WellPosed(bs, files, op)
      modifies this
      ensures Performed(bs, old(files), op, commit, reply, files)
    {
      var content, k, found := LoadAndFind(op.dir, op.name);
      if content.None? {
        return NoSuchDirectory;
      }
      ghost var es := EntriesAt(bs, files, op.dir).value;
      var newSize := NewFileSize(bs, op.pos, |op.data|);
      var edited := SizeEdit(content.value, k, found, op.name, newSize, op.time, es);
      var inputs := [Input(op.dir, 0, edited), Input(op.file, 0, op.data)];
      reply := Finish(op, inputs, commit, created);
    }

    /** Rename within a directory and copy the content to the new key.  The new name is compared
        with the old one only. */
    method RenameHere(op: Op, commit: bool, created: map<Uuid, set<nat>>) returns (reply: Reply)
      requires Valid() && op.RenameIn? && WellPosed(bs, files, op)
      modifies this
      ensures Performed(bs, old(files), op, commit, reply, files)
    {
      var content, k, found := LoadAndFind(op.dir, op.name);
      if content.None? {
        return NoSuchDirectory;
      }
      if !found {
        return NotFound;
      }
      if op.newName == op.name {
        return AlreadyExists;
      }
      ghost var es := EntriesAt(bs, files, op.dir).value;
      var e := EntryAt(content.value, k);
      var edited := RewriteEntry(content.value, k, WithName(e, op.newName), es);
      var copy := CopyOf(bs, files, op.oldKey, e);
      var inputs := [Input(op.dir, 0, edited), Input(op.newKey, 0, copy)];
      RenameInSends(bs, files, op, edited, e);
      reply := Finish(op, inputs, commit, created);
    }

    /** The first read of a rename: the source without the entry, and the entry. */
    method SourcePart(src: Uuid, name: Name) returns (part: Option<Bytes>, error: Reply, e: DirEntry)
      requires Valid() && Settles(bs, FileOf(files, src))
      ensures var es := EntriesAt(bs, files, src);
              && (part.Some? <==> es.Some? && Has(es.value, name))
              && (part.None? ==> error == if es.Some? then NotFound else NoSuchDirectory)
              && (part.Some? ==> e == EntryOf(es.value, name) && Holds(part.value, WithoutEntry(es.value, name))
                                 && |part.value| == Extent(|es.value| - 1))
    {
      var content, k, found := LoadAndFind(src, name);
      part, error, e := None, NoSuchDirectory, Zeros(RECORD);
      if content.Some? {
        error := NotFound;
        if found {
          e := EntryAt(content.value, k);
          var shortened := DeleteEntry(content.value, k, EntriesAt(bs, files, src).value);
          part := Some(shortened);
        }
      }
    }

    /** The sub-read of the destination: its content with the entry appended, or an error. */
    method DestinationPart(dst: Uuid, newName: Name, moved: DirEntry) returns (part: Part)
      requires Valid() && Sized(bs, files, dst)
      ensures var es := EntriesAt(bs, files, dst);
              && (es.None? ==> part == BadDestination(NoSuchDirectory))
              && (es.Some? && Has(es.value, newName) ==> part == BadDestination(AlreadyExists))
              && (es.Some? && !Has(es.value, newName) ==>
                    && part.Destination? && Holds(part.content, es.value + [moved])
                    && |part.content| == Extent(|es.value| + 1))
    {
      var content, _, found := LoadAndFind(dst, newName);
      if content.None? {
        return BadDestination(NoSuchDirectory);
      }
      if found {
        return BadDestination(AlreadyExists);
      }
      var edited := AppendEntry(content.value, moved, EntriesAt(bs, files, dst).value);
      part := Destination(edited);
    }

    /** Rename into another directory.  The entry is removed from the source and appended,
        under the new name, to the destination, and the content is copied, all in one
        transaction.  The two sub-reads may come back in either order. */
    method RenameAcross(op: Op, destinationFirst: bool, commit: bool, created: map<Uuid, set<nat>>)
      returns (reply: Reply)
      requires Valid() && op.RenameTo? && WellPosed(bs, files, op)
      modifies this
      ensures Performed(bs, old(files), op, commit, reply, files)
    {
      var shortened, error, e := SourcePart(op.dir, op.name);
      if shortened.None? {
        return error;
      }
      var moved := WithName(e, op.newName);
      RenamedEntry(e, op.newName);
      var part := DestinationPart(op.dst, op.newName, moved);
      var outcome := JoinParts(part, CopyOf(bs, files, op.oldKey, e), destinationFirst);
      if outcome.Failed? {
        return outcome.error;
      }
      reply := FinishRename(op, e, shortened.value, outcome.destination, outcome.copy, commit, created);
    }

    /** The three writes of a rename, in one transaction. */
    method FinishRename(op: Op, ghost e: DirEntry, shortened: Bytes, destination: Bytes, copy: Bytes,
                        commit: bool, created: map<Uuid, set<nat>>) returns (reply: Reply)
      requires Valid() && op.RenameTo? && WellPosed(bs, files, op) && ReplyOf(bs, files, op, true) == Ok
      requires var src, dst := EntriesAt(bs, files, op.dir).value, EntriesAt(bs, files, op.dst).value;
               && e == EntryOf(src, op.name) && copy == CopyOf(bs, files, op.oldKey, e)
               && Holds(shortened, WithoutEntry(src, op.name)) && |shortened| == Extent(|src| - 1)
               && Holds(destination, dst + [WithName(e, op.newName)]) && |destination| == Extent(|dst| + 1)
      modifies this
      ensures Performed(bs, old(files), op, commit, reply, files)
    {
      var inputs := [Input(op.dir, 0, shortened), Input(op.dst, 0, destination), Input(op.newKey, 0, copy)];
      RenameToSends(bs, files, op, shortened, destination, e);
      reply := Finish(op, inputs, commit, created);
    }

    /** The dispatch of requests to operations. */
    method Perform(op: Op, destinationFirst: bool, commit: bool, created: map<Uuid, set<nat>>) returns (reply: Reply)
      requires Valid() && WellPosed(bs, files, op)
      modifies this
      ensures Performed(bs, old(files), op, commit, reply, files)
    {
      match op
      case Add(_, _, _) => reply := AddFile(op, commit, created);
      case MakeDir(_, _, _, _, _) => reply := MakeDirectory(op, commit, created);
      case Delete(_, _) => reply := DeleteFile(op, commit, created);
      case Write(_, _, _, _, _, _) => reply := WriteFile(op, commit, created);
      case RenameIn(_, _, _, _, _) => reply := RenameHere(op, commit, created);
      case RenameTo(_, _, _, _, _, _) => reply := RenameAcross(op, destinationFirst, commit, created);
      case Init(_, _) => reply := InitDirectory(op, commit, created);
    }
  }
}
