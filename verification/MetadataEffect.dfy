/** What a committed metadata operation leaves under every name, and what a request for a
    directory that is not there gets. */
module MetadataEffect {
  import opened ByteSeq
  import opened StorageKey
  import opened BlockWalk
  import opened Directory
  import opened DirectoryRun
  import opened FileSystem
  import opened Leftovers
  import opened Metadata

  // ----- the entry of a written file

  /** The write ends inside the recorded size, or it records its end: it is not empty, ends in
      16 bits and is not inside one block. */
  predicate EndIsRecorded(bs: nat, pos: nat, size: nat, recorded: nat)
    requires bs > 0
  {
    pos + size <= recorded || (size > 0 && pos + size < U16 && !InsideOneBlock(bs, pos, size))
  }

  /** The entry of a written file before and after: the larger end exactly when it is recorded,
      for a write inside one block the end as if it began the block, for an empty write or an end
      past 32 bits the old size; the new time; name, owner, permission and creation time kept. */
  predicate Written(bs: nat, e: DirEntry, e': DirEntry, pos: nat, size: nat, time: Bytes)
    requires bs > 0
  {
    && (SizeOf(e') == Max(SizeOf(e), pos + size) <==> EndIsRecorded(bs, pos, size, SizeOf(e)))
    && (size == 0 || pos + size >= U32 ==> SizeOf(e') == SizeOf(e))
    && (size > 0 && pos + size < U32 && InsideOneBlock(bs, pos, size) ==>
          SizeOf(e') == Max(SizeOf(e), BlockStart(bs, BlockOf(bs, pos)) + size) % U16)
    && MetaOf(e')[16..] == time
    && NameOf(e') == NameOf(e) && MetaOf(e')[..4] == MetaOf(e)[..4] && MetaOf(e')[6..16] == MetaOf(e)[6..16]
  }

  lemma FieldsKept(e: DirEntry, newSize: nat, time: Bytes)
    requires |time| == 8
    ensures var meta, meta' := MetaOf(e), MetaOf(WithSize(e, newSize, time));
            meta'[16..] == time && meta'[..4] == meta[..4] && meta'[6..16] == meta[6..16]
  {
  }

  /** The 16-bit size field holds the larger size modulo 65536. */
  lemma SizeStored(e: DirEntry, newSize: nat, time: Bytes)
    requires |time| == 8
    ensures SizeOf(WithSize(e, newSize, time)) == Max(SizeOf(e), newSize) % U16
  {
    var r := WithSize(e, newSize, time);
    assert r[4..6] == Put16(Max(SizeOf(e), newSize) % U16);
    PutGet16(Max(SizeOf(e), newSize) % U16);
  }

  lemma EntryWritten(bs: nat, e: DirEntry, pos: nat, size: nat, time: Bytes)
    requires bs > 0 && |time| == 8
    ensures Written(bs, e, WithSize(e, NewSize(bs, pos, size), time), pos, size, time)
  {
    RecordedSize(e, NewSize(bs, pos, size), time);
    SizeStored(e, NewSize(bs, pos, size), time);
    FieldsKept(e, NewSize(bs, pos, size), time);
    Located(bs, pos);
  }

  /** An entry rewritten in place, under the same name, is the only one that a name finds
      changed. */
  lemma RewrittenInPlace(es: seq<DirEntry>, k: nat, e: DirEntry, x: Name)
    requires k < |es| && NameOf(e) == NameOf(es[k])
    ensures IndexOf(es[k := e], x) == IndexOf(es, x)
  {
    var es' := es[k := e];
    assert forall i :: 0 <= i < |es| ==> NameOf(es'[i]) == NameOf(es[i]);
    var i, i' := IndexOf(es, x), IndexOf(es', x);
    assert i < |es| ==> NameOf(es'[i]) == x;
    assert i' < |es| ==> NameOf(es[i']) == x;
  }

  /** A committed write: the entry found under the name is the old one with its new size and
      time, and every other name finds what it found before. */
  lemma WriteIsRecorded(bs: nat, files: Files, op: Op, files': Files)
    requires bs > 0 && op.Write? && WellPosed(bs, files, op) && Performed(bs, files, op, true, Ok, files')
    ensures var was, now := EntriesAt(bs, files, op.dir), EntriesAt(bs, files', op.dir);
            && was.Some? && now.Some? && (!Has(was.value, op.name) ==> now == was)
            && (Has(was.value, op.name) ==>
                  && Has(now.value, op.name)
                  && Written(bs, EntryOf(was.value, op.name), EntryOf(now.value, op.name), op.pos, |op.data|, op.time)
                  && forall x: Name :: x != op.name ==> Lookup(now.value, x) == Lookup(was.value, x))
  {
    var es := EntriesAt(bs, files, op.dir).value;
    DirectoryIsFound(bs, FileOf(files', op.dir), Edited(es, EditOf(bs, op)));
    if Has(es, op.name) {
      var k := IndexOf(es, op.name);
      var e := WithSize(es[k], NewSize(bs, op.pos, |op.data|), op.time);
      EntryWritten(bs, es[k], op.pos, |op.data|, op.time);
      RewrittenInPlace(es, k, e, op.name);
      forall x: Name | x != op.name ensures Lookup(es[k := e], x) == Lookup(es, x) {
        RewrittenInPlace(es, k, e, x);
      }
    }
  }

  // ----- the other operations, name by name

  /** What a committed operation leaves under a name of its directory. */
  predicate Leaves(was: seq<DirEntry>, now: seq<DirEntry>, op: Op, x: Name) {
    match op
    case Add(_, name, meta) => Lookup(now, x) == if x == name then Some(meta) else Lookup(was, x)
    case MakeDir(_, name, meta, _, _) => Lookup(now, x) == if x == name then Some(meta) else Lookup(was, x)
    case Delete(_, name) => Lookup(now, x) == if x == name then None else Lookup(was, x)
    case RenameIn(_, name, newName, _, _) =>
      !Has(was, newName) ==>
        Lookup(now, x) == if x == newName then Lookup(was, name) else if x == name then None else Lookup(was, x)
    case RenameTo(_, _, name, _, _, _) => Lookup(now, x) == if x == name then None else Lookup(was, x)
    case _ => true
  }

  lemma AddLeaves(bs: nat, es: seq<DirEntry>, op: Op, x: Name)
    requires bs > 0 && (op.Add? || op.MakeDir?) && |op.meta| == NAME_AT && Distinct(es) && !Has(es, op.name)
    ensures var now := Edited(es, EditOf(bs, op));
            Leaves(es, now, op, x) && Distinct(now)
  {
    NewEntryFields(op.meta, op.name);
    AddedEntry(es, NewEntry(op.meta, op.name), x);
  }

  lemma DropLeaves(bs: nat, es: seq<DirEntry>, op: Op, x: Name)
    requires bs > 0 && (op.Delete? || op.RenameTo?) && Distinct(es) && Has(es, op.name)
    ensures var now := Edited(es, EditOf(bs, op));
            Leaves(es, now, op, x) && Distinct(now)
  {
    RemovedEntry(es, IndexOf(es, op.name), x);
  }

  lemma MovedName(es: seq<DirEntry>, name: Name, newName: Name, x: Name)
    requires Distinct(es) && Has(es, name) && newName != name
    ensures var now := WithNameAt(es, name, newName);
            && (Distinct(now) <==> !Has(es, newName))
            && (!Has(es, newName) ==>
                  Lookup(now, x) ==
                  if x == newName then Lookup(es, name) else if x == name then None else Lookup(es, x))
  {
    RenamedInPlace(es, IndexOf(es, name), newName, x);
  }

  lemma MoveLeaves(bs: nat, es: seq<DirEntry>, op: Op, x: Name)
    requires bs > 0 && op.RenameIn? && Distinct(es) && Has(es, op.name) && op.newName != op.name
    ensures var now := Edited(es, EditOf(bs, op));
            Leaves(es, now, op, x) && (Distinct(now) <==> !Has(es, op.newName))
  {
    MovedName(es, op.name, op.newName, x);
  }

  /** Name by name, what a committed operation leaves in its own directory; names stay distinct
      exactly when a rename does not take one that is there. */
  lemma OwnDirectoryAfter(bs: nat, files: Files, op: Op, files': Files, x: Name)
    requires bs > 0 && !op.Init? && !op.Write? && WellPosed(bs, files, op)
    requires Performed(bs, files, op, true, Ok, files') && Distinct(EntriesAt(bs, files, op.dir).value)
    ensures var was, now := EntriesAt(bs, files, op.dir).value, EntriesAt(bs, files', op.dir);
            && now.Some? && Leaves(was, now.value, op, x)
            && (Distinct(now.value) <==> (op.RenameIn? ==> !Has(was, op.newName)))
  {
    var es := EntriesAt(bs, files, op.dir).value;
    DirectoryIsFound(bs, FileOf(files', op.dir), Edited(es, EditOf(bs, op)));
    if op.RenameIn? {
      MoveLeaves(bs, es, op, x);
    } else if op.Delete? || op.RenameTo? {
      DropLeaves(bs, es, op, x);
    } else {
      AddLeaves(bs, es, op, x);
    }
  }

  /** A committed rename into another directory: what the old name found is found under the new
      one, and every other name of the destination finds what it found before. */
  lemma DestinationAfter(bs: nat, files: Files, op: Op, files': Files, x: Name)
    requires bs > 0 && op.RenameTo? && WellPosed(bs, files, op) && Performed(bs, files, op, true, Ok, files')
    requires Distinct(EntriesAt(bs, files, op.dir).value) && Distinct(EntriesAt(bs, files, op.dst).value)
    ensures var src, was := EntriesAt(bs, files, op.dir).value, EntriesAt(bs, files, op.dst).value;
            var now := EntriesAt(bs, files', op.dst);
            && now.Some? && Distinct(now.value)
            && Lookup(now.value, x) == if x == op.newName then Lookup(src, op.name) else Lookup(was, x)
  {
    var src, dst := EntriesAt(bs, files, op.dir).value, EntriesAt(bs, files, op.dst).value;
    var moved := WithName(EntryOf(src, op.name), op.newName);
    RenamedEntry(EntryOf(src, op.name), op.newName);
    DirectoryIsFound(bs, FileOf(files', op.dst), Edited(dst, Insert(moved)));
    RenameConserves(src, dst, op.name, op.newName, x);
  }

  /** A directory that was made or initialised loads, and has no entry. */
  lemma MadeDirectoryIsEmpty(bs: nat, files: Files, op: Op, files': Files)
    requires bs > 0 && (op.Init? || op.MakeDir?) && WellPosed(bs, files, op)
    requires Performed(bs, files, op, true, Ok, files')
    ensures EntriesAt(bs, files', if op.Init? then op.dir else op.child) == Some([])
  {
    DirectoryIsFound(bs, FileOf(files', if op.Init? then op.dir else op.child), []);
  }

  // ----- a directory that is not there

  lemma NothingStored(bs: nat, files: Files, d: Uuid)
    requires bs > 0 && FileOf(files, d) == map[]
    ensures Settles(bs, FileOf(files, d)) && EntriesAt(bs, files, d).None?
  {
    BlankHeaderLoadsExactlyWhen(bs, FileOf(files, d));
    assert BlockStart(bs, 0) == 0;
  }

  /** With nothing stored under the key, every operation other than init fails and changes
      nothing; a rename also fails when nothing is stored for its destination, after it has
      looked for the name in its source. */
  lemma MissingDirectory(bs: nat, files: Files, op: Op, commit: bool, reply: Reply, files': Files)
    requires bs > 0 && WellPosed(bs, files, op) && Performed(bs, files, op, commit, reply, files')
    ensures !op.Init? && FileOf(files, op.dir) == map[] ==> reply == NoSuchDirectory && files' == files
    ensures op.RenameTo? && FileOf(files, op.dst) == map[] ==>
              var src := EntriesAt(bs, files, op.dir);
              && reply == (if src.Some? && !Has(src.value, op.name) then NotFound else NoSuchDirectory)
              && files' == files
    ensures op.Init? ==> reply == if commit then Ok else Conflict
  {
    if FileOf(files, op.dir) == map[] {
      NothingStored(bs, files, op.dir);
    }
    if op.RenameTo? && FileOf(files, op.dst) == map[] {
      NothingStored(bs, files, op.dst);
    }
  }
}
