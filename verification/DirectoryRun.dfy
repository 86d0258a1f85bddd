/** Directory edits: the entries of a directory are a map from names to metadata. */
module DirectoryRun {
  import opened ByteSeq
  import opened Directory

  /** The committed edits of one directory; a cross-directory rename is a removal here and an
      addition there. */
  datatype Edit =
    | Insert(entry: DirEntry)
    | Drop(name: Name)
    | SetSize(name: Name, newSize: nat, time: Bytes)
    | Move(name: Name, newName: Name)

  /** The edits the directory operations refuse leave the entries as they are. */
  function Edited(es: seq<DirEntry>, d: Edit): seq<DirEntry>
    requires d.SetSize? ==> |d.time| == 8
  {
    match d
    case Insert(e) => if Has(es, NameOf(e)) then es else es + [e]
    case Drop(name) => if Has(es, name) then WithoutEntry(es, name) else es
    case SetSize(name, newSize, time) => AfterWrite(es, name, newSize, time)
    case Move(name, newName) => if Has(es, name) && name != newName then WithNameAt(es, name, newName) else es
  }

  /** Metadata after a write: the larger size in its 16-bit field, and the new time. */
  function ResizedMeta(meta: Bytes, newSize: nat, time: Bytes): Bytes
    requires |meta| == NAME_AT && |time| == 8
  {
    var size := Get16(meta[4..6]);
    meta[..4] + Put16((if newSize > size then newSize else size) % U16) + meta[6..16] + time
  }

  type Meta = m: Bytes | |m| == 24 witness Zeros(24)

  function EditedMap(m: map<Name, Meta>, d: Edit): map<Name, Meta>
    requires d.SetSize? ==> |d.time| == 8
  {
    match d
    case Insert(e) => if NameOf(e) in m then m else m[NameOf(e) := MetaOf(e)]
    case Drop(name) => m - {name}
    case SetSize(name, newSize, time) => if name in m then m[name := ResizedMeta(m[name], newSize, time)] else m
    case Move(name, newName) => if name in m && name != newName then (m - {name})[newName := m[name]] else m
  }

  function InMap(m: map<Name, Meta>, x: Name): Option<Bytes> {
    if x in m then Some(m[x]) else None
  }

  /** Names are distinct and every name has in the entries what it has in the map. */
  ghost predicate Represents(es: seq<DirEntry>, m: map<Name, Meta>) {
    Distinct(es) && forall x: Name :: Lookup(es, x) == InMap(m, x)
  }

  /** A same-directory rename goes to a free name: the program does not look. */
  predicate ToFreeName(es: seq<DirEntry>, d: Edit) {
    d.Move? && Has(es, d.name) && d.name != d.newName ==> !Has(es, d.newName)
  }

  predicate Legal(es: seq<DirEntry>, d: Edit) {
    (d.SetSize? ==> |d.time| == 8) && ToFreeName(es, d)
  }

  lemma ResizedEntry(e: DirEntry, newSize: nat, time: Bytes)
    requires |time| == 8
    ensures MetaOf(WithSize(e, newSize, time)) == ResizedMeta(MetaOf(e), newSize, time)
    ensures NameOf(WithSize(e, newSize, time)) == NameOf(e)
  {
    RecordedSize(e, newSize, time);
    var r := WithSize(e, newSize, time);
    assert MetaOf(e)[4..6] == e[4..6] && MetaOf(e)[..4] == e[..4] && MetaOf(e)[6..16] == e[6..16];
    assert r[..NAME_AT] == ResizedMeta(MetaOf(e), newSize, time);
  }

  lemma AddAt(es: seq<DirEntry>, m: map<Name, Meta>, e: DirEntry, x: Name)
    requires Distinct(es) && Lookup(es, x) == InMap(m, x) && Lookup(es, NameOf(e)) == InMap(m, NameOf(e))
    ensures Distinct(Edited(es, Insert(e))) && Lookup(Edited(es, Insert(e)), x) == InMap(EditedMap(m, Insert(e)), x)
  {
    if !Has(es, NameOf(e)) {
      AddedEntry(es, e, x);
    }
  }

  lemma RemoveAt(es: seq<DirEntry>, m: map<Name, Meta>, name: Name, x: Name)
    requires Distinct(es) && Lookup(es, x) == InMap(m, x) && Lookup(es, name) == InMap(m, name)
    ensures Distinct(Edited(es, Drop(name))) && Lookup(Edited(es, Drop(name)), x) == InMap(EditedMap(m, Drop(name)), x)
  {
    if Has(es, name) {
      RemovedEntry(es, IndexOf(es, name), x);
    }
  }

  lemma ResizeAt(es: seq<DirEntry>, m: map<Name, Meta>, name: Name, newSize: nat, time: Bytes, x: Name)
    requires Distinct(es) && Lookup(es, x) == InMap(m, x) && Lookup(es, name) == InMap(m, name) && |time| == 8
    ensures var d := SetSize(name, newSize, time);
            Distinct(Edited(es, d)) && Lookup(Edited(es, d), x) == InMap(EditedMap(m, d), x)
  {
    if Has(es, name) {
      ResizedEntry(EntryOf(es, name), newSize, time);
      UpdatedEntry(es, IndexOf(es, name), WithSize(EntryOf(es, name), newSize, time), x);
    }
  }

  lemma MoveAt(es: seq<DirEntry>, m: map<Name, Meta>, name: Name, newName: Name, x: Name)
    requires Distinct(es) && Lookup(es, x) == InMap(m, x) && Lookup(es, name) == InMap(m, name)
    requires ToFreeName(es, Move(name, newName))
    ensures var d := Move(name, newName);
            Distinct(Edited(es, d)) && Lookup(Edited(es, d), x) == InMap(EditedMap(m, d), x)
  {
    if Has(es, name) && name != newName {
      RenamedInPlace(es, IndexOf(es, name), newName, x);
    }
  }

  lemma EditAt(es: seq<DirEntry>, m: map<Name, Meta>, d: Edit, x: Name)
    requires Represents(es, m) && Legal(es, d)
    ensures Distinct(Edited(es, d)) && Lookup(Edited(es, d), x) == InMap(EditedMap(m, d), x)
  {
    match d
    case Insert(e) => AddAt(es, m, e, x);
    case Drop(name) => RemoveAt(es, m, name, x);
    case SetSize(name, newSize, time) => ResizeAt(es, m, name, newSize, time, x);
    case Move(name, newName) => MoveAt(es, m, name, newName, x);
  }

  lemma EditRepresents(es: seq<DirEntry>, m: map<Name, Meta>, d: Edit)
    requires Represents(es, m) && Legal(es, d)
    ensures Represents(Edited(es, d), EditedMap(m, d))
  {
    EditAt(es, m, d, []);
    forall x: Name ensures Lookup(Edited(es, d), x) == InMap(EditedMap(m, d), x) {
      EditAt(es, m, d, x);
    }
  }
}
