/** The bytes of a directory: one 64-byte header that starts with the number of entries,
    then 64-byte entries, edited in place.  Overwriting a longer directory leaves stale
    entries behind the last one; the count decides what is an entry. */
module Directory {
  import opened ByteSeq

  /** Sizes of a record and of its name field, and where the name field starts. */
  const RECORD := 64
  const NAME := 34
  const NAME_AT := 24

  type DirEntry = e: Bytes | |e| == 64 witness Zeros(64)
  type Name = n: Bytes | |n| <= 34 && 0 !in n

  // ----- fields of an entry

  function UpToNul(b: Bytes): (n: Bytes)
    ensures |n| <= |b| && 0 !in n
  {
    if b == [] || b[0] == 0 then [] else [b[0]] + UpToNul(b[1..])
  }

  function NameOf(e: DirEntry): Name {
    UpToNul(e[NAME_AT..NAME_AT + NAME])
  }

  /** Owner, permission, size and times. */
  function MetaOf(e: DirEntry): Bytes {
    e[..NAME_AT]
  }

  /** The entry with its name field cleared and refilled. */
  function WithName(e: DirEntry, name: Name): DirEntry {
    e[..NAME_AT] + name + Zeros(NAME - |name|) + e[NAME_AT + NAME..]
  }

  lemma {:induction false} NulEndsName(name: Bytes, zeros: nat)
    requires 0 !in name
    ensures UpToNul(name + Zeros(zeros)) == name
    decreases |name|
  {
    if name != [] {
      assert (name + Zeros(zeros))[1..] == name[1..] + Zeros(zeros);
      NulEndsName(name[1..], zeros);
    }
  }

  lemma RenamedEntry(e: DirEntry, name: Name)
    ensures NameOf(WithName(e, name)) == name && MetaOf(WithName(e, name)) == MetaOf(e)
  {
    var r := WithName(e, name);
    assert r[NAME_AT..NAME_AT + NAME] == name + Zeros(NAME - |name|);
    NulEndsName(name, NAME - |name|);
  }

  // ----- big-endian fields

  function Put16(n: nat): (b: Bytes)
    requires n < U16
    ensures |b| == 2
  {
    [n / 256, n % 256]
  }

  function Get16(b: Bytes): (n: nat)
    requires |b| == 2
    ensures n < U16
  {
    b[0] as int * 256 + b[1] as int
  }

  function Put32(n: nat): (b: Bytes)
    requires n < U32
    ensures |b| == 4
  {
    Put16(n / U16) + Put16(n % U16)
  }

  function Get32(b: Bytes): (n: nat)
    requires |b| == 4
    ensures n < U32
  {
    Get16(b[..2]) * U16 + Get16(b[2..])
  }

  lemma PutGet16(n: nat)
    requires n < U16
    ensures Get16(Put16(n)) == n
  {
  }

  lemma PutGet32(n: nat)
    requires n < U32
    ensures Get32(Put32(n)) == n
  {
    assert Put32(n)[..2] == Put16(n / U16) && Put32(n)[2..] == Put16(n % U16);
    PutGet16(n / U16);
    PutGet16(n % U16);
  }

  // ----- the content of a directory

  /** Bytes taken by a directory of `n` entries. */
  function Extent(n: nat): nat {
    RECORD + RECORD * n
  }

  function CountOf(content: Bytes): nat
    requires |content| >= RECORD
  {
    Get32(content[..4])
  }

  function EntryAt(content: Bytes, i: nat): DirEntry
    requires Extent(i + 1) <= |content|
  {
    content[Extent(i)..Extent(i + 1)]
  }

  /** The content is a directory with exactly these entries, whatever comes after them. */
  ghost predicate Holds(content: Bytes, es: seq<DirEntry>) {
    && Extent(|es|) <= |content| && CountOf(content) == |es|
    && forall i :: 0 <= i < |es| ==> EntryAt(content, i) == es[i]
  }

  // ----- the entries as a finite map from names

  predicate Distinct(es: seq<DirEntry>) {
    forall i, j :: 0 <= i < j < |es| ==> NameOf(es[i]) != NameOf(es[j])
  }

  function IndexOf(es: seq<DirEntry>, name: Name): (i: nat)
    ensures i <= |es|
    ensures i < |es| ==> NameOf(es[i]) == name
    ensures forall j :: 0 <= j < i ==> NameOf(es[j]) != name
  {
    if es == [] || NameOf(es[0]) == name then 0 else 1 + IndexOf(es[1..], name)
  }

  predicate Has(es: seq<DirEntry>, name: Name) {
    IndexOf(es, name) < |es|
  }

  /** The metadata filed under a name. */
  function Lookup(es: seq<DirEntry>, name: Name): Option<Bytes> {
    if Has(es, name) then Some(MetaOf(es[IndexOf(es, name)])) else None
  }

  lemma LookupAt(es: seq<DirEntry>, k: nat)
    requires Distinct(es) && k < |es|
    ensures IndexOf(es, NameOf(es[k])) == k && Lookup(es, NameOf(es[k])) == Some(MetaOf(es[k]))
  {
  }

  /** Deletion moves the last entry into the freed place. */
  function Removed(es: seq<DirEntry>, k: nat): seq<DirEntry>
    requires k < |es|
  {
    es[k := es[|es| - 1]][..|es| - 1]
  }

  /** Appending an entry under a new name adds it to the map. */
  lemma AddedEntry(es: seq<DirEntry>, e: DirEntry, x: Name)
    requires Distinct(es) && !Has(es, NameOf(e))
    ensures Distinct(es + [e])
    ensures Lookup(es + [e], x) == if x == NameOf(e) then Some(MetaOf(e)) else Lookup(es, x)
  {
    var es' := es + [e];
    if x == NameOf(e) {
      LookupAt(es', |es|);
    } else if Has(es, x) {
      LookupAt(es', IndexOf(es, x));
    }
  }

  lemma RemovedDistinct(es: seq<DirEntry>, k: nat)
    requires Distinct(es) && k < |es|
    ensures Distinct(Removed(es, k))
  {
    var es', last := Removed(es, k), |es| - 1;
    forall i, j | 0 <= i < j < |es'|
      ensures NameOf(es'[i]) != NameOf(es'[j])
    {
      assert es'[i] == es[if i == k then last else i] && es'[j] == es[if j == k then last else j];
    }
  }

  lemma RemovedName(es: seq<DirEntry>, k: nat)
    requires Distinct(es) && k < |es|
    ensures !Has(Removed(es, k), NameOf(es[k]))
  {
    var es', last := Removed(es, k), |es| - 1;
    assert forall i :: 0 <= i < |es'| ==> es'[i] == es[if i == k then last else i];
  }

  /** Deleting an entry takes its name, and no other, out of the map. */
  lemma RemovedEntry(es: seq<DirEntry>, k: nat, x: Name)
    requires Distinct(es) && k < |es|
    ensures Distinct(Removed(es, k))
    ensures Lookup(Removed(es, k), x) == if x == NameOf(es[k]) then None else Lookup(es, x)
  {
    var es', last := Removed(es, k), |es| - 1;
    RemovedDistinct(es, k);
    RemovedName(es, k);
    if x != NameOf(es[k]) {
      if Has(es, x) {
        var i := IndexOf(es, x);
        LookupAt(es', if i == last then k else i);
      } else if Has(es', x) {
        var i := IndexOf(es', x);
        LookupAt(es, if i == k then last else i);
      }
    }
  }

  /** Rewriting the metadata of an entry changes the map at its name only. */
  lemma UpdatedEntry(es: seq<DirEntry>, k: nat, e: DirEntry, x: Name)
    requires Distinct(es) && k < |es| && NameOf(e) == NameOf(es[k])
    ensures Distinct(es[k := e])
    ensures Lookup(es[k := e], x) == if x == NameOf(e) then Some(MetaOf(e)) else Lookup(es, x)
  {
    if x == NameOf(e) {
      LookupAt(es[k := e], k);
    } else if Has(es, x) {
      LookupAt(es[k := e], IndexOf(es, x));
    }
  }

  /** Renaming an entry moves its metadata from the old name to the new one.  The program
      does not look for the new name among the other entries; names stay distinct if and
      only if it was free. */
  lemma RenamedInPlace(es: seq<DirEntry>, k: nat, name: Name, x: Name)
    requires Distinct(es) && k < |es| && name != NameOf(es[k])
    ensures Distinct(es[k := WithName(es[k], name)]) <==> !Has(es, name)
    ensures !Has(es, name) ==>
              Lookup(es[k := WithName(es[k], name)], x) ==
              if x == name then Some(MetaOf(es[k])) else if x == NameOf(es[k]) then None else Lookup(es, x)
  {
    var es' := es[k := WithName(es[k], name)];
    RenamedEntry(es[k], name);
    if Has(es, name) {
      var i := IndexOf(es, name);
      assert NameOf(es'[Min(i, k)]) == NameOf(es'[Max(i, k)]);
    } else {
      assert Distinct(es');
      if x == name {
        LookupAt(es', k);
      } else if x != NameOf(es[k]) && Has(es, x) {
        LookupAt(es', IndexOf(es, x));
      }
    }
  }

  // ----- the edits by name

  function EntryOf(es: seq<DirEntry>, name: Name): DirEntry
    requires Has(es, name)
  {
    es[IndexOf(es, name)]
  }

  function WithoutEntry(es: seq<DirEntry>, name: Name): seq<DirEntry>
    requires Has(es, name)
  {
    Removed(es, IndexOf(es, name))
  }

  function WithNameAt(es: seq<DirEntry>, name: Name, newName: Name): seq<DirEntry>
    requires Has(es, name)
  {
    es[IndexOf(es, name) := WithName(EntryOf(es, name), newName)]
  }

  function WithSizeAt(es: seq<DirEntry>, name: Name, newSize: nat, time: Bytes): seq<DirEntry>
    requires Has(es, name) && |time| == 8
  {
    es[IndexOf(es, name) := WithSize(EntryOf(es, name), newSize, time)]
  }

  /** The entries after a write to a file of that name, which may have no entry. */
  function AfterWrite(es: seq<DirEntry>, name: Name, newSize: nat, time: Bytes): seq<DirEntry>
    requires |time| == 8
  {
    if Has(es, name) then WithSizeAt(es, name, newSize, time) else es
  }

  /** A rename into another directory conserves: exactly the old name leaves the source, the
      same metadata enters the destination under the new name, all else is unchanged. */
  lemma RenameConserves(src: seq<DirEntry>, dst: seq<DirEntry>, name: Name, newName: Name, x: Name)
    requires Distinct(src) && Distinct(dst) && Has(src, name) && !Has(dst, newName)
    ensures var src', dst' := WithoutEntry(src, name), dst + [WithName(EntryOf(src, name), newName)];
            && |src'| + |dst'| == |src| + |dst|
            && Lookup(src', x) == (if x == name then None else Lookup(src, x))
            && Lookup(dst', x) == (if x == newName then Lookup(src, name) else Lookup(dst, x))
            && Distinct(src') && Distinct(dst')
  {
    RemovedEntry(src, IndexOf(src, name), x);
    RenamedEntry(EntryOf(src, name), newName);
    AddedEntry(dst, WithName(EntryOf(src, name), newName), x);
  }

  // ----- editing the content in place

  lemma CopiedCount(content: Bytes, n: nat)
    requires |content| >= RECORD && n < U32
    ensures CountOf(CopyInto(content, 0, Put32(n))) == n
  {
    assert CopyInto(content, 0, Put32(n))[..4] == Put32(n);
    PutGet32(n);
  }

  /** Two contents that agree from the first entry up to the end of entry `i`. */
  lemma SameEntry(c: Bytes, d: Bytes, i: nat)
    requires Extent(i + 1) <= |c| && Extent(i + 1) <= |d|
    requires forall a :: Extent(i) <= a < Extent(i + 1) ==> c[a] == d[a]
    ensures EntryAt(c, i) == EntryAt(d, i)
  {
  }

  /** The scan for a name that every directory operation starts with. */
  method FindEntry(content: Bytes, name: Name, ghost es: seq<DirEntry>) returns (k: nat)
    requires Holds(content, es)
    ensures k == IndexOf(es, name)
  {
    var count := CountOf(content);
    k := 0;
    while k < count
      invariant k <= count
      invariant forall j :: 0 <= j < k ==> NameOf(es[j]) != name
    {
      if NameOf(EntryAt(content, k)) == name {
        return;
      }
      k := k + 1;
    }
  }

  /** Adding an entry: extend the content, write the entry behind the last one and the new
      count into the header.  Stale bytes behind the last entry are overwritten. */
  method AppendEntry(content: Bytes, e: DirEntry, ghost es: seq<DirEntry>) returns (r: Bytes)
    requires Holds(content, es) && Extent(|es| + 1) < U32
    ensures Holds(r, es + [e]) && |r| == Extent(|es| + 1)
  {
    var count := CountOf(content) + 1;
    var position := RECORD * count;
    var wide := CopyInto(Resize(content, position + RECORD), position, e);
    r := CopyInto(wide, 0, Put32(count));
    CopiedCount(wide, count);
    forall i | 0 <= i < |es|
      ensures EntryAt(r, i) == es[i]
    {
      SameEntry(r, content, i);
    }
    assert EntryAt(r, |es|) == e;
  }

  /** Deleting entry `k`: move the last entry there, shorten the content by one entry and
      write the new count. */
  method DeleteEntry(content: Bytes, k: nat, ghost es: seq<DirEntry>) returns (r: Bytes)
    requires Holds(content, es) && k < |es|
    ensures Holds(r, Removed(es, k)) && |r| == Extent(|es| - 1)
  {
    var count := CountOf(content);
    var moved := content;
    if k + 1 < count {
      moved := CopyInto(content, Extent(k), EntryAt(content, count - 1));
    }
    var short := Resize(moved, Extent(count - 1));
    r := CopyInto(short, 0, Put32(count - 1));
    CutOff(content, moved, short, r, k, es);
  }

  lemma CutOff(content: Bytes, moved: Bytes, short: Bytes, r: Bytes, k: nat, es: seq<DirEntry>)
    requires Holds(content, es) && k < |es|
    requires moved == if k + 1 < |es| then CopyInto(content, Extent(k), EntryAt(content, |es| - 1)) else content
    requires short == Resize(moved, Extent(|es| - 1)) && r == CopyInto(short, 0, Put32(|es| - 1))
    ensures Holds(r, Removed(es, k))
  {
    CopiedCount(short, |es| - 1);
    forall i | 0 <= i < |es| - 1
      ensures EntryAt(r, i) == Removed(es, k)[i]
    {
      MovedEntry(content, moved, k, i, es);
      SameEntry(r, moved, i);
    }
  }

  /** The content with its last entry moved to place `k`, seen at entry `i`. */
  lemma MovedEntry(content: Bytes, moved: Bytes, k: nat, i: nat, es: seq<DirEntry>)
    requires Holds(content, es) && k < |es| && i < |es| - 1
    requires moved == if k + 1 < |es| then CopyInto(content, Extent(k), EntryAt(content, |es| - 1)) else content
    ensures |moved| == |content| && EntryAt(moved, i) == Removed(es, k)[i]
  {
    if i == k {
      assert EntryAt(moved, i) == EntryAt(content, |es| - 1);
    } else {
      SameEntry(moved, content, i);
    }
  }

  /** Rewriting entry `k`: the size update and the rename within a directory. */
  method RewriteEntry(content: Bytes, k: nat, e: DirEntry, ghost es: seq<DirEntry>) returns (r: Bytes)
    requires Holds(content, es) && k < |es|
    ensures Holds(r, es[k := e]) && |r| == Extent(|es|)
  {
    var count := CountOf(content);
    var changed := CopyInto(content, Extent(k), e);
    r := Resize(changed, Extent(count));
    assert r[..4] == content[..4];
    forall i | 0 <= i < count
      ensures EntryAt(r, i) == es[k := e][i]
    {
      SameEntry(r, changed, i);
      if i == k {
        assert EntryAt(changed, i) == e;
      } else {
        SameEntry(changed, content, i);
      }
    }
  }

  // ----- the size field

  /** The entry after a write: the larger of both sizes, cut to the 16 bits of the field,
      and the new modification time. */
  function WithSize(e: DirEntry, newSize: nat, time: Bytes): DirEntry
    requires |time| == 8
  {
    var size := Get16(e[4..6]);
    e[..4] + Put16((if newSize > size then newSize else size) % U16) + e[6..16] + time + e[NAME_AT..]
  }

  function SizeOf(e: DirEntry): nat {
    Get16(e[4..6])
  }

  /** The recorded size covers the write, and never shrinks, exactly when the new size
      fits in 16 bits.  The name is kept in any case. */
  lemma RecordedSize(e: DirEntry, newSize: nat, time: Bytes)
    requires |time| == 8
    ensures SizeOf(WithSize(e, newSize, time)) == Max(SizeOf(e), newSize) <==> newSize < U16
    ensures NameOf(WithSize(e, newSize, time)) == NameOf(e)
  {
    var r := WithSize(e, newSize, time);
    var size := if newSize > SizeOf(e) then newSize else SizeOf(e);
    assert r[4..6] == Put16(size % U16);
    PutGet16(size % U16);
    assert r[NAME_AT..] == e[NAME_AT..];
    assert r[NAME_AT..NAME_AT + NAME] == r[NAME_AT..][..NAME] == e[NAME_AT..NAME_AT + NAME];
  }
}
