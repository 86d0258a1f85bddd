/** The proxy's own scan of a cache table: it takes the 32 bytes at the start and after each
    space that follows a key for file ids. */
module TableScan {
  import opened ByteSeq
  import opened StorageKey
  import opened CacheTable

  function AfterSpace(b: Bytes): (r: Bytes)
    ensures |r| <= |b|
  {
    if b == [] then [] else if b[0] == SPACE then b[1..] else AfterSpace(b[1..])
  }

  /** The first 32 bytes of the buffer and of what follows each space found after a key. */
  function Scan(b: Bytes): Option<seq<Uuid>>
    decreases |b|
  {
    if |b| == 0 then Some([])
    else if |b| < 32 then None
    else match Scan(AfterSpace(b[32..]))
      case None => None
      case Some(ks) => Some([b[..32]] + ks)
  }

  predicate NoSpace(b: Bytes) {
    forall i :: 0 <= i < |b| ==> b[i] != SPACE
  }

  predicate RefsWithoutSpace(rs: seq<Ref>) {
    forall i :: 0 <= i < |rs| ==> NoSpace(PrintRef(rs[i]))
  }

  predicate RecWithoutSpace(r: Rec) {
    RefsWithoutSpace(r.blocks) && (r.recent.Some? ==> NoSpace(PrintRef(r.recent.value)))
  }

  function Keys(rs: seq<Rec>): seq<Uuid> {
    if rs == [] then [] else [rs[0].key] + Keys(rs[1..])
  }

  lemma {:induction false} SkipTo(a: Bytes, b: Bytes)
    requires NoSpace(a)
    ensures AfterSpace(a + b) == AfterSpace(b)
  {
    if a == [] {
      assert a + b == b;
    } else {
      assert (a + b)[1..] == a[1..] + b;
      SkipTo(a[1..], b);
    }
  }

  lemma {:induction false} SkipRefs(mark: byte, rs: seq<Ref>, rest: Bytes)
    requires mark != SPACE && RefsWithoutSpace(rs)
    ensures AfterSpace(PrintRefs(mark, rs, rest)) == rest
    decreases |rs|
  {
    if rs == [] {
      assert ([SPACE] + rest)[1..] == rest;
    } else {
      SkipTo([mark] + PrintRef(rs[0]), PrintRefs(COMMA, rs[1..], rest));
      SkipRefs(COMMA, rs[1..], rest);
    }
  }

  // ----- where the scan finds keys

  /** The offsets of the keys the scan takes, when the buffer begins at offset `at`. */
  function ScanStarts(b: Bytes, at: nat): Option<seq<nat>>
    decreases |b|
  {
    if |b| == 0 then Some([])
    else if |b| < 32 then None
    else
      var rest := AfterSpace(b[32..]);
      match ScanStarts(rest, at + |b| - |rest|)
      case None => None
      case Some(more) => Some([at] + more)
  }

  /** The offsets of the records, when the first one begins at offset `at`. */
  function RecordStarts(rs: seq<Rec>, at: nat): seq<nat>
    decreases |rs|
  {
    if rs == [] then [] else [at] + RecordStarts(rs[1..], at + |PrintRec(rs[0], [])|)
  }

  lemma {:induction false} AfterSpaceIsSuffix(b: Bytes)
    ensures AfterSpace(b) == b[|b| - |AfterSpace(b)|..]
  {
    if b != [] && b[0] != SPACE {
      AfterSpaceIsSuffix(b[1..]);
    }
  }

  /** The keys of the scan are the 32 bytes at its starts. */
  lemma {:induction false} ScanTakesStarts(table: Bytes, at: nat, i: nat)
    requires at <= |table|
    ensures Scan(table[at..]).Some? <==> ScanStarts(table[at..], at).Some?
    ensures Scan(table[at..]).Some? ==> |Scan(table[at..]).value| == |ScanStarts(table[at..], at).value|
    ensures Scan(table[at..]).Some? && i < |Scan(table[at..]).value| ==>
              var start := ScanStarts(table[at..], at).value[i];
              start + 32 <= |table| && Scan(table[at..]).value[i] == table[start..start + 32]
    decreases |table| - at
  {
    var b := table[at..];
    if |b| >= 32 {
      var rest := AfterSpace(b[32..]);
      var next := at + |b| - |rest|;
      AfterSpaceIsSuffix(b[32..]);
      assert rest == table[next..];
      ScanTakesStarts(table, next, if i > 0 then i - 1 else 0);
      assert b[..32] == table[at..at + 32];
    }
  }

  /** A space in front of `b` stops the search there or earlier. */
  lemma {:induction false} StopsBefore(a: Bytes, b: Bytes)
    requires !NoSpace(a)
    ensures |AfterSpace(a + b)| >= |b|
  {
    assert (a + b)[1..] == a[1..] + b;
    if a[0] != SPACE {
      assert !NoSpace(a[1..]) by {
        var i :| 0 <= i < |a| && a[i] == SPACE;
        assert a[1..][i - 1] == SPACE;
      }
      StopsBefore(a[1..], b);
    }
  }

  lemma {:induction false} RefsLength(mark: byte, rs: seq<Ref>, rest: Bytes)
    ensures |PrintRefs(mark, rs, rest)| > |rest|
    decreases |rs|
  {
    if rs != [] {
      RefsLength(COMMA, rs[1..], rest);
    }
  }

  /** The search passes a reference list exactly when no byte of it is a space. */
  lemma {:induction false} PassesExactlyWhen(mark: byte, rs: seq<Ref>, rest: Bytes)
    requires mark != SPACE
    ensures var left := AfterSpace(PrintRefs(mark, rs, rest));
            |left| >= |rest| && (|left| == |rest| <==> RefsWithoutSpace(rs))
    decreases |rs|
  {
    if rs != [] {
      var first, tail := [mark] + PrintRef(rs[0]), PrintRefs(COMMA, rs[1..], rest);
      RefsLength(COMMA, rs[1..], rest);
      PassesExactlyWhen(COMMA, rs[1..], rest);
      FirstWithoutSpace(mark, rs);
      if NoSpace(first) {
        SkipTo(first, tail);
      } else {
        StopsBefore(first, tail);
      }
    } else {
      assert ([SPACE] + rest)[1..] == rest;
    }
  }

  lemma FirstWithoutSpace(mark: byte, rs: seq<Ref>)
    requires mark != SPACE && rs != []
    ensures RefsWithoutSpace(rs) <==> NoSpace([mark] + PrintRef(rs[0])) && RefsWithoutSpace(rs[1..])
  {
    var p := PrintRef(rs[0]);
    assert NoSpace([mark] + p) <==> NoSpace(p) by {
      assert forall i :: 0 <= i < |p| ==> ([mark] + p)[i + 1] == p[i];
    }
    assert forall i :: 1 <= i < |rs| ==> rs[i] == rs[1..][i - 1];
  }

  /** From the key of a record the search ends behind the record exactly when no byte of its
      ids and sizes is a space; otherwise it ends inside the record. */
  lemma {:induction false} RecordPassesExactlyWhen(r: Rec, rest: Bytes)
    requires Printable(r)
    ensures var b := PrintRec(r, rest);
            && |b| == |PrintRec(r, [])| + |rest| && |b| > 32 && b[..32] == r.key
            && var left := AfterSpace(b[32..]);
               |left| >= |rest| && (|left| == |rest| <==> RecWithoutSpace(r)) && (RecWithoutSpace(r) ==> left == rest)
  {
    var b := PrintRec(r, rest);
    PrintRecThen(r, rest);
    match r.recent
    case Some(e) =>
      assert b[32..] == PrintRefs(DOT, [e], rest);
      PassesExactlyWhen(DOT, [e], rest);
      RefsLength(DOT, [e], rest);
      if RecWithoutSpace(r) {
        SkipRefs(DOT, [e], rest);
      }
    case None =>
      if r.blocks == [] {
        assert b[32..] == [COLON] + ([SPACE] + rest);
        SkipTo([COLON], [SPACE] + rest);
        assert ([SPACE] + rest)[1..] == rest;
      } else {
        assert b[32..] == PrintRefs(COLON, r.blocks, rest);
        PassesExactlyWhen(COLON, r.blocks, rest);
        RefsLength(COLON, r.blocks, rest);
        if RecWithoutSpace(r) {
          SkipRefs(COLON, r.blocks, rest);
        }
      }
  }

  predicate AllWithoutSpace(rs: seq<Rec>) {
    rs == [] || (RecWithoutSpace(rs[0]) && AllWithoutSpace(rs[1..]))
  }

  lemma {:induction false} ScanNext(b: Bytes, at: nat, rest: Bytes, next: nat, wanted: seq<nat>)
    requires |b| >= 32 && AfterSpace(b[32..]) == rest && next == at + |b| - |rest|
    ensures ScanStarts(b, at) == Some([at] + wanted) <==> ScanStarts(rest, next) == Some(wanted)
  {
    assert ([at] + wanted)[1..] == wanted;
    var found := ScanStarts(rest, next);
    if found.Some? {
      assert ([at] + found.value)[1..] == found.value;
    }
  }

  lemma {:induction false} FirstScanned(rs: seq<Rec>, at: nat, next: nat)
    requires rs != [] && Printable(rs[0]) && RecWithoutSpace(rs[0]) && next == at + |PrintRec(rs[0], [])|
    ensures ScanStarts(Print(rs), at) == Some(RecordStarts(rs, at)) <==>
            ScanStarts(Print(rs[1..]), next) == Some(RecordStarts(rs[1..], next))
  {
    RecordPassesExactlyWhen(rs[0], Print(rs[1..]));
    ScanNext(Print(rs), at, Print(rs[1..]), next, RecordStarts(rs[1..], next));
  }

  /** The scan of a table takes keys at the starts of its records and nowhere else, exactly
      when no byte of an id or a size is a space. */
  lemma {:induction false} ScanFindsRecords(rs: seq<Rec>, at: nat)
    requires forall i :: 0 <= i < |rs| ==> Printable(rs[i])
    ensures ScanStarts(Print(rs), at) == Some(RecordStarts(rs, at)) <==> AllWithoutSpace(rs)
    decreases |rs|
  {
    if rs != [] {
      if RecWithoutSpace(rs[0]) {
        var next := at + |PrintRec(rs[0], [])|;
        FirstScanned(rs, at, next);
        ScanFindsRecords(rs[1..], next);
      } else {
        StopsInside(rs, at);
      }
    }
  }

  /** A space inside the first record puts the next key inside that record. */
  lemma {:induction false} StopsInside(rs: seq<Rec>, at: nat)
    requires rs != [] && Printable(rs[0]) && !RecWithoutSpace(rs[0])
    ensures ScanStarts(Print(rs), at) != Some(RecordStarts(rs, at))
    ensures var found := ScanStarts(Print(rs), at);
            found.Some? ==> |found.value| > 1 && at < found.value[1] < at + |PrintRec(rs[0], [])|
  {
    var b, rest := Print(rs), Print(rs[1..]);
    RecordPassesExactlyWhen(rs[0], rest);
    var left := AfterSpace(b[32..]);
    var next := at + |b| - |left|;
    var found := ScanStarts(b, at);
    if found.Some? {
      assert ScanStarts(left, next).value[0] == next;
      assert found.value[1] == next;
    }
  }

  /** When no byte of an id or a size is a space, the proxy finds the key of every record. */
  lemma {:induction false} ScanFindsKeys(rs: seq<Rec>)
    requires AllWithoutSpace(rs) && forall i :: 0 <= i < |rs| ==> Printable(rs[i])
    ensures Scan(Print(rs)) == Some(Keys(rs))
  {
    if rs != [] {
      RecordPassesExactlyWhen(rs[0], Print(rs[1..]));
      ScanFindsKeys(rs[1..]);
    }
  }

  /** Block 32 of a file has such a byte, and the scan of its record runs past the end. */
  lemma SpaceInAnIdMisleads(key: Uuid)
    ensures Scan(Print([Rec(key, [Ref(32, 0)], None)])) == None
  {
    var refs := [Ref(32, 0)];
    var r := Rec(key, refs, None);
    var rest: Bytes := [0, 0, 0, 0, 0, 0, 0, SPACE];
    assert PrintRef(refs[0]) == [SPACE, 0, 0, 0, 0, 0, 0, 0];
    assert refs[1..] == [] && PrintRefs(COMMA, [], []) == [SPACE];
    assert PrintRefs(COLON, refs, []) == [COLON] + ([SPACE] + rest);
    SkipTo([COLON], [SPACE] + rest);
    assert ([SPACE] + rest)[1..] == rest;
    assert [r][1..] == [];
    assert Print([r]) == PrintRec(r, []) == key + PrintRefs(COLON, refs, []);
    assert Print([r])[32..] == PrintRefs(COLON, refs, []);
  }

  // ----- the loops

  /** The position of the next space, or the end. */
  method FindSpace(table: Bytes, start: nat) returns (it: nat)
    requires start <= |table|
    ensures start <= it <= |table|
    ensures AfterSpace(table[start..]) == if it < |table| then table[it + 1..] else []
  {
    it := start;
    while it < |table| && table[it] != SPACE
      invariant start <= it <= |table| && AfterSpace(table[it..]) == AfterSpace(table[start..])
      decreases |table| - it
    {
      assert table[it..][1..] == table[it + 1..];
      it := it + 1;
    }
    if it < |table| {
      assert table[it..][1..] == table[it + 1..];
    }
  }

  /** What the scan still finds from offset `it` on; it may stand one past the end. */
  function Left(table: Bytes, it: nat): Option<seq<Uuid>> {
    if it <= |table| then Scan(table[it..]) else Some([])
  }

  lemma ScanStep(table: Bytes, it: nat)
    requires it < |table| && Left(table, it).Some?
    ensures it + 32 <= |table|
    ensures var keys := Left(table, it).value;
            keys != [] && keys[0] == table[it..it + 32] && Scan(AfterSpace(table[it + 32..])) == Some(keys[1..])
  {
    assert table[it..][..32] == table[it..it + 32] && table[it..][32..] == table[it + 32..];
    assert Left(table, it).value[1..] == Scan(AfterSpace(table[it + 32..])).value;
  }

  /** The proxy's loop over the keys of a table. */
  method GetFileIds(table: Bytes) returns (keys: seq<Uuid>)
    requires Scan(table).Some?
    ensures Scan(table) == Some(keys)
  {
    keys := [];
    var it := 0;
    ghost var all := Scan(table).value;
    ghost var todo := all;
    assert table[0..] == table;
    assert keys + todo == all;
    while it < |table|
      invariant Left(table, it) == Some(todo)
      invariant keys + todo == all
      decreases |table| - it
    {
      ScanStep(table, it);
      var key: Uuid := table[it..it + 32];
      var next := FindSpace(table, it + 32);
      TakeFirst(keys, todo);
      keys := keys + [key];
      it := next + 1;
      todo := todo[1..];
    }
    assert keys + [] == keys;
  }

  lemma TakeFirst<T>(a: seq<T>, b: seq<T>)
    requires b != []
    ensures a + b == a + [b[0]] + b[1..]
  {
  }
}
