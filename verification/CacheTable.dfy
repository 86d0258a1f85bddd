/** The binary table a closing worker hands over: the cached blocks of every file, then the
    recency list from its least recent end, then eight bytes of counters that the proxy drops
    before it passes the table on. */
module CacheTable {
  import opened ByteSeq
  import opened StorageKey
  import opened LruCache

  type Word = x: int | 0 <= x < 0x1_0000_0000

  const SPACE: byte := 32
  const COMMA: byte := 44
  const DOT: byte := 46
  const COLON: byte := 58

  /** A block number and the size of the block. */
  datatype Ref = Ref(block: Word, size: Word)
  /** One record: a file with its blocks, or one entry of the recency list. */
  datatype Rec = Rec(key: Uuid, blocks: seq<Ref>, recent: Option<Ref>)

  // ----- printing

  /** A 32-bit value in memory order, least significant byte first. */
  function Le(n: Word): (b: Bytes)
    ensures |b| == 4
  {
    [n % 256, n / 256 % 256, n / 0x1_0000 % 256, n / 0x100_0000]
  }

  function FromLe(b: Bytes): Word
    requires |b| == 4
  {
    var b0: int, b1: int, b2: int, b3: int := b[0], b[1], b[2], b[3];
    b0 + 256 * b1 + 0x1_0000 * b2 + 0x100_0000 * b3
  }

  lemma LeRoundTrip(n: Word)
    ensures FromLe(Le(n)) == n
  {
    assert n / 256 / 256 == n / 0x1_0000 && n / 0x1_0000 / 256 == n / 0x100_0000;
  }

  function PrintRef(r: Ref): (b: Bytes)
    ensures |b| == 8
  {
    Le(r.block) + Le(r.size)
  }

  /** References, each after its mark and all but the first after a comma, then a space and
      what follows. */
  function PrintRefs(mark: byte, rs: seq<Ref>, rest: Bytes): Bytes
    decreases |rs|
  {
    if rs == [] then [SPACE] + rest else [mark] + PrintRef(rs[0]) + PrintRefs(COMMA, rs[1..], rest)
  }

  /** A file and a list entry differ in the mark after the key; a file without blocks still
      has its mark. */
  function PrintRec(r: Rec, rest: Bytes): Bytes {
    match r.recent
    case Some(e) => r.key + PrintRefs(DOT, [e], rest)
    case None =>
      r.key + if r.blocks == [] then [COLON] + PrintRefs(COLON, [], rest) else PrintRefs(COLON, r.blocks, rest)
  }

  function Print(rs: seq<Rec>): Bytes {
    if rs == [] then [] else PrintRec(rs[0], Print(rs[1..]))
  }

  // ----- parsing

  function GetRef(b: Bytes): Ref
    requires |b| == 8
  {
    Ref(FromLe(b[..4]), FromLe(b[4..]))
  }

  datatype Body = Body(blocks: seq<Ref>, recent: Option<Ref>, rest: Bytes)

  /** What follows a key: marks and references up to a space, or up to one list entry.
      `None` when the buffer ends too early. */
  function ParseBody(b: Bytes): Option<Body>
    decreases |b|
  {
    if |b| == 0 then None
    else if b[0] == SPACE then Some(Body([], None, b))
    else if |b| < 9 then None
    else if b[0] == DOT then Some(Body([], Some(GetRef(b[1..9])), b[9..]))
    else match ParseBody(b[9..])
      case None => None
      case Some(t) => Some(Body([GetRef(b[1..9])] + t.blocks, t.recent, t.rest))
  }

  lemma {:induction false} BodyShrinks(b: Bytes)
    ensures ParseBody(b).Some? ==> |ParseBody(b).value.rest| <= |b|
    decreases |b|
  {
    if |b| >= 9 && b[0] != SPACE && b[0] != DOT {
      BodyShrinks(b[9..]);
    }
  }

  function Parse(b: Bytes): Option<seq<Rec>>
    decreases |b|
  {
    if |b| == 0 then Some([])
    else if |b| < 32 then None
    else
      match ParseBody(b[32..])
      case None => None
      case Some(t) =>
        if t.rest == [] then None
        else
          BodyShrinks(b[32..]);
          match Parse(t.rest[1..])
          case None => None
          case Some(rs) => Some([Rec(b[..32], t.blocks, t.recent)] + rs)
  }

  // ----- the round trip

  lemma RefRoundTrip(r: Ref)
    ensures GetRef(PrintRef(r)) == r
  {
    LeRoundTrip(r.block);
    LeRoundTrip(r.size);
  }

  lemma MarkedRef(mark: byte, r: Ref, rest: Bytes, b: Bytes)
    requires b == [mark] + PrintRef(r) + rest
    ensures |b| == 9 + |rest| && b[0] == mark && GetRef(b[1..9]) == r && b[9..] == rest
  {
    RefRoundTrip(r);
    assert b[1..9] == PrintRef(r);
  }

  lemma {:induction false} RefsRoundTrip(mark: byte, rs: seq<Ref>, rest: Bytes)
    requires mark != SPACE && mark != DOT
    ensures ParseBody(PrintRefs(mark, rs, rest)) == Some(Body(rs, None, [SPACE] + rest))
    decreases |rs|
  {
    if rs != [] {
      var tail := PrintRefs(COMMA, rs[1..], rest);
      MarkedRef(mark, rs[0], tail, PrintRefs(mark, rs, rest));
      RefsRoundTrip(COMMA, rs[1..], rest);
      assert [rs[0]] + rs[1..] == rs;
    }
  }

  /** A record as the printer makes them: a file, or one list entry. */
  predicate Printable(r: Rec) {
    r.recent.Some? ==> r.blocks == []
  }

  /** A file without blocks. */
  predicate Hollow(r: Rec) {
    r.recent.None? && r.blocks == []
  }

  lemma BodyRoundTrip(r: Rec, rest: Bytes)
    requires Printable(r) && !Hollow(r)
    ensures var b := PrintRec(r, rest);
            && |b| > 32 && b[..32] == r.key
            && ParseBody(b[32..]) == Some(Body(r.blocks, r.recent, [SPACE] + rest))
  {
    var b := PrintRec(r, rest);
    match r.recent
    case Some(e) =>
      assert b[32..] == PrintRefs(DOT, [e], rest);
      assert [e][1..] == [];
      MarkedRef(DOT, e, [SPACE] + rest, b[32..]);
    case None =>
      assert b[32..] == PrintRefs(COLON, r.blocks, rest);
      RefsRoundTrip(COLON, r.blocks, rest);
  }

  /** Whatever follows a file without blocks, it is not read back as one: the mark is followed
      by a reference, or by the end of the buffer. */
  lemma HollowBody(r: Rec, rest: Bytes)
    requires Hollow(r)
    ensures var b := PrintRec(r, rest);
            && |b| > 32 && b[..32] == r.key
            && (ParseBody(b[32..]).Some? ==> ParseBody(b[32..]).value.blocks != [])
  {
    var b := PrintRec(r, rest);
    assert b[32..] == [COLON, SPACE] + rest;
  }

  predicate NoHollow(rs: seq<Rec>) {
    rs == [] || (!Hollow(rs[0]) && NoHollow(rs[1..]))
  }

  lemma {:induction false} NoneHollow(rs: seq<Rec>)
    ensures NoHollow(rs) <==> forall i :: 0 <= i < |rs| ==> !Hollow(rs[i])
  {
    if rs != [] {
      NoneHollow(rs[1..]);
      assert forall i :: 1 <= i < |rs| ==> rs[i] == rs[1..][i - 1];
    }
  }

  lemma HollowFirst(rs: seq<Rec>)
    requires rs != [] && Hollow(rs[0])
    ensures Parse(Print(rs)) != Some(rs)
  {
    var b := Print(rs);
    HollowBody(rs[0], Print(rs[1..]));
    assert Parse(b).Some? ==> Parse(b).value[0].blocks != [];
  }

  lemma ParseFirst(rs: seq<Rec>)
    requires rs != [] && Printable(rs[0]) && !Hollow(rs[0])
    ensures Parse(Print(rs)) == match Parse(Print(rs[1..]))
                                case None => None
                                case Some(more) => Some([rs[0]] + more)
  {
    var rest := Print(rs[1..]);
    BodyRoundTrip(rs[0], rest);
    assert ([SPACE] + rest)[1..] == rest;
  }

  /** Parsing the printed table gives back its records, in order, exactly when every file in
      it has a block. */
  lemma {:induction false} TableRoundTrip(rs: seq<Rec>)
    requires forall i :: 0 <= i < |rs| ==> Printable(rs[i])
    ensures Parse(Print(rs)) == Some(rs) <==> NoHollow(rs)
  {
    if rs != [] {
      if Hollow(rs[0]) {
        HollowFirst(rs);
      } else {
        TableRoundTrip(rs[1..]);
        ParseFirst(rs);
        assert rs == [rs[0]] + rs[1..];
        assert forall more: seq<Rec> :: ([rs[0]] + more)[1..] == more;
      }
    }
  }

  lemma HollowFileIsLost(key: Uuid)
    ensures Parse(Print([Rec(key, [], None)])) != Some([Rec(key, [], None)])
  {
    var rs := [Rec(key, [], None)];
    assert Hollow(rs[0]);
    TableRoundTrip(rs);
  }

  // ----- rebuilding

  /** The recency list and the cached files while a table is read. */
  datatype State = State(order: seq<Item>, files: Table)

  function Touch(t: Table, file: Uuid): Table {
    if file in t then t else t[file := map[]]
  }

  function ItemOf(key: Uuid, r: Ref): Item {
    Item(Key(key, r.block), r.size)
  }

  predicate Fits(rs: seq<Rec>, cap: nat) {
    forall i :: 0 <= i < |rs| && rs[i].recent.Some? ==> rs[i].recent.value.size <= cap
  }

  function BuildOne(st: State, r: Rec, cap: nat): State
    requires r.recent.Some? ==> r.recent.value.size <= cap
  {
    var files := Touch(st.files, r.key);
    match r.recent
    case None => State(st.order, files)
    case Some(e) =>
      var item := ItemOf(r.key, e);
      var order := SetOrder(st.order, item, cap);
      State(order, DropBeyond(files, Without(st.order, item.key), |order| - 1))
  }

  function Build(st: State, rs: seq<Rec>, cap: nat): State
    requires Fits(rs, cap)
    decreases |rs|
  {
    if rs == [] then st else Build(BuildOne(st, rs[0], cap), rs[1..], cap)
  }

  /** Register the file of every record and nothing else. */
  function TouchAll(t: Table, rs: seq<Rec>): Table
    decreases |rs|
  {
    if rs == [] then t else TouchAll(Touch(t, rs[0].key), rs[1..])
  }

  function RecentOf(item: Item): Rec
    requires item.key.block < U32 && item.size < U32
  {
    Rec(item.key.file, [], Some(Ref(item.key.block, item.size)))
  }

  /** The records of the recency list, least recent first. */
  function Recents(order: seq<Item>): seq<Rec>
    requires InWords(order)
  {
    if order == [] then [] else [RecentOf(order[|order| - 1])] + Recents(order[..|order| - 1])
  }

  lemma {:induction false} BuildFiles(st: State, files: seq<Rec>, rs: seq<Rec>, cap: nat)
    requires (forall i :: 0 <= i < |files| ==> files[i].recent.None?) && Fits(files + rs, cap) && Fits(rs, cap)
    ensures Build(st, files + rs, cap) == Build(State(st.order, TouchAll(st.files, files)), rs, cap)
    decreases |files|
  {
    if files == [] {
      assert files + rs == rs;
    } else {
      assert (files + rs)[1..] == files[1..] + rs;
      assert (files + rs)[0].recent.None?;
      BuildFiles(BuildOne(st, files[0], cap), files[1..], rs, cap);
    }
  }

  /** Setting the next more recent entry of a list that fits puts it in front and evicts
      nothing. */
  lemma SetNext(older: seq<Item>, item: Item, cap: nat)
    requires DistinctKeys([item] + older) && Sum([item] + older) <= cap
    ensures item.size <= cap && SetOrder(older, item, cap) == [item] + older && Without(older, item.key) == older
  {
    SumCons(item, older);
    forall i | 0 <= i < |older| ensures older[i].key != item.key {
      assert ([item] + older)[0].key != ([item] + older)[i + 1].key;
    }
    WithoutAbsent(older, item.key);
  }

  lemma SuffixFits(a: seq<Item>, b: seq<Item>, cap: nat)
    requires DistinctKeys(a + b) && Sum(a + b) <= cap
    ensures DistinctKeys(b) && Sum(b) <= cap
  {
    SumAppend(a, b);
    forall i, j | 0 <= i < j < |b| ensures b[i].key != b[j].key {
      assert (a + b)[|a| + i].key != (a + b)[|a| + j].key;
    }
  }

  lemma FitsCons(r: Rec, rs: seq<Rec>, cap: nat)
    requires Fits(rs, cap) && r.recent.Some? && r.recent.value.size <= cap
    ensures Fits([r] + rs, cap)
  {
  }

  lemma BuildRecent(files: Table, item: Item, older: seq<Item>, cap: nat)
    requires DistinctKeys([item] + older) && Sum([item] + older) <= cap && item.key.block < U32 && item.size < U32
    ensures item.size <= cap
    ensures BuildOne(State(older, files), RecentOf(item), cap) == State([item] + older, Touch(files, item.key.file))
  {
    SetNext(older, item, cap);
    assert ItemOf(item.key.file, Ref(item.key.block, item.size)) == item;
  }

  lemma {:induction false} BuildRecents(files: Table, newer: seq<Item>, older: seq<Item>, cap: nat)
    requires InWords(newer) && DistinctKeys(newer + older) && Sum(newer + older) <= cap
    ensures Fits(Recents(newer), cap)
    ensures Build(State(older, files), Recents(newer), cap) == State(newer + older, TouchAll(files, Recents(newer)))
    decreases |newer|
  {
    if newer == [] {
      assert newer + older == older;
    } else {
      var item, less := newer[|newer| - 1], newer[..|newer| - 1];
      assert newer + older == less + ([item] + older);
      SuffixFits(less, [item] + older, cap);
      BuildRecent(files, item, older, cap);
      BuildRecents(Touch(files, item.key.file), less, [item] + older, cap);
      FitsCons(RecentOf(item), Recents(less), cap);
      assert Recents(newer)[1..] == Recents(less);
    }
  }

  lemma {:induction false} RecentsArePrintable(order: seq<Item>)
    requires InWords(order)
    ensures forall i :: 0 <= i < |Recents(order)| ==> Printable(Recents(order)[i]) && !Hollow(Recents(order)[i])
  {
    if order != [] {
      RecentsArePrintable(order[..|order| - 1]);
    }
  }

  // ----- the records of a cache

  predicate HasRecord(rs: seq<Rec>, key: Uuid) {
    rs != [] && (rs[0].key == key || HasRecord(rs[1..], key))
  }

  /** The record names each block of the file once, with its length. */
  ghost predicate ListsFile(r: Rec, blocks: map<nat, Bytes>) {
    && r.recent.None?
    && (forall i, j :: 0 <= i < j < |r.blocks| ==> r.blocks[i].block != r.blocks[j].block)
    && (forall b :: b in blocks ==> b < U32 && |blocks[b]| < U32)
    && (forall ref :: ref in r.blocks <==> ref.block in blocks && ref.size == |blocks[ref.block]|)
  }

  ghost predicate ListsAll(rs: seq<Rec>, t: Table) {
    rs != [] ==>
      rs[0].key in t && ListsFile(rs[0], t[rs[0].key]) && !HasRecord(rs[1..], rs[0].key) && ListsAll(rs[1..], t)
  }

  /** The records are the cached files, each once, in some order. */
  ghost predicate Lists(rs: seq<Rec>, t: Table) {
    ListsAll(rs, t) && forall key :: key in t ==> HasRecord(rs, key)
  }

  lemma {:induction false} ListedAreFiles(rs: seq<Rec>, t: Table)
    requires ListsAll(rs, t)
    ensures forall i :: 0 <= i < |rs| ==> rs[i].recent.None?
    ensures NoEmptyFile(t) ==> NoHollow(rs)
  {
    if rs != [] {
      ListedAreFiles(rs[1..], t);
      if rs[0].blocks == [] {
        EmptyRecord(rs[0], t[rs[0].key]);
      }
    }
  }

  /** A record without blocks is the record of a file without blocks. */
  lemma EmptyRecord(r: Rec, blocks: map<nat, Bytes>)
    requires ListsFile(r, blocks)
    ensures r.blocks == [] <==> blocks == map[]
  {
    assert r.blocks != [] ==> r.blocks[0] in r.blocks;
    assert forall b :: b in blocks ==> Ref(b, |blocks[b]|) in r.blocks;
  }

  // ----- the loops

  lemma {:induction false} PrintRefsThen(mark: byte, rs: seq<Ref>, rest: Bytes)
    ensures PrintRefs(mark, rs, rest) == PrintRefs(mark, rs, []) + rest
    decreases |rs|
  {
    if rs != [] {
      PrintRefsThen(COMMA, rs[1..], rest);
    }
  }

  lemma PrintRecThen(r: Rec, rest: Bytes)
    ensures PrintRec(r, rest) == PrintRec(r, []) + rest
  {
    match r.recent
    case Some(e) => PrintRefsThen(DOT, [e], rest);
    case None => PrintRefsThen(COLON, r.blocks, rest);
  }

  lemma Regroup<T>(a: seq<T>, b: seq<T>, c: seq<T>)
    ensures a + b + c == a + (b + c)
  {
  }

  lemma PrintRecAssoc(r: Rec, a: Bytes, b: Bytes)
    ensures PrintRec(r, a + b) == PrintRec(r, a) + b
  {
    PrintRecThen(r, a + b);
    PrintRecThen(r, a);
    Regroup(PrintRec(r, []), a, b);
  }

  lemma PrintFirst(r: Rec, rs: seq<Rec>)
    ensures Print([r] + rs) == PrintRec(r, Print(rs))
  {
    assert ([r] + rs)[1..] == rs;
  }

  lemma PrintAppendFirst(r: Rec, a: seq<Rec>, b: seq<Rec>)
    requires Print(a + b) == Print(a) + Print(b)
    ensures Print([r] + (a + b)) == Print([r] + a) + Print(b)
  {
    PrintFirst(r, a + b);
    PrintFirst(r, a);
    PrintRecAssoc(r, Print(a), Print(b));
  }

  lemma SplitFirst<T>(a: seq<T>, b: seq<T>)
    requires a != []
    ensures a == [a[0]] + a[1..] && a + b == [a[0]] + (a[1..] + b)
  {
  }

  lemma {:induction false} PrintAppend(a: seq<Rec>, b: seq<Rec>)
    ensures Print(a + b) == Print(a) + Print(b)
  {
    if a == [] {
      assert a + b == b;
    } else {
      SplitFirst(a, b);
      PrintAppend(a[1..], b);
      PrintAppendFirst(a[0], a[1..], b);
    }
  }

  /** What follows the mark of a reference list. */
  function AfterMark(rs: seq<Ref>): Bytes {
    if rs == [] then [SPACE] else PrintRef(rs[0]) + PrintRefs(COMMA, rs[1..], [])
  }

  lemma AfterMarkTail(rs: seq<Ref>)
    requires rs != []
    ensures PrintRefs(COMMA, rs[1..], []) == (if |rs| > 1 then [COMMA] else []) + AfterMark(rs[1..])
  {
    if |rs| > 1 {
      Regroup([COMMA], PrintRef(rs[1]), PrintRefs(COMMA, rs[1..][1..], []));
    } else {
      var none: Bytes, end: Bytes := [], [SPACE];
      assert none + end == end && end + none == end;
    }
  }

  lemma AfterMarkStep(rs: seq<Ref>, out: Bytes, next: Bytes)
    requires rs != [] && next == out + PrintRef(rs[0]) + (if |rs| > 1 then [COMMA] else [])
    ensures next + AfterMark(rs[1..]) == out + AfterMark(rs)
  {
    var a, b, c := PrintRef(rs[0]), if |rs| > 1 then [COMMA] else [], AfterMark(rs[1..]);
    AfterMarkTail(rs);
    Regroup(out + a, b, c);
    Regroup(out, a, b + c);
  }

  lemma PrintFileMark(r: Rec)
    requires r.recent.None?
    ensures PrintRec(r, []) == r.key + [COLON] + AfterMark(r.blocks)
  {
  }

  /** One file: its key and mark, its blocks with a comma after each but the last, a space. */
  method PrintFile(r: Rec) returns (out: Bytes)
    requires r.recent.None?
    ensures out == PrintRec(r, [])
  {
    PrintFileMark(r);
    out := r.key + [COLON];
    for i := 0 to |r.blocks|
      invariant out + AfterMark(r.blocks[i..]) == PrintRec(r, [])
    {
      ghost var before := out;
      out := out + PrintRef(r.blocks[i]);
      if i + 1 < |r.blocks| {
        out := out + [COMMA];
      }
      AfterMarkStep(r.blocks[i..], before, out);
      assert r.blocks[i..][1..] == r.blocks[i + 1..];
    }
    out := out + [SPACE];
  }

  /** Every file, one after the other. */
  method PrintFiles(files: seq<Rec>) returns (out: Bytes)
    requires forall i :: 0 <= i < |files| ==> files[i].recent.None?
    ensures out == Print(files)
  {
    out := [];
    for i := 0 to |files|
      invariant out == Print(files[..i])
    {
      var f := PrintFile(files[i]);
      out := out + f;
      PrintAppend(files[..i], [files[i]]);
      assert files[..i] + [files[i]] == files[..i + 1];
      assert [files[i]][1..] == [];
    }
    assert files[..|files|] == files;
  }

  /** The table of a cache: every file in the order of the map's iteration, then the list from
      the tail along the `prev` links, then the two counters. */
  method GetTables(c: Cache, files: seq<Rec>, hits: Word, evictions: Word) returns (out: Bytes)
    requires c.Valid() && InWords(c.order) && Lists(files, c.blocks)
    ensures out == Print(files + Recents(c.order)) + Le(hits) + Le(evictions)
  {
    ListedAreFiles(files, c.blocks);
    var f := PrintFiles(files);
    var l := PrintList(c);
    PrintAppend(files, Recents(c.order));
    out := f + l + Le(hits) + Le(evictions);
  }

  lemma PrintRecent(item: Item)
    requires item.key.block < U32 && item.size < U32
    ensures PrintRec(RecentOf(item), []) == item.key.file + [DOT] + Le(item.key.block) + Le(item.size) + [SPACE]
  {
    var e := Ref(item.key.block, item.size);
    var end: Bytes := [SPACE];
    assert [e][1..] == [] && end + [] == end;
    assert PrintRefs(DOT, [e], []) == [DOT] + PrintRef(e) + end;
    assert item.key.file + ([DOT] + PrintRef(e) + end) == item.key.file + [DOT] + Le(e.block) + Le(e.size) + end;
  }

  lemma PrintRecentStep(order: seq<Item>, n: nat)
    requires 0 < n <= |order| && InWords(order)
    ensures var item := order[n - 1];
            Print(Recents(order[..n])) ==
            item.key.file + [DOT] + Le(item.key.block) + Le(item.size) + [SPACE] + Print(Recents(order[..n - 1]))
  {
    var older, less := order[..n], order[..n - 1];
    assert older[..n - 1] == less && older[n - 1] == order[n - 1];
    assert Recents(older)[1..] == Recents(less);
    PrintRecThen(RecentOf(order[n - 1]), Print(Recents(less)));
    PrintRecent(order[n - 1]);
  }

  method PrintList(c: Cache) returns (out: Bytes)
    requires c.Valid() && InWords(c.order)
    ensures out == Print(Recents(c.order))
  {
    out := [];
    var node := c.tail.prev;
    ghost var n: nat := |c.order|;
    assert c.order[..n] == c.order;
    while node != c.head
      invariant n <= |c.order| && node == c.chain[n]
      invariant out + Print(Recents(c.order[..n])) == Print(Recents(c.order))
      decreases n
    {
      EntryAt(c.index, c.chain, c.order, n - 1);
      PrintRecentStep(c.order, n);
      out := out + node.item.key.file + [DOT] + Le(node.item.key.block) + Le(node.item.size) + [SPACE];
      node := node.prev;
      n := n - 1;
    }
    DistinctAround(c.chain, 0);
  }

  /** One turn of the inner parse loop. */
  lemma BodyNext(table: Bytes, it: nat)
    requires it < |table| && ParseBody(table[it..]).Some? && table[it] != SPACE
    ensures it + 9 <= |table|
    ensures table[it] == DOT ==>
              ParseBody(table[it..]).value == Body([], Some(GetRef(table[it + 1..it + 9])), table[it + 9..])
    ensures table[it] != DOT ==>
              && it + 9 < |table| && ParseBody(table[it + 9..]).Some?
              && var next := ParseBody(table[it + 9..]).value;
                 ParseBody(table[it..]).value ==
                 Body([GetRef(table[it + 1..it + 9])] + next.blocks, next.recent, next.rest)
  {
    var b := table[it..];
    assert b[1..9] == table[it + 1..it + 9] && b[9..] == table[it + 9..];
  }

  /** The marks and references after a key; it stops at the space or behind a list entry. */
  method ReadBody(table: Bytes, start: nat) returns (it: nat, refs: seq<Ref>, recent: Option<Ref>)
    requires start <= |table| && ParseBody(table[start..]).Some?
    ensures it <= |table| && ParseBody(table[start..]).value == Body(refs, recent, table[it..])
  {
    it, refs, recent := start, [], None;
    ghost var body := ParseBody(table[start..]).value;
    ghost var todo := body;
    while table[it] != SPACE
      invariant it < |table| && ParseBody(table[it..]) == Some(todo)
      invariant body == Body(refs + todo.blocks, todo.recent, todo.rest)
      decreases |table| - it
    {
      BodyNext(table, it);
      var r := GetRef(table[it + 1..it + 9]);
      if table[it] == DOT {
        it := it + 9;
        return it, refs, Some(r);
      }
      it := it + 9;
      todo := ParseBody(table[it..]).value;
      assert refs + ([r] + todo.blocks) == refs + [r] + todo.blocks;
      refs := refs + [r];
    }
  }

  /** The reads a table asks of the storage: every block of every file record. */
  datatype Request = Request(key: Uuid, ref: Ref)

  function Requests(key: Uuid, refs: seq<Ref>): seq<Request> {
    seq(|refs|, i requires 0 <= i < |refs| => Request(key, refs[i]))
  }

  function AllRequests(rs: seq<Rec>): seq<Request> {
    if rs == [] then [] else Requests(rs[0].key, rs[0].blocks) + AllRequests(rs[1..])
  }

  lemma ParseNext(table: Bytes, it: nat)
    requires it < |table| && Parse(table[it..]).Some?
    ensures it + 32 <= |table| && ParseBody(table[it + 32..]).Some?
    ensures var body := ParseBody(table[it + 32..]).value;
            var rs := Parse(table[it..]).value;
            body.rest != [] && rs != [] && rs[0] == Rec(table[it..it + 32], body.blocks, body.recent)
            && Parse(body.rest[1..]) == Some(rs[1..])
  {
    var b := table[it..];
    assert b[32..] == table[it + 32..] && b[..32] == table[it..it + 32];
    var body := ParseBody(b[32..]).value;
    BodyShrinks(b[32..]);
    assert Parse(b).value[1..] == Parse(body.rest[1..]).value;
  }

  /** Take one record into the cache. */
  method TakeRecord(c: Cache, r: Rec)
    requires c.Valid() && (r.recent.Some? ==> r.recent.value.size <= c.cap)
    modifies c, c.repr
    ensures c.Valid() && fresh(c.repr - old(c.repr))
    ensures State(c.order, c.blocks) == BuildOne(State(old(c.order), old(c.blocks)), r, c.cap)
  {
    if r.key !in c.blocks {
      c.blocks := c.blocks[r.key := map[]];
    }
    if r.recent.Some? {
      c.Set(ItemOf(r.key, r.recent.value));
    }
  }

  /** One record of the table and where the next one starts. */
  method ReadRecord(table: Bytes, it: nat, ghost rs: seq<Rec>) returns (r: Rec, next: nat)
    requires it < |table| && Parse(table[it..]) == Some(rs)
    ensures rs != [] && r == rs[0] && it < next <= |table| && Parse(table[next..]) == Some(rs[1..])
  {
    ParseNext(table, it);
    var key: Uuid := table[it..it + 32];
    var end, refs, recent := ReadBody(table, it + 32);
    assert table[end..][1..] == table[end + 1..];
    BodyShrinks(table[it + 32..]);
    r, next := Rec(key, refs, recent), end + 1;
  }

  /** Reading a table into a cache: every file is registered and its blocks are requested from
      the storage, every list entry is set, in the order of the table. */
  method BuildCache(c: Cache, table: Bytes) returns (requests: seq<Request>)
    requires c.Valid() && Parse(table).Some? && Fits(Parse(table).value, c.cap)
    modifies c, c.repr
    ensures c.Valid() && fresh(c.repr - old(c.repr))
    ensures State(c.order, c.blocks) == Build(State(old(c.order), old(c.blocks)), Parse(table).value, c.cap)
    ensures requests == AllRequests(Parse(table).value)
  {
    requests := [];
    var it := 0;
    ghost var todo := Parse(table).value;
    ghost var final := Build(State(c.order, c.blocks), todo, c.cap);
    assert table[0..] == table;
    while it < |table|
      invariant it <= |table| && Parse(table[it..]) == Some(todo) && Fits(todo, c.cap)
      invariant c.Valid() && fresh(c.repr - old(c.repr))
      invariant Build(State(c.order, c.blocks), todo, c.cap) == final
      invariant requests + AllRequests(todo) == AllRequests(Parse(table).value)
      decreases |table| - it
    {
      var r, next := ReadRecord(table, it, todo);
      FitsTail(todo, c.cap);
      TakeRecord(c, r);
      Regroup(requests, Requests(r.key, r.blocks), AllRequests(todo[1..]));
      requests := requests + Requests(r.key, r.blocks);
      it := next;
      todo := todo[1..];
    }
  }

  lemma FitsTail(rs: seq<Rec>, cap: nat)
    requires rs != [] && Fits(rs, cap)
    ensures Fits(rs[1..], cap) && (rs[0].recent.Some? ==> rs[0].recent.value.size <= cap)
  {
  }
}
