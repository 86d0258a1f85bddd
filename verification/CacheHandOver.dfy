/** A worker's cache, handed over to a new worker: the table lists the cached files and the
    recency list, and the new worker asks the storage for what the old one had. */
module CacheHandOver {
  import opened ByteSeq
  import opened StorageKey
  import opened LruCache
  import opened CacheTable

  // ----- what the new worker asks for

  lemma {:induction false} RequestsAppend(a: seq<Rec>, b: seq<Rec>)
    ensures AllRequests(a + b) == AllRequests(a) + AllRequests(b)
  {
    if a == [] {
      assert a + b == b;
    } else {
      assert (a + b)[1..] == a[1..] + b;
      RequestsAppend(a[1..], b);
    }
  }

  /** An entry of the recency list asks for nothing. */
  lemma {:induction false} RecentsAskNothing(order: seq<Item>)
    requires InWords(order)
    ensures AllRequests(Recents(order)) == []
  {
    if order != [] {
      RecentsAskNothing(order[..|order| - 1]);
      assert Recents(order)[1..] == Recents(order[..|order| - 1]);
    }
  }

  lemma {:induction false} RecordedIsCached(rs: seq<Rec>, t: Table, key: Uuid)
    requires ListsAll(rs, t) && HasRecord(rs, key)
    ensures key in t
  {
    if rs[0].key != key {
      RecordedIsCached(rs[1..], t, key);
    }
  }

  /** A request for exactly this block with exactly this size. */
  predicate Fetches(t: Table, q: Request) {
    Cached(t, Key(q.key, q.ref.block)) && q.ref.size == |t[q.key][q.ref.block]|
  }

  lemma {:induction false} RequestsAre(rs: seq<Rec>, t: Table, q: Request)
    requires ListsAll(rs, t)
    ensures q in AllRequests(rs) <==> HasRecord(rs, q.key) && Fetches(t, q)
  {
    if rs != [] {
      var first := Requests(rs[0].key, rs[0].blocks);
      RequestsAre(rs[1..], t, q);
      assert q in first <==> rs[0].key == q.key && q.ref in rs[0].blocks by {
        if i :| 0 <= i < |rs[0].blocks| && rs[0].key == q.key && rs[0].blocks[i] == q.ref {
          assert first[i] == q;
        }
      }
    }
  }

  predicate SameBlock(q: Request, p: Request) {
    q.key == p.key && q.ref.block == p.ref.block
  }

  /** No block is asked for twice. */
  lemma {:induction false} NothingTwice(rs: seq<Rec>, t: Table, i: nat, j: nat)
    requires ListsAll(rs, t) && i < j < |AllRequests(rs)|
    ensures !SameBlock(AllRequests(rs)[i], AllRequests(rs)[j])
  {
    var first, later := Requests(rs[0].key, rs[0].blocks), AllRequests(rs[1..]);
    if i >= |first| {
      NothingTwice(rs[1..], t, i - |first|, j - |first|);
    } else if j >= |first| {
      var q := later[j - |first|];
      assert q in later;
      RequestsAre(rs[1..], t, q);
    }
  }

  // ----- what the new worker registers

  lemma {:induction false} TouchAllAt(t: Table, rs: seq<Rec>, file: Uuid)
    ensures var u := TouchAll(t, rs);
            && (file in u <==> file in t || HasRecord(rs, file))
            && (file in u ==> u[file] == if file in t then t[file] else map[])
    decreases |rs|
  {
    if rs != [] {
      TouchAllAt(Touch(t, rs[0].key), rs[1..], file);
    }
  }

  /** Some entry of the list belongs to the file. */
  predicate Mentions(order: seq<Item>, file: Uuid) {
    order != [] && (order[|order| - 1].key.file == file || Mentions(order[..|order| - 1], file))
  }

  lemma {:induction false} RecentRecords(order: seq<Item>, file: Uuid)
    requires InWords(order)
    ensures HasRecord(Recents(order), file) <==> Mentions(order, file)
  {
    if order != [] {
      RecentRecords(order[..|order| - 1], file);
      assert Recents(order)[1..] == Recents(order[..|order| - 1]);
    }
  }

  /** The files of a cache and of its list, all without blocks. */
  ghost predicate Registers(u: Table, t: Table, order: seq<Item>) {
    forall file :: (file in u <==> file in t || Mentions(order, file)) && (file in u ==> u[file] == map[])
  }

  lemma TouchedRegister(files: seq<Rec>, t: Table, order: seq<Item>)
    requires Lists(files, t) && InWords(order)
    ensures Registers(TouchAll(TouchAll(map[], files), Recents(order)), t, order)
  {
    var none: Table := map[];
    forall file: Uuid
      ensures var u := TouchAll(TouchAll(none, files), Recents(order));
              (file in u <==> file in t || Mentions(order, file)) && (file in u ==> u[file] == map[])
    {
      TouchAllAt(none, files, file);
      TouchAllAt(TouchAll(none, files), Recents(order), file);
      RecentRecords(order, file);
      if HasRecord(files, file) {
        RecordedIsCached(files, t, file);
      }
    }
  }

  // ----- the hand-over

  lemma {:induction false} HollowIsEmpty(rs: seq<Rec>, t: Table, key: Uuid)
    requires ListsAll(rs, t) && NoHollow(rs) && HasRecord(rs, key)
    ensures key in t && t[key] != map[]
  {
    EmptyRecord(rs[0], t[rs[0].key]);
    if rs[0].key != key {
      HollowIsEmpty(rs[1..], t, key);
    }
  }

  lemma {:induction false} NoHollowAppend(a: seq<Rec>, b: seq<Rec>)
    ensures NoHollow(a + b) <==> NoHollow(a) && NoHollow(b)
  {
    if a == [] {
      assert a + b == b;
    } else {
      assert (a + b)[1..] == a[1..] + b;
      NoHollowAppend(a[1..], b);
    }
  }

  /** The table of a cache reads back exactly when every cached file has a block. */
  lemma TableReadsBack(files: seq<Rec>, t: Table, order: seq<Item>)
    requires Lists(files, t) && InWords(order)
    ensures var rs := files + Recents(order);
            CacheTable.Parse(Print(rs)) == Some(rs) <==> NoEmptyFile(t)
  {
    var rs := files + Recents(order);
    ListedAreFiles(files, t);
    RecentsArePrintable(order);
    NoneHollow(Recents(order));
    NoHollowAppend(files, Recents(order));
    TableRoundTrip(rs);
    if NoHollow(files) {
      forall key | key in t ensures t[key] != map[] {
        HollowIsEmpty(files, t, key);
      }
    }
  }

  /** The requests for the storage are for the cached blocks, each once and with its length. */
  ghost predicate FetchesAll(qs: seq<Request>, t: Table) {
    && (forall q :: q in qs <==> Fetches(t, q))
    && (forall i, j :: 0 <= i < j < |qs| ==> !SameBlock(qs[i], qs[j]))
  }

  lemma AsksForCached(files: seq<Rec>, t: Table, order: seq<Item>)
    requires Lists(files, t) && InWords(order)
    ensures FetchesAll(AllRequests(files + Recents(order)), t)
  {
    RequestsAppend(files, Recents(order));
    RecentsAskNothing(order);
    var qs := AllRequests(files);
    assert AllRequests(files + Recents(order)) == qs;
    forall q ensures q in qs <==> Fetches(t, q) {
      RequestsAre(files, t, q);
    }
    forall i, j | 0 <= i < j < |qs| ensures !SameBlock(qs[i], qs[j]) {
      NothingTwice(files, t, i, j);
    }
  }

  /** Building the table of a cache into an empty cache of the same capacity gives the same
      recency list, registers the same files and evicts nothing. */
  lemma RebuildRestores(files: seq<Rec>, t: Table, order: seq<Item>, cap: nat)
    requires Lists(files, t) && InWords(order) && DistinctKeys(order) && Sum(order) <= cap
    ensures Fits(files + Recents(order), cap)
    ensures var st := Build(State([], map[]), files + Recents(order), cap);
            st.order == order && Registers(st.files, t, order)
  {
    ListedAreFiles(files, t);
    assert order + [] == order;
    BuildRecents(TouchAll(map[], files), order, [], cap);
    BuildFiles(State([], map[]), files, Recents(order), cap);
    TouchedRegister(files, t, order);
  }

  /** A worker's cache handed over to a new worker through the proxy, which drops the two
      counters: the new one has the same recency list, registers the same files and asks the
      storage for every block that was cached. */
  method HandOver(c: Cache, files: seq<Rec>, hits: Word, evictions: Word, d: Cache) returns (requests: seq<Request>)
    requires c.Valid() && InWords(c.order) && Lists(files, c.blocks) && NoEmptyFile(c.blocks)
    requires d.Valid() && d.order == [] && d.blocks == map[] && d.cap == c.cap
    modifies d, d.repr
    ensures d.Valid() && d.order == old(c.order) && Registers(d.blocks, old(c.blocks), old(c.order))
    ensures FetchesAll(requests, old(c.blocks))
  {
    EntriesKeys(c.index, c.chain, c.order);
    TableReadsBack(files, c.blocks, c.order);
    RebuildRestores(files, c.blocks, c.order, c.cap);
    AsksForCached(files, c.blocks, c.order);
    var out := GetTables(c, files, hits, evictions);
    var table := out[..|out| - 8];
    assert table == Print(files + Recents(c.order));
    requests := BuildCache(d, table);
  }
}
