/** How a write fills the cache: its data in block lengths, one after another. */
module CacheWrite {
  import opened ByteSeq
  import opened StorageKey
  import opened LruCache
  import opened BlockCache

  // ----- the block lengths of the data

  function PartsOf(data: Bytes): seq<Bytes> {
    if data == [] then [] else [data[..Min(BLOCK, |data|)]] + PartsOf(data[Min(BLOCK, |data|)..])
  }

  function Joined(parts: seq<Bytes>): Bytes {
    if parts == [] then [] else parts[0] + Joined(parts[1..])
  }

  /** The lengths of the first `n` parts together. */
  function Total(parts: seq<Bytes>, n: nat): nat
    requires n <= |parts|
  {
    if n == 0 then 0 else Total(parts, n - 1) + |parts[n - 1]|
  }

  lemma {:induction false} TotalFirst(first: Bytes, parts: seq<Bytes>, n: nat)
    requires n <= |parts|
    ensures Total([first] + parts, n + 1) == |first| + Total(parts, n)
  {
    if n > 0 {
      TotalFirst(first, parts, n - 1);
    } else {
      assert Total([first] + parts, 0) == 0;
    }
  }

  lemma CountStep(size: nat)
    requires size > 0
    ensures Count(size) == 1 + Count(size - Min(size, BLOCK))
  {
  }

  /** The parts are nonempty, no longer than a block, as many as started block lengths, and one
      after another they are the data. */
  lemma {:induction false} PartsAre(data: Bytes)
    ensures var parts := PartsOf(data);
            && |parts| == Count(|data|) && Total(parts, |parts|) == |data| && Joined(parts) == data
            && forall i :: 0 <= i < |parts| ==> 0 < |parts[i]| <= Min(BLOCK, |data|)
    decreases |data|
  {
    if data != [] {
      var n := Min(BLOCK, |data|);
      PartsAre(data[n..]);
      CountStep(|data|);
      TotalFirst(data[..n], PartsOf(data[n..]), |PartsOf(data[n..])|);
      assert PartsOf(data)[1..] == PartsOf(data[n..]);
    }
  }

  /** The block length that begins `i` block lengths into the data. */
  function PieceOf(data: Bytes, i: nat): Bytes {
    var first := BLOCK * i;
    if first < |data| then data[first..first + Min(BLOCK, |data| - first)] else []
  }

  lemma PieceNext(data: Bytes, i: nat)
    requires 0 < i && BLOCK <= |data|
    ensures PieceOf(data[BLOCK..], i - 1) == PieceOf(data, i)
  {
    var first, rest := BLOCK * i, data[BLOCK..];
    if first < |data| {
      var n := Min(BLOCK, |data| - first);
      assert rest[first - BLOCK..first - BLOCK + n] == data[first..first + n];
    }
  }

  lemma {:induction false} PartAt(data: Bytes, i: nat)
    requires i < |PartsOf(data)|
    ensures BLOCK * i < |data| && PartsOf(data)[i] == PieceOf(data, i)
    decreases |data|
  {
    if i > 0 {
      var n := Min(BLOCK, |data|);
      PartAt(data[n..], i - 1);
      PieceNext(data, i);
    }
  }

  /** Every part is the block length of the data at its place. */
  ghost predicate CutFrom(parts: seq<Bytes>, data: Bytes) {
    forall i: nat {:trigger PieceOf(data, i)} :: i < |parts| ==> BLOCK * i < |data| && parts[i] == PieceOf(data, i)
  }

  lemma PartsCut(data: Bytes)
    ensures CutFrom(PartsOf(data), data)
  {
    forall i: nat | i < |PartsOf(data)| ensures BLOCK * i < |data| && PartsOf(data)[i] == PieceOf(data, i) {
      PartAt(data, i);
    }
  }

  // ----- a write and its entries

  /** A write: its file, the number of its first block and its parts. */
  datatype Update = Update(file: Uuid, block: nat, parts: seq<Bytes>)

  /** Every part fits in the cache. */
  predicate EachFits(w: Update, cap: nat) {
    forall i :: 0 <= i < |w.parts| ==> |w.parts[i]| <= cap
  }

  /** All parts fit together. */
  predicate AllFit(w: Update, cap: nat) {
    EachFits(w, cap) && Total(w.parts, |w.parts|) <= cap
  }

  function KeyAt(w: Update, i: nat): Key {
    Key(w.file, w.block + i)
  }

  function EntryOf(w: Update, i: nat): Item
    requires i < |w.parts|
  {
    Item(KeyAt(w, i), |w.parts[i]|)
  }

  /** The entries of the first `n` blocks of a write, the latest first. */
  function Own(w: Update, n: nat): seq<Item>
    requires n <= |w.parts|
  {
    if n == 0 then [] else [EntryOf(w, n - 1)] + Own(w, n - 1)
  }

  lemma {:induction false} OwnEntries(w: Update, n: nat)
    requires n <= |w.parts|
    ensures |Own(w, n)| == n && Sum(Own(w, n)) == Total(w.parts, n)
    ensures forall i :: 0 <= i < n ==> Own(w, n)[i].key == KeyAt(w, n - 1 - i)
  {
    if n > 0 {
      OwnEntries(w, n - 1);
      SumCons(EntryOf(w, n - 1), Own(w, n - 1));
    }
  }

  lemma {:induction false} TotalGrows(parts: seq<Bytes>, n: nat, m: nat)
    requires n <= m <= |parts|
    ensures Total(parts, n) <= Total(parts, m)
  {
    if n < m {
      TotalGrows(parts, n, m - 1);
    }
  }

  /** The list is the first `m` entries of `own` followed by `rest`, and it is shorter than
      `own` only if `own` does not fit. */
  predicate Front(order: seq<Item>, own: seq<Item>, rest: seq<Item>, m: nat, cap: nat) {
    m <= |own| + |rest| && order == (own + rest)[..m] && (m < |own| ==> Sum(own) > cap)
  }

  lemma FrontAtStart(order: seq<Item>, cap: nat)
    ensures Front(order, [], order, |order|, cap)
  {
    assert [] + order == order && order[..|order|] == order;
  }

  lemma {:induction false} WithoutAppend(a: seq<Item>, b: seq<Item>, k: Key)
    requires !HasKey(a, k)
    ensures Without(a + b, k) == a + Without(b, k)
  {
    if b == [] {
      assert a + b == a;
      WithoutAbsent(a, k);
    } else {
      WithoutAppend(a, b[..|b| - 1], k);
      assert (a + b)[..|a + b| - 1] == a + b[..|b| - 1];
    }
  }

  /** Without the key, the list is still a beginning of `own` and some rest. */
  lemma FrontWithout(order: seq<Item>, own: seq<Item>, rest: seq<Item>, m: nat, cap: nat, k: Key)
    returns (rest': seq<Item>)
    requires Front(order, own, rest, m, cap) && !HasKey(own, k)
    ensures |Without(order, k)| <= |own| + |rest'| && Without(order, k) == (own + rest')[..|Without(order, k)|]
    ensures m < |own| ==> |Without(order, k)| == m
    ensures m >= |own| ==> |Without(order, k)| >= |own|
  {
    if m < |own| {
      rest' := rest;
      assert order == own[..m];
      WithoutAbsent(order, k);
    } else {
      rest' := Without(rest[..m - |own|], k);
      assert order == own + rest[..m - |own|];
      WithoutAppend(own, rest[..m - |own|], k);
    }
  }

  lemma FrontStep(order: seq<Item>, own: seq<Item>, rest: seq<Item>, m: nat, item: Item, cap: nat)
    returns (rest': seq<Item>, m': nat)
    requires Front(order, own, rest, m, cap) && !HasKey(own, item.key) && item.size <= cap
    ensures Front(SetOrder(order, item, cap), [item] + own, rest', m', cap)
  {
    var w, r := Without(order, item.key), SetOrder(order, item, cap);
    rest' := FrontWithout(order, own, rest, m, cap, item.key);
    m' := |r|;
    SetIsLeastRecentFirst(order, item, cap, |own|);
    assert r == ([item] + own + rest')[..m'] by {
      assert w[..m' - 1] == (own + rest')[..m' - 1];
      assert [item] + own + rest' == [item] + (own + rest');
    }
    SumCons(item, own);
    if |own| <= |w| {
      assert w[..|own|] == own;
    }
  }

  lemma OwnStep(order: seq<Item>, w: Update, i: nat, rest: seq<Item>, m: nat, cap: nat)
    returns (rest': seq<Item>, m': nat)
    requires i < |w.parts| && Front(order, Own(w, i), rest, m, cap) && EntryOf(w, i).size <= cap
    ensures Front(SetOrder(order, EntryOf(w, i), cap), Own(w, i + 1), rest', m', cap)
  {
    OwnEntries(w, i);
    rest', m' := FrontStep(order, Own(w, i), rest, m, EntryOf(w, i), cap);
  }

  /** All entries of a write stay in the list exactly when they fit together. */
  lemma OwnAllListed(order: seq<Item>, own: seq<Item>, rest: seq<Item>, m: nat, cap: nat)
    requires Front(order, own, rest, m, cap) && DistinctKeys(own) && Sum(order) <= cap
    ensures (forall i :: 0 <= i < |own| ==> HasKey(order, own[i].key)) <==> Sum(own) <= cap
  {
    if m < |own| {
      assert order == own[..m];
      assert !HasKey(order, own[m].key);
    } else {
      forall i | 0 <= i < |own| ensures HasKey(order, own[i].key) {
        assert order[i] == own[i];
      }
      assert order == own + order[|own|..];
      SumAppend(own, order[|own|..]);
    }
  }

  /** A list that begins with all of `own` keeps those entries in front of what `set` evicts. */
  lemma OwnIsKept(order: seq<Item>, own: seq<Item>, rest: seq<Item>, m: nat, item: Item, p: nat, cap: nat)
    requires Front(order, own, rest, m, cap) && DistinctKeys(order) && !HasKey(own, item.key)
    requires Sum([item] + own) <= cap && p < |own|
    ensures item.size <= cap
    ensures NotBeyond(Without(order, item.key), |SetOrder(order, item, cap)| - 1, own[p].key)
  {
    SumCons(item, own);
    var w := Without(order, item.key);
    var rest1 := FrontWithout(order, own, rest, m, cap, item.key);
    var rest2, m2 := FrontStep(order, own, rest, m, item, cap);
    WithoutKeys(order, item.key, item.key);
    assert w[p] == own[p];
  }

  // ----- listing the blocks of a write

  /** The list and the blocks left by it after the first `n` entries of a write are set. */
  function Sets(st: Held, w: Update, n: nat, cap: nat): Held
    requires n <= |w.parts| && EachFits(w, cap)
  {
    if n == 0 then st else AfterEntry(Sets(st, w, n - 1, cap), EntryOf(w, n - 1), cap)
  }

  /** The list begins with the entries of the first `n` blocks of a write. */
  ghost predicate Begun(order: seq<Item>, w: Update, n: nat, cap: nat)
    requires n <= |w.parts|
  {
    DistinctKeys(order) && exists rest, m :: Front(order, Own(w, n), rest, m, cap)
  }

  lemma BegunNext(order: seq<Item>, w: Update, i: nat, cap: nat)
    requires i < |w.parts| && EachFits(w, cap) && Begun(order, w, i, cap)
    ensures Begun(SetOrder(order, EntryOf(w, i), cap), w, i + 1, cap)
  {
    var rest, m :| Front(order, Own(w, i), rest, m, cap);
    var rest', m' := OwnStep(order, w, i, rest, m, cap);
    SetKeepsDistinct(order, EntryOf(w, i), cap);
  }

  lemma {:induction false} SetsBegun(st: Held, w: Update, n: nat, cap: nat)
    requires n <= |w.parts| && EachFits(w, cap) && DistinctKeys(st.order)
    ensures Begun(Sets(st, w, n, cap).order, w, n, cap)
  {
    if n == 0 {
      FrontAtStart(st.order, cap);
      assert Front(st.order, Own(w, 0), st.order, |st.order|, cap);
    } else {
      SetsBegun(st, w, n - 1, cap);
      BegunNext(Sets(st, w, n - 1, cap).order, w, n - 1, cap);
    }
  }

  /** Setting entries keeps every cached block listed, keys distinct and an absent file absent. */
  lemma {:induction false} SetsKeep(st: Held, w: Update, n: nat, cap: nat)
    requires n <= |w.parts| && EachFits(w, cap) && Proper(st)
    ensures Proper(Sets(st, w, n, cap))
    ensures w.file !in st.blocks ==> w.file !in Sets(st, w, n, cap).blocks
  {
    if n > 0 {
      SetsKeep(st, w, n - 1, cap);
      EntryKeeps(Sets(st, w, n - 1, cap), EntryOf(w, n - 1), cap, w.file);
    }
  }

  lemma EntryKeeps(u: Held, item: Item, cap: nat, file: Uuid)
    requires item.size <= cap && Proper(u)
    ensures Proper(AfterEntry(u, item, cap))
    ensures file !in u.blocks ==> file !in AfterEntry(u, item, cap).blocks
  {
    SetKeepsDistinct(u.order, item, cap);
    SetKeepsCovered(u.blocks, u.order, item, cap);
    if file !in u.blocks {
      DropKeepsAbsent(u.blocks, Without(u.order, item.key), |SetOrder(u.order, item, cap)| - 1, file);
    }
  }

  lemma {:induction false} SetsSpare(st: Held, w: Update, n: nat, cap: nat, k: Key)
    requires n <= |w.parts| && EachFits(w, cap) && Proper(st) && k.file != w.file
    ensures AsListed(Sets(st, w, n, cap), st, k)
  {
    if n > 0 {
      SetsSpare(st, w, n - 1, cap, k);
      SetsKeep(st, w, n - 1, cap);
      SpareNext(Sets(st, w, n - 1, cap), st, EntryOf(w, n - 1), cap, k);
    }
  }

  // ----- a write to a file that is not cached

  /** The first `n` blocks that a write puts into the cache. */
  function BlocksOf(w: Update, n: nat): map<nat, Bytes>
    requires n <= |w.parts|
  {
    if n == 0 then map[] else BlocksOf(w, n - 1)[w.block + n - 1 := w.parts[n - 1]]
  }

  lemma {:induction false} BlocksAre(w: Update, n: nat)
    requires n <= |w.parts|
    ensures forall b :: b in BlocksOf(w, n) <==> w.block <= b < w.block + n
    ensures forall i :: 0 <= i < n ==> BlocksOf(w, n)[w.block + i] == w.parts[i]
  {
    if n > 0 {
      BlocksAre(w, n - 1);
    }
  }

  /** The cache after a write to a file that was not there. */
  function WithNew(u: Held, w: Update): Held {
    u.(blocks := u.blocks[w.file := BlocksOf(w, |w.parts|)])
  }

  lemma CoveredWith(u: Held, w: Update, rest: seq<Item>, m: nat, cap: nat)
    requires Covered(u.blocks, u.order) && w.file !in u.blocks && Sum(u.order) <= cap
    requires Front(u.order, Own(w, |w.parts|), rest, m, cap)
    ensures Covered(WithNew(u, w).blocks, u.order) <==> Total(w.parts, |w.parts|) <= cap
  {
    var n := |w.parts|;
    var own, all := Own(w, n), WithNew(u, w).blocks;
    OwnEntries(w, n);
    BlocksAre(w, n);
    OwnAllListed(u.order, own, rest, m, cap);
    if Covered(all, u.order) {
      forall i | 0 <= i < |own| ensures HasKey(u.order, own[i].key) {
        assert Cached(all, own[i].key);
      }
    }
    if Total(w.parts, n) <= cap {
      forall k | Cached(all, k) ensures HasKey(u.order, k) {
        if k.file == w.file {
          assert own[w.block + n - 1 - k.block].key == k;
        } else {
          assert Cached(u.blocks, k);
        }
      }
    }
  }

  lemma NewIsCovered(u: Held, w: Update, cap: nat)
    requires Covered(u.blocks, u.order) && w.file !in u.blocks && Sum(u.order) <= cap
    requires Begun(u.order, w, |w.parts|, cap)
    ensures Covered(WithNew(u, w).blocks, u.order) <==> Total(w.parts, |w.parts|) <= cap
  {
    var rest, m :| Front(u.order, Own(w, |w.parts|), rest, m, cap);
    CoveredWith(u, w, rest, m, cap);
  }

  // ----- a write to a cached file

  function NextTurn(u: Held, w: Update, i: nat, cap: nat): Held
    requires i < |w.parts| && EachFits(w, cap)
  {
    Held(Turn(u.blocks, u.order, KeyAt(w, i), w.parts[i], cap), SetOrder(u.order, EntryOf(w, i), cap))
  }

  /** After the first `n` turns of a write to a cached file. */
  function Turns(st: Held, w: Update, n: nat, cap: nat): Held
    requires n <= |w.parts| && EachFits(w, cap)
  {
    if n == 0 then st else NextTurn(Turns(st, w, n - 1, cap), w, n - 1, cap)
  }

  /** The list is the same with and without the blocks. */
  lemma {:induction false} SameOrder(st: Held, w: Update, n: nat, cap: nat)
    requires n <= |w.parts| && EachFits(w, cap)
    ensures Turns(st, w, n, cap).order == Sets(st, w, n, cap).order
  {
    if n > 0 {
      SameOrder(st, w, n - 1, cap);
    }
  }

  lemma TurnsBegun(st: Held, w: Update, n: nat, cap: nat)
    requires n <= |w.parts| && EachFits(w, cap) && DistinctKeys(st.order)
    ensures Begun(Turns(st, w, n, cap).order, w, n, cap)
  {
    SameOrder(st, w, n, cap);
    SetsBegun(st, w, n, cap);
  }

  /** Every block of `u` is a block of `t`, unchanged, or a part of the write. */
  ghost predicate FromWrite(u: Table, t: Table, w: Update) {
    forall k :: Cached(u, k) ==> SameBytes(t, u, k) || IsPart(u, k, w)
  }

  predicate IsPart(u: Table, k: Key, w: Update)
    requires Cached(u, k)
  {
    k.file == w.file && w.block <= k.block < w.block + |w.parts| && u[k.file][k.block] == w.parts[k.block - w.block]
  }

  lemma WithinFromWrite(v: Table, u: Table, t: Table, w: Update)
    requires FromWrite(u, t, w) && Within(v, u)
    ensures FromWrite(v, t, w)
  {
    forall k | Cached(v, k) ensures SameBytes(t, v, k) || IsPart(v, k, w) {
      assert SameBytes(u, v, k);
    }
  }

  lemma EmplaceFromWrite(u: Table, t: Table, w: Update, i: nat)
    requires FromWrite(u, t, w) && i < |w.parts|
    ensures FromWrite(EmplaceIn(u, KeyAt(w, i), w.parts[i]), t, w)
  {
    var v := EmplaceIn(u, KeyAt(w, i), w.parts[i]);
    forall x | Cached(v, x) ensures SameBytes(t, v, x) || IsPart(v, x, w) {
      EmplaceKeepsCached(u, KeyAt(w, i), w.parts[i], x);
      if Cached(u, x) {
        assert SameBytes(t, u, x) || IsPart(u, x, w);
      }
    }
  }

  lemma TurnFromWrite(u: Held, t: Table, w: Update, i: nat, cap: nat)
    requires FromWrite(u.blocks, t, w) && i < |w.parts| && EachFits(w, cap)
    ensures FromWrite(NextTurn(u, w, i, cap).blocks, t, w)
  {
    AfterSetWithin(u.blocks, u.order, EntryOf(w, i), cap);
    WithinFromWrite(AfterSet(u.blocks, u.order, EntryOf(w, i), cap), u.blocks, t, w);
    EmplaceFromWrite(AfterSet(u.blocks, u.order, EntryOf(w, i), cap), t, w, i);
  }

  /** A cached block keeps its bytes or was not cached; a block that was evicted on the way may
      come back with the written ones. */
  lemma {:induction false} TurnsFromWrite(st: Held, w: Update, n: nat, cap: nat)
    requires n <= |w.parts| && EachFits(w, cap)
    ensures FromWrite(Turns(st, w, n, cap).blocks, st.blocks, w)
  {
    if n > 0 {
      TurnsFromWrite(st, w, n - 1, cap);
      TurnFromWrite(Turns(st, w, n - 1, cap), st.blocks, w, n - 1, cap);
    }
  }

  /** Every cached block stays listed in every turn. */
  lemma {:induction false} TurnsKeep(st: Held, w: Update, n: nat, cap: nat)
    requires n <= |w.parts| && EachFits(w, cap) && Proper(st)
    ensures Proper(Turns(st, w, n, cap))
  {
    if n > 0 {
      TurnsKeep(st, w, n - 1, cap);
      TurnKeeps(Turns(st, w, n - 1, cap), w, n - 1, cap);
    }
  }

  lemma TurnKeeps(u: Held, w: Update, i: nat, cap: nat)
    requires i < |w.parts| && EachFits(w, cap) && Proper(u)
    ensures Proper(NextTurn(u, w, i, cap))
  {
    var item := EntryOf(w, i);
    EntryKeeps(u, item, cap, w.file);
    assert SetOrder(u.order, item, cap)[0].key == item.key;
    EmplaceKeepsCovered(AfterSet(u.blocks, u.order, item, cap), SetOrder(u.order, item, cap), item.key, w.parts[i]);
  }

  lemma TurnSpares(u: Held, st: Held, w: Update, i: nat, cap: nat, k: Key)
    requires i < |w.parts| && EachFits(w, cap) && k.file != w.file && AsListed(u, st, k) && Proper(u)
    ensures AsListed(NextTurn(u, w, i, cap), st, k)
  {
    SpareNext(u, st, EntryOf(w, i), cap, k);
    EmplaceKeepsCached(AfterSet(u.blocks, u.order, EntryOf(w, i), cap), KeyAt(w, i), w.parts[i], k);
  }

  lemma {:induction false} TurnsSpare(st: Held, w: Update, n: nat, cap: nat, k: Key)
    requires n <= |w.parts| && EachFits(w, cap) && Proper(st) && k.file != w.file
    ensures AsListed(Turns(st, w, n, cap), st, k)
  {
    if n > 0 {
      TurnsSpare(st, w, n - 1, cap, k);
      TurnsKeep(st, w, n - 1, cap);
      TurnSpares(Turns(st, w, n - 1, cap), st, w, n - 1, cap, k);
    }
  }

  // ----- when the written bytes are in the cache

  /** The entries of the first `j` blocks of a write and the next one. */
  lemma OwnAndNext(w: Update, i: nat, j: nat)
    requires i < j < |w.parts|
    ensures |Own(w, j)| == j && Own(w, j)[j - 1 - i].key == KeyAt(w, i) && !HasKey(Own(w, j), KeyAt(w, j))
    ensures Sum([EntryOf(w, j)] + Own(w, j)) <= Total(w.parts, |w.parts|)
  {
    OwnEntries(w, j);
    OwnEntries(w, j + 1);
    TotalGrows(w.parts, j + 1, |w.parts|);
  }

  /** The `set` of block `j` of a write does not evict the entry of an earlier block. */
  lemma EarlierIsKept(order: seq<Item>, w: Update, i: nat, j: nat, cap: nat)
    requires i < j < |w.parts| && AllFit(w, cap) && Begun(order, w, j, cap)
    ensures NotBeyond(Without(order, KeyAt(w, j)), |SetOrder(order, EntryOf(w, j), cap)| - 1, KeyAt(w, i))
  {
    var rest, m :| Front(order, Own(w, j), rest, m, cap);
    OwnAndNext(w, i, j);
    OwnIsKept(order, Own(w, j), rest, m, EntryOf(w, j), j - 1 - i, cap);
  }

  /** The `set` of a later block of the same write keeps an earlier one. */
  lemma SetKeepsOwn(u: Held, w: Update, i: nat, j: nat, cap: nat)
    requires i < j < |w.parts| && AllFit(w, cap) && Begun(u.order, w, j, cap)
    ensures SameAt(u.blocks, AfterSet(u.blocks, u.order, EntryOf(w, j), cap), KeyAt(w, i))
  {
    EarlierIsKept(u.order, w, i, j, cap);
    NotDropped(u.blocks, Without(u.order, KeyAt(w, j)), |SetOrder(u.order, EntryOf(w, j), cap)| - 1, KeyAt(w, i));
  }

  lemma NextTurnKeepsOwn(t: Table, u: Held, w: Update, i: nat, j: nat, cap: nat)
    requires i < j < |w.parts| && AllFit(w, cap) && Begun(u.order, w, j, cap)
    requires SameAt(t, u.blocks, KeyAt(w, i))
    ensures SameAt(t, NextTurn(u, w, j, cap).blocks, KeyAt(w, i))
  {
    SetKeepsOwn(u, w, i, j, cap);
    EmplaceKeepsCached(AfterSet(u.blocks, u.order, EntryOf(w, j), cap), KeyAt(w, j), w.parts[j], KeyAt(w, i));
  }

  /** A block of a write that fits keeps what its turn left there. */
  lemma {:induction false} TurnsKeepOwn(t: Table, st: Held, w: Update, i: nat, n: nat, cap: nat)
    requires i < n <= |w.parts| && AllFit(w, cap) && DistinctKeys(st.order)
    requires SameAt(t, Turns(st, w, i + 1, cap).blocks, KeyAt(w, i))
    ensures SameAt(t, Turns(st, w, n, cap).blocks, KeyAt(w, i))
    decreases n
  {
    if n > i + 1 {
      TurnsKeepOwn(t, st, w, i, n - 1, cap);
      OneMoreTurn(t, st, w, i, n - 1, cap);
    }
  }

  lemma {:induction false} OneMoreTurn(t: Table, st: Held, w: Update, i: nat, j: nat, cap: nat)
    requires i < j < |w.parts| && AllFit(w, cap) && DistinctKeys(st.order)
    requires SameAt(t, Turns(st, w, j, cap).blocks, KeyAt(w, i))
    ensures SameAt(t, Turns(st, w, j + 1, cap).blocks, KeyAt(w, i))
  {
    TurnsBegun(st, w, j, cap);
    NextTurnKeepsOwn(t, Turns(st, w, j, cap), w, i, j, cap);
  }

  /** The file is still cached when block `i` of the write has been listed. */
  predicate FileStays(u: Held, w: Update, i: nat, cap: nat)
    requires i < |w.parts| && EachFits(w, cap)
  {
    w.file in AfterSet(u.blocks, u.order, EntryOf(w, i), cap)
  }

  lemma FileLost(u: Held, w: Update, i: nat, cap: nat)
    requires i < |w.parts| && EachFits(w, cap) && w.file !in u.blocks
    ensures !FileStays(u, w, i, cap)
  {
    DropKeepsAbsent(u.blocks, Without(u.order, KeyAt(w, i)), |SetOrder(u.order, EntryOf(w, i), cap)| - 1, w.file);
  }

  lemma {:induction false} FileLostForGood(st: Held, w: Update, n: nat, cap: nat)
    requires 0 < n <= |w.parts| && EachFits(w, cap) && !FileStays(st, w, 0, cap)
    ensures w.file !in Turns(st, w, n, cap).blocks
  {
    if n > 1 {
      FileLostForGood(st, w, n - 1, cap);
      FileLost(Turns(st, w, n - 1, cap), w, n - 1, cap);
    } else {
      assert Turns(st, w, 0, cap) == st;
    }
  }

  lemma FirstTurnCaches(st: Held, w: Update, cap: nat)
    requires 0 < |w.parts| && EachFits(w, cap) && FileStays(st, w, 0, cap)
    ensures Cached(Turns(st, w, 1, cap).blocks, KeyAt(w, 0))
  {
    assert Turns(st, w, 0, cap) == st;
    EmplaceKeepsCached(AfterSet(st.blocks, st.order, EntryOf(w, 0), cap), KeyAt(w, 0), w.parts[0], KeyAt(w, 0));
  }

  /** The file is still cached in every turn, or in none. */
  lemma FileStaysAlways(st: Held, w: Update, i: nat, cap: nat)
    requires i < |w.parts| && AllFit(w, cap) && DistinctKeys(st.order)
    ensures FileStays(Turns(st, w, i, cap), w, i, cap) <==> FileStays(st, w, 0, cap)
  {
    if i > 0 {
      if FileStays(st, w, 0, cap) {
        FirstTurnCaches(st, w, cap);
        TurnsKeepOwn(Turns(st, w, 1, cap).blocks, st, w, 0, i, cap);
        TurnsBegun(st, w, i, cap);
        SetKeepsOwn(Turns(st, w, i, cap), w, 0, i, cap);
      } else {
        FileLostForGood(st, w, i, cap);
        FileLost(Turns(st, w, i, cap), w, i, cap);
      }
    }
  }

  /** The turn for block `i` finds the block absent, or with the bytes to write. */
  predicate NotStale(st: Held, w: Update, i: nat, cap: nat)
    requires i < |w.parts| && EachFits(w, cap)
  {
    var t := Turns(st, w, i, cap).blocks;
    Cached(t, KeyAt(w, i)) ==> Holds(t, KeyAt(w, i), w.parts[i])
  }

  /** A write to a cached file that fits in the cache leaves the bytes of a block there exactly
      when listing its first block did not evict the file, and the turn of that block did not
      find other bytes. */
  lemma WriteHoldsExactlyWhen(st: Held, w: Update, i: nat, cap: nat)
    requires i < |w.parts| && AllFit(w, cap) && DistinctKeys(st.order)
    ensures Holds(Turns(st, w, |w.parts|, cap).blocks, KeyAt(w, i), w.parts[i]) <==>
            FileStays(st, w, 0, cap) && NotStale(st, w, i, cap)
  {
    var u := Turns(st, w, i, cap);
    TurnsBegun(st, w, i, cap);
    TurnsKeepOwn(Turns(st, w, i + 1, cap).blocks, st, w, i, |w.parts|, cap);
    TurnHoldsExactlyWhen(u.blocks, u.order, KeyAt(w, i), w.parts[i], cap);
    FileStaysAlways(st, w, i, cap);
  }

  /** A write that fits leaves the bytes of a block in the cache exactly when its file was not
      cached, or stays and has no other bytes for the block. */
  ghost predicate Cleanly(u: Table, st: Held, w: Update, cap: nat)
    requires EachFits(w, cap)
  {
    forall i: nat :: i < |w.parts| ==>
      (Holds(u, KeyAt(w, i), w.parts[i]) <==>
       w.file !in st.blocks || (FileStays(st, w, 0, cap) && NotStale(st, w, i, cap)))
  }

  lemma TurnsCleanly(st: Held, w: Update, cap: nat)
    requires AllFit(w, cap) && DistinctKeys(st.order) && w.file in st.blocks
    ensures Cleanly(Turns(st, w, |w.parts|, cap).blocks, st, w, cap)
  {
    forall i: nat | i < |w.parts|
      ensures Holds(Turns(st, w, |w.parts|, cap).blocks, KeyAt(w, i), w.parts[i]) <==>
              FileStays(st, w, 0, cap) && NotStale(st, w, i, cap)
    {
      WriteHoldsExactlyWhen(st, w, i, cap);
    }
  }

  lemma NewCleanly(u: Held, st: Held, w: Update, cap: nat)
    requires EachFits(w, cap) && w.file !in st.blocks
    ensures Cleanly(WithNew(u, w).blocks, st, w, cap)
  {
    BlocksAre(w, |w.parts|);
  }

  // ----- what a write keeps

  lemma {:induction false} WithoutMembers(s: seq<Item>, k: Key)
    requires InWords(s)
    ensures InWords(Without(s, k))
  {
    if s != [] {
      WithoutMembers(s[..|s| - 1], k);
    }
  }

  lemma SetInWords(order: seq<Item>, item: Item, cap: nat)
    requires InWords(order) && item.size <= cap && item.key.block < U32 && item.size < U32
    ensures InWords(SetOrder(order, item, cap))
  {
    WithoutMembers(order, item.key);
    SetIsLeastRecentFirst(order, item, cap, 0);
  }

  /** The numbers and sizes of the blocks of the write have 32 bits. */
  predicate WordsOf(w: Update) {
    w.block + |w.parts| <= U32 && forall i :: 0 <= i < |w.parts| ==> |w.parts[i]| < U32
  }

  lemma {:induction false} SetsInWords(st: Held, w: Update, n: nat, cap: nat)
    requires n <= |w.parts| && EachFits(w, cap) && WordsOf(w) && InWords(st.order)
    ensures InWords(Sets(st, w, n, cap).order)
  {
    if n > 0 {
      SetsInWords(st, w, n - 1, cap);
      SetInWords(Sets(st, w, n - 1, cap).order, EntryOf(w, n - 1), cap);
    }
  }

  lemma WriteInWords(u: Table, t: Table, w: Update)
    requires TableInWords(t) && WordsOf(w) && FromWrite(u, t, w)
    ensures TableInWords(u)
  {
    forall k | Cached(u, k) ensures k.block < U32 && |u[k.file][k.block]| < U32 {
      assert SameBytes(t, u, k) || IsPart(u, k, w);
    }
  }

  lemma NewFromWrite(u: Held, st: Held, w: Update)
    requires OthersAsListed(u, st, w.file) && w.file !in u.blocks
    ensures FromWrite(WithNew(u, w).blocks, st.blocks, w)
  {
    BlocksAre(w, |w.parts|);
    forall k | Cached(WithNew(u, w).blocks, k)
      ensures SameBytes(st.blocks, WithNew(u, w).blocks, k) || IsPart(WithNew(u, w).blocks, k, w)
    {
      if k.file == w.file {
        assert BlocksOf(w, |w.parts|)[w.block + (k.block - w.block)] == w.parts[k.block - w.block];
      } else {
        assert AsListed(u, st, k);
      }
    }
  }

  lemma {:induction false} SetsLeaveNoEmptyFile(st: Held, w: Update, n: nat, cap: nat)
    requires n <= |w.parts| && EachFits(w, cap) && NoEmptyFile(st.blocks)
    ensures NoEmptyFile(Sets(st, w, n, cap).blocks)
  {
    if n > 0 {
      var u, item := Sets(st, w, n - 1, cap), EntryOf(w, n - 1);
      SetsLeaveNoEmptyFile(st, w, n - 1, cap);
      EvictionLeavesNoEmptyFile(u.blocks, Without(u.order, item.key), |SetOrder(u.order, item, cap)| - 1);
    }
  }

  lemma EmplaceLeavesNoEmptyFile(t: Table, k: Key, data: Bytes)
    requires NoEmptyFile(t)
    ensures NoEmptyFile(EmplaceIn(t, k, data))
  {
    var u := EmplaceIn(t, k, data);
    forall file | file in u ensures u[file] != map[] {
      assert file == k.file && k.block !in t[k.file] ==> k.block in u[file];
    }
  }

  lemma {:induction false} TurnsLeaveNoEmptyFile(st: Held, w: Update, n: nat, cap: nat)
    requires n <= |w.parts| && EachFits(w, cap) && NoEmptyFile(st.blocks)
    ensures NoEmptyFile(Turns(st, w, n, cap).blocks)
  {
    if n > 0 {
      var u, item := Turns(st, w, n - 1, cap), EntryOf(w, n - 1);
      TurnsLeaveNoEmptyFile(st, w, n - 1, cap);
      EvictionLeavesNoEmptyFile(u.blocks, Without(u.order, item.key), |SetOrder(u.order, item, cap)| - 1);
      EmplaceLeavesNoEmptyFile(AfterSet(u.blocks, u.order, item, cap), KeyAt(w, n - 1), w.parts[n - 1]);
    }
  }

  /** A block of any other file stays exactly when its entry is still listed; numbers and sizes
      keep their 32 bits; and a file without blocks comes in only by a write of nothing. */
  ghost predicate Leaves(u: Held, st: Held, w: Update) {
    && OthersAsListed(u, st, w.file)
    && (InWords(st.order) && WordsOf(w) ==> InWords(u.order))
    && (TableInWords(st.blocks) && WordsOf(w) ==> TableInWords(u.blocks))
    && (NoEmptyFile(st.blocks) ==> (NoEmptyFile(u.blocks) <==> w.parts != [] || w.file in st.blocks))
  }

  lemma NewLeaves(st: Held, w: Update, cap: nat)
    requires EachFits(w, cap) && Proper(st) && w.file !in st.blocks
    ensures Leaves(WithNew(Sets(st, w, |w.parts|, cap), w), st, w)
  {
    var n := |w.parts|;
    var u := Sets(st, w, n, cap);
    SetsKeep(st, w, n, cap);
    forall k: Key | k.file != w.file ensures AsListed(WithNew(u, w), st, k) {
      SetsSpare(st, w, n, cap, k);
    }
    assert OthersAsListed(u, st, w.file) by {
      forall k: Key | k.file != w.file ensures AsListed(u, st, k) {
        SetsSpare(st, w, n, cap, k);
      }
    }
    if InWords(st.order) && WordsOf(w) {
      SetsInWords(st, w, n, cap);
    }
    NewFromWrite(u, st, w);
    if TableInWords(st.blocks) && WordsOf(w) {
      WriteInWords(WithNew(u, w).blocks, st.blocks, w);
    }
    if NoEmptyFile(st.blocks) {
      SetsLeaveNoEmptyFile(st, w, n, cap);
      NewHasBlocks(u, w);
    }
  }

  lemma NewHasBlocks(u: Held, w: Update)
    requires NoEmptyFile(u.blocks)
    ensures NoEmptyFile(WithNew(u, w).blocks) <==> w.parts != []
  {
    BlocksAre(w, |w.parts|);
    assert WithNew(u, w).blocks[w.file] == BlocksOf(w, |w.parts|);
    assert w.parts != [] ==> w.block in BlocksOf(w, |w.parts|);
  }

  lemma TurnsLeave(st: Held, w: Update, cap: nat)
    requires EachFits(w, cap) && Proper(st) && w.file in st.blocks
    ensures Leaves(Turns(st, w, |w.parts|, cap), st, w)
  {
    var n := |w.parts|;
    forall k: Key | k.file != w.file ensures AsListed(Turns(st, w, n, cap), st, k) {
      TurnsSpare(st, w, n, cap, k);
    }
    if InWords(st.order) && WordsOf(w) {
      SetsInWords(st, w, n, cap);
      SameOrder(st, w, n, cap);
    }
    TurnsFromWrite(st, w, n, cap);
    if TableInWords(st.blocks) && WordsOf(w) {
      WriteInWords(Turns(st, w, n, cap).blocks, st.blocks, w);
    }
    if NoEmptyFile(st.blocks) {
      TurnsLeaveNoEmptyFile(st, w, n, cap);
    }
  }

  // ----- the loops

  /** A part of the data, found by the number of its block. */
  method TakePart(data: Bytes, block: nat, id: nat, ghost w: Update, ghost i: nat) returns (part: Bytes)
    requires CutFrom(w.parts, data) && i < |w.parts| && id == block + i
    ensures part == w.parts[i]
  {
    ghost var piece := PieceOf(data, i);
    var first := (id - block) * BLOCK;
    var copySize := Min(BLOCK, |data| - first);
    part := data[first..first + copySize];
    assert part == piece;
  }

  method KeepAside(ghost w: Update, id: nat, ghost i: nat, added: map<nat, Bytes>, part: Bytes)
    returns (more: map<nat, Bytes>)
    requires i < |w.parts| && id == w.block + i && added == BlocksOf(w, i) && part == w.parts[i]
    ensures more == BlocksOf(w, i + 1)
  {
    BlocksAre(w, i);
    more := added;
    if id !in added {
      more := added[id := part];
    }
  }

  /** The write is the one of this data to this file, from this block on. */
  ghost predicate Cuts(w: Update, file: Uuid, block: nat, data: Bytes) {
    w.file == file && w.block == block && CutFrom(w.parts, data)
  }

  predicate FromBlock(ids: seq<nat>, block: nat, n: nat) {
    |ids| == n && forall i :: 0 <= i < n ==> ids[i] == block + i
  }

  /** A sound cache in which the first `n` entries of the write are set. */
  ghost predicate Listed(c: Cache, st: Held, w: Update, n: nat)
    reads c, c.repr
  {
    n <= |w.parts| && EachFits(w, c.cap) && c.Valid() && Held(c.blocks, c.order) == Sets(st, w, n, c.cap)
  }

  method SetNext(c: Cache, item: Item, ghost w: Update, ghost i: nat, ghost st: Held)
    requires i < |w.parts| && item == EntryOf(w, i) && Listed(c, st, w, i)
    modifies c, c.repr
    ensures fresh(c.repr - old(c.repr)) && Listed(c, st, w, i + 1)
  {
    SetEntry(c, item);
  }

  /** One turn of the loop: list the block, then keep its bytes aside. */
  method ListBlock(c: Cache, data: Bytes, file: Uuid, block: nat, id: nat, added: map<nat, Bytes>,
                   ghost w: Update, ghost i: nat, ghost st: Held)
    returns (more: map<nat, Bytes>)
    requires Cuts(w, file, block, data) && i < |w.parts| && id == block + i
    requires Listed(c, st, w, i) && added == BlocksOf(w, i)
    modifies c, c.repr
    ensures fresh(c.repr - old(c.repr)) && Listed(c, st, w, i + 1) && more == BlocksOf(w, i + 1)
  {
    var part := TakePart(data, block, id, w, i);
    more := KeepAside(w, id, i, added, part);
    SetNext(c, Item(Key(file, id), |part|), w, i, st);
  }

  method ListBlocks(c: Cache, data: Bytes, file: Uuid, block: nat, ids: seq<nat>, ghost w: Update, ghost st: Held)
    returns (added: map<nat, Bytes>)
    requires Cuts(w, file, block, data) && FromBlock(ids, block, |w.parts|) && Listed(c, st, w, 0)
    modifies c, c.repr
    ensures fresh(c.repr - old(c.repr)) && Listed(c, st, w, |w.parts|) && added == BlocksOf(w, |w.parts|)
  {
    added := map[];
    var i := 0;
    while i < |ids|
      invariant i <= |ids| && fresh(c.repr - old(c.repr)) && Listed(c, st, w, i) && added == BlocksOf(w, i)
    {
      var id := ids[i];
      added := ListBlock(c, data, file, block, id, added, w, i, st);
      i := i + 1;
    }
  }

  /** The new file comes in with all its blocks at once. */
  method Enter(c: Cache, file: Uuid, added: map<nat, Bytes>, ghost w: Update, ghost st: Held)
    requires w.file == file && Listed(c, st, w, |w.parts|) && added == BlocksOf(w, |w.parts|)
    modifies c`blocks
    ensures c.Valid() && Held(c.blocks, c.order) == WithNew(Sets(st, w, |w.parts|, c.cap), w)
  {
    c.blocks := c.blocks[file := added];
  }

  /** The entries of the write are set one after another; every cached block is listed exactly
      when the file was cached or the write fits as a whole, and if it fits its blocks are there. */
  ghost predicate Wrote(u: Held, st: Held, w: Update, cap: nat)
    requires EachFits(w, cap)
  {
    && u.order == Sets(st, w, |w.parts|, cap).order
    && (Covered(u.blocks, u.order) <==> w.file in st.blocks || AllFit(w, cap))
    && Leaves(u, st, w)
    && (AllFit(w, cap) ==> Cleanly(u.blocks, st, w, cap))
  }

  lemma {:induction false} SetsFit(st: Held, w: Update, n: nat, cap: nat)
    requires n <= |w.parts| && EachFits(w, cap) && Sum(st.order) <= cap
    ensures Sum(Sets(st, w, n, cap).order) <= cap
  {
    if n > 0 {
      SetIsLeastRecentFirst(Sets(st, w, n - 1, cap).order, EntryOf(w, n - 1), cap, 0);
    }
  }

  /** What is known of a write to a new file before it is made. */
  lemma NewFacts(index: map<Key, Node>, chain: seq<Node>, st: Held, w: Update, cap: nat)
    requires Entries(index, chain, st.order) && Covered(st.blocks, st.order) && w.file !in st.blocks
    requires EachFits(w, cap) && Sum(st.order) <= cap
    ensures Wrote(WithNew(Sets(st, w, |w.parts|, cap), w), st, w, cap)
  {
    EntriesKeys(index, chain, st.order);
    var u := Sets(st, w, |w.parts|, cap);
    SetsKeep(st, w, |w.parts|, cap);
    SetsBegun(st, w, |w.parts|, cap);
    SetsFit(st, w, |w.parts|, cap);
    NewLeaves(st, w, cap);
    NewCleanly(u, st, w, cap);
    NewIsCovered(u, w, cap);
  }

  method ListAndEnter(c: Cache, file: Uuid, pos: nat, data: Bytes, ghost w: Update, ghost st: Held)
    requires Cuts(w, file, pos / BLOCK, data) && |w.parts| == Count(|data|) && pos + |data| + BLOCK <= U32
    requires Listed(c, st, w, 0)
    modifies c, c.repr
    ensures c.Valid() && fresh(c.repr - old(c.repr))
    ensures Held(c.blocks, c.order) == WithNew(Sets(st, w, |w.parts|, c.cap), w)
  {
    var ids := GetBlockIds(pos, |data|);
    var added := ListBlocks(c, data, file, pos / BLOCK, ids, w, st);
    Enter(c, file, added, w, st);
  }

  /** Caching a write to a file with no cached block. */
  method WriteNew(c: Cache, file: Uuid, pos: nat, data: Bytes, ghost w: Update)
    requires c.Valid() && Covered(c.blocks, c.order) && file !in c.blocks
    requires Cuts(w, file, pos / BLOCK, data) && |w.parts| == Count(|data|) && pos + |data| + BLOCK <= U32
    requires EachFits(w, c.cap)
    modifies c, c.repr
    ensures c.Valid() && fresh(c.repr - old(c.repr))
    ensures var st := Held(old(c.blocks), old(c.order));
            && Held(c.blocks, c.order) == WithNew(Sets(st, w, |w.parts|, c.cap), w)
            && Wrote(Held(c.blocks, c.order), st, w, c.cap)
  {
    ghost var st := Held(c.blocks, c.order);
    NewFacts(c.index, c.chain, st, w, c.cap);
    ListAndEnter(c, file, pos, data, w, st);
  }

  /** `set`, then `emplace`. */
  method SetAndEmplace(c: Cache, k: Key, part: Bytes)
    requires c.Valid() && |part| <= c.cap
    modifies c, c.repr
    ensures c.Valid() && fresh(c.repr - old(c.repr))
    ensures c.blocks == Turn(old(c.blocks), old(c.order), k, part, c.cap)
    ensures c.order == SetOrder(old(c.order), Item(k, |part|), c.cap)
  {
    SetEntry(c, Item(k, |part|));
    Emplace(c, k, part);
  }

  /** A sound cache after the first `n` turns of the write. */
  ghost predicate Turned(c: Cache, st: Held, w: Update, n: nat)
    reads c, c.repr
  {
    n <= |w.parts| && EachFits(w, c.cap) && c.Valid() && Held(c.blocks, c.order) == Turns(st, w, n, c.cap)
  }

  method TakeTurn(c: Cache, k: Key, part: Bytes, ghost w: Update, ghost i: nat, ghost st: Held)
    requires i < |w.parts| && k == KeyAt(w, i) && part == w.parts[i] && Turned(c, st, w, i)
    modifies c, c.repr
    ensures fresh(c.repr - old(c.repr)) && Turned(c, st, w, i + 1)
  {
    SetAndEmplace(c, k, part);
  }

  /** One turn for the `i`-th block of a request. */
  method CacheBlock(c: Cache, data: Bytes, file: Uuid, block: nat, id: nat,
                    ghost w: Update, ghost i: nat, ghost st: Held)
    requires Cuts(w, file, block, data) && i < |w.parts| && id == block + i && Turned(c, st, w, i)
    modifies c, c.repr
    ensures fresh(c.repr - old(c.repr)) && Turned(c, st, w, i + 1)
  {
    var part := TakePart(data, block, id, w, i);
    TakeTurn(c, Key(file, id), part, w, i, st);
  }

  method CacheBlocks(c: Cache, data: Bytes, file: Uuid, block: nat, ids: seq<nat>, ghost w: Update, ghost st: Held)
    requires Cuts(w, file, block, data) && FromBlock(ids, block, |w.parts|) && Turned(c, st, w, 0)
    modifies c, c.repr
    ensures fresh(c.repr - old(c.repr)) && Turned(c, st, w, |w.parts|)
  {
    for i := 0 to |ids|
      invariant fresh(c.repr - old(c.repr)) && Turned(c, st, w, i)
    {
      var id := ids[i];
      CacheBlock(c, data, file, block, id, w, i, st);
    }
  }

  /** What is known of a write to a cached file before it is made. */
  lemma ExistingFacts(index: map<Key, Node>, chain: seq<Node>, st: Held, w: Update, cap: nat)
    requires Entries(index, chain, st.order) && Covered(st.blocks, st.order) && w.file in st.blocks && EachFits(w, cap)
    ensures Wrote(Turns(st, w, |w.parts|, cap), st, w, cap)
    ensures FromWrite(Turns(st, w, |w.parts|, cap).blocks, st.blocks, w)
  {
    EntriesKeys(index, chain, st.order);
    TurnsKeep(st, w, |w.parts|, cap);
    TurnsFromWrite(st, w, |w.parts|, cap);
    TurnsLeave(st, w, cap);
    SameOrder(st, w, |w.parts|, cap);
    if AllFit(w, cap) {
      TurnsCleanly(st, w, cap);
    }
  }

  /** Caching a write to a file that has cached blocks. */
  method WriteExisting(c: Cache, file: Uuid, pos: nat, data: Bytes, ghost w: Update)
    requires c.Valid() && Covered(c.blocks, c.order) && file in c.blocks
    requires Cuts(w, file, pos / BLOCK, data) && |w.parts| == Count(|data|) && pos + |data| + BLOCK <= U32
    requires EachFits(w, c.cap)
    modifies c, c.repr
    ensures c.Valid() && fresh(c.repr - old(c.repr))
    ensures var st := Held(old(c.blocks), old(c.order));
            && Held(c.blocks, c.order) == Turns(st, w, |w.parts|, c.cap)
            && FromWrite(c.blocks, st.blocks, w) && Wrote(Held(c.blocks, c.order), st, w, c.cap)
  {
    ghost var st := Held(c.blocks, c.order);
    ExistingFacts(c.index, c.chain, st, w, c.cap);
    var ids := GetBlockIds(pos, |data|);
    CacheBlocks(c, data, file, pos / BLOCK, ids, w, st);
  }

  lemma PartsFit(data: Bytes, w: Update, cap: nat)
    requires w.parts == PartsOf(data) && Min(BLOCK, |data|) <= cap && w.block + |data| + 1 <= U32
    ensures EachFits(w, cap) && WordsOf(w) && (AllFit(w, cap) <==> |data| <= cap) && Total(w.parts, |w.parts|) == |data|
    ensures |w.parts| == Count(|data|) && CutFrom(w.parts, data)
  {
    PartsAre(data);
    PartsCut(data);
  }

  /** The cache after a write: a turn per block, or all blocks listed and then the new file. */
  function Put(st: Held, w: Update, cap: nat): Held
    requires EachFits(w, cap)
  {
    if w.file in st.blocks then Turns(st, w, |w.parts|, cap) else WithNew(Sets(st, w, |w.parts|, cap), w)
  }

  /** In serial use every cached block keeps an entry in the list, exactly when a write to a
      file that is not cached yet fits in the cache as a whole. */
  method WriteToCache(c: Cache, file: Uuid, pos: nat, data: Bytes) returns (ghost w: Update)
    requires c.Valid() && Covered(c.blocks, c.order)
    requires Min(BLOCK, |data|) <= c.cap && pos + |data| + BLOCK <= U32
    modifies c, c.repr
    ensures c.Valid() && fresh(c.repr - old(c.repr))
    ensures w == Update(file, pos / BLOCK, PartsOf(data)) && EachFits(w, c.cap) && WordsOf(w)
    ensures AllFit(w, c.cap) <==> |data| <= c.cap
    ensures var st := Held(old(c.blocks), old(c.order));
            Held(c.blocks, c.order) == Put(st, w, c.cap) && Wrote(Put(st, w, c.cap), st, w, c.cap)
  {
    w := Update(file, pos / BLOCK, PartsOf(data));
    PartsFit(data, w, c.cap);
    if file in c.blocks {
      WriteExisting(c, file, pos, data, w);
    } else {
      WriteNew(c, file, pos, data, w);
    }
  }

  /** A write of one byte more than the cache holds leaves a cached block without an entry. */
  method LargeWriteIsNotListed(file: Uuid) returns (c: Cache)
    ensures c.Valid() && !Covered(c.blocks, c.order)
  {
    c := new Cache(BLOCK);
    ghost var w := WriteToCache(c, file, 0, Zeros(BLOCK + 1));
  }
}
