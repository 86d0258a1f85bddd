/** Which blocks a request touches in the cache, and what `set` and `emplace` do to it. */
module BlockCache {
  import opened ByteSeq
  import opened StorageKey
  import opened LruCache
  import BlockWalk

  const BLOCK := 4096

  /** How many whole or partial block lengths `size` bytes make. */
  function Count(size: nat): nat {
    (size + BLOCK - 1) / BLOCK
  }

  /** The block numbers of a request: one per block length, from the block of its first byte on,
      or none when the end of the range does not fit in 32 bits.  Otherwise the position must
      not pass the last 32-bit value before the end is reached, where it would start over. */
  method GetBlockIds(pos: nat, size: nat) returns (ids: seq<nat>)
    requires pos < U32 && size < U32 && (pos + size < U32 ==> pos + BLOCK * Count(size) < U32)
    ensures |ids| == if pos + size < U32 then Count(size) else 0
    ensures forall i :: 0 <= i < |ids| ==> ids[i] == pos / BLOCK + i
  {
    ids := [];
    var endPos := (pos + size) % U32;
    if size == 0 {
      return;
    }
    var current := pos;
    while current < endPos
      invariant pos + size < U32 ==> current == pos + BLOCK * |ids| && |ids| <= Count(size)
      invariant pos + size >= U32 ==> current == pos && ids == []
      invariant forall i :: 0 <= i < |ids| ==> ids[i] == pos / BLOCK + i
      decreases endPos - current
    {
      ids := ids + [current / BLOCK];
      current := (current + BLOCK) % U32;
    }
  }

  lemma {:induction false} PieceCount(block: nat, offset: nat, size: nat)
    requires offset < BLOCK
    ensures |BlockWalk.Pieces(BLOCK, block, offset, size)| == if size == 0 then 0 else Count(offset + size)
    decreases size
  {
    if size > 0 {
      PieceCount(block + 1, 0, size - Min(size, BLOCK - offset));
    }
  }

  /** The cache names the blocks the storage walk visits, in the same order, and it names all
      of them exactly when the first offset and the last length fit in one block; otherwise
      it misses the last one. */
  lemma BlockIdsAgainstWalk(pos: nat, size: nat)
    requires size > 0
    ensures var ps := BlockWalk.Walk(BLOCK, pos, size);
            && (forall i :: 0 <= i < |ps| ==> ps[i].block == pos / BLOCK + i)
            && |ps| == Count(size) + if pos % BLOCK + (size - 1) % BLOCK < BLOCK then 0 else 1
  {
    BlockWalk.DivisionLocates(BLOCK, pos);
    var offset := BlockWalk.OffsetOf(BLOCK, pos);
    PieceCount(BlockWalk.BlockOf(BLOCK, pos), offset, size);
    BlockWalk.PiecesPartition(BLOCK, BlockWalk.BlockOf(BLOCK, pos), offset, size);
  }

  lemma UnalignedRequestMissesABlock()
    ensures Count(2) == 1 && |BlockWalk.Walk(BLOCK, 4095, 2)| == 2
  {
    BlockIdsAgainstWalk(4095, 2);
  }

  // ----- setting an entry

  /** Every cached block has an entry in the list. */
  ghost predicate Covered(t: Table, order: seq<Item>) {
    forall k :: Cached(t, k) ==> HasKey(order, k)
  }

  predicate SameBytes(t: Table, u: Table, k: Key) {
    Cached(u, k) && Cached(t, k) && u[k.file][k.block] == t[k.file][k.block]
  }

  /** The cached blocks after `set`: those of the evicted entries are gone. */
  function AfterSet(t: Table, order: seq<Item>, item: Item, cap: nat): Table
    requires item.size <= cap
  {
    DropBeyond(t, Without(order, item.key), |SetOrder(order, item, cap)| - 1)
  }

  /** `set` never drops the block it is called for. */
  lemma SetKeepsOwnBlock(t: Table, order: seq<Item>, item: Item, cap: nat)
    requires DistinctKeys(order) && item.size <= cap
    ensures Cached(t, item.key) ==> SameBytes(t, AfterSet(t, order, item, cap), item.key)
    ensures Cached(AfterSet(t, order, item, cap), item.key) ==> Cached(t, item.key)
  {
    var w := Without(order, item.key);
    WithoutKeys(order, item.key, item.key);
    EvictionDropsExactly(t, w, |SetOrder(order, item, cap)| - 1, item.key);
    assert forall i :: 0 <= i < |w| && w[i].key == item.key ==> HasKey(w, item.key);
  }

  /** `set` evicts a block together with its entry. */
  lemma SetKeepsCovered(t: Table, order: seq<Item>, item: Item, cap: nat)
    requires Covered(t, order) && DistinctKeys(order) && item.size <= cap
    ensures Covered(AfterSet(t, order, item, cap), SetOrder(order, item, cap))
  {
    var w, r := Without(order, item.key), SetOrder(order, item, cap);
    var t' := DropBeyond(t, w, |r| - 1);
    SetIsLeastRecentFirst(order, item, cap, 0);
    forall k | Cached(t', k) ensures HasKey(r, k) {
      EvictionDropsExactly(t, w, |r| - 1, k);
      WithoutKeys(order, item.key, k);
      if k == item.key {
        assert r[0].key == k;
      } else {
        var i :| 0 <= i < |w| && w[i].key == k;
        assert r[i + 1] == w[i];
      }
    }
  }

  /** The cached blocks and the recency list. */
  datatype Held = Held(blocks: Table, order: seq<Item>)

  function AfterEntry(u: Held, item: Item, cap: nat): Held
    requires item.size <= cap
  {
    Held(AfterSet(u.blocks, u.order, item, cap), SetOrder(u.order, item, cap))
  }

  /** Keys are distinct, and every cached block is listed. */
  ghost predicate Proper(u: Held) {
    DistinctKeys(u.order) && Covered(u.blocks, u.order)
  }

  lemma SetKeepsDistinct(order: seq<Item>, item: Item, cap: nat)
    requires DistinctKeys(order) && item.size <= cap
    ensures DistinctKeys(SetOrder(order, item, cap))
  {
    var w, r := Without(order, item.key), SetOrder(order, item, cap);
    WithoutKeys(order, item.key, item.key);
    SetIsLeastRecentFirst(order, item, cap, 0);
    forall i, j | 0 <= i < j < |r| ensures r[i].key != r[j].key {
      assert r[j] == w[j - 1] && (i > 0 ==> r[i] == w[i - 1]);
    }
  }

  lemma {:induction false} DropKeepsAbsent(t: Table, s: seq<Item>, n: nat, file: Uuid)
    requires file !in t
    ensures file !in DropBeyond(t, s, n)
    decreases |s| - n
  {
    if n < |s| {
      DropKeepsAbsent(t, s, n + 1, file);
    }
  }

  /** Every block of `u` is a block of `t` with the same bytes. */
  ghost predicate Within(u: Table, t: Table) {
    forall k :: Cached(u, k) ==> SameBytes(t, u, k)
  }

  /** No item from index `n` on has the key. */
  predicate NotBeyond(s: seq<Item>, n: nat, k: Key) {
    forall i :: n <= i < |s| ==> s[i].key != k
  }

  /** A block is cached in both tables, with the same bytes, or in neither. */
  predicate SameAt(t: Table, u: Table, k: Key) {
    (Cached(u, k) <==> Cached(t, k)) && (Cached(u, k) ==> SameBytes(t, u, k))
  }

  lemma NotDropped(t: Table, s: seq<Item>, n: nat, k: Key)
    requires NotBeyond(s, n, k)
    ensures SameAt(t, DropBeyond(t, s, n), k)
  {
    EvictionDropsExactly(t, s, n, k);
  }

  /** The block stays, with its bytes, exactly when its entry is still listed. */
  ghost predicate AsListed(u: Held, st: Held, k: Key) {
    && (Cached(u.blocks, k) <==> Cached(st.blocks, k) && HasKey(u.order, k))
    && (Cached(u.blocks, k) ==> SameBytes(st.blocks, u.blocks, k))
  }

  ghost predicate OthersAsListed(u: Held, st: Held, file: Uuid) {
    forall k: Key :: k.file != file ==> AsListed(u, st, k)
  }

  lemma ListedAfterSet(order: seq<Item>, item: Item, cap: nat, k: Key)
    requires DistinctKeys(order) && item.size <= cap && k != item.key
    ensures var w, r := Without(order, item.key), SetOrder(order, item, cap);
            && |r| >= 1 && (HasKey(order, k) ==> (HasKey(r, k) <==> NotBeyond(w, |r| - 1, k)))
            && (HasKey(r, k) ==> HasKey(order, k))
  {
    var w, r := Without(order, item.key), SetOrder(order, item, cap);
    SetIsLeastRecentFirst(order, item, cap, 0);
    WithoutKeys(order, item.key, k);
    forall i | 1 <= i < |r| ensures r[i] == w[i - 1] {
    }
    if HasKey(w, k) {
      var i :| 0 <= i < |w| && w[i].key == k;
      assert i + 1 < |r| ==> r[i + 1].key == k;
    }
  }

  lemma OtherAfterSet(t: Table, order: seq<Item>, item: Item, cap: nat, k: Key)
    requires Covered(t, order) && DistinctKeys(order) && item.size <= cap && k != item.key
    ensures AsListed(AfterEntry(Held(t, order), item, cap), Held(t, order), k)
    ensures HasKey(SetOrder(order, item, cap), k) ==> HasKey(order, k)
  {
    ListedAfterSet(order, item, cap, k);
    EvictionDropsExactly(t, Without(order, item.key), |SetOrder(order, item, cap)| - 1, k);
  }

  lemma SpareNext(u: Held, st: Held, item: Item, cap: nat, k: Key)
    requires AsListed(u, st, k) && Proper(u)
    requires item.size <= cap && k != item.key
    ensures AsListed(AfterEntry(u, item, cap), st, k)
  {
    OtherAfterSet(u.blocks, u.order, item, cap, k);
    assert Held(u.blocks, u.order) == u;
  }

  /** `set`, seen as one step on blocks and list. */
  method SetEntry(c: Cache, item: Item)
    requires c.Valid() && item.size <= c.cap
    modifies c, c.repr
    ensures c.Valid() && fresh(c.repr - old(c.repr))
    ensures Held(c.blocks, c.order) == AfterEntry(Held(old(c.blocks), old(c.order)), item, c.cap)
  {
    c.Set(item);
  }

  // ----- emplacing

  /** `emplace` into the blocks of a file that is still cached. */
  function EmplaceIn(t: Table, k: Key, data: Bytes): Table {
    if k.file in t && k.block !in t[k.file] then
      var more: map<nat, Bytes> := t[k.file][k.block := data];
      t[k.file := more]
    else t
  }

  /** A block that is already there keeps its bytes; only the one block is added. */
  lemma EmplaceKeepsCached(t: Table, k: Key, data: Bytes, x: Key)
    ensures var u := EmplaceIn(t, k, data);
            && (Cached(t, x) ==> SameBytes(t, u, x))
            && (Cached(u, x) && !Cached(t, x) ==> x == k && u[x.file][x.block] == data)
            && (k.file in t ==> Cached(u, k))
  {
  }

  lemma EmplaceKeepsCovered(t: Table, order: seq<Item>, k: Key, data: Bytes)
    requires Covered(t, order) && HasKey(order, k)
    ensures Covered(EmplaceIn(t, k, data), order)
  {
    forall x | Cached(EmplaceIn(t, k, data), x) ensures HasKey(order, x) {
      EmplaceKeepsCached(t, k, data, x);
    }
  }

  method Emplace(c: Cache, k: Key, data: Bytes)
    requires c.Valid()
    modifies c`blocks
    ensures c.Valid() && c.blocks == EmplaceIn(old(c.blocks), k, data)
  {
    if k.file in c.blocks && k.block !in c.blocks[k.file] {
      var more: map<nat, Bytes> := c.blocks[k.file][k.block := data];
      c.blocks := c.blocks[k.file := more];
    }
  }

  /** One turn of a write to a cached file: `set`, then `emplace`. */
  function Turn(t: Table, order: seq<Item>, k: Key, chunk: Bytes, cap: nat): Table
    requires |chunk| <= cap
  {
    EmplaceIn(AfterSet(t, order, Item(k, |chunk|), cap), k, chunk)
  }

  /** The block is cached with these bytes. */
  predicate Holds(t: Table, k: Key, bytes: Bytes) {
    Cached(t, k) && t[k.file][k.block] == bytes
  }

  /** A turn leaves the written bytes in the cache exactly when `set` did not evict the last
      other block of the file and the block was not cached before, or had these bytes. */
  lemma TurnHoldsExactlyWhen(t: Table, order: seq<Item>, k: Key, chunk: Bytes, cap: nat)
    requires DistinctKeys(order) && |chunk| <= cap
    ensures Holds(Turn(t, order, k, chunk, cap), k, chunk) <==>
            k.file in AfterSet(t, order, Item(k, |chunk|), cap) && (Cached(t, k) ==> Holds(t, k, chunk))
    ensures Cached(t, k) ==> SameBytes(t, Turn(t, order, k, chunk, cap), k)
  {
    var u := AfterSet(t, order, Item(k, |chunk|), cap);
    SetKeepsOwnBlock(t, order, Item(k, |chunk|), cap);
    EmplaceKeepsCached(u, k, chunk, k);
  }

  /** A cached block is stale after a write of other bytes. */
  lemma CachedBlockGoesStale(file: Uuid)
    ensures var t: Table := map[file := map[0 := [1]]];
            var k := Key(file, 0);
            !Holds(Turn(t, [Item(k, 1)], k, [2], BLOCK), k, [2])
  {
    var one: map<nat, Bytes> := map[0 := [1]];
    var t: Table := map[file := one];
    TurnHoldsExactlyWhen(t, [Item(Key(file, 0), 1)], Key(file, 0), [2], BLOCK);
  }

  lemma AfterSetWithin(t: Table, order: seq<Item>, item: Item, cap: nat)
    requires item.size <= cap
    ensures Within(AfterSet(t, order, item, cap), t)
  {
    forall k | Cached(AfterSet(t, order, item, cap), k) ensures SameBytes(t, AfterSet(t, order, item, cap), k) {
      EvictionDropsExactly(t, Without(order, item.key), |SetOrder(order, item, cap)| - 1, k);
    }
  }
}
