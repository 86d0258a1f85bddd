/** A cache that is filled by writes, and handed over. */
module CacheFill {
  import opened ByteSeq
  import opened StorageKey
  import opened LruCache
  import opened BlockCache
  import opened CacheWrite
  import opened CacheTable
  import opened CacheHandOver

  // ----- a cache filled by writes

  datatype Write = Write(file: Uuid, pos: nat, data: Bytes)

  /** A write of some data that fits in the cache. */
  predicate Fitting(x: Write, cap: nat) {
    0 < |x.data| <= cap && x.pos + |x.data| + BLOCK <= U32
  }

  /** Every cached block is listed, every cached file has a block, and all numbers have 32 bits. */
  ghost predicate Orderly(u: Held) {
    Covered(u.blocks, u.order) && NoEmptyFile(u.blocks) && InWords(u.order) && TableInWords(u.blocks)
  }

  function UpdateOf(x: Write): Update {
    Update(x.file, x.pos / BLOCK, PartsOf(x.data))
  }

  /** What the cache holds after the first `n` writes. */
  function FilledBy(writes: seq<Write>, n: nat, cap: nat): Held
    requires n <= |writes|
  {
    if n == 0 then Held(map[], [])
    else
      var before, w := FilledBy(writes, n - 1, cap), UpdateOf(writes[n - 1]);
      if EachFits(w, cap) then Put(before, w, cap) else before
  }

  /** A sound and orderly cache that holds what the first `n` writes left. */
  ghost predicate Filled(c: Cache, writes: seq<Write>, n: nat)
    reads c, c.repr
  {
    && n <= |writes| && c.Valid()
    && Held(c.blocks, c.order) == FilledBy(writes, n, c.cap) && Orderly(FilledBy(writes, n, c.cap))
  }

  method FillNext(c: Cache, x: Write, ghost writes: seq<Write>, ghost n: nat)
    requires n < |writes| && x == writes[n] && Filled(c, writes, n) && Fitting(x, c.cap)
    modifies c, c.repr
    ensures fresh(c.repr - old(c.repr)) && Filled(c, writes, n + 1)
  {
    ghost var w := WriteToCache(c, x.file, x.pos, x.data);
  }

  method NewCache(cap: nat, ghost writes: seq<Write>) returns (c: Cache)
    requires cap < 0x8000_0000
    ensures fresh(c) && fresh(c.repr) && c.cap == cap && Filled(c, writes, 0)
  {
    c := new Cache(cap);
  }

  /** However a cache was filled by writes that fit, each cached block is listed and no cached
      file is without blocks. */
  method Fill(cap: nat, writes: seq<Write>) returns (c: Cache)
    requires cap < 0x8000_0000 && forall i :: 0 <= i < |writes| ==> Fitting(writes[i], cap)
    ensures fresh(c) && fresh(c.repr) && c.cap == cap && Filled(c, writes, |writes|)
  {
    c := NewCache(cap, writes);
    for i := 0 to |writes|
      invariant fresh(c) && fresh(c.repr) && c.cap == cap && Filled(c, writes, i)
    {
      var x := writes[i];
      FillNext(c, x, writes, i);
    }
  }

  // ----- handing it over

  /** The map of a file's blocks, iterated in any order. */
  method ListFile(key: Uuid, blocks: map<nat, Bytes>) returns (r: Rec)
    requires forall b :: b in blocks ==> b < U32 && |blocks[b]| < U32
    ensures r.key == key && ListsFile(r, blocks)
  {
    var refs: seq<Ref>, rest := [], blocks.Keys;
    while rest != {}
      invariant rest <= blocks.Keys
      invariant forall i, j :: 0 <= i < j < |refs| ==> refs[i].block != refs[j].block
      invariant forall ref :: ref in refs <==>
                  ref.block in blocks && ref.block !in rest && ref.size == |blocks[ref.block]|
    {
      var b :| b in rest;
      var ref := Ref(b, |blocks[b]|);
      assert forall i :: 0 <= i < |refs| ==> refs[i] in refs;
      refs, rest := refs + [ref], rest - {b};
    }
    r := Rec(key, refs, None);
  }

  /** The map of the cached files, iterated in any order. */
  method ListFiles(t: Table) returns (files: seq<Rec>)
    requires TableInWords(t)
    ensures Lists(files, t)
  {
    var rest := t.Keys;
    files := [];
    while rest != {}
      invariant rest <= t.Keys && ListsAll(files, t)
      invariant forall key :: HasRecord(files, key) <==> key in t && key !in rest
    {
      var key :| key in rest;
      assert forall b :: b in t[key] ==> Cached(t, Key(key, b));
      var r := ListFile(key, t[key]);
      ghost var before := files;
      files, rest := [r] + files, rest - {key};
      assert files[1..] == before;
    }
  }

  /** A cache filled by writes that fit can always be handed over. */
  method FillAndHandOver(cap: nat, writes: seq<Write>, hits: Word, evictions: Word)
    returns (c: Cache, d: Cache, requests: seq<Request>)
    requires cap < 0x8000_0000 && forall i :: 0 <= i < |writes| ==> Fitting(writes[i], cap)
    ensures c.cap == d.cap == cap && Filled(c, writes, |writes|)
    ensures d.Valid() && d.order == c.order && Registers(d.blocks, c.blocks, c.order)
    ensures FetchesAll(requests, c.blocks)
  {
    c := Fill(cap, writes);
    var files := ListFiles(c.blocks);
    d := new Cache(cap);
    requests := HandOver(c, files, hits, evictions, d);
  }
}
