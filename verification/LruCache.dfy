/** The least-recently-used list of the block cache: linked nodes between two sentinels, an
    index from keys to nodes, and a byte budget. */
module LruCache {
  import opened ByteSeq
  import opened StorageKey

  /** A cached block: its file, its number and its size. */
  datatype Key = Key(file: Uuid, block: nat)
  datatype Item = Item(key: Key, size: nat)

  // ----- the order of the list, as a value

  function Sum(s: seq<Item>): nat {
    if s == [] then 0 else Sum(s[..|s| - 1]) + s[|s| - 1].size
  }

  /** Drop items from the least recent end until the rest fits. */
  function Evict(s: seq<Item>, budget: nat): (r: seq<Item>)
    ensures |r| <= |s|
    decreases |s|
  {
    if Sum(s) <= budget then s else Evict(s[..|s| - 1], budget)
  }

  function Without(s: seq<Item>, k: Key): seq<Item> {
    if s == [] then []
    else if s[|s| - 1].key == k then Without(s[..|s| - 1], k)
    else Without(s[..|s| - 1], k) + [s[|s| - 1]]
  }

  /** The list after `set`, most recent first. */
  function SetOrder(s: seq<Item>, item: Item, cap: nat): seq<Item>
    requires item.size <= cap
  {
    [item] + Evict(Without(s, item.key), cap - item.size)
  }

  /** Evicting keeps a prefix that fits, and no longer prefix does. */
  lemma {:induction false} EvictIsLongestPrefix(s: seq<Item>, budget: nat, n: nat)
    ensures Evict(s, budget) <= s && Sum(Evict(s, budget)) <= budget
    ensures |Evict(s, budget)| < n <= |s| ==> Sum(s[..n]) > budget
    decreases |s|
  {
    if Sum(s) > budget {
      var t := s[..|s| - 1];
      EvictIsLongestPrefix(t, budget, n);
      assert n <= |t| ==> s[..n] == t[..n];
      assert n == |s| ==> s[..n] == s;
    }
  }

  lemma {:induction false} SumAppend(a: seq<Item>, b: seq<Item>)
    ensures Sum(a + b) == Sum(a) + Sum(b)
  {
    if b == [] {
      assert a + b == a;
    } else {
      SumAppend(a, b[..|b| - 1]);
      assert (a + b)[..|a + b| - 1] == a + b[..|b| - 1];
    }
  }

  lemma {:induction false} SumRemove(s: seq<Item>, i: nat)
    requires i < |s|
    ensures Sum(s[..i] + s[i + 1..]) == Sum(s) - s[i].size
  {
    var t, r := s[..|s| - 1], s[..i] + s[i + 1..];
    if i == |s| - 1 {
      assert r == t;
    } else {
      SumRemove(t, i);
      assert r[..|r| - 1] == t[..i] + t[i + 1..];
    }
  }

  predicate DistinctKeys(s: seq<Item>) {
    forall i, j :: 0 <= i < j < |s| ==> s[i].key != s[j].key
  }

  predicate HasKey(s: seq<Item>, k: Key) {
    exists i :: 0 <= i < |s| && s[i].key == k
  }

  lemma {:induction false} WithoutAbsent(s: seq<Item>, k: Key)
    requires !HasKey(s, k)
    ensures Without(s, k) == s
  {
    if s != [] {
      WithoutAbsent(s[..|s| - 1], k);
    }
  }

  lemma {:induction false} WithoutPresent(s: seq<Item>, i: nat)
    requires DistinctKeys(s) && i < |s|
    ensures Without(s, s[i].key) == s[..i] + s[i + 1..]
  {
    var t := s[..|s| - 1];
    if i == |s| - 1 {
      WithoutAbsent(t, s[i].key);
    } else {
      WithoutPresent(t, i);
      assert t[..i] + t[i + 1..] + [s[|s| - 1]] == s[..i] + s[i + 1..];
    }
  }

  lemma WithoutKeys(s: seq<Item>, k: Key, x: Key)
    requires DistinctKeys(s)
    ensures DistinctKeys(Without(s, k))
    ensures HasKey(Without(s, k), x) <==> HasKey(s, x) && x != k
  {
    if i :| 0 <= i < |s| && s[i].key == k {
      WithoutPresent(s, i);
      if j :| 0 <= j < |s| && s[j].key == x && j != i {
        assert Without(s, k)[if j < i then j else j - 1].key == x;
      }
    } else {
      WithoutAbsent(s, k);
    }
  }

  /** After `set` the new entry comes first, then the longest prefix of the old order without
      that key that still fits. */
  lemma SetIsLeastRecentFirst(s: seq<Item>, item: Item, cap: nat, n: nat)
    requires item.size <= cap
    ensures var w, r := Without(s, item.key), SetOrder(s, item, cap);
            && 1 <= |r| <= |w| + 1 && r == [item] + w[..|r| - 1]
            && Sum(r) <= cap && (|r| - 1 < n <= |w| ==> item.size + Sum(w[..n]) > cap)
  {
    var w := Without(s, item.key);
    var kept := Evict(w, cap - item.size);
    EvictIsLongestPrefix(w, cap - item.size, n);
    assert kept == w[..|kept|];
    SumCons(item, kept);
  }

  lemma SumCons(item: Item, s: seq<Item>)
    ensures Sum([item] + s) == item.size + Sum(s)
  {
    SumAppend([item], s);
    assert [item][..0] == [];
  }

  // ----- the cached blocks

  /** The blocks of each file. */
  type Table = map<Uuid, map<nat, Bytes>>

  /** Erase one block, and its file when no block is left. */
  function DropBlock(t: Table, k: Key): Table {
    if k.file !in t then t
    else
      var rest := t[k.file] - {k.block};
      if rest == map[] then t - {k.file} else t[k.file := rest]
  }

  /** Erase the blocks of the items from index `n` on, the last one first. */
  function DropBeyond(t: Table, s: seq<Item>, n: nat): Table
    decreases |s| - n
  {
    if n >= |s| then t else DropBlock(DropBeyond(t, s, n + 1), s[n].key)
  }

  predicate Cached(t: Table, k: Key) {
    k.file in t && k.block in t[k.file]
  }

  lemma DropBlockDropsExactly(t: Table, d: Key, k: Key)
    ensures Cached(DropBlock(t, d), k) <==> Cached(t, k) && k != d
    ensures Cached(DropBlock(t, d), k) ==> DropBlock(t, d)[k.file][k.block] == t[k.file][k.block]
  {
    if Cached(t, k) && k != d && k.file == d.file {
      assert k.block in t[k.file] - {d.block};
    }
  }

  /** Eviction removes exactly the blocks of the dropped items and leaves the others' bytes. */
  lemma {:induction false} EvictionDropsExactly(t: Table, s: seq<Item>, n: nat, k: Key)
    ensures Cached(DropBeyond(t, s, n), k) <==> Cached(t, k) && !exists i :: n <= i < |s| && s[i].key == k
    ensures Cached(DropBeyond(t, s, n), k) ==> DropBeyond(t, s, n)[k.file][k.block] == t[k.file][k.block]
    decreases |s| - n
  {
    if n < |s| {
      EvictionDropsExactly(t, s, n + 1, k);
      DropBlockDropsExactly(DropBeyond(t, s, n + 1), s[n].key, k);
    }
  }

  /** No item from index `n` on belongs to the file. */
  predicate NoneOf(s: seq<Item>, n: nat, file: Uuid) {
    forall i :: n <= i < |s| ==> s[i].key.file != file
  }

  predicate HasBlock(t: Table, file: Uuid) {
    file in t && t[file] != map[]
  }

  lemma DropBlockKeepsFile(t: Table, k: Key, file: Uuid)
    ensures file in DropBlock(t, k) <==> file in t && (k.file != file || HasBlock(DropBlock(t, k), file))
    ensures k.file != file && file in t ==> DropBlock(t, k)[file] == t[file]
    ensures HasBlock(DropBlock(t, k), file) ==> HasBlock(t, file)
  {
    if k.file == file && file in t {
      var rest := t[file] - {k.block};
      assert rest != map[] ==> exists b :: b in rest && b in t[file];
    }
  }

  /** A file stays in the table exactly when it was there and none of the dropped items belongs
      to it, or one of its blocks is left. */
  lemma {:induction false} EvictionKeepsFile(t: Table, s: seq<Item>, n: nat, file: Uuid)
    ensures file in DropBeyond(t, s, n) <==> file in t && (NoneOf(s, n, file) || HasBlock(DropBeyond(t, s, n), file))
    ensures file in t && NoneOf(s, n, file) ==> DropBeyond(t, s, n)[file] == t[file]
    ensures HasBlock(DropBeyond(t, s, n), file) ==> HasBlock(t, file)
    decreases |s| - n
  {
    if n < |s| {
      EvictionKeepsFile(t, s, n + 1, file);
      DropBlockKeepsFile(DropBeyond(t, s, n + 1), s[n].key, file);
      assert NoneOf(s, n, file) <==> NoneOf(s, n + 1, file) && s[n].key.file != file;
    }
  }

  /** Every cached file has a block. */
  ghost predicate NoEmptyFile(t: Table) {
    forall file :: file in t ==> t[file] != map[]
  }

  lemma EvictionLeavesNoEmptyFile(t: Table, s: seq<Item>, n: nat)
    requires NoEmptyFile(t)
    ensures NoEmptyFile(DropBeyond(t, s, n))
  {
    forall file | file in DropBeyond(t, s, n) ensures DropBeyond(t, s, n)[file] != map[] {
      EvictionKeepsFile(t, s, n, file);
    }
  }

  /** Block numbers and sizes have 32 bits. */
  predicate InWords(order: seq<Item>) {
    forall i :: 0 <= i < |order| ==> order[i].key.block < U32 && order[i].size < U32
  }

  ghost predicate TableInWords(t: Table) {
    forall k :: Cached(t, k) ==> k.block < U32 && |t[k.file][k.block]| < U32
  }

  class Node {
    const item: Item
    var prev: Node?
    var next: Node?

    constructor (item: Item)
      ensures this.item == item
    {
      this.item := item;
      prev, next := null, null;
    }
  }

  /** No node occurs twice. */
  predicate DistinctNodes(nodes: seq<Node>) {
    nodes == [] || (DistinctNodes(nodes[..|nodes| - 1]) && nodes[|nodes| - 1] !in nodes[..|nodes| - 1])
  }

  predicate PairwiseDistinct(nodes: seq<Node>) {
    forall i, j :: 0 <= i < j < |nodes| ==> nodes[i] != nodes[j]
  }

  lemma {:induction false} DistinctIsPairwise(nodes: seq<Node>)
    ensures DistinctNodes(nodes) <==> PairwiseDistinct(nodes)
  {
    if nodes != [] {
      var t := nodes[..|nodes| - 1];
      DistinctIsPairwise(t);
      if PairwiseDistinct(nodes) {
        assert forall i :: 0 <= i < |t| ==> t[i] == nodes[i];
      }
      if DistinctNodes(nodes) {
        forall i, j | 0 <= i < j < |nodes| ensures nodes[i] != nodes[j] {
          assert nodes[i] == t[i] && (j < |t| ==> nodes[j] == t[j]);
        }
      }
    }
  }

  lemma DistinctAround(chain: seq<Node>, k: nat)
    requires DistinctNodes(chain) && k < |chain|
    ensures forall i :: 0 <= i < |chain| && i != k ==> chain[i] != chain[k]
    ensures DistinctNodes(chain[..k] + chain[k + 1..])
  {
    DistinctIsPairwise(chain);
    DistinctIsPairwise(chain[..k] + chain[k + 1..]);
  }

  lemma DistinctAdd(chain: seq<Node>, node: Node)
    requires DistinctNodes(chain) && chain != [] && node !in chain
    ensures DistinctNodes([chain[0], node] + chain[1..])
  {
    DistinctIsPairwise(chain);
    DistinctIsPairwise([chain[0], node] + chain[1..]);
  }

  /** Between the two ends of the chain stand the nodes of these items, in this order, and the
      index holds exactly those nodes, each under its own key. */
  predicate Entries(index: map<Key, Node>, chain: seq<Node>, order: seq<Item>)
    decreases |order|
  {
    && |chain| == |order| + 2
    && if order == [] then index == map[]
       else
         var k := order[0].key;
         k in index && index[k] == chain[1] && chain[1].item == order[0] && Entries(index - {k}, chain[1..], order[1..])
  }

  lemma {:induction false} EntryAt(index: map<Key, Node>, chain: seq<Node>, order: seq<Item>, i: nat)
    requires Entries(index, chain, order) && i < |order|
    ensures order[i].key in index && index[order[i].key] == chain[i + 1] && chain[i + 1].item == order[i]
    ensures i > 0 ==> order[i].key != order[0].key
    decreases |order|
  {
    if i > 0 {
      EntryAt(index - {order[0].key}, chain[1..], order[1..], i - 1);
    }
  }

  lemma {:induction false} FindEntry(index: map<Key, Node>, chain: seq<Node>, order: seq<Item>, key: Key)
    returns (k: nat)
    requires Entries(index, chain, order) && key in index
    ensures k < |order| && chain[k + 1] == index[key] && order[k].key == key
    decreases |order|
  {
    if order[0].key == key {
      k := 0;
    } else {
      var j := FindEntry(index - {order[0].key}, chain[1..], order[1..], key);
      k := j + 1;
    }
  }

  lemma {:induction false} EntriesApart(index: map<Key, Node>, chain: seq<Node>, order: seq<Item>, i: nat, j: nat)
    requires Entries(index, chain, order) && i < j < |order|
    ensures order[i].key != order[j].key
    decreases i
  {
    if i == 0 {
      EntryAt(index, chain, order, j);
    } else {
      EntriesApart(index - {order[0].key}, chain[1..], order[1..], i - 1, j - 1);
    }
  }

  lemma EntriesKeys(index: map<Key, Node>, chain: seq<Node>, order: seq<Item>)
    requires Entries(index, chain, order)
    ensures DistinctKeys(order)
    ensures forall k :: k in index <==> HasKey(order, k)
  {
    forall i, j | 0 <= i < j < |order| ensures order[i].key != order[j].key {
      EntriesApart(index, chain, order, i, j);
    }
    forall k | k in index ensures HasKey(order, k) {
      var i := FindEntry(index, chain, order, k);
    }
    forall k | HasKey(order, k) ensures k in index {
      var i :| 0 <= i < |order| && order[i].key == k;
      EntryAt(index, chain, order, i);
    }
  }

  lemma {:induction false} RemoveEntry(index: map<Key, Node>, chain: seq<Node>, order: seq<Item>, i: nat,
                                       shorter: seq<Node>, rest: seq<Item>)
    requires Entries(index, chain, order) && i < |order|
    requires shorter == chain[..i + 1] + chain[i + 2..] && rest == order[..i] + order[i + 1..]
    ensures Entries(index - {order[i].key}, shorter, rest)
    decreases i
  {
    if i == 0 {
      assert rest == order[1..];
      AnyFirst(index - {order[0].key}, chain[1..], shorter, rest);
    } else {
      var k0, k := order[0].key, order[i].key;
      var c, o, c', o' := chain[1..], order[1..], shorter[1..], rest[1..];
      assert o' == o[..i - 1] + o[i..] && o[i - 1] == order[i];
      assert c' == c[..i] + c[i + 1..];
      EntryAt(index, chain, order, i);
      RemoveEntry(index - {k0}, c, o, i - 1, c', o');
      assert index - {k0} - {k} == index - {k} - {k0};
    }
  }

  /** The first node of the chain is not an entry. */
  lemma AnyFirst(index: map<Key, Node>, chain: seq<Node>, other: seq<Node>, order: seq<Item>)
    requires Entries(index, chain, order) && |other| == |chain| && other[1..] == chain[1..]
    ensures Entries(index, other, order)
  {
    assert order != [] ==> other[1] == other[1..][0] && chain[1] == chain[1..][0];
  }

  lemma AddEntry(index: map<Key, Node>, chain: seq<Node>, order: seq<Item>, node: Node)
    requires Entries(index, chain, order) && node.item.key !in index
    ensures Entries(index[node.item.key := node], [chain[0], node] + chain[1..], [node.item] + order)
  {
    var longer := [chain[0], node] + chain[1..];
    assert longer[1..] == [node] + chain[1..] && longer[1..][1..] == chain[1..];
    AnyFirst(index, chain, longer[1..], order);
    assert ([node.item] + order)[1..] == order;
    assert index[node.item.key := node] - {node.item.key} == index;
  }

  class Cache {
    const head: Node
    const tail: Node
    const cap: nat
    var curSize: int
    var index: map<Key, Node>
    var blocks: Table
    /** All nodes in list order, and the entries between the sentinels, most recent first. */
    ghost var chain: seq<Node>
    ghost var order: seq<Item>
    /** Every node ever linked. */
    ghost var repr: set<Node>

    /** The links form one doubly linked list from head to tail. */
    ghost predicate Linked()
      reads this, repr
    {
      && |chain| >= 2 && chain[0] == head && chain[|chain| - 1] == tail && DistinctNodes(chain)
      && (forall i :: 0 <= i < |chain| ==> chain[i] in repr)
      && (forall i {:trigger chain[i].next} :: 0 <= i < |chain| - 1 ==> chain[i].next == chain[i + 1])
      && (forall i {:trigger chain[i].prev} :: 1 <= i < |chain| ==> chain[i].prev == chain[i - 1])
    }

    /** The list, the index and the byte counter describe the same entries. */
    ghost predicate Sound()
      reads this, repr
    {
      Linked() && Entries(index, chain, order) && curSize == Sum(order)
    }

    ghost predicate Valid()
      reads this, repr
    {
      Sound() && curSize <= cap < 0x8000_0000
    }

    constructor (capacity: nat)
      requires capacity < 0x8000_0000
      ensures Valid() && order == [] && cap == capacity && blocks == map[] && fresh(repr)
    {
      var h := new Node(Item(Key(Zeros(32), 0), 0));
      var t := new Node(Item(Key(Zeros(32), 0), 0));
      head, tail, cap := h, t, capacity;
      curSize, index, blocks := 0, map[], map[];
      chain, order, repr := [h, t], [], {h, t};
      new;
      head.next := tail;
      tail.prev := head;
    }

    method AddNode(temp: Node)
      requires Linked() && temp !in repr
      modifies this`curSize, this`chain, this`repr, repr, temp
      ensures Linked() && chain == [head, temp] + old(chain)[1..]
      ensures curSize == old(curSize) + temp.item.size && repr == old(repr) + {temp}
    {
      DistinctAdd(chain, temp);
      DistinctAround(chain, 0);
      DistinctAround(chain, 1);
      curSize := curSize + temp.item.size;
      var dummy := head.next;
      assert dummy == chain[1];
      head.next := temp;
      temp.prev := head;
      temp.next := dummy;
      dummy.prev := temp;
      chain := [head, temp] + chain[1..];
      repr := repr + {temp};
    }

    method DeleteNode(temp: Node, ghost k: nat)
      requires Linked() && 1 <= k < |chain| - 1 && temp == chain[k]
      modifies this`curSize, this`chain, repr
      ensures Linked() && chain == old(chain)[..k] + old(chain)[k + 1..]
      ensures curSize == old(curSize) - temp.item.size
    {
      DistinctAround(chain, k);
      DistinctAround(chain, k - 1);
      DistinctAround(chain, k + 1);
      curSize := curSize - temp.item.size;
      var delNext := temp.next;
      var delPrev := temp.prev;
      assert delNext == chain[k + 1] && delPrev == chain[k - 1];
      delNext.prev := delPrev;
      delPrev.next := delNext;
      chain := chain[..k] + chain[k + 1..];
    }

    /** Take one entry out of the index and the list. */
    method Remove(temp: Node, ghost k: nat)
      requires Sound() && k < |order| && temp == chain[k + 1]
      modifies this`index, this`curSize, this`chain, this`order, repr
      ensures Sound() && order == old(order)[..k] + old(order)[k + 1..]
      ensures index == old(index) - {temp.item.key}
    {
      ghost var rest := order[..k] + order[k + 1..];
      EntryAt(index, chain, order, k);
      RemoveEntry(index, chain, order, k, chain[..k + 1] + chain[k + 2..], rest);
      SumRemove(order, k);
      index := index - {temp.item.key};
      DeleteNode(temp, k + 1);
      order := rest;
    }

    /** Put a new entry in front. */
    method Push(item: Item)
      requires Sound() && item.key !in index
      modifies this`index, this`curSize, this`chain, this`order, this`repr, repr
      ensures Sound() && order == [item] + old(order) && curSize == old(curSize) + item.size
      ensures fresh(repr - old(repr))
    {
      var temp := new Node(item);
      AddEntry(index, chain, order, temp);
      SumCons(item, order);
      AddNode(temp);
      index := index[item.key := temp];
      order := [item] + order;
    }

    method DeleteEntry(k: Key)
      modifies this`blocks
      ensures blocks == DropBlock(old(blocks), k)
    {
      if k.file in blocks {
        var rest := blocks[k.file] - {k.block};
        blocks := blocks[k.file := rest];
        if rest == map[] {
          blocks := blocks - {k.file};
        }
      }
    }

    /** Take out the entry a new one replaces, if there is one. */
    method RemoveOld(key: Key)
      requires Sound()
      modifies this`index, this`curSize, this`chain, this`order, repr
      ensures Sound() && key !in index && order == Without(old(order), key)
    {
      EntriesKeys(index, chain, order);
      if key in index {
        var exist := index[key];
        ghost var k := FindEntry(index, chain, order, key);
        WithoutPresent(order, k);
        EntryAt(index, chain, order, k);
        Remove(exist, k);
      } else {
        WithoutAbsent(order, key);
      }
    }

    method EvictLast()
      requires Sound() && curSize > 0
      modifies this`index, this`curSize, this`chain, this`order, this`blocks, repr
      ensures Sound() && |old(order)| > 0 && order == old(order)[..|old(order)| - 1]
      ensures blocks == DropBlock(old(blocks), old(order)[|old(order)| - 1].key)
      ensures index.Keys <= old(index).Keys
    {
      EntryAt(index, chain, order, |order| - 1);
      var last := tail.prev;
      DeleteEntry(last.item.key);
      Remove(last, |order| - 1);
    }

    /** Drop entries from the least recent end until `size` more bytes fit. */
    method MakeRoom(size: nat)
      requires Sound() && size <= cap
      modifies this`index, this`curSize, this`chain, this`order, this`blocks, repr
      ensures Sound() && curSize + size <= cap
      ensures order == Evict(old(order), cap - size)
      ensures blocks == DropBeyond(old(blocks), old(order), |order|)
      ensures index.Keys <= old(index).Keys
    {
      while curSize + size > cap
        invariant Sound() && order <= old(order)
        invariant Evict(order, cap - size) == Evict(old(order), cap - size)
        invariant blocks == DropBeyond(old(blocks), old(order), |order|)
        invariant index.Keys <= old(index).Keys
        decreases |order|
      {
        EvictLast();
      }
    }

    method Set(item: Item)
      requires Valid() && item.size <= cap
      modifies this, repr
      ensures Valid() && order == SetOrder(old(order), item, cap)
      ensures blocks == DropBeyond(old(blocks), Without(old(order), item.key), |order| - 1)
      ensures NoEmptyFile(old(blocks)) ==> NoEmptyFile(blocks)
      ensures fresh(repr - old(repr))
    {
      RemoveOld(item.key);
      MakeRoom(item.size);
      Push(item);
      if NoEmptyFile(old(blocks)) {
        EvictionLeavesNoEmptyFile(old(blocks), Without(old(order), item.key), |order| - 1);
      }
    }
  }
}
