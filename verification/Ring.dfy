/** The hash ring: which proxy owns a key.  Clients look it up in an ordered map of sockets,
    proxies and the liveness watcher in a sorted list. */
module Ring {
  import opened ByteSeq

  /** A 32-byte id as the number its bytes spell, which is the order arrays compare in. */
  type Id = nat

  predicate Sorted(list: seq<Id>) {
    forall i, j :: 0 <= i < j < |list| ==> list[i] < list[j]
  }

  function IdsOf(list: seq<Id>): set<Id> {
    set x | x in list
  }

  // ----- the owner, defined by the set of ids alone

  /** The least id above the key, or the least of all if none is above. */
  ghost predicate IsOwner(ids: set<Id>, key: Id, owner: Id) {
    && owner in ids
    && if exists x :: x in ids && x > key then owner > key && forall x :: x in ids && x > key ==> owner <= x
       else forall x :: x in ids ==> owner <= x
  }

  lemma OwnerIsUnique(ids: set<Id>, key: Id, a: Id, b: Id)
    requires IsOwner(ids, key, a) && IsOwner(ids, key, b)
    ensures a == b
  {
  }

  /** A new proxy takes keys over, and no key moves between two old ones. */
  lemma AddingMovesKeysToTheNewOne(ids: set<Id>, x: Id, key: Id, before: Id, after: Id)
    requires x !in ids && IsOwner(ids, key, before) && IsOwner(ids + {x}, key, after)
    ensures after == before || after == x
  {
    if after != x {
      assert after in ids;
      assert forall y :: y in ids ==> y in ids + {x};
      OwnerKept(ids, ids + {x}, key, after);
      OwnerIsUnique(ids, key, before, after);
    }
  }

  /** A proxy that leaves hands over its own keys, and no other key moves. */
  lemma RemovingMovesItsKeysOnly(ids: set<Id>, x: Id, key: Id, before: Id, after: Id)
    requires IsOwner(ids, key, before) && IsOwner(ids - {x}, key, after) && before != x
    ensures after == before
  {
    OwnerKept(ids - {x}, ids, key, before);
    OwnerIsUnique(ids - {x}, key, before, after);
  }

  /** The owner among more ids is the owner among fewer if it is one of them. */
  lemma OwnerKept(fewer: set<Id>, more: set<Id>, key: Id, owner: Id)
    requires fewer <= more && IsOwner(more, key, owner) && owner in fewer
    ensures IsOwner(fewer, key, owner)
  {
    if exists x :: x in more && x > key {
      assert owner in fewer && owner > key;
    }
  }

  // ----- the lookup in a sorted list

  /** The index of the first id above the key. */
  function UpperBound(list: seq<Id>, key: Id): (i: nat)
    ensures i <= |list|
  {
    if list == [] || list[0] > key then 0 else 1 + UpperBound(list[1..], key)
  }

  function OwnerIndex(list: seq<Id>, key: Id): (i: nat)
    requires list != []
    ensures i < |list|
  {
    if UpperBound(list, key) == |list| then 0 else UpperBound(list, key)
  }

  lemma {:induction false} UpperBoundSplits(list: seq<Id>, key: Id)
    requires Sorted(list)
    ensures forall i :: 0 <= i < |list| ==> (list[i] > key <==> i >= UpperBound(list, key))
  {
    if list != [] && list[0] <= key {
      UpperBoundSplits(list[1..], key);
      forall i | 0 <= i < |list| ensures list[i] > key <==> i >= UpperBound(list, key) {
        assert i > 0 ==> list[i] == list[1..][i - 1];
      }
    }
  }

  /** The list gives the owner, so everyone with the same ids names the same proxy. */
  lemma ListGivesTheOwner(list: seq<Id>, key: Id)
    requires Sorted(list) && list != []
    ensures IsOwner(IdsOf(list), key, list[OwnerIndex(list, key)])
  {
    UpperBoundSplits(list, key);
    var u := UpperBound(list, key);
    if u < |list| {
      assert list[u] > key;
    }
  }

  // ----- the client

  /** A socket: its peer, whether it is open, and a number that tells it from all others. */
  datatype Socket = Socket(peer: Id, open: bool, serial: nat)

  ghost predicate AllPresent(list: seq<Id>, proxies: map<Id, Socket>) {
    forall i :: 0 <= i < |list| ==> list[i] in proxies
  }

  /** The list names exactly the proxies the client already has. */
  ghost predicate SameList(list: seq<Id>, proxies: map<Id, Socket>) {
    |list| == |proxies| && AllPresent(list, proxies)
  }

  predicate Usable(proxies: map<Id, Socket>, reachable: set<Id>, x: Id) {
    (x in proxies && proxies[x].open) || x in reachable
  }

  ghost predicate AllOpen(proxies: map<Id, Socket>) {
    forall x :: x in proxies ==> proxies[x].open
  }

  /** Every proxy has an open socket to itself: the old one if that was open, else a new one,
      made after the first `made` sockets. */
  ghost predicate Connected(before: map<Id, Socket>, made: nat, next: map<Id, Socket>) {
    forall x :: x in next ==>
      && next[x].open && next[x].peer == x
      && if x in before && before[x].open then next[x] == before[x] else next[x].serial >= made
  }

  lemma {:induction false} DistinctCount(list: seq<Id>)
    requires Sorted(list)
    ensures |IdsOf(list)| == |list|
  {
    if list != [] {
      DistinctCount(list[1..]);
      assert IdsOf(list) == IdsOf(list[1..]) + {list[0]} by {
        forall x | x in list ensures x in list[1..] || x == list[0] {
          var i :| 0 <= i < |list| && list[i] == x;
          assert i > 0 ==> list[1..][i - 1] == x;
        }
      }
      assert list[0] !in list[1..];
    }
  }

  lemma SameSizeSameIds(list: seq<Id>, proxies: map<Id, Socket>)
    requires Sorted(list) && |list| == |proxies| && AllPresent(list, proxies)
    ensures proxies.Keys == IdsOf(list)
  {
    DistinctCount(list);
    SubsetOfSameSize(IdsOf(list), proxies.Keys);
  }

  lemma SubsetOfSameSize(a: set<Id>, b: set<Id>)
    requires a <= b && |a| == |b|
    ensures a == b
  {
    assert |b - a| == |b| - |a|;
  }

  /** A client's sockets, one for each proxy, and how many it has made. */
  class Client {
    var proxies: map<Id, Socket>
    var made: nat

    ghost predicate Valid()
      reads this
    {
      forall x :: x in proxies ==> proxies[x].peer == x && proxies[x].serial < made
    }

    constructor ()
      ensures Valid() && proxies == map[]
    {
      proxies, made := map[], 0;
    }

    /** Take a new sorted list of proxies: keep open sockets, connect the others.  A connection
        that fails leaves the client as it was, and so does a list of the same proxies, closed
        sockets included. */
    method Reconfigure(list: seq<Id>, reachable: set<Id>) returns (ok: bool)
      requires Valid() && Sorted(list)
      modifies this
      ensures Valid() && (ok ==> proxies.Keys == IdsOf(list))
      ensures SameList(list, old(proxies)) || !ok ==> proxies == old(proxies)
      ensures ok <==> || SameList(list, old(proxies))
                      || forall i :: 0 <= i < |list| ==> Usable(old(proxies), reachable, list[i])
      ensures !SameList(list, old(proxies)) && ok ==> Connected(old(proxies), old(made), proxies)
      ensures ok ==> (AllOpen(proxies) <==> !SameList(list, old(proxies)) || AllOpen(old(proxies)))
    {
      var same := CheckSame(list);
      if same {
        SameSizeSameIds(list, proxies);
        return true;
      }
      var next;
      ok, next := Connect(list, reachable);
      if ok {
        proxies := next;
      }
    }

    method CheckSame(list: seq<Id>) returns (same: bool)
      ensures same <==> SameList(list, proxies)
    {
      if |list| != |proxies| {
        return false;
      }
      for i := 0 to |list|
        invariant forall j :: 0 <= j < i ==> list[j] in proxies
      {
        if list[i] !in proxies {
          return false;
        }
      }
      same := true;
    }

    method Connect(list: seq<Id>, reachable: set<Id>) returns (ok: bool, next: map<Id, Socket>)
      requires Valid()
      modifies this`made
      ensures old(made) <= made && Valid()
      ensures ok <==> forall i :: 0 <= i < |list| ==> Usable(proxies, reachable, list[i])
      ensures ok ==> next.Keys == IdsOf(list) && Connected(proxies, old(made), next)
      ensures forall x :: x in next ==> next[x].serial < made
    {
      next := map[];
      for i := 0 to |list|
        invariant old(made) <= made && next.Keys == IdsOf(list[..i])
        invariant forall j :: 0 <= j < i ==> Usable(proxies, reachable, list[j])
        invariant Connected(proxies, old(made), next)
        invariant forall x :: x in next ==> next[x].serial < made
      {
        assert list[..i + 1] == list[..i] + [list[i]];
        if list[i] in proxies && proxies[list[i]].open {
          next := next[list[i] := proxies[list[i]]];
        } else if list[i] !in reachable {
          assert !Usable(proxies, reachable, list[i]);
          return false, next;
        } else {
          next := next[list[i] := Socket(list[i], true, made)];
          made := made + 1;
        }
      }
      assert list[..|list|] == list;
      ok := true;
    }

    /** The socket a request goes to: the proxy that owns its key. */
    method SelectProxy(key: Id) returns (s: Socket)
      requires Valid() && proxies != map[]
      ensures s.peer in proxies && s == proxies[s.peer] && IsOwner(proxies.Keys, key, s.peer)
      ensures AllOpen(proxies) ==> s.open
    {
      var first :| first in proxies;
      var above: Option<Id> := None;
      var todo := proxies.Keys;
      while todo != {}
        invariant todo <= proxies.Keys && first in proxies
        invariant forall x :: x in proxies && x !in todo ==> first <= x
        invariant above.Some? ==> above.value in proxies && above.value > key
        invariant forall x :: x in proxies && x !in todo && x > key ==> above.Some? && above.value <= x
        decreases |todo|
      {
        var x :| x in todo;
        todo := todo - {x};
        if x < first {
          first := x;
        }
        if x > key && (above.None? || x < above.value) {
          above := Some(x);
        }
      }
      s := proxies[if above.Some? then above.value else first];
    }
  }

  /** Client and proxy name the same owner for every key when they have the same list. */
  lemma ClientAndProxyAgree(list: seq<Id>, key: Id, chosen: Id)
    requires Sorted(list) && list != [] && IsOwner(IdsOf(list), key, chosen)
    ensures chosen == list[OwnerIndex(list, key)]
  {
    ListGivesTheOwner(list, key);
    OwnerIsUnique(IdsOf(list), key, chosen, list[OwnerIndex(list, key)]);
  }

  // ----- the proxy, after a change of the list

  /** The owners other than the proxy itself of the first `n` bound keys. */
  predicate OwnsOneOf(list: seq<Id>, keys: seq<Id>, n: nat, i: nat)
    requires list != [] && n <= |keys|
  {
    exists k :: 0 <= k < n && OwnerIndex(list, keys[k]) == i
  }

  /** One message to every other proxy that now owns a bound key, and no second one: `notified`
      remembers who has been told. */
  method Reconfigure(list: seq<Id>, keys: seq<Id>, self: Id) returns (sent: seq<Id>)
    requires Sorted(list) && list != []
    ensures forall i, j :: 0 <= i < j < |sent| ==> sent[i] != sent[j]
    ensures forall i :: 0 <= i < |list| ==> (list[i] in sent <==> list[i] != self && OwnsOneOf(list, keys, |keys|, i))
    ensures forall o :: o in sent ==> o in list
  {
    sent := [];
    var notified := seq(|list|, _ => false);
    for k := 0 to |keys|
      invariant |notified| == |list|
      invariant forall i, j :: 0 <= i < j < |sent| ==> sent[i] != sent[j]
      invariant forall o :: o in sent ==> o in list
      invariant forall i :: 0 <= i < |list| ==> (list[i] in sent <==> notified[i])
      invariant forall i :: 0 <= i < |list| ==> (notified[i] <==> list[i] != self && OwnsOneOf(list, keys, k, i))
    {
      var it := OwnerIndex(list, keys[k]);
      forall i | 0 <= i < |list|
        ensures OwnsOneOf(list, keys, k + 1, i) <==> OwnsOneOf(list, keys, k, i) || i == it
      {
        if OwnsOneOf(list, keys, k, i) {
          var m :| 0 <= m < k && OwnerIndex(list, keys[m]) == i;
          assert 0 <= m < k + 1;
        }
      }
      if list[it] != self && !notified[it] {
        notified := notified[it := true];
        sent := sent + [list[it]];
      }
    }
  }

  // ----- the ring of watchers

  /** Whom a proxy watches: the next id above its own, else the first. */
  function Watched(list: seq<Id>, x: Id): Id
    requires list != []
  {
    list[OwnerIndex(list, x)]
  }

  function Iterate(list: seq<Id>, x: Id, m: nat): Id
    requires list != []
  {
    if m == 0 then x else Watched(list, Iterate(list, x, m - 1))
  }

  /** The index `m` places after `i` around the list. */
  function Around(n: nat, i: nat, m: nat): nat
    requires i < n && m <= n
  {
    if i + m < n then i + m else i + m - n
  }

  lemma WatchedIsNext(list: seq<Id>, i: nat)
    requires Sorted(list) && i < |list|
    ensures Watched(list, list[i]) == list[Around(|list|, i, 1)]
  {
    UpperBoundSplits(list, list[i]);
    var u := UpperBound(list, list[i]);
    assert u < |list| ==> list[u] > list[i];
    assert i + 1 < |list| ==> list[i + 1] > list[i];
  }

  lemma {:induction false} IterateGoesAround(list: seq<Id>, i: nat, m: nat)
    requires Sorted(list) && i < |list| && m <= |list|
    ensures Iterate(list, list[i], m) == list[Around(|list|, i, m)]
  {
    if m > 0 {
      IterateGoesAround(list, i, m - 1);
      WatchedIsNext(list, Around(|list|, i, m - 1));
    }
  }

  predicate Visits(list: seq<Id>, x: Id, y: Id)
    requires list != []
  {
    exists m: nat :: m < |list| && Iterate(list, x, m) == y
  }

  lemma IterationsDiffer(list: seq<Id>, i: nat, a: nat, b: nat)
    requires Sorted(list) && i < |list| && a < b < |list|
    ensures Iterate(list, list[i], a) != Iterate(list, list[i], b)
  {
    IterateGoesAround(list, i, a);
    IterateGoesAround(list, i, b);
    var p, q := Around(|list|, i, a), Around(|list|, i, b);
    assert p < q || q < p;
  }

  lemma IterationReaches(list: seq<Id>, i: nat, j: nat)
    requires Sorted(list) && i < |list| && j < |list|
    ensures Visits(list, list[i], list[j])
  {
    var m: nat := if j >= i then j - i else j - i + |list|;
    IterateGoesAround(list, i, m);
  }

  /** The watchers form one cycle: from any proxy, the steps before the n-th visit every proxy
      exactly once, and the n-th one is back at the start. */
  lemma WatchRingIsOneCycle(list: seq<Id>, i: nat)
    requires Sorted(list) && i < |list|
    ensures Iterate(list, list[i], |list|) == list[i]
    ensures forall x :: x in list ==> Visits(list, list[i], x)
    ensures forall a: nat, b: nat :: a < b < |list| ==> Iterate(list, list[i], a) != Iterate(list, list[i], b)
  {
    IterateGoesAround(list, i, |list|);
    forall x | x in list ensures Visits(list, list[i], x) {
      var j :| 0 <= j < |list| && list[j] == x;
      IterationReaches(list, i, j);
    }
    forall a: nat, b: nat | a < b < |list| ensures Iterate(list, list[i], a) != Iterate(list, list[i], b) {
      IterationsDiffer(list, i, a, b);
    }
  }

  /** With two proxies or more, each is watched by exactly one, and that is another one. */
  lemma WatchedByExactlyOne(list: seq<Id>, j: nat)
    requires Sorted(list) && |list| >= 2 && j < |list|
    ensures exists i :: 0 <= i < |list| && list[i] != list[j] && Watched(list, list[i]) == list[j]
    ensures forall i, k :: (0 <= i < |list| && 0 <= k < |list| &&
              Watched(list, list[i]) == list[j] && Watched(list, list[k]) == list[j]) ==> i == k
  {
    var p := if j > 0 then j - 1 else |list| - 1;
    WatchedIsNext(list, p);
    assert list[p] != list[j];
    forall i | 0 <= i < |list| && Watched(list, list[i]) == list[j] ensures i == p {
      WatchedIsNext(list, i);
      assert Around(|list|, i, 1) == j;
    }
  }
}
