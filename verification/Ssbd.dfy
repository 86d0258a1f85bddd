/** A storage node (SSBD): one database of committed blocks and one log database, both
    plain maps from strings to strings.  Every handler is proved to act on the record of
    its own block as `BlockRecord` says and to leave every other record alone, although
    all records share the two flat maps. */
module Ssbd {
  import opened ByteSeq
  import opened StorageKey
  import opened BlockRecord

  /** A version entry is missing, empty or the decimal form of a 32-bit number. */
  ghost predicate VersionEntry(log: map<Bytes, Bytes>, k: Bytes) {
    k in log && log[k] != [] ==> exists v: nat :: v < U32 && log[k] == Decimal(v)
  }

  function VersionAt(log: map<Bytes, Bytes>, k: Bytes): nat
    requires VersionEntry(log, k)
  {
    if k !in log || log[k] == [] then 0 else Parse(log[k])
  }

  lemma VersionReadsBack(log: map<Bytes, Bytes>, k: Bytes, version: nat)
    requires version < U32 && k in log && log[k] == Decimal(version)
    ensures VersionEntry(log, k) && VersionAt(log, k) == version
  {
    DecimalRoundTrip(version);
  }

  lemma VersionBound(log: map<Bytes, Bytes>, k: Bytes)
    requires VersionEntry(log, k)
    ensures VersionAt(log, k) < U32
  {
    if k in log && log[k] != [] {
      var v: nat :| v < U32 && log[k] == Decimal(v);
      DecimalRoundTrip(v);
    }
  }

  /** The two version entries of a block are well formed. */
  ghost predicate Versions(log: map<Bytes, Bytes>, u: Uuid, b: nat) {
    VersionEntry(log, LogKey(u, b, CommittedVersion)) && VersionEntry(log, LogKey(u, b, PendingVersion))
  }

  /** The record of a block, gathered from the two databases. */
  function RecordIn(db: map<Bytes, Bytes>, log: map<Bytes, Bytes>, u: Uuid, b: nat): Record
    requires Versions(log, u, b)
  {
    var key := BlockKey(u, b);
    var dataKey := LogKey(u, b, PendingData);
    Record(if key in db then Some(db[key]) else None,
           VersionAt(log, LogKey(u, b, CommittedVersion)),
           VersionAt(log, LogKey(u, b, PendingVersion)),
           if dataKey in log then log[dataKey] else [])
  }

  /** A put under the key of one field leaves the other fields of the block, and all
      fields of other blocks, as they were. */
  lemma PutField(log: map<Bytes, Bytes>, u: Uuid, b: nat, f: Field, value: Bytes, u': Uuid, b': nat, f': Field)
    requires u' != u || b' != b || f' != f
    ensures var log' := log[LogKey(u, b, f) := value];
            var k := LogKey(u', b', f');
            (k in log' <==> k in log) && (k in log ==> log'[k] == log[k])
  {
    LogKeyInjective(u, b, f, u', b', f');
  }

  lemma PutFieldFrame(db: map<Bytes, Bytes>, log: map<Bytes, Bytes>, u: Uuid, b: nat, f: Field, value: Bytes,
                      u': Uuid, b': nat)
    requires Versions(log, u', b') && (u' != u || b' != b)
    ensures var log' := log[LogKey(u, b, f) := value];
            Versions(log', u', b') && RecordIn(db, log', u', b') == RecordIn(db, log, u', b')
  {
    PutField(log, u, b, f, value, u', b', CommittedVersion);
    PutField(log, u, b, f, value, u', b', PendingVersion);
    PutField(log, u, b, f, value, u', b', PendingData);
  }

  ghost predicate AllVersions(log: map<Bytes, Bytes>) {
    forall u: Uuid, b: nat :: Versions(log, u, b)
  }

  ghost predicate SameRecords(db: map<Bytes, Bytes>, log: map<Bytes, Bytes>, log': map<Bytes, Bytes>, u: Uuid, b: nat)
    requires AllVersions(log) && AllVersions(log')
  {
    forall u': Uuid, b': nat :: u' != u || b' != b ==> RecordIn(db, log', u', b') == RecordIn(db, log, u', b')
  }

  lemma PutFieldFrames(db: map<Bytes, Bytes>, log: map<Bytes, Bytes>, u: Uuid, b: nat, f: Field, value: Bytes)
    requires AllVersions(log) && Versions(log[LogKey(u, b, f) := value], u, b)
    ensures AllVersions(log[LogKey(u, b, f) := value])
    ensures SameRecords(db, log, log[LogKey(u, b, f) := value], u, b)
  {
    var log' := log[LogKey(u, b, f) := value];
    forall u': Uuid, b': nat | u' != u || b' != b
      ensures Versions(log', u', b') && RecordIn(db, log', u', b') == RecordIn(db, log, u', b')
    {
      PutFieldFrame(db, log, u, b, f, value, u', b');
    }
  }

  /** A put of a version, then read back together with the other fields. */
  lemma PutVersionHere(db: map<Bytes, Bytes>, log: map<Bytes, Bytes>, u: Uuid, b: nat, f: Field, version: nat)
    requires Versions(log, u, b) && version < U32 && f != PendingData
    ensures var log' := log[LogKey(u, b, f) := Decimal(version)];
            && Versions(log', u, b)
            && RecordIn(db, log', u, b) ==
               var r := RecordIn(db, log, u, b);
               if f == CommittedVersion then r.(committedVersion := version) else r.(pendingVersion := version)
  {
    var other := if f == CommittedVersion then PendingVersion else CommittedVersion;
    PutField(log, u, b, f, Decimal(version), u, b, other);
    PutField(log, u, b, f, Decimal(version), u, b, PendingData);
    VersionReadsBack(log[LogKey(u, b, f) := Decimal(version)], LogKey(u, b, f), version);
  }

  lemma PutDataHere(db: map<Bytes, Bytes>, log: map<Bytes, Bytes>, u: Uuid, b: nat, value: Bytes)
    requires Versions(log, u, b)
    ensures var log' := log[LogKey(u, b, PendingData) := value];
            && Versions(log', u, b)
            && RecordIn(db, log', u, b) == RecordIn(db, log, u, b).(pendingData := value)
  {
    PutField(log, u, b, PendingData, value, u, b, CommittedVersion);
    PutField(log, u, b, PendingData, value, u, b, PendingVersion);
  }

  class Node {
    var db: map<Bytes, Bytes>
    var log: map<Bytes, Bytes>

    ghost predicate Valid()
      reads this
    {
      AllVersions(log)
    }

    function RecordOf(u: Uuid, b: nat): Record
      requires Valid()
      reads this
    {
      RecordIn(db, log, u, b)
    }

    /** Every record but the one of block `b` of file `u` is as in the old state. */
    twostate predicate OthersUnchanged(u: Uuid, b: nat)
      requires old(Valid()) && Valid()
      reads this
    {
      forall u': Uuid, b': nat :: u' != u || b' != b ==> RecordOf(u', b') == old(RecordOf(u', b'))
    }

    constructor ()
      ensures Valid()
      ensures forall u: Uuid, b: nat :: RecordOf(u, b) == FRESH
    {
      db, log := map[], map[];
    }

    method PutBlock(u: Uuid, b: nat, block: Bytes)
      requires Valid()
      modifies this
      ensures Valid() && OthersUnchanged(u, b)
      ensures RecordOf(u, b) == old(RecordOf(u, b)).(committed := Some(block))
    {
      db := db[BlockKey(u, b) := block];
      forall u': Uuid, b': nat {
        BlockKeyInjective(u, b, u', b');
      }
    }

    method PutCommittedVersion(u: Uuid, b: nat, version: nat)
      requires Valid() && version < U32
      modifies this
      ensures Valid() && OthersUnchanged(u, b)
      ensures RecordOf(u, b) == old(RecordOf(u, b)).(committedVersion := version)
    {
      PutVersionHere(db, log, u, b, CommittedVersion, version);
      PutFieldFrames(db, log, u, b, CommittedVersion, Decimal(version));
      log := log[LogKey(u, b, CommittedVersion) := Decimal(version)];
    }

    method PutPendingVersion(u: Uuid, b: nat, version: nat)
      requires Valid() && version < U32
      modifies this
      ensures Valid() && OthersUnchanged(u, b)
      ensures RecordOf(u, b) == old(RecordOf(u, b)).(pendingVersion := version)
    {
      PutVersionHere(db, log, u, b, PendingVersion, version);
      PutFieldFrames(db, log, u, b, PendingVersion, Decimal(version));
      log := log[LogKey(u, b, PendingVersion) := Decimal(version)];
    }

    method PutPendingData(u: Uuid, b: nat, value: Bytes)
      requires Valid()
      modifies this
      ensures Valid() && OthersUnchanged(u, b)
      ensures RecordOf(u, b) == old(RecordOf(u, b)).(pendingData := value)
    {
      PutDataHere(db, log, u, b, value);
      PutFieldFrames(db, log, u, b, PendingData, value);
      log := log[LogKey(u, b, PendingData) := value];
    }

    method PutPendingPrepare(u: Uuid, b: nat, value: Bytes, version: nat)
      requires Valid() && version < U32
      modifies this
      ensures Valid() && OthersUnchanged(u, b)
      ensures RecordOf(u, b) == old(RecordOf(u, b)).(pendingVersion := version, pendingData := value)
    {
      PutPendingVersion(u, b, version);
      PutPendingData(u, b, value);
    }

    /** The common part of both prepares: create the block when it is absent. */
    method EnsureBlock(u: Uuid, b: nat)
      requires Valid()
      modifies this
      ensures Valid() && OthersUnchanged(u, b)
      ensures RecordOf(u, b) == Created(old(RecordOf(u, b)))
    {
      if BlockKey(u, b) !in db {
        PutBlock(u, b, []);
        PutCommittedVersion(u, b, 0);
        PutPendingPrepare(u, b, [], 0);
      }
    }

    method TwoPcPrepare(u: Uuid, b: nat, position: nat, data: Bytes, version: nat) returns (agree: bool)
      requires Valid() && version < U32
      modifies this
      ensures Valid() && OthersUnchanged(u, b)
      ensures Voted(RecordOf(u, b), agree) == Prepare(old(RecordOf(u, b)), position, data, version)
    {
      EnsureBlock(u, b);
      var r := RecordOf(u, b);
      if HavePending(r) {
        agree := false;
      } else {
        var block := Resize(db[BlockKey(u, b)], Max(position + |data|, |db[BlockKey(u, b)]|));
        block := CopyInto(block, position, data);
        PutPendingPrepare(u, b, block, version);
        agree := true;
      }
    }

    method TwoPcPrepareQuick(u: Uuid, b: nat, position: nat, data: Bytes, version: nat) returns (agree: bool)
      requires Valid() && version < U32
      modifies this
      ensures Valid() && OthersUnchanged(u, b)
      ensures Voted(RecordOf(u, b), agree) == PrepareQuick(old(RecordOf(u, b)), position, data, version)
    {
      EnsureBlock(u, b);
      var block := Resize(db[BlockKey(u, b)], Max(position + |data|, |db[BlockKey(u, b)]|));
      block := CopyInto(block, position, data);
      PutPendingPrepare(u, b, block, version);
      agree := true;
    }

    method TwoPcCommitExecute(u: Uuid, b: nat)
      requires Valid()
      modifies this
      ensures Valid() && OthersUnchanged(u, b)
      ensures RecordOf(u, b) == Commit(old(RecordOf(u, b)))
    {
      var r := RecordOf(u, b);
      assert r.pendingVersion < U32 by {
        assert Versions(log, u, b);
        VersionBound(log, LogKey(u, b, PendingVersion));
      }
      PutCommittedVersion(u, b, r.pendingVersion);
      PutBlock(u, b, r.pendingData);
    }

    method TwoPcCommitRollback(u: Uuid, b: nat)
      requires Valid()
      modifies this
      ensures Valid() && OthersUnchanged(u, b)
      ensures RecordOf(u, b) == Rollback(old(RecordOf(u, b)))
    {
      PutPendingPrepare(u, b, [], 0);
    }

    /** A read answers with exactly `size` bytes, the block's own from `position` on and
        zeros past its end; an absent block is answered with an error and no data. */
    method DbRead(u: Uuid, b: nat, position: nat, size: nat) returns (reply: Option<Bytes>)
      requires Valid()
      requires RecordOf(u, b).committed.Some? ==> position <= |Content(RecordOf(u, b))|
      ensures reply.None? <==> RecordOf(u, b).committed.None?
      ensures reply.Some? ==> |reply.value| == size
      ensures reply.Some? ==> forall i :: 0 <= i < size ==> reply.value[i] == At(Content(RecordOf(u, b)), position + i)
    {
      var key := BlockKey(u, b);
      if key !in db {
        return None;
      }
      var block := db[key];
      reply := Some(CopyInto(Zeros(size), 0, block[position..position + Min(|block| - position, size)]));
    }
  }
}
