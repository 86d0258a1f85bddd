/** Inputs at which the program does less than its names promise.  The exact conditions stand
    with the operations; these are single cases of them. */
module Cases {
  import opened ByteSeq
  import opened StorageKey
  import opened BlockWalk
  import opened StripedRead
  import opened Directory
  import opened FileSystem
  import opened Leftovers
  import opened CacheTable
  import LruCache

  /** A write of two bytes at the last 32-bit position visits no block. */
  lemma WrappedWriteIsDropped()
    ensures Visited(U32 - 1, 2) == 0
  {
    WalkVisitsRange(U32 - 1, 2);
  }

  /** A write of ten bytes at position 100 records the size 10. */
  lemma SizeMissesItsOffset()
    ensures NewSize(4096, 100, 10) == 10
  {
    assert OffsetOf(4096, 100) == 100;
  }

  /** A file that has grown to 65536 bytes is recorded as empty. */
  lemma SizeFieldWraps(e: DirEntry, time: Bytes)
    requires SizeOf(e) == 0 && |time| == 8
    ensures SizeOf(WithSize(e, U16, time)) == 0
  {
    var r := WithSize(e, U16, time);
    assert r[4..6] == Put16(0);
    PutGet16(0);
  }

  /** With block 0 absent, the byte of block 1 comes back as the first one: a rename copies it to
      the wrong place. */
  lemma AbsentBlockShiftsCopy(x: byte)
    ensures ReadFrom0(4096, map[1 := [x]], 4097) == [x]
  {
    var f: Blocks := map[1 := [x]];
    AlignedReadable(4096, f, 0, 4097);
    AlignedReadable(4096, f, 1, 1);
    NextPieces(4096, 0, 0, 4097);
    NextPieces(4096, 1, 0, 1);
    var ps := Pieces(4096, 0, 0, 4097);
    assert ps[1..] == Pieces(4096, 1, 0, 1) && ps[1..][1..] == [];
    assert ReadPiece(f, ps[0]) == [] && ReadPiece(f, ps[1..][0]) == [x];
    assert ReadPieces(f, ps[1..]) == [x];
  }

  /** A header that counts 64 entries in a file of one 4096-byte block: the program asks for 4160
      bytes, and again for 4160. */
  lemma RereadNeverEnds()
    ensures var f: Blocks := map[0 := Put32(64) + Zeros(60)];
            Attempt(4096, f, FIRST_READ) == Reread(4160) && Attempt(4096, f, 4160) == Reread(4160)
  {
    var header := Put32(64) + Zeros(60);
    var f: Blocks := map[0 := header];
    assert BlockStart(4096, 0) == 0 && BlockStart(4096, 1) == 4096;
    forall b: nat | BlockStart(4096, b) < RECORD ensures b in f {
      LaterBlock(4096, b);
    }
    var flat := Flat(4096, f, RECORD);
    forall i | 0 <= i < 4 ensures flat[i] == header[i] {
      assert BlockOf(4096, i) == 0 && OffsetOf(4096, i) == i;
    }
    assert flat[..4] == Put32(64);
    PutGet32(64);
    SameCount(4096, f, FIRST_READ);
    ReadBound(4096, f, FIRST_READ);
    ReadCovered(4096, f, 0, FIRST_READ, RECORD);
    TooShort(ReadFrom0(4096, f, FIRST_READ), 64);
    RereadOutcome(4096, f);
    assert !Covered(4096, f, 4160) by {
      assert BlockStart(4096, 1) < 4160 && 1 !in f;
    }
  }

  /** A rename onto the name of another entry leaves that name twice. */
  lemma TakenNameIsThereTwice(es: seq<DirEntry>, k: nat, name: Name)
    requires Distinct(es) && k < |es| && Has(es, name) && name != NameOf(es[k])
    ensures !Distinct(es[k := WithName(es[k], name)])
  {
    RenamedInPlace(es, k, name, name);
  }

  /** Sizes and counts in a directory are big-endian, numbers in a cache table little-endian. */
  lemma ByteOrders()
    ensures Put16(0x102) == [1, 2] && Put32(0x102_0304) == [1, 2, 3, 4] && Le(0x102_0304) == [4, 3, 2, 1]
  {
    assert Put32(0x102_0304) == Put16(0x102) + Put16(0x304);
  }

  lemma EntryInBytes(key: Uuid)
    ensures PrintRec(Rec(key, [], Some(Ref(7, 258))), []) == key + [46, 7, 0, 0, 0, 2, 1, 0, 0, 32]
  {
    PrintRecent(LruCache.Item(LruCache.Key(key, 7), 258));
  }

  /** A file of two blocks in a cache table. */
  lemma FileInBytes(key: Uuid, first: Ref, second: Ref)
    ensures PrintRec(Rec(key, [first, second], None), []) ==
            key + [58] + (PrintRef(first) + ([44] + (PrintRef(second) + [32])))
  {
    var r := Rec(key, [first, second], None);
    PrintFileMark(r);
    AfterMarkTail(r.blocks);
    AfterMarkTail([second]);
    assert r.blocks[1..] == [second] && [second][1..] == [];
  }
}
