/** The strings under which a storage node files its records: the 32-byte file key, the
    block number in decimal and a field suffix, all concatenated without a separator. */
module StorageKey {
  import opened ByteSeq

  type Uuid = u: Bytes | |u| == 32 witness Zeros(32)

  /** The three fields of the log database. */
  datatype Field = CommittedVersion | PendingVersion | PendingData

  function Ascii(s: string): (b: Bytes)
    ensures |b| == |s|
  {
    seq(|s|, i requires 0 <= i < |s| => if s[i] < 256 as char then s[i] as int else 0)
  }

  function Suffix(f: Field): (s: Bytes)
    ensures |s| == match f case CommittedVersion => 18 case PendingVersion => 8 case PendingData => 5
    ensures s[0] == 45
  {
    match f
    case CommittedVersion => Ascii("-committed-version")
    case PendingVersion => Ascii("-version")
    case PendingData => Ascii("-data")
  }

  predicate IsDigit(b: byte) {
    48 <= b <= 57
  }

  /** `std::to_string` of an unsigned number. */
  function Decimal(n: nat): (s: Bytes)
    ensures |s| > 0 && forall i :: 0 <= i < |s| ==> IsDigit(s[i])
  {
    (if n < 10 then [] else Decimal(n / 10)) + [48 + n % 10]
  }

  /** `std::stoll` of a string of digits. */
  function Parse(s: Bytes): nat
    requires forall i :: 0 <= i < |s| ==> IsDigit(s[i])
  {
    if s == [] then 0
    else
      assert IsDigit(s[|s| - 1]);
      Parse(s[..|s| - 1]) * 10 + (s[|s| - 1] as int - 48)
  }

  lemma {:induction false} DecimalRoundTrip(n: nat)
    ensures Parse(Decimal(n)) == n
  {
    var s := Decimal(n);
    if n < 10 {
      assert s[..|s| - 1] == [];
    } else {
      assert s[..|s| - 1] == Decimal(n / 10);
      DecimalRoundTrip(n / 10);
    }
  }

  /** `packet_header::as_string`. */
  function BlockKey(u: Uuid, block: nat): (k: Bytes)
    ensures |k| > 32
  {
    u + Decimal(block)
  }

  function LogKey(u: Uuid, block: nat, f: Field): Bytes {
    BlockKey(u, block) + Suffix(f)
  }

  /** The tail after a run of digits is empty, or starts with a byte that is no digit. */
  predicate EndsRun(s: Bytes, s': Bytes) {
    if s == [] then s' == [] else s' != [] && !IsDigit(s[0]) && !IsDigit(s'[0])
  }

  lemma RunAtLeast(d: Bytes, s: Bytes, d': Bytes, s': Bytes)
    requires forall i :: 0 <= i < |d'| ==> IsDigit(d'[i])
    requires EndsRun(s, s') && d + s == d' + s'
    ensures |d'| <= |d|
  {
    assert forall i :: 0 <= i < |d'| ==> IsDigit((d' + s')[i]);
    assert s != [] ==> !IsDigit((d + s)[|d|]);
  }

  /** Two digit runs that agree on the whole string agree on where the run ends. */
  lemma DigitRunsAgree(d: Bytes, s: Bytes, d': Bytes, s': Bytes)
    requires forall i :: 0 <= i < |d| ==> IsDigit(d[i])
    requires forall i :: 0 <= i < |d'| ==> IsDigit(d'[i])
    requires EndsRun(s, s') && d + s == d' + s'
    ensures d == d' && s == s'
  {
    RunAtLeast(d, s, d', s');
    RunAtLeast(d', s', d, s);
    assert d == (d + s)[..|d|] && d' == (d' + s')[..|d'|];
    assert s == (d + s)[|d|..] && s' == (d' + s')[|d'|..];
  }

  lemma SplitKey(u: Uuid, x: Bytes, u': Uuid, x': Bytes)
    requires u + x == u' + x'
    ensures u == u' && x == x'
  {
    assert u == (u + x)[..32] && u' == (u' + x')[..32];
    assert x == (u + x)[32..] && x' == (u' + x')[32..];
  }

  /** The key of the committed block determines the file and the block. */
  lemma BlockKeyInjective(u: Uuid, b: nat, u': Uuid, b': nat)
    ensures BlockKey(u, b) == BlockKey(u', b') <==> u == u' && b == b'
  {
    if BlockKey(u, b) == BlockKey(u', b') {
      SplitKey(u, Decimal(b), u', Decimal(b'));
      DecimalRoundTrip(b);
      DecimalRoundTrip(b');
    }
  }

  lemma SplitLogKey(u: Uuid, d: Bytes, s: Bytes, u': Uuid, d': Bytes, s': Bytes)
    requires forall i :: 0 <= i < |d| ==> IsDigit(d[i])
    requires forall i :: 0 <= i < |d'| ==> IsDigit(d'[i])
    requires EndsRun(s, s') && (u + d) + s == (u' + d') + s'
    ensures u == u' && d == d' && s == s'
  {
    assert (u + d) + s == u + (d + s) && (u' + d') + s' == u' + (d' + s');
    SplitKey(u, d + s, u', d' + s');
    DigitRunsAgree(d, s, d', s');
  }

  /** The key of a log field determines the file, the block and the field. */
  lemma LogKeyInjective(u: Uuid, b: nat, f: Field, u': Uuid, b': nat, f': Field)
    ensures LogKey(u, b, f) == LogKey(u', b', f') <==> u == u' && b == b' && f == f'
  {
    if LogKey(u, b, f) == LogKey(u', b', f') {
      SplitLogKey(u, Decimal(b), Suffix(f), u', Decimal(b'), Suffix(f'));
      DecimalRoundTrip(b);
      DecimalRoundTrip(b');
    }
  }
}
