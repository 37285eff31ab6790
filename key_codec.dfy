/**
  The five key families of the tablet metadata store
  (be/src/storage/tablet_meta_manager.cpp).

    tablet header   "tabletmeta_" <tablet id> "_" <schema hash>   (decimal text)
    meta log        "tlg_" be64(tablet id) be64(log id)
    rowset          "trs_" be64(tablet id) be32(rowset segment id)
    pending rowset  "tpr_" be64(tablet id) be64(version)
    delete vector   "dlv_" be64(tablet id) be32(segment id) be64(INT64_MAX - version)

  Signed fields are written as their two's complement bit pattern. The
  fixed-width decoders check only the length of the key, never its prefix,
  exactly as the source does; the header decoder skips its 11-byte prefix
  without looking at it.
 */
module KeyCodec {
  import opened Bytes
  import opened Wrappers
  import opened Decimal

  const HeaderPrefix: Bytes := [0x74, 0x61, 0x62, 0x6c, 0x65, 0x74, 0x6d, 0x65, 0x74, 0x61, 0x5f] // "tabletmeta_"
  const LogPrefix: Bytes := [0x74, 0x6c, 0x67, 0x5f]             // "tlg_"
  const RowsetPrefix: Bytes := [0x74, 0x72, 0x73, 0x5f]          // "trs_"
  const PendingRowsetPrefix: Bytes := [0x74, 0x70, 0x72, 0x5f]   // "tpr_"
  const DelVectorPrefix: Bytes := [0x64, 0x6c, 0x76, 0x5f]       // "dlv_"
  /** The older rowset namespace that the statistics scan still counts. */
  const LegacyRowsetPrefix: Bytes := [0x72, 0x73, 0x74, 0x5f]    // "rst_"

  // ---------------------------------------------------------------------
  // Fixed-width fields
  // ---------------------------------------------------------------------

  function Fixed64(u: uint64): (s: Bytes)
    ensures |s| == 8
  {
    Pow256Widths();
    BigEndian(u, WIDTH64)
  }

  function Fixed32(u: uint32): (s: Bytes)
    ensures |s| == 4
  {
    Pow256Widths();
    BigEndian(u, WIDTH32)
  }

  function ReadFixed64(s: Bytes): uint64
    requires |s| == 8
  {
    Pow256Widths();
    FromBigEndian(s)
  }

  function ReadFixed32(s: Bytes): uint32
    requires |s| == 4
  {
    Pow256Widths();
    FromBigEndian(s)
  }

  /** `put_fixed64_le(BigEndian::FromHost64(id))` for a signed tablet id. */
  function TabletIdField(id: int64): (s: Bytes)
    ensures |s| == 8
  {
    Fixed64(AsUnsigned64(id))
  }

  lemma Fixed64RoundTrip(u: uint64, s: Bytes)
    requires |s| == 8
    ensures ReadFixed64(Fixed64(u)) == u
    ensures Fixed64(ReadFixed64(s)) == s
  {
    Pow256Widths();
    FromBigEndianOfBigEndian(u, WIDTH64);
    BigEndianOfFromBigEndian(s);
  }

  lemma Fixed32RoundTrip(u: uint32, s: Bytes)
    requires |s| == 4
    ensures ReadFixed32(Fixed32(u)) == u
    ensures Fixed32(ReadFixed32(s)) == s
  {
    Pow256Widths();
    FromBigEndianOfBigEndian(u, WIDTH32);
    BigEndianOfFromBigEndian(s);
  }

  lemma Fixed64Order(a: uint64, b: uint64)
    ensures Below(Fixed64(a), Fixed64(b)) <==> a < b
    ensures Fixed64(a) == Fixed64(b) <==> a == b
  {
    Pow256Widths();
    BigEndianOrder(a, b, WIDTH64);
    BigEndianInjective(a, b, WIDTH64);
  }

  lemma Fixed32Order(a: uint32, b: uint32)
    ensures Below(Fixed32(a), Fixed32(b)) <==> a < b
    ensures Fixed32(a) == Fixed32(b) <==> a == b
  {
    Pow256Widths();
    BigEndianOrder(a, b, WIDTH32);
    BigEndianInjective(a, b, WIDTH32);
  }

  /** Three consecutive slices put back together after a prefix. */
  lemma JoinFields(p: Bytes, x: Bytes, y: Bytes, z: Bytes, f: Bytes)
    requires |f| == |x| + |y| + |z|
    requires x == f[..|x|] && y == f[|x|..|x| + |y|] && z == f[|x| + |y|..]
    ensures p + x + y + z == p + f
  {
    assert x + y + z == f;
  }

  lemma JoinTwoFields(p: Bytes, x: Bytes, y: Bytes, f: Bytes)
    requires |f| == |x| + |y| && x == f[..|x|] && y == f[|x|..]
    ensures p + x + y == p + f
  {
    assert x + y == f;
  }

  /** The slices of a key made of a prefix and three fields are those fields. */
  lemma SplitFields(p: Bytes, x: Bytes, y: Bytes, z: Bytes)
    ensures (p + x + y + z)[|p|..] == x + y + z
    ensures (p + x + y + z)[|p|..][..|x|] == x
    ensures (p + x + y + z)[|p|..][|x|..] == y + z
    ensures (p + x + y + z)[|p|..][|x|..|x| + |y|] == y
    ensures (p + x + y + z)[|p|..][|x| + |y|..] == z
  {
  }

  lemma SplitTwoFields(p: Bytes, x: Bytes, y: Bytes)
    ensures (p + x + y)[|p|..] == x + y
    ensures (p + x + y)[|p|..][..|x|] == x
    ensures (p + x + y)[|p|..][|x|..] == y
  {
  }

  lemma TabletIdFieldOfId(id: int64)
    ensures AsSigned64(ReadFixed64(TabletIdField(id))) == id
  {
    Fixed64RoundTrip(AsUnsigned64(id), TabletIdField(id));
    SignedUnsignedInverse(id, 0);
  }

  lemma TabletIdFieldRead(a: Bytes)
    requires |a| == 8
    ensures TabletIdField(AsSigned64(ReadFixed64(a))) == a
  {
    Fixed64RoundTrip(0, a);
    SignedUnsignedInverse(0, ReadFixed64(a));
  }

  lemma TabletIdOrder(a: int64, b: int64)
    ensures Below(TabletIdField(a), TabletIdField(b)) <==> AsUnsigned64(a) < AsUnsigned64(b)
    ensures TabletIdField(a) == TabletIdField(b) <==> a == b
  {
    Fixed64Order(AsUnsigned64(a), AsUnsigned64(b));
    SignedUnsignedInverse(a, 0);
    SignedUnsignedInverse(b, 0);
  }

  // ---------------------------------------------------------------------
  // Tablet header key: "tabletmeta_<tablet_id>_<schema_hash>"
  // ---------------------------------------------------------------------

  function TabletMetaKey(tablet_id: int64, schema_hash: int32): Bytes
  {
    HeaderPrefix + Text(tablet_id) + [Underscore] + Text(schema_hash)
  }

  /** "tabletmeta_<tablet_id>_": the prefix under which all headers of one tablet sit. */
  function TabletHeaderPrefix(tablet_id: int64): Bytes
  {
    HeaderPrefix + Text(tablet_id) + [Underscore]
  }

  /**
    The key must be longer than `sizeof(HEADER_PREFIX)`, which counts the
    terminating NUL (12 bytes); the text after the first 11 bytes is split
    at its first '_' into a 64-bit tablet id and a 32-bit schema hash.
   */
  function DecodeTabletMetaKey(k: Bytes): (r: Option<(int64, int32)>)
    ensures |k| <= |HeaderPrefix| + 1 ==> r.None?
    ensures |k| > |HeaderPrefix| && Underscore !in k[|HeaderPrefix|..] ==> r.None?
  {
    if |k| <= |HeaderPrefix| + 1 then None
    else
      var rest := k[|HeaderPrefix|..];
      IndexOfFirst(rest, Underscore);
      match IndexOf(rest, Underscore)
      case None => None
      case Some(sep) =>
        match ParseInt64(rest[..sep])
        case None => None
        case Some(id) =>
          match ParseInt32(rest[sep + 1..])
          case None => None
          case Some(hash) => Some((id, hash))
  }

  /**
    The header decoder, stated without the search: given the first '_'
    after the prefix, the key decodes exactly when the text before it is a
    64-bit number and the text after it a 32-bit number.
   */
  lemma DecodeTabletMetaKeyAt(k: Bytes, sep: nat)
    requires |k| > |HeaderPrefix| + 1
    requires |HeaderPrefix| <= sep < |k| && k[sep] == Underscore && Underscore !in k[|HeaderPrefix|..sep]
    ensures DecodeTabletMetaKey(k).Some? <==>
      ParseInt64(k[|HeaderPrefix|..sep]).Some? && ParseInt32(k[sep + 1..]).Some?
    ensures DecodeTabletMetaKey(k).Some? ==>
      DecodeTabletMetaKey(k).value == (ParseInt64(k[|HeaderPrefix|..sep]).value, ParseInt32(k[sep + 1..]).value)
  {
    var n := |HeaderPrefix|;
    var rest := k[n..];
    var a, b := k[n..sep], k[sep + 1..];
    assert IndexOf(rest, Underscore) == Some(sep - n) by {
      assert rest == a + [Underscore] + b;
      IndexOfAfter(a, b, Underscore);
    }
    assert rest[..sep - n] == a && rest[sep - n + 1..] == b;
  }

  lemma {:induction false} IndexOfAfter(a: Bytes, b: Bytes, c: byte)
    requires c !in a
    ensures IndexOf(a + [c] + b, c) == Some(|a|)
  {
    if a != [] {
      assert (a + [c] + b)[1..] == a[1..] + [c] + b;
      IndexOfAfter(a[1..], b, c);
    }
  }

  lemma TabletMetaKeyRoundTrip(tablet_id: int64, schema_hash: int32)
    ensures DecodeTabletMetaKey(TabletMetaKey(tablet_id, schema_hash)) == Some((tablet_id, schema_hash))
  {
    var a, b := Text(tablet_id), Text(schema_hash);
    var k := TabletMetaKey(tablet_id, schema_hash);
    assert k[|HeaderPrefix|..] == a + [Underscore] + b;
    IndexOfAfter(a, b, Underscore);
    assert (a + [Underscore] + b)[..|a|] == a;
    assert (a + [Underscore] + b)[|a| + 1..] == b;
    ParseInt64Text(tablet_id);
    ParseInt32Text(schema_hash);
  }

  /**
    The parser drops whitespace around each number, so a header key with
    spaces or line breaks around its numbers names the same tablet and hash.
   */
  lemma PaddedTabletMetaKeyDecodes(tablet_id: int64, schema_hash: int32, pre1: Bytes, post1: Bytes, pre2: Bytes, post2: Bytes)
    requires AllSpace(pre1) && AllSpace(post1) && AllSpace(pre2) && AllSpace(post2)
    ensures DecodeTabletMetaKey(HeaderPrefix + (pre1 + Text(tablet_id) + post1) + [Underscore] + (pre2 + Text(schema_hash) + post2))
      == Some((tablet_id, schema_hash))
  {
    var a, b := pre1 + Text(tablet_id) + post1, pre2 + Text(schema_hash) + post2;
    assert ParseInt64(a) == Some(tablet_id) by { ParsePadded(pre1, tablet_id, post1); }
    assert ParseInt32(b) == Some(schema_hash) by { ParsePadded(pre2, schema_hash, post2); }
    NoUnderscorePadded(pre1, tablet_id, post1);
    DecodeHeaderFields(a, b);
  }

  /** A key "tabletmeta_" a "_" b, with no '_' in a, decodes to what a and b parse to. */
  lemma DecodeHeaderFields(a: Bytes, b: Bytes)
    requires Underscore !in a && ParseInt64(a).Some? && ParseInt32(b).Some?
    ensures DecodeTabletMetaKey(HeaderPrefix + a + [Underscore] + b) == Some((ParseInt64(a).value, ParseInt32(b).value))
  {
    SplitAtSeparator(HeaderPrefix, a, Underscore, b);
    DecodeTabletMetaKeyAt(HeaderPrefix + a + [Underscore] + b, |HeaderPrefix| + |a|);
  }

  /** The pieces of `p + a + [c] + b`, cut at the separator. */
  lemma SplitAtSeparator(p: Bytes, a: Bytes, c: byte, b: Bytes)
    ensures var k := p + a + [c] + b;
      && |k| == |p| + |a| + 1 + |b|
      && k[|p|..|p| + |a|] == a && k[|p| + |a|] == c && k[|p| + |a| + 1..] == b
  {
    var k := p + a + [c] + b;
    assert k[|p|..|p| + |a|] == a;
    assert k[|p| + |a| + 1..] == b;
  }

  lemma TabletMetaKeyHasTabletPrefix(tablet_id: int64, schema_hash: int32)
    ensures HasPrefix(TabletMetaKey(tablet_id, schema_hash), TabletHeaderPrefix(tablet_id))
    ensures HasPrefix(TabletMetaKey(tablet_id, schema_hash), HeaderPrefix)
  {
    var k := TabletMetaKey(tablet_id, schema_hash);
    assert k[..|TabletHeaderPrefix(tablet_id)|] == TabletHeaderPrefix(tablet_id);
    assert k[..|HeaderPrefix|] == HeaderPrefix;
  }

  /** Any decodable key under one tablet's header prefix names that tablet. */
  lemma TabletHeaderPrefixDecodes(tablet_id: int64, k: Bytes)
    requires HasPrefix(k, TabletHeaderPrefix(tablet_id))
    requires DecodeTabletMetaKey(k).Some?
    ensures DecodeTabletMetaKey(k).value.0 == tablet_id
  {
    var a := Text(tablet_id);
    var n := |HeaderPrefix|;
    PrefixFields(k, HeaderPrefix, a, Underscore);
    DecodeTabletMetaKeyAt(k, n + |a|);
    ParseInt64Text(tablet_id);
  }

  /** The pieces of a key that starts with `p + a + [c]`. */
  lemma PrefixFields(k: Bytes, p: Bytes, a: Bytes, c: byte)
    requires HasPrefix(k, p + a + [c])
    ensures |p| + |a| < |k|
    ensures k[|p|..|p| + |a|] == a && k[|p| + |a|] == c
  {
    var q := p + a + [c];
    assert k[..|q|] == q;
    assert k[|p|..|p| + |a|] == q[|p|..|p| + |a|];
    assert k[|p| + |a|] == q[|p| + |a|];
  }

  // ---------------------------------------------------------------------
  // Meta log key: "tlg_" be64(tablet_id) be64(log_id)
  // ---------------------------------------------------------------------

  function MetaLogKey(tablet_id: int64, log_id: uint64): (k: Bytes)
    ensures |k| == 20
  {
    LogPrefix + TabletIdField(tablet_id) + Fixed64(log_id)
  }

  function DecodeMetaLogKey(k: Bytes): (r: Option<(int64, uint64)>)
    ensures r.Some? <==> |k| == 20
  {
    if |k| != 20 then None
    else
      var f := k[4..];
      Some((AsSigned64(ReadFixed64(f[..8])), ReadFixed64(f[8..])))
  }

  /** The decoded fields re-encode to the family prefix followed by the rest of the key. */
  lemma DecodeMetaLogKeyFields(k: Bytes)
    requires |k| == 20
    ensures var r := DecodeMetaLogKey(k).value; MetaLogKey(r.0, r.1) == LogPrefix + k[4..]
  {
    var f := k[4..];
    var (id, log_id) := DecodeMetaLogKey(k).value;
    assert MetaLogKey(id, log_id) == LogPrefix + f by {
        var x, y := TabletIdField(id), Fixed64(log_id);
        assert x == f[..8] by { TabletIdFieldRead(f[..8]); }
        assert y == f[8..] by { Fixed64RoundTrip(0, f[8..]); }
        JoinTwoFields(LogPrefix, x, y, f);
    }
  }

  /** A key of the family's length under its prefix is the key of the fields it decodes to. */
  lemma MetaLogKeyOfDecoded(k: Bytes)
    requires |k| == 20 && HasPrefix(k, LogPrefix)
    ensures var r := DecodeMetaLogKey(k).value; k == MetaLogKey(r.0, r.1)
  {
    assert k == LogPrefix + k[4..] by {
      assert k[..4] == LogPrefix;
      assert k == k[..4] + k[4..];
    }
    DecodeMetaLogKeyFields(k);
  }

  lemma MetaLogKeyRoundTrip(tablet_id: int64, log_id: uint64)
    ensures DecodeMetaLogKey(MetaLogKey(tablet_id, log_id)) == Some((tablet_id, log_id))
  {
    var x, y := TabletIdField(tablet_id), Fixed64(log_id);
    SplitTwoFields(LogPrefix, x, y);
    TabletIdFieldOfId(tablet_id);
    Fixed64RoundTrip(log_id, y);
  }

  /** Log keys sort by tablet id (as unsigned), then by log id. */
  lemma MetaLogKeyOrder(t1: int64, l1: uint64, t2: int64, l2: uint64)
    ensures Below(MetaLogKey(t1, l1), MetaLogKey(t2, l2)) <==>
      AsUnsigned64(t1) < AsUnsigned64(t2) || (t1 == t2 && l1 < l2)
  {
    BelowFields(LogPrefix, TabletIdField(t1), Fixed64(l1), TabletIdField(t2), Fixed64(l2));
    TabletIdOrder(t1, t2);
    Fixed64Order(l1, l2);
  }

  lemma MetaLogKeyInRange(t: int64, lo: uint64, hi: uint64, t': int64, l: uint64)
    ensures InRange(MetaLogKey(t', l), MetaLogKey(t, lo), MetaLogKey(t, hi)) <==> t' == t && lo <= l < hi
  {
    MetaLogKeyOrder(t', l, t, lo);
    MetaLogKeyOrder(t', l, t, hi);
    SignedUnsignedInverse(t, 0);
    SignedUnsignedInverse(t', 0);
  }

  // ---------------------------------------------------------------------
  // Rowset key: "trs_" be64(tablet_id) be32(rowset_seg_id)
  // ---------------------------------------------------------------------

  function MetaRowsetKey(tablet_id: int64, rowset_id: uint32): (k: Bytes)
    ensures |k| == 16
  {
    RowsetPrefix + TabletIdField(tablet_id) + Fixed32(rowset_id)
  }

  function DecodeMetaRowsetKey(k: Bytes): (r: Option<(int64, uint32)>)
    ensures r.Some? <==> |k| == 16
  {
    if |k| != 16 then None
    else
      var f := k[4..];
      Some((AsSigned64(ReadFixed64(f[..8])), ReadFixed32(f[8..])))
  }

  /** The decoded fields re-encode to the family prefix followed by the rest of the key. */
  lemma DecodeMetaRowsetKeyFields(k: Bytes)
    requires |k| == 16
    ensures var r := DecodeMetaRowsetKey(k).value; MetaRowsetKey(r.0, r.1) == RowsetPrefix + k[4..]
  {
    var f := k[4..];
    var (id, rowset_id) := DecodeMetaRowsetKey(k).value;
    assert MetaRowsetKey(id, rowset_id) == RowsetPrefix + f by {
        var x, y := TabletIdField(id), Fixed32(rowset_id);
        assert x == f[..8] by { TabletIdFieldRead(f[..8]); }
        assert y == f[8..] by { Fixed32RoundTrip(0, f[8..]); }
        JoinTwoFields(RowsetPrefix, x, y, f);
    }
  }

  /** A key of the family's length under its prefix is the key of the fields it decodes to. */
  lemma MetaRowsetKeyOfDecoded(k: Bytes)
    requires |k| == 16 && HasPrefix(k, RowsetPrefix)
    ensures var r := DecodeMetaRowsetKey(k).value; k == MetaRowsetKey(r.0, r.1)
  {
    assert k == RowsetPrefix + k[4..] by {
      assert k[..4] == RowsetPrefix;
      assert k == k[..4] + k[4..];
    }
    DecodeMetaRowsetKeyFields(k);
  }

  lemma MetaRowsetKeyRoundTrip(tablet_id: int64, rowset_id: uint32)
    ensures DecodeMetaRowsetKey(MetaRowsetKey(tablet_id, rowset_id)) == Some((tablet_id, rowset_id))
  {
    var x, y := TabletIdField(tablet_id), Fixed32(rowset_id);
    SplitTwoFields(RowsetPrefix, x, y);
    TabletIdFieldOfId(tablet_id);
    Fixed32RoundTrip(rowset_id, y);
  }

  lemma MetaRowsetKeyOrder(t1: int64, r1: uint32, t2: int64, r2: uint32)
    ensures Below(MetaRowsetKey(t1, r1), MetaRowsetKey(t2, r2)) <==>
      AsUnsigned64(t1) < AsUnsigned64(t2) || (t1 == t2 && r1 < r2)
  {
    BelowFields(RowsetPrefix, TabletIdField(t1), Fixed32(r1), TabletIdField(t2), Fixed32(r2));
    TabletIdOrder(t1, t2);
    Fixed32Order(r1, r2);
  }

  lemma MetaRowsetKeyInRange(t: int64, lo: uint32, hi: uint32, t': int64, r: uint32)
    ensures InRange(MetaRowsetKey(t', r), MetaRowsetKey(t, lo), MetaRowsetKey(t, hi)) <==> t' == t && lo <= r < hi
  {
    MetaRowsetKeyOrder(t', r, t, lo);
    MetaRowsetKeyOrder(t', r, t, hi);
    SignedUnsignedInverse(t, 0);
    SignedUnsignedInverse(t', 0);
  }

  // ---------------------------------------------------------------------
  // Pending rowset key: "tpr_" be64(tablet_id) be64(version)
  // ---------------------------------------------------------------------

  function PendingRowsetKey(tablet_id: int64, version: int64): (k: Bytes)
    ensures |k| == 20
  {
    PendingRowsetPrefix + TabletIdField(tablet_id) + TabletIdField(version)
  }

  function DecodePendingRowsetKey(k: Bytes): (r: Option<(int64, int64)>)
    ensures r.Some? <==> |k| == 20
  {
    if |k| != 20 then None
    else
      var f := k[4..];
      Some((AsSigned64(ReadFixed64(f[..8])), AsSigned64(ReadFixed64(f[8..]))))
  }

  /** The decoded fields re-encode to the family prefix followed by the rest of the key. */
  lemma DecodePendingRowsetKeyFields(k: Bytes)
    requires |k| == 20
    ensures var r := DecodePendingRowsetKey(k).value; PendingRowsetKey(r.0, r.1) == PendingRowsetPrefix + k[4..]
  {
    var f := k[4..];
    var (id, version) := DecodePendingRowsetKey(k).value;
    assert PendingRowsetKey(id, version) == PendingRowsetPrefix + f by {
        var x, y := TabletIdField(id), TabletIdField(version);
        assert x == f[..8] by { TabletIdFieldRead(f[..8]); }
        assert y == f[8..] by { TabletIdFieldRead(f[8..]); }
        JoinTwoFields(PendingRowsetPrefix, x, y, f);
    }
  }

  /** A key of the family's length under its prefix is the key of the fields it decodes to. */
  lemma PendingRowsetKeyOfDecoded(k: Bytes)
    requires |k| == 20 && HasPrefix(k, PendingRowsetPrefix)
    ensures var r := DecodePendingRowsetKey(k).value; k == PendingRowsetKey(r.0, r.1)
  {
    assert k == PendingRowsetPrefix + k[4..] by {
      assert k[..4] == PendingRowsetPrefix;
      assert k == k[..4] + k[4..];
    }
    DecodePendingRowsetKeyFields(k);
  }

  lemma PendingRowsetKeyRoundTrip(tablet_id: int64, version: int64)
    ensures DecodePendingRowsetKey(PendingRowsetKey(tablet_id, version)) == Some((tablet_id, version))
  {
    var x, y := TabletIdField(tablet_id), TabletIdField(version);
    SplitTwoFields(PendingRowsetPrefix, x, y);
    TabletIdFieldOfId(tablet_id);
    TabletIdFieldOfId(version);
  }

  /** Pending keys sort by tablet id, then by the version's bit pattern: negative versions sort last. */
  lemma PendingRowsetKeyOrder(t1: int64, v1: int64, t2: int64, v2: int64)
    ensures Below(PendingRowsetKey(t1, v1), PendingRowsetKey(t2, v2)) <==>
      AsUnsigned64(t1) < AsUnsigned64(t2) || (t1 == t2 && AsUnsigned64(v1) < AsUnsigned64(v2))
  {
    BelowFields(PendingRowsetPrefix, TabletIdField(t1), TabletIdField(v1), TabletIdField(t2), TabletIdField(v2));
    TabletIdOrder(t1, t2);
    TabletIdOrder(v1, v2);
  }

  /** Between two non-negative versions of one tablet lie exactly that tablet's versions lo <= v < hi. */
  lemma PendingRowsetKeyInRange(t: int64, lo: int64, hi: int64, t': int64, v: int64)
    requires 0 <= lo && 0 <= hi
    ensures InRange(PendingRowsetKey(t', v), PendingRowsetKey(t, lo), PendingRowsetKey(t, hi)) <==>
      t' == t && lo <= v < hi
  {
    PendingRowsetKeyOrder(t', v, t, lo);
    PendingRowsetKeyOrder(t', v, t, hi);
    SignedUnsignedInverse(t, 0);
    SignedUnsignedInverse(t', 0);
  }

  // ---------------------------------------------------------------------
  // Delete vector key: "dlv_" be64(tablet_id) be32(segment_id) be64(INT64_MAX - version)
  // ---------------------------------------------------------------------

  /**
    `int64_t v = INT64_MAX - version`, written as a uint64. For a negative
    version the int64 subtraction wraps; its bit pattern is the difference
    modulo 2^64, which for every 64-bit version is the exact difference.
   */
  function VersionField(version: int64): uint64
  {
    INT64_MAX - version
  }

  /** `INT64_MAX - ToHost64(field)`, computed modulo 2^64 and read back as int64. */
  function FieldVersion(field: uint64): int64
  {
    INT64_MAX - field
  }

  /** The wrapping subtractions of the source agree with the exact ones above. */
  lemma VersionFieldWraps(version: int64, field: uint64)
    ensures VersionField(version) == (INT64_MAX - version) % TWO_TO_64
    ensures FieldVersion(field) == AsSigned64((INT64_MAX - field) % TWO_TO_64)
  {
  }

  function DelVectorKey(tablet_id: int64, segment_id: uint32, version: int64): (k: Bytes)
    ensures |k| == 24
  {
    DelVectorPrefix + TabletIdField(tablet_id) + Fixed32(segment_id) + Fixed64(VersionField(version))
  }

  /**
    Reads bytes 4..24; the source only checks the length in debug builds,
    so callers must hand it at least 24 bytes.
   */
  function DecodeDelVectorKey(k: Bytes): (int64, uint32, int64)
    requires |k| >= 24
  {
    (AsSigned64(ReadFixed64(k[4..12])), ReadFixed32(k[12..16]), FieldVersion(ReadFixed64(k[16..24])))
  }

  /** The decoded fields re-encode to the delete-vector prefix followed by bytes 4..24 of the key. */
  lemma DecodeDelVectorKeyFields(k: Bytes)
    requires |k| >= 24
    ensures var r := DecodeDelVectorKey(k); DelVectorKey(r.0, r.1, r.2) == DelVectorPrefix + k[4..24]
  {
    var f := k[4..24];
    SubSlice(k, 4, 24, 0, 8);
    SubSlice(k, 4, 24, 8, 12);
    SubSlice(k, 4, 24, 12, 20);
    assert f[..8] == f[0..8] && f[12..] == f[12..20];
    var r := DecodeDelVectorKey(k);
    DelVectorKeyOfFields(f, r.0, r.1, r.2);
  }

  lemma SubSlice(k: Bytes, lo: nat, hi: nat, i: nat, j: nat)
    requires lo <= hi <= |k| && i <= j <= hi - lo
    ensures k[lo..hi][i..j] == k[lo + i..lo + j]
  {
    forall t | 0 <= t < j - i
      ensures k[lo..hi][i..j][t] == k[lo + i..lo + j][t]
    {
    }
  }

  lemma DelVectorKeyOfFields(f: Bytes, id: int64, segment_id: uint32, version: int64)
    requires |f| == 20
    requires id == AsSigned64(ReadFixed64(f[..8]))
    requires segment_id == ReadFixed32(f[8..12])
    requires version == FieldVersion(ReadFixed64(f[12..]))
    ensures DelVectorKey(id, segment_id, version) == DelVectorPrefix + f
  {
    var x, y, z := TabletIdField(id), Fixed32(segment_id), Fixed64(VersionField(version));
    assert x == f[..8] by { TabletIdFieldRead(f[..8]); }
    assert y == f[8..12] by { Fixed32RoundTrip(0, f[8..12]); }
    assert z == f[12..] by { VersionFieldRead(f[12..]); }
    JoinFields(DelVectorPrefix, x, y, z, f);
  }

  lemma VersionFieldRead(c: Bytes)
    requires |c| == 8
    ensures Fixed64(VersionField(FieldVersion(ReadFixed64(c)))) == c
  {
    var field := ReadFixed64(c);
    Fixed64RoundTrip(0, c);
  }

  /** The version in the last eight bytes of a key (`decode_del_vector_key_version`). */
  function DecodeDelVectorKeyVersion(k: Bytes): int64
    requires |k| > 8
  {
    FieldVersion(ReadFixed64(k[|k| - 8..]))
  }

  /** On a whole delete-vector key, reading the version alone agrees with the full decoding. */
  lemma DecodeDelVectorKeyVersionAgrees(k: Bytes)
    requires |k| == 24
    ensures DecodeDelVectorKeyVersion(k) == DecodeDelVectorKey(k).2
  {
    assert k[|k| - 8..] == k[16..24];
  }

  lemma DelVectorKeyRoundTrip(tablet_id: int64, segment_id: uint32, version: int64)
    ensures DecodeDelVectorKey(DelVectorKey(tablet_id, segment_id, version)) == (tablet_id, segment_id, version)
    ensures DecodeDelVectorKeyVersion(DelVectorKey(tablet_id, segment_id, version)) == version
  {
    var x, y, z := TabletIdField(tablet_id), Fixed32(segment_id), Fixed64(VersionField(version));
    var k := DelVectorKey(tablet_id, segment_id, version);
    assert k[4..12] == x && k[12..16] == y && k[16..24] == z by {
      SplitFields(DelVectorPrefix, x, y, z);
      assert k[4..24] == k[4..];
    }
    var r := DecodeDelVectorKey(k);
    assert r.0 == tablet_id by { TabletIdFieldOfId(tablet_id); }
    assert r.1 == segment_id by { Fixed32RoundTrip(segment_id, y); }
    assert r.2 == version by { Fixed64RoundTrip(VersionField(version), z); }
    DecodeDelVectorKeyVersionAgrees(k);
  }

  /**
    Delete-vector keys sort by tablet id, then segment, then version
    DESCENDING: of two versions of one segment the newer sorts first.
   */
  lemma DelVectorKeyOrder(t1: int64, s1: uint32, v1: int64, t2: int64, s2: uint32, v2: int64)
    ensures Below(DelVectorKey(t1, s1, v1), DelVectorKey(t2, s2, v2)) <==>
      AsUnsigned64(t1) < AsUnsigned64(t2) || (t1 == t2 && (s1 < s2 || (s1 == s2 && v2 < v1)))
  {
    BelowThreeFields(DelVectorPrefix, TabletIdField(t1), Fixed32(s1), Fixed64(VersionField(v1)),
                     TabletIdField(t2), Fixed32(s2), Fixed64(VersionField(v2)));
    TabletIdOrder(t1, t2);
    Fixed32Order(s1, s2);
    Fixed64Order(VersionField(v1), VersionField(v2));
  }

  lemma NewerDelVectorSortsFirst(tablet_id: int64, segment_id: uint32, older: int64, newer: int64)
    requires older < newer
    ensures Below(DelVectorKey(tablet_id, segment_id, newer), DelVectorKey(tablet_id, segment_id, older))
  {
    DelVectorKeyOrder(tablet_id, segment_id, newer, tablet_id, segment_id, older);
  }

  /** The keys between two keys of one tablet are those whose (segment, version) pair lies between. */
  lemma DelVectorKeyInRange(t: int64, s1: uint32, v1: int64, s2: uint32, v2: int64, t': int64, s: uint32, v: int64)
    ensures InRange(DelVectorKey(t', s, v), DelVectorKey(t, s1, v1), DelVectorKey(t, s2, v2)) <==>
      && t' == t
      && (s1 < s || (s1 == s && v <= v1))
      && (s < s2 || (s == s2 && v2 < v))
  {
    DelVectorKeyOrder(t', s, v, t, s1, v1);
    DelVectorKeyOrder(t', s, v, t, s2, v2);
    SignedUnsignedInverse(t, 0);
    SignedUnsignedInverse(t', 0);
  }

  /** Keys of different families never coincide: their first two bytes differ. */
  lemma FamiliesDistinct(t: int64, h: int32, l: uint64, r: uint32, v: int64, s: uint32, w: int64)
    ensures TabletMetaKey(t, h)[0] == 0x74 && TabletMetaKey(t, h)[1] == 0x61
    ensures MetaLogKey(t, l)[0] == 0x74 && MetaLogKey(t, l)[1] == 0x6c
    ensures MetaRowsetKey(t, r)[0] == 0x74 && MetaRowsetKey(t, r)[1] == 0x72
    ensures PendingRowsetKey(t, v)[0] == 0x74 && PendingRowsetKey(t, v)[1] == 0x70
    ensures DelVectorKey(t, s, w)[0] == 0x64 && DelVectorKey(t, s, w)[1] == 0x6c
  {
  }

  /** The first two bytes of a key under a family prefix are those of the prefix. */
  lemma PrefixHead(k: Bytes, p: Bytes, q: Bytes)
    requires HasPrefix(k, p + q) && |p| >= 2
    ensures k[0] == p[0] && k[1] == p[1]
  {
    assert k[0] == k[..|p + q|][0] && k[1] == k[..|p + q|][1];
  }

  /** A whole delete-vector key under the prefix of one tablet and segment is the key of its own version. */
  lemma DelVectorKeyOfScan(k: Bytes, tablet_id: int64, segment_id: uint32)
    requires |k| == 24 && HasPrefix(k, DelVectorPrefix + TabletIdField(tablet_id) + Fixed32(segment_id))
    ensures k == DelVectorKey(tablet_id, segment_id, DecodeDelVectorKeyVersion(k))
  {
    var p := DelVectorPrefix + TabletIdField(tablet_id) + Fixed32(segment_id);
    var c := k[16..];
    assert |p| == 16 && k[..16] == p;
    assert k == k[..16] + c;
    assert k[|k| - 8..] == c;
    VersionFieldRead(c);
    assert Fixed64(VersionField(DecodeDelVectorKeyVersion(k))) == c;
  }

  /** A whole key under the delete-vector prefix is the key of the fields it decodes to. */
  lemma DelVectorKeyOfDecoded(k: Bytes)
    requires |k| == 24 && HasPrefix(k, DelVectorPrefix)
    ensures var r := DecodeDelVectorKey(k); k == DelVectorKey(r.0, r.1, r.2)
  {
    var f := k[4..];
    assert k == DelVectorPrefix + f by {
      assert k[..4] == DelVectorPrefix;
      assert k == k[..4] + f;
    }
    assert k[4..24] == f;
    DecodeDelVectorKeyFields(k);
  }
}
