/**
  Listing the delete vectors of a tablet, `list_del_vector`
  (be/src/storage/tablet_meta_manager.cpp:851-874).

  The scan runs over [DelVectorKey(t, 0, INT64_MAX), DelVectorKey(t, UINT32_MAX, 0)),
  so it meets the segments in ascending order and, inside a segment, the
  newest version first. The callback lists a (segment, version) pair when
  the segment differs from the last one listed and the version is below
  the bound; the last segment starts out as UINT32_MAX, so a first entry
  of segment UINT32_MAX is never listed.
 */
module DelVectorList {
  import opened Bytes
  import opened KeyCodec
  import opened KVStore
  import opened DelVectorScan

  /** A listed pair: segment id and version. */
  type Entry = (uint32, int64)

  /** The segment the callback compares against: the last one listed, UINT32_MAX before any. */
  function LastSegment(ret: seq<Entry>): uint32
  {
    if ret == [] then UINT32_MAX else ret[|ret| - 1].0
  }

  /** One call of the callback on a decoded key. */
  function ListStep(ret: seq<Entry>, e: Entry, max_version: int64): seq<Entry>
  {
    if e.0 != LastSegment(ret) && e.1 < max_version then ret + [e] else ret
  }

  /** The callback folded over the decoded keys, in scan order. */
  function Collect(es: seq<Entry>, max_version: int64): seq<Entry>
    decreases |es|
  {
    if es == [] then [] else ListStep(Collect(es[..|es| - 1], max_version), es[|es| - 1], max_version)
  }

  /** The decoded key, for a key long enough to hold one. */
  function KeyEntry(k: Bytes): seq<Entry>
  {
    if |k| < 24 then [] else var r := DecodeDelVectorKey(k); [(r.1, r.2)]
  }

  /** The (segment, version) pairs of a run of keys, in order. */
  function KeyEntries(keys: seq<Bytes>): seq<Entry>
    decreases |keys|
  {
    if keys == [] then [] else KeyEntries(keys[..|keys| - 1]) + KeyEntry(keys[|keys| - 1])
  }

  /** The keys `list_del_vector` visits: the tablet's stored delete-vector keys, ascending. */
  ghost function TabletScan(data: Data, tablet_id: int64): seq<Bytes>
  {
    ScanRange(data, DelVectorKey(tablet_id, 0, INT64_MAX), DelVectorKey(tablet_id, UINT32_MAX, 0))
  }

  /** What `list_del_vector` returns on a store holding `data`. */
  ghost function ListDelVectorResult(data: Data, tablet_id: int64, max_version: int64): seq<Entry>
  {
    Collect(KeyEntries(TabletScan(data, tablet_id)), max_version)
  }

  /** `list_del_vector`: scans the tablet's delete-vector keys and lists, per segment, the newest version below `max_version`. */
  method ListDelVector(store: Store, tablet_id: int64, max_version: int64) returns (ret: seq<Entry>)
    ensures ret == ListDelVectorResult(store.data, tablet_id, max_version)
  {
    var keys := store.IterateRange(DelVectorKey(tablet_id, 0, INT64_MAX), DelVectorKey(tablet_id, UINT32_MAX, 0));
    ret := CollectListed(keys, max_version);
  }

  /** The scan callback of `list_del_vector` run over the keys it is handed. */
  method CollectListed(keys: seq<Bytes>, max_version: int64) returns (ret: seq<Entry>)
    ensures ret == Collect(KeyEntries(keys), max_version)
  {
    ret := [];
    var last_segment_id: uint32 := UINT32_MAX;
    var i := 0;
    while i < |keys|
      invariant 0 <= i <= |keys|
      invariant ret == Collect(KeyEntries(keys[..i]), max_version)
      invariant last_segment_id == LastSegment(ret)
    {
      var k := keys[i];
      ghost var es := KeyEntries(keys[..i]);
      assert keys[..i + 1][..i] == keys[..i];
      assert KeyEntries(keys[..i + 1]) == es + KeyEntry(k);
      if |k| >= 24 {
        var (_, segment_id, version) := DecodeDelVectorKey(k);
        CollectSnoc(es, (segment_id, version), max_version);
        if segment_id != last_segment_id && version < max_version {
          ret := ret + [(segment_id, version)];
          last_segment_id := segment_id;
        }
      } else {
        assert es + KeyEntry(k) == es;
      }
      i := i + 1;
    }
    assert keys[..|keys|] == keys;
  }

  lemma CollectSnoc(es: seq<Entry>, e: Entry, max_version: int64)
    ensures Collect(es + [e], max_version) == ListStep(Collect(es, max_version), e, max_version)
  {
    assert (es + [e])[..|es|] == es;
  }

  // ---------------------------------------------------------------------
  // The fold over entries in scan order
  // ---------------------------------------------------------------------

  /** `a` comes before `b` in a key scan: a lower segment, or the same segment and a newer version. */
  predicate ScanBefore(a: Entry, b: Entry)
  {
    a.0 < b.0 || (a.0 == b.0 && b.1 < a.1)
  }

  ghost predicate ScanOrdered(es: seq<Entry>)
  {
    forall i, j {:trigger ScanBefore(es[i], es[j])} | 0 <= i < j < |es| :: ScanBefore(es[i], es[j])
  }

  predicate SegmentBefore(a: Entry, b: Entry)
  {
    a.0 < b.0
  }

  ghost predicate SegmentsAscending(ret: seq<Entry>)
  {
    forall i, j {:trigger SegmentBefore(ret[i], ret[j])} | 0 <= i < j < |ret| :: SegmentBefore(ret[i], ret[j])
  }

  /** Every listed pair was scanned and lies below the bound. */
  ghost predicate ListedFrom(es: seq<Entry>, max_version: int64, ret: seq<Entry>)
  {
    forall i | 0 <= i < |ret| :: ret[i] in es && ret[i].1 < max_version
  }

  /** `e` is no newer than `r` when it is of r's segment and below the bound. */
  predicate NoNewer(e: Entry, r: Entry, max_version: int64)
  {
    e.0 == r.0 && e.1 < max_version ==> e.1 <= r.1
  }

  /** A listed version is the newest scanned version of its segment below the bound. */
  ghost predicate ListedNewest(es: seq<Entry>, max_version: int64, ret: seq<Entry>)
  {
    forall i, j {:trigger NoNewer(es[j], ret[i], max_version)} | 0 <= i < |ret| && 0 <= j < |es| ::
      NoNewer(es[j], ret[i], max_version)
  }

  /** Every scanned segment with a version below the bound is listed, unless it is segment UINT32_MAX met before any listing. */
  ghost predicate ListedComplete(es: seq<Entry>, max_version: int64, ret: seq<Entry>)
  {
    forall j {:trigger Covered(es[j], max_version, ret)} | 0 <= j < |es| :: Covered(es[j], max_version, ret)
  }

  /** The segment of a scanned entry below the bound is listed, or it is segment UINT32_MAX and nothing is listed yet. */
  predicate Covered(e: Entry, max_version: int64, ret: seq<Entry>)
  {
    e.1 < max_version ==> (exists i | 0 <= i < |ret| :: ret[i].0 == e.0) || (e.0 == UINT32_MAX && ret == [])
  }

  ghost predicate FoldInvariant(es: seq<Entry>, max_version: int64, ret: seq<Entry>)
  {
    && SegmentsAscending(ret)
    && ListedFrom(es, max_version, ret)
    && ListedNewest(es, max_version, ret)
    && ListedComplete(es, max_version, ret)
    && (ret != [] ==> ret[0].0 != UINT32_MAX)
  }

  lemma ScanOrderedLast(es: seq<Entry>, e: Entry)
    requires ScanOrdered(es + [e])
    ensures ScanOrdered(es)
    ensures forall j | 0 <= j < |es| :: ScanBefore(es[j], e)
  {
    var es' := es + [e];
    forall i, j | 0 <= i < j < |es|
      ensures ScanBefore(es[i], es[j])
    {
      assert ScanBefore(es'[i], es'[j]);
    }
    forall j | 0 <= j < |es|
      ensures ScanBefore(es[j], e)
    {
      assert ScanBefore(es'[j], es'[|es|]);
    }
  }

  /** Listed segments all lie strictly below a segment the callback is about to list. */
  lemma ListedBelow(es: seq<Entry>, e: Entry, max_version: int64, ret: seq<Entry>)
    requires forall j | 0 <= j < |es| :: ScanBefore(es[j], e)
    requires SegmentsAscending(ret) && ListedFrom(es, max_version, ret)
    requires e.0 != LastSegment(ret)
    ensures forall i | 0 <= i < |ret| :: ret[i].0 < e.0
  {
    if ret != [] {
      var n := |ret| - 1;
      assert ret[n] in es;
      var k :| 0 <= k < |es| && es[k] == ret[n];
      assert ScanBefore(es[k], e);
      forall i | 0 <= i < |ret|
        ensures ret[i].0 < e.0
      {
        if i < n {
          assert SegmentBefore(ret[i], ret[n]);
        }
      }
    }
  }

  /** The step when the callback lists the entry. */
  lemma StepAppends(es: seq<Entry>, e: Entry, max_version: int64, ret: seq<Entry>)
    requires forall j | 0 <= j < |es| :: ScanBefore(es[j], e)
    requires FoldInvariant(es, max_version, ret)
    requires e.0 != LastSegment(ret) && e.1 < max_version
    ensures FoldInvariant(es + [e], max_version, ret + [e])
  {
    var es', ret' := es + [e], ret + [e];
    ListedBelow(es, e, max_version, ret);
    assert SegmentsAscending(ret') by {
      forall i, j | 0 <= i < j < |ret'|
        ensures SegmentBefore(ret'[i], ret'[j])
      {
        if j < |ret| {
          assert SegmentBefore(ret[i], ret[j]);
        }
      }
    }
    assert ListedFrom(es', max_version, ret') by {
      forall i | 0 <= i < |ret'|
        ensures ret'[i] in es' && ret'[i].1 < max_version
      {
        if i < |ret| {
          var k :| 0 <= k < |es| && es[k] == ret[i];
          assert es'[k] == es[k];
        } else {
          assert es'[|es|] == e;
        }
      }
    }
    // no scanned entry of e's segment lies below the bound
    forall j | 0 <= j < |es| && es[j].1 < max_version
      ensures es[j].0 != e.0
    {
      assert ScanBefore(es[j], e);
      assert Covered(es[j], max_version, ret);
    }
    assert ListedNewest(es', max_version, ret') by {
      forall i, j | 0 <= i < |ret'| && 0 <= j < |es'|
        ensures NoNewer(es'[j], ret'[i], max_version)
      {
        if i < |ret| && j < |es| {
          assert NoNewer(es[j], ret[i], max_version);
        } else if i < |ret| {
          assert es'[j] == e;
        } else if j < |es| {
          assert es'[j] == es[j];
        }
      }
    }
    assert ListedComplete(es', max_version, ret') by {
      forall j | 0 <= j < |es'|
        ensures Covered(es'[j], max_version, ret')
      {
        if j < |es| && es[j].1 < max_version {
          assert es'[j] == es[j];
          assert ScanBefore(es[j], e);
          assert Covered(es[j], max_version, ret);
          var i :| 0 <= i < |ret| && ret[i].0 == es[j].0;
          assert ret'[i] == ret[i];
        } else if j == |es| {
          assert ret'[|ret|] == e;
        }
      }
    }
    assert ret'[0] == if ret == [] then e else ret[0];
  }

  /** The step when the callback passes the entry over. */
  lemma StepSkips(es: seq<Entry>, e: Entry, max_version: int64, ret: seq<Entry>)
    requires forall j | 0 <= j < |es| :: ScanBefore(es[j], e)
    requires FoldInvariant(es, max_version, ret)
    requires !(e.0 != LastSegment(ret) && e.1 < max_version)
    ensures FoldInvariant(es + [e], max_version, ret)
  {
    var es' := es + [e];
    assert ListedFrom(es', max_version, ret) by {
      forall i | 0 <= i < |ret|
        ensures ret[i] in es'
      {
        var k :| 0 <= k < |es| && es[k] == ret[i];
        assert es'[k] == es[k];
      }
    }
    assert ListedNewest(es', max_version, ret) by {
      forall i, j | 0 <= i < |ret| && 0 <= j < |es'|
        ensures NoNewer(es'[j], ret[i], max_version)
      {
        if j < |es| {
          assert es'[j] == es[j];
          assert NoNewer(es[j], ret[i], max_version);
        } else {
          var k :| 0 <= k < |es| && es[k] == ret[i];
          assert ScanBefore(es[k], e);
          assert es'[j] == e;
        }
      }
    }
    assert ListedComplete(es', max_version, ret) by {
      forall j | 0 <= j < |es'|
        ensures Covered(es'[j], max_version, ret)
      {
        if j < |es| {
          assert es'[j] == es[j];
          assert Covered(es[j], max_version, ret);
        } else if ret != [] {
          assert es'[j] == e;
          if e.1 < max_version {
            assert ret[|ret| - 1].0 == e.0;
          }
        } else {
          assert es'[j] == e;
        }
      }
    }
  }

  /** The fold keeps its invariant over any run of entries in scan order. */
  lemma {:induction false} CollectInvariant(es: seq<Entry>, max_version: int64)
    requires ScanOrdered(es)
    ensures FoldInvariant(es, max_version, Collect(es, max_version))
    decreases |es|
  {
    if es != [] {
      var init, e := es[..|es| - 1], es[|es| - 1];
      assert es == init + [e];
      ScanOrderedLast(init, e);
      CollectInvariant(init, max_version);
      var ret := Collect(init, max_version);
      if e.0 != LastSegment(ret) && e.1 < max_version {
        StepAppends(init, e, max_version, ret);
      } else {
        StepSkips(init, e, max_version, ret);
      }
    }
  }

  // ---------------------------------------------------------------------
  // From the stored keys to entries
  // ---------------------------------------------------------------------

  /** A key in the tablet's range lies under the delete-vector prefix. */
  lemma TabletRangeKey(tablet_id: int64, k: Bytes)
    requires InRange(k, DelVectorKey(tablet_id, 0, INT64_MAX), DelVectorKey(tablet_id, UINT32_MAX, 0))
    ensures HasPrefix(k, DelVectorPrefix)
  {
    var p := DelVectorPrefix + TabletIdField(tablet_id);
    InRangeFieldsHasPrefix(k, p, Fixed32(0), Fixed64(VersionField(INT64_MAX)), Fixed32(UINT32_MAX), Fixed64(VersionField(0)));
    PrefixOfPrefix(k, DelVectorPrefix, TabletIdField(tablet_id));
  }

  /** In a well-formed store, a stored key of the tablet's range is the key of its decoded segment and version. */
  lemma TabletScanKey(data: Data, tablet_id: int64, k: Bytes)
    requires DelVectorKeysWellFormed(data) && k in data
    requires InRange(k, DelVectorKey(tablet_id, 0, INT64_MAX), DelVectorKey(tablet_id, UINT32_MAX, 0))
    ensures |k| == 24
    ensures var r := DecodeDelVectorKey(k);
      k == DelVectorKey(tablet_id, r.1, r.2) && (r.1 < UINT32_MAX || 0 < r.2)
  {
    TabletRangeKey(tablet_id, k);
    var r := DecodeDelVectorKey(k);
    DelVectorKeyOfDecoded(k);
    DelVectorKeyInRange(tablet_id, 0, INT64_MAX, UINT32_MAX, 0, r.0, r.1, r.2);
  }

  /** Under well-formedness every key of the tablet scan decodes, one entry per key. */
  lemma {:induction false} KeyEntriesOfWhole(keys: seq<Bytes>)
    requires forall i | 0 <= i < |keys| :: |keys[i]| >= 24
    ensures |KeyEntries(keys)| == |keys|
    ensures forall i | 0 <= i < |keys| :: KeyEntry(keys[i]) == [KeyEntries(keys)[i]]
    decreases |keys|
  {
    if keys != [] {
      var init, k := keys[..|keys| - 1], keys[|keys| - 1];
      assert forall i | 0 <= i < |init| :: init[i] == keys[i];
      KeyEntriesOfWhole(init);
      var a, b := KeyEntries(init), KeyEntry(k);
      assert KeyEntries(keys) == a + b;
      assert |b| == 1;
      forall i | 0 <= i < |keys|
        ensures KeyEntry(keys[i]) == [KeyEntries(keys)[i]]
      {
        if i < |init| {
          assert (a + b)[i] == a[i];
        } else {
          assert (a + b)[i] == b[0];
        }
      }
    }
  }

  /** In a well-formed store, every key the tablet scan meets is a whole delete-vector key. */
  lemma TabletScanLong(data: Data, tablet_id: int64)
    requires DelVectorKeysWellFormed(data)
    ensures forall i | 0 <= i < |TabletScan(data, tablet_id)| :: |TabletScan(data, tablet_id)[i]| >= 24
  {
    var keys := TabletScan(data, tablet_id);
    forall i | 0 <= i < |keys|
      ensures |keys[i]| >= 24
    {
      assert keys[i] in keys;
      TabletRangeKey(tablet_id, keys[i]);
    }
  }

  /** The entry read from a stored key of the tablet's range names that key. */
  lemma ScanEntry(data: Data, tablet_id: int64, k: Bytes, e: Entry)
    requires DelVectorKeysWellFormed(data) && k in data
    requires InRange(k, DelVectorKey(tablet_id, 0, INT64_MAX), DelVectorKey(tablet_id, UINT32_MAX, 0))
    requires KeyEntry(k) == [e]
    ensures k == DelVectorKey(tablet_id, e.0, e.1)
    ensures e.0 < UINT32_MAX || 0 < e.1
  {
    TabletScanKey(data, tablet_id, k);
  }

  /** The tablet scan meets its entries in scan order. */
  lemma TabletEntriesOrdered(data: Data, tablet_id: int64) returns (es: seq<Entry>)
    requires DelVectorKeysWellFormed(data)
    ensures es == KeyEntries(TabletScan(data, tablet_id))
    ensures ScanOrdered(es)
  {
    var keys := TabletScan(data, tablet_id);
    TabletScanLong(data, tablet_id);
    KeyEntriesOfWhole(keys);
    es := KeyEntries(keys);
    forall j | 0 <= j < |es|
      ensures keys[j] == DelVectorKey(tablet_id, es[j].0, es[j].1)
    {
      assert keys[j] in keys;
      ScanEntry(data, tablet_id, keys[j], es[j]);
    }
    forall i, j | 0 <= i < j < |es|
      ensures ScanBefore(es[i], es[j])
    {
      assert Below(keys[i], keys[j]);
      DelVectorKeyOrder(tablet_id, es[i].0, es[i].1, tablet_id, es[j].0, es[j].1);
    }
  }

  /** Each entry of the tablet scan names a stored key; segment UINT32_MAX only with a positive version. */
  lemma TabletEntryStored(data: Data, tablet_id: int64, es: seq<Entry>, j: nat)
    requires DelVectorKeysWellFormed(data)
    requires es == KeyEntries(TabletScan(data, tablet_id))
    requires j < |es|
    ensures DelVectorKey(tablet_id, es[j].0, es[j].1) in data
    ensures es[j].0 < UINT32_MAX || 0 < es[j].1
  {
    var keys := TabletScan(data, tablet_id);
    TabletScanLong(data, tablet_id);
    KeyEntriesOfWhole(keys);
    assert keys[j] in keys;
    ScanEntry(data, tablet_id, keys[j], es[j]);
  }

  /** A stored key of the tablet's scanned range shows up among the entries. */
  lemma StoredInTabletEntries(data: Data, tablet_id: int64, es: seq<Entry>, s: uint32, v: int64) returns (j: nat)
    requires DelVectorKeysWellFormed(data)
    requires es == KeyEntries(TabletScan(data, tablet_id))
    requires DelVectorKey(tablet_id, s, v) in data && (s < UINT32_MAX || 0 < v)
    ensures j < |es| && es[j] == (s, v)
  {
    var keys := TabletScan(data, tablet_id);
    var k := DelVectorKey(tablet_id, s, v);
    DelVectorKeyInRange(tablet_id, 0, INT64_MAX, UINT32_MAX, 0, tablet_id, s, v);
    assert k in keys;
    j :| 0 <= j < |keys| && keys[j] == k;
    TabletScanLong(data, tablet_id);
    KeyEntriesOfWhole(keys);
    assert KeyEntry(k) == [es[j]];
    DelVectorKeyRoundTrip(tablet_id, s, v);
  }

  // ---------------------------------------------------------------------
  // What list_del_vector returns
  // ---------------------------------------------------------------------

  /** Listed segments are strictly ascending and segment UINT32_MAX is never the first one listed. */
  lemma ListDelVectorAscending(data: Data, tablet_id: int64, max_version: int64)
    requires DelVectorKeysWellFormed(data)
    ensures var ret := ListDelVectorResult(data, tablet_id, max_version);
      && (forall i, j | 0 <= i < j < |ret| :: ret[i].0 < ret[j].0)
      && (ret != [] ==> ret[0].0 < UINT32_MAX)
  {
    var es := TabletEntriesOrdered(data, tablet_id);
    CollectInvariant(es, max_version);
    var ret := Collect(es, max_version);
    forall i, j | 0 <= i < j < |ret|
      ensures ret[i].0 < ret[j].0
    {
      assert SegmentBefore(ret[i], ret[j]);
    }
  }

  /** Every listed pair is a stored delete vector of the tablet below the bound, the newest such of its segment. */
  lemma ListDelVectorNewest(data: Data, tablet_id: int64, max_version: int64, i: nat)
    requires DelVectorKeysWellFormed(data)
    requires i < |ListDelVectorResult(data, tablet_id, max_version)|
    ensures var r := ListDelVectorResult(data, tablet_id, max_version)[i];
      && DelVectorKey(tablet_id, r.0, r.1) in data
      && r.1 < max_version
      && (forall w: int64 | DelVectorKey(tablet_id, r.0, w) in data && w < max_version :: w <= r.1)
  {
    var es := TabletEntriesOrdered(data, tablet_id);
    CollectInvariant(es, max_version);
    var r := Collect(es, max_version)[i];
    assert r in es;
    var k :| 0 <= k < |es| && es[k] == r;
    TabletEntryStored(data, tablet_id, es, k);
    forall w: int64 | DelVectorKey(tablet_id, r.0, w) in data && w < max_version
      ensures w <= r.1
    {
      if r.0 < UINT32_MAX || 0 < w {
        var j := StoredInTabletEntries(data, tablet_id, es, r.0, w);
        assert NoNewer(es[j], Collect(es, max_version)[i], max_version);
      }
    }
  }

  /** Every segment below UINT32_MAX with a stored version below the bound is listed. */
  lemma ListDelVectorComplete(data: Data, tablet_id: int64, max_version: int64, s: uint32, v: int64)
    requires DelVectorKeysWellFormed(data)
    requires s < UINT32_MAX && DelVectorKey(tablet_id, s, v) in data && v < max_version
    ensures var ret := ListDelVectorResult(data, tablet_id, max_version);
      exists i | 0 <= i < |ret| :: ret[i].0 == s
  {
    var es := TabletEntriesOrdered(data, tablet_id);
    CollectInvariant(es, max_version);
    var j := StoredInTabletEntries(data, tablet_id, es, s, v);
    var ret := Collect(es, max_version);
    assert ret == ListDelVectorResult(data, tablet_id, max_version);
    assert Covered(es[j], max_version, ret);
    var i :| 0 <= i < |ret| && ret[i].0 == s;
  }
}
