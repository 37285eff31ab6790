/**
  Reading delete vectors back (be/src/storage/tablet_meta_manager.cpp:813-874):
  `get_del_vector` finds the newest delete vector of one segment at or
  below a version, and `list_del_vector` lists, per segment, the newest
  version below a bound.

  Both scan a key range in ascending key order. Within one segment the
  version field holds INT64_MAX - version, so a scan meets the newest
  version first; the lemmas of this module turn that ordering into
  statements about the versions stored.
 */
module DelVectorScan {
  import opened Bytes
  import opened Wrappers
  import opened KeyCodec
  import opened KVStore
  import opened Messages

  /** Every key under the delete-vector prefix is a whole delete-vector key (the store holds no stray keys there). */
  predicate DelVectorKeysWellFormed(data: Data)
  {
    forall k {:trigger HasPrefix(k, DelVectorPrefix)} | k in data && HasPrefix(k, DelVectorPrefix) :: |k| == 24
  }

  /** The versions read from the tails of a run of keys. */
  function KeyVersions(ks: seq<Bytes>): (vs: seq<int64>)
    requires forall i | 0 <= i < |ks| :: |ks[i]| > 8
    ensures |vs| == |ks|
    ensures forall i {:trigger DecodeDelVectorKeyVersion(ks[i])} | 0 <= i < |ks| :: vs[i] == DecodeDelVectorKeyVersion(ks[i])
    decreases |ks|
  {
    if ks == [] then []
    else
      assert forall i | 1 <= i < |ks| :: ks[1..][i - 1] == ks[i];
      [DecodeDelVectorKeyVersion(ks[0])] + KeyVersions(ks[1..])
  }

  // ---------------------------------------------------------------------
  // The keys of one segment
  // ---------------------------------------------------------------------

  /** A key in [DelVectorKey(t, s, INT64_MAX), DelVectorKey(t, s, 0)) lies under the segment's prefix. */
  lemma SegmentRangeKey(tablet_id: int64, segment_id: uint32, k: Bytes)
    requires InRange(k, DelVectorKey(tablet_id, segment_id, INT64_MAX), DelVectorKey(tablet_id, segment_id, 0))
    ensures HasPrefix(k, DelVectorPrefix + TabletIdField(tablet_id) + Fixed32(segment_id))
    ensures |k| >= 16
  {
    InRangeHasPrefix(k, DelVectorPrefix + TabletIdField(tablet_id) + Fixed32(segment_id),
      Fixed64(VersionField(INT64_MAX)), Fixed64(VersionField(0)));
  }

  lemma SegmentRangeKeysLong(tablet_id: int64, segment_id: uint32)
    ensures forall k | InRange(k, DelVectorKey(tablet_id, segment_id, INT64_MAX), DelVectorKey(tablet_id, segment_id, 0)) :: |k| > 8
  {
    forall k | InRange(k, DelVectorKey(tablet_id, segment_id, INT64_MAX), DelVectorKey(tablet_id, segment_id, 0)) {
      SegmentRangeKey(tablet_id, segment_id, k);
    }
  }

  /** In a well-formed store, a stored key of the segment's range is the key of a positive version. */
  lemma SegmentScanKey(data: Data, tablet_id: int64, segment_id: uint32, k: Bytes)
    requires DelVectorKeysWellFormed(data) && k in data
    requires InRange(k, DelVectorKey(tablet_id, segment_id, INT64_MAX), DelVectorKey(tablet_id, segment_id, 0))
    ensures |k| == 24
    ensures k == DelVectorKey(tablet_id, segment_id, DecodeDelVectorKeyVersion(k))
    ensures 0 < DecodeDelVectorKeyVersion(k)
  {
    SegmentRangeKey(tablet_id, segment_id, k);
    PrefixOfPrefix(k, DelVectorPrefix + TabletIdField(tablet_id), Fixed32(segment_id));
    PrefixOfPrefix(k, DelVectorPrefix, TabletIdField(tablet_id));
    DelVectorKeyOfScan(k, tablet_id, segment_id);
    DelVectorKeyInRange(tablet_id, segment_id, INT64_MAX, segment_id, 0, tablet_id, segment_id, DecodeDelVectorKeyVersion(k));
  }

  /** The keys `get_del_vector` visits: the segment's stored keys, in ascending key order. */
  ghost function SegmentScan(data: Data, tablet_id: int64, segment_id: uint32): (ks: seq<Bytes>)
    ensures forall i | 0 <= i < |ks| :: |ks[i]| > 8 && ks[i] in data
  {
    var lo, hi := DelVectorKey(tablet_id, segment_id, INT64_MAX), DelVectorKey(tablet_id, segment_id, 0);
    SegmentRangeKeysLong(tablet_id, segment_id);
    ScanRangeLong(data, lo, hi, 8);
    ScanRange(data, lo, hi)
  }

  /** A scan of a range whose keys are all longer than `n` bytes returns only such keys. */
  lemma ScanRangeLong(data: Data, lo: Bytes, hi: Bytes, n: nat)
    requires forall k | InRange(k, lo, hi) :: |k| > n
    ensures forall i | 0 <= i < |ScanRange(data, lo, hi)| :: |ScanRange(data, lo, hi)[i]| > n
  {
    var ks := ScanRange(data, lo, hi);
    forall i | 0 <= i < |ks| ensures |ks[i]| > n {
      assert ks[i] in ks;
    }
  }

  /** The positive versions stored for one segment. */
  ghost function StoredVersions(data: Data, tablet_id: int64, segment_id: uint32): iset<int64>
  {
    iset v: int64 | 0 < v && DelVectorKey(tablet_id, segment_id, v) in data
  }

  /** Versions strictly decreasing along the sequence. */
  ghost predicate Descending(vs: seq<int64>)
  {
    forall i, j | 0 <= i < j < |vs| :: vs[j] < vs[i]
  }

  /** `vs` lists the versions of `stored`, each once, newest first. */
  ghost predicate ListsNewestFirst(stored: iset<int64>, vs: seq<int64>)
  {
    && (forall i | 0 <= i < |vs| :: vs[i] in stored)
    && Descending(vs)
    && (forall v | v in stored :: v in vs)
  }

  /** In a well-formed store, the scan of a segment meets a later key at an older version. */
  lemma SegmentVersionsDecrease(data: Data, tablet_id: int64, segment_id: uint32, i: nat, j: nat)
    requires DelVectorKeysWellFormed(data)
    requires i < j < |SegmentScan(data, tablet_id, segment_id)|
    ensures var vs := KeyVersions(SegmentScan(data, tablet_id, segment_id)); vs[j] < vs[i]
  {
    var ks := SegmentScan(data, tablet_id, segment_id);
    var vs := KeyVersions(ks);
    assert ks[i] in ks && ks[j] in ks;
    SegmentScanKey(data, tablet_id, segment_id, ks[i]);
    SegmentScanKey(data, tablet_id, segment_id, ks[j]);
    DelVectorKeyOrder(tablet_id, segment_id, vs[i], tablet_id, segment_id, vs[j]);
  }

  /** The i-th key of the scan of a segment is the key of the i-th version, a positive one. */
  lemma SegmentScanAt(data: Data, tablet_id: int64, segment_id: uint32, i: nat)
    requires DelVectorKeysWellFormed(data)
    requires i < |SegmentScan(data, tablet_id, segment_id)|
    ensures var ks := SegmentScan(data, tablet_id, segment_id);
      ks[i] == DelVectorKey(tablet_id, segment_id, KeyVersions(ks)[i]) && 0 < KeyVersions(ks)[i]
  {
    var ks := SegmentScan(data, tablet_id, segment_id);
    assert ks[i] in ks;
    SegmentScanKey(data, tablet_id, segment_id, ks[i]);
  }

  /** In a well-formed store, a stored positive version of the segment is met by the scan of the segment. */
  lemma StoredInSegmentScan(data: Data, tablet_id: int64, segment_id: uint32, v: int64) returns (i: nat)
    requires DelVectorKeysWellFormed(data) && 0 < v && DelVectorKey(tablet_id, segment_id, v) in data
    ensures i < |SegmentScan(data, tablet_id, segment_id)|
    ensures KeyVersions(SegmentScan(data, tablet_id, segment_id))[i] == v
  {
    var ks := SegmentScan(data, tablet_id, segment_id);
    var k := DelVectorKey(tablet_id, segment_id, v);
    DelVectorKeyInRange(tablet_id, segment_id, INT64_MAX, segment_id, 0, tablet_id, segment_id, v);
    assert k in ks;
    i :| 0 <= i < |ks| && ks[i] == k;
    DelVectorKeyRoundTrip(tablet_id, segment_id, v);
  }

  /** In a well-formed store, the scan of a segment lists only stored positive versions, each at its own key. */
  lemma SegmentScanListsStored(data: Data, tablet_id: int64, segment_id: uint32)
    requires DelVectorKeysWellFormed(data)
    ensures var ks := SegmentScan(data, tablet_id, segment_id);
      forall i | 0 <= i < |ks| ::
        && ks[i] == DelVectorKey(tablet_id, segment_id, KeyVersions(ks)[i])
        && KeyVersions(ks)[i] in StoredVersions(data, tablet_id, segment_id)
  {
    var ks := SegmentScan(data, tablet_id, segment_id);
    forall i | 0 <= i < |ks|
      ensures ks[i] == DelVectorKey(tablet_id, segment_id, KeyVersions(ks)[i])
      ensures KeyVersions(ks)[i] in StoredVersions(data, tablet_id, segment_id)
    {
      SegmentScanAt(data, tablet_id, segment_id, i);
    }
  }

  lemma SegmentScanDescending(data: Data, tablet_id: int64, segment_id: uint32)
    requires DelVectorKeysWellFormed(data)
    ensures Descending(KeyVersions(SegmentScan(data, tablet_id, segment_id)))
  {
    var vs := KeyVersions(SegmentScan(data, tablet_id, segment_id));
    forall i, j | 0 <= i < j < |vs|
      ensures vs[j] < vs[i]
    {
      SegmentVersionsDecrease(data, tablet_id, segment_id, i, j);
    }
  }

  lemma SegmentScanComplete(data: Data, tablet_id: int64, segment_id: uint32)
    requires DelVectorKeysWellFormed(data)
    ensures forall v | v in StoredVersions(data, tablet_id, segment_id) ::
      v in KeyVersions(SegmentScan(data, tablet_id, segment_id))
  {
    forall v | v in StoredVersions(data, tablet_id, segment_id)
      ensures v in KeyVersions(SegmentScan(data, tablet_id, segment_id))
    {
      var i := StoredInSegmentScan(data, tablet_id, segment_id, v);
    }
  }

  /** In a well-formed store, the scan of a segment lists its stored positive versions, newest first. */
  lemma SegmentScanVersions(data: Data, tablet_id: int64, segment_id: uint32)
    requires DelVectorKeysWellFormed(data)
    ensures var ks := SegmentScan(data, tablet_id, segment_id);
      && ListsNewestFirst(StoredVersions(data, tablet_id, segment_id), KeyVersions(ks))
      && forall i | 0 <= i < |ks| :: ks[i] == DelVectorKey(tablet_id, segment_id, KeyVersions(ks)[i])
  {
    SegmentScanListsStored(data, tablet_id, segment_id);
    SegmentScanDescending(data, tablet_id, segment_id);
    SegmentScanComplete(data, tablet_id, segment_id);
  }

  // ---------------------------------------------------------------------
  // Newest-first lists
  // ---------------------------------------------------------------------

  /** The position of the first version at most `version`. */
  function FirstAtMost(vs: seq<int64>, version: int64): (r: Option<nat>)
    ensures r.Some? ==> r.value < |vs| && vs[r.value] <= version
    ensures forall j | 0 <= j < |vs| && (r.None? || j < r.value) :: version < vs[j]
    decreases |vs|
  {
    if vs == [] then None
    else if vs[0] <= version then Some(0)
    else
      match FirstAtMost(vs[1..], version)
      case None => None
      case Some(i) => Some(i + 1)
  }

  /** With no version at most `version` listed, every stored version is newer than `version`. */
  lemma NoneAtMost(stored: iset<int64>, vs: seq<int64>, version: int64)
    requires ListsNewestFirst(stored, vs)
    requires FirstAtMost(vs, version).None?
    ensures forall v | v in stored :: version < v
  {
    forall v | v in stored
      ensures version < v
    {
      assert v in vs;
    }
  }

  /** The first version at most `version` listed is the newest stored version at most `version`. */
  lemma FirstAtMostNewest(stored: iset<int64>, vs: seq<int64>, version: int64, i: nat)
    requires ListsNewestFirst(stored, vs)
    requires FirstAtMost(vs, version) == Some(i)
    ensures i < |vs| && vs[i] in stored && vs[i] <= version
    ensures forall w | w in stored && w <= version :: w <= vs[i]
  {
    forall w | w in stored && w <= version
      ensures w <= vs[i]
    {
      assert w in vs;
      var j :| 0 <= j < |vs| && vs[j] == w;
      assert i <= j;
    }
  }

  /** The first version listed is the newest stored; none is listed exactly when none is stored. */
  lemma FirstIsNewest(stored: iset<int64>, vs: seq<int64>)
    requires ListsNewestFirst(stored, vs)
    ensures vs == [] <==> stored == iset{}
    ensures vs != [] ==> vs[0] in stored && forall w | w in stored :: w <= vs[0]
  {
    if vs == [] {
      assert forall v :: v !in stored;
    } else {
      assert vs[0] in stored;
      forall w | w in stored
        ensures w <= vs[0]
      {
        assert w in vs;
        var j :| 0 <= j < |vs| && vs[j] == w;
        assert j == 0 || vs[j] < vs[0];
      }
    }
  }

  // ---------------------------------------------------------------------
  // get_del_vector
  // ---------------------------------------------------------------------

  /** What `get_del_vector` reports: its status, the delete vector it loaded and the newest version it saw. */
  datatype DelVectorLookup = DelVectorLookup(status: Status, delvec: Option<DelVector>, latest_version: Option<int64>)

  /** The outcome of walking the keys `ks` for the newest version at most `version`. */
  ghost function LookupIn(data: Data, codec: Codec, ks: seq<Bytes>, version: int64): DelVectorLookup
    requires forall i | 0 <= i < |ks| :: |ks[i]| > 8 && ks[i] in data
  {
    var vs := KeyVersions(ks);
    var latest := if vs == [] then None else Some(vs[0]);
    match FirstAtMost(vs, version)
    case None => DelVectorLookup(NotFound, None, latest)
    case Some(i) => DelVectorLookup(OK, codec.loadDelVector(vs[i], data[ks[i]]), latest)
  }

  ghost function GetDelVectorResult(data: Data, codec: Codec, tablet_id: int64, segment_id: uint32, version: int64): DelVectorLookup
  {
    LookupIn(data, codec, SegmentScan(data, tablet_id, segment_id), version)
  }

  /**
    `get_del_vector`: walk the segment's keys newest first, remember the
    first version met, and stop at the first version at most `version`,
    loading its delete vector. The loader's own status is overwritten by
    the scan's, so a delete vector that fails to load still reports OK.
   */
  method GetDelVector(store: Store, codec: Codec, tablet_id: int64, segment_id: uint32, version: int64)
    returns (st: Status, delvec: Option<DelVector>, latest_version: Option<int64>)
    ensures DelVectorLookup(st, delvec, latest_version) == GetDelVectorResult(store.data, codec, tablet_id, segment_id, version)
  {
    var keys := store.IterateRange(DelVectorKey(tablet_id, segment_id, INT64_MAX), DelVectorKey(tablet_id, segment_id, 0));
    assert keys == SegmentScan(store.data, tablet_id, segment_id);
    st, delvec, latest_version := VisitNewestFirst(store.data, codec, keys, version);
  }

  /** The callback of `get_del_vector` applied to the scanned keys in order, until it asks to stop. */
  method VisitNewestFirst(data: Data, codec: Codec, keys: seq<Bytes>, version: int64)
    returns (st: Status, delvec: Option<DelVector>, latest_version: Option<int64>)
    requires forall i | 0 <= i < |keys| :: |keys[i]| > 8 && keys[i] in data
    ensures DelVectorLookup(st, delvec, latest_version) == LookupIn(data, codec, keys, version)
  {
    ghost var vs := KeyVersions(keys);
    var found, first := false, true;
    delvec, latest_version := None, None;
    var i := 0;
    while i < |keys| && !found
      invariant 0 <= i <= |keys|
      invariant first <==> i == 0
      invariant latest_version == if i == 0 then None else Some(vs[0])
      invariant !found ==> delvec.None? && forall j | 0 <= j < i :: version < vs[j]
      invariant found ==>
        && 0 < i && vs[i - 1] <= version && (forall j | 0 <= j < i - 1 :: version < vs[j])
        && delvec == codec.loadDelVector(vs[i - 1], data[keys[i - 1]])
    {
      var cv := DecodeDelVectorKeyVersion(keys[i]);
      assert cv == vs[i];
      if first {
        latest_version := Some(cv);
        first := false;
      }
      if version >= cv {
        delvec := codec.loadDelVector(cv, data[keys[i]]);
        found := true;
      }
      i := i + 1;
    }
    if !found {
      return NotFound, delvec, latest_version;
    }
    assert FirstAtMost(vs, version) == Some(i - 1);
    return OK, delvec, latest_version;
  }

  /**
    In a well-formed store, `get_del_vector` finds a delete vector exactly
    when the segment has a stored positive version at most `version`, and
    reports NotFound otherwise.
   */
  lemma GetDelVectorFound(data: Data, codec: Codec, tablet_id: int64, segment_id: uint32, version: int64)
    requires DelVectorKeysWellFormed(data)
    ensures var r := GetDelVectorResult(data, codec, tablet_id, segment_id, version);
      && (r.status == OK || r.status == NotFound)
      && (r.status == OK <==> exists v | v in StoredVersions(data, tablet_id, segment_id) :: v <= version)
  {
    var stored := StoredVersions(data, tablet_id, segment_id);
    var vs := KeyVersions(SegmentScan(data, tablet_id, segment_id));
    SegmentScanVersions(data, tablet_id, segment_id);
    match FirstAtMost(vs, version)
    case None =>
      NoneAtMost(stored, vs, version);
    case Some(i) =>
      FirstAtMostNewest(stored, vs, version, i);
  }

  /**
    In a well-formed store, the delete vector `get_del_vector` loads is the
    one stored at the newest positive version at most `version`.
   */
  lemma GetDelVectorNewest(data: Data, codec: Codec, tablet_id: int64, segment_id: uint32, version: int64)
    requires DelVectorKeysWellFormed(data)
    ensures var r := GetDelVectorResult(data, codec, tablet_id, segment_id, version);
      var stored := StoredVersions(data, tablet_id, segment_id);
      r.status == OK ==>
        exists v | v in stored && v <= version ::
          && r.delvec == codec.loadDelVector(v, data[DelVectorKey(tablet_id, segment_id, v)])
          && forall w | w in stored && w <= version :: w <= v
  {
    var stored := StoredVersions(data, tablet_id, segment_id);
    var ks := SegmentScan(data, tablet_id, segment_id);
    var vs := KeyVersions(ks);
    SegmentScanVersions(data, tablet_id, segment_id);
    match FirstAtMost(vs, version)
    case None =>
    case Some(i) =>
      FirstAtMostNewest(stored, vs, version, i);
      assert ks[i] == DelVectorKey(tablet_id, segment_id, vs[i]);
  }

  /**
    In a well-formed store, the latest version `get_del_vector` reports is
    the newest positive version stored for the segment; there is none
    exactly when the segment has no positive version stored.
   */
  lemma GetDelVectorLatest(data: Data, codec: Codec, tablet_id: int64, segment_id: uint32, version: int64)
    requires DelVectorKeysWellFormed(data)
    ensures var r := GetDelVectorResult(data, codec, tablet_id, segment_id, version);
      var stored := StoredVersions(data, tablet_id, segment_id);
      && (r.latest_version.None? <==> stored == iset{})
      && (r.latest_version.Some? ==>
            r.latest_version.value in stored && forall w | w in stored :: w <= r.latest_version.value)
  {
    var r := GetDelVectorResult(data, codec, tablet_id, segment_id, version);
    var vs := KeyVersions(SegmentScan(data, tablet_id, segment_id));
    assert r.latest_version == if vs == [] then None else Some(vs[0]);
    SegmentScanVersions(data, tablet_id, segment_id);
    FirstIsNewest(StoredVersions(data, tablet_id, segment_id), vs);
  }

  /** In a well-formed store, asking for a stored positive version loads the delete vector stored at it. */
  lemma GetDelVectorAtStoredVersion(data: Data, codec: Codec, tablet_id: int64, segment_id: uint32, version: int64)
    requires DelVectorKeysWellFormed(data) && version in StoredVersions(data, tablet_id, segment_id)
    ensures var r := GetDelVectorResult(data, codec, tablet_id, segment_id, version);
      && r.status == OK
      && r.delvec == codec.loadDelVector(version, data[DelVectorKey(tablet_id, segment_id, version)])
  {
    var stored := StoredVersions(data, tablet_id, segment_id);
    var ks := SegmentScan(data, tablet_id, segment_id);
    var vs := KeyVersions(ks);
    var r := GetDelVectorResult(data, codec, tablet_id, segment_id, version);
    assert r == LookupIn(data, codec, ks, version);
    SegmentScanVersions(data, tablet_id, segment_id);
    match FirstAtMost(vs, version)
    case None =>
      NoneAtMost(stored, vs, version);
      assert false;
    case Some(i) =>
      FirstAtMostNewest(stored, vs, version, i);
      assert vs[i] == version;
      assert ks[i] == DelVectorKey(tablet_id, segment_id, version);
  }

  /**
    A delete vector stored with `set_del_vector` at a positive version is
    what `get_del_vector` returns for that very version, given codecs that
    read back what they wrote.
   */
  lemma SetThenGetDelVector(data: Data, codec: Codec, tablet_id: int64, segment_id: uint32, delvec: DelVector)
    requires DelVectorKeysWellFormed(data) && ParsesBack(codec) && 0 < delvec.version
    ensures var data' := data[DelVectorKey(tablet_id, segment_id, delvec.version) := codec.saveDelVector(delvec)];
      var r := GetDelVectorResult(data', codec, tablet_id, segment_id, delvec.version);
      r.status == OK && r.delvec == Some(delvec)
  {
    var k := DelVectorKey(tablet_id, segment_id, delvec.version);
    var data' := data[k := codec.saveDelVector(delvec)];
    assert DelVectorKeysWellFormed(data');
    assert delvec.version in StoredVersions(data', tablet_id, segment_id);
    GetDelVectorAtStoredVersion(data', codec, tablet_id, segment_id, delvec.version);
    assert codec.loadDelVector(delvec.version, codec.saveDelVector(delvec)) == Some(delvec);
  }
}
