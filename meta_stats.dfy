/**
  `get_stats` (be/src/storage/tablet_meta_manager.cpp:947-1099): six scans,
  one per key family, each counting entries and value bytes into the
  caller's statistics record and adding the family's totals to the overall
  ones. With `detail`, the header scan also builds a per-tablet record and
  the later scans add to the record of the tablet a key names.

  The counting differs from family to family, and the model keeps each
  difference: a header key that does not decode or whose value does not
  parse is an error; every "rst_" and every "dlv_" key is counted; a log or
  rowset key that does not decode is an error; a pending-rowset key that
  does not decode is passed over without being counted anywhere. In detail
  mode a log entry of an unknown tablet is not an error, while a delete
  vector, rowset or pending rowset of one is.

  Each scan callback is a function of the record and one entry (`...Stats`);
  the scan folds it over the keys (`Fold`), and `Scan` is the loop that does
  so. The lemmas say what each scan adds, and what the whole of `get_stats`
  leaves in the record.
 */
module MetaStats {
  import opened Bytes
  import opened Wrappers
  import opened KeyCodec
  import opened KVStore
  import opened Messages

  /** `TabletMetaStats`: what detail mode gathers for one tablet. */
  datatype TabletMetaStats = TabletMetaStats(
    tablet_id: int64, table_id: int64, meta_bytes: nat,
    log_size: nat, log_bytes: nat, delvec_size: nat, delvec_bytes: nat,
    rowset_size: nat, rowset_bytes: nat, pending_rowset_size: nat, pending_rowset_bytes: nat)

  /** `MetaStoreStats`: the counters `get_stats` adds to, and the per-tablet records of detail mode. */
  datatype MetaStoreStats = MetaStoreStats(
    tablet_size: nat, tablet_bytes: nat, update_tablet_size: nat, update_tablet_bytes: nat,
    rst_size: nat, rst_bytes: nat, log_size: nat, log_bytes: nat,
    delvec_size: nat, delvec_bytes: nat, rowset_size: nat, rowset_bytes: nat,
    pending_rowset_size: nat, pending_rowset_bytes: nat,
    total_size: nat, total_bytes: nat, error_size: nat,
    tablets: map<int64, TabletMetaStats>)

  /** A scan callback: the record after one entry (key, value). */
  type Step = (MetaStoreStats, Bytes, Bytes) -> MetaStoreStats

  // ---------------------------------------------------------------------
  // The scans
  // ---------------------------------------------------------------------

  /** The record after a scan has handed the callback each key, in order, with its value. */
  function Fold(step: Step, s: MetaStoreStats, data: Data, keys: seq<Bytes>): MetaStoreStats
    decreases |keys|
  {
    if keys == [] then s
    else
      var n := |keys| - 1;
      step(Fold(step, s, data, keys[..n]), keys[n], ValueAt(data, keys[n]))
  }

  /** A sum over the keys of a weight of each key and its value. */
  function SumOver(g: (Bytes, Bytes) -> int, data: Data, keys: seq<Bytes>): int
    decreases |keys|
  {
    if keys == [] then 0 else var n := |keys| - 1; SumOver(g, data, keys[..n]) + g(keys[n], ValueAt(data, keys[n]))
  }

  /** A set gathered over the keys from each key and its value. */
  function UnionOver(g: (Bytes, Bytes) -> set<int64>, data: Data, keys: seq<Bytes>): set<int64>
    decreases |keys|
  {
    if keys == [] then {} else var n := |keys| - 1; UnionOver(g, data, keys[..n]) + g(keys[n], ValueAt(data, keys[n]))
  }

  /** Weight 1 for the entries that satisfy `p`: summed, the number of them. */
  function One(p: (Bytes, Bytes) -> bool): (Bytes, Bytes) -> int
  {
    (k, v) => if p(k, v) then 1 else 0
  }

  /** The value size of the entries that satisfy `p`: summed, their bytes. */
  function Size(p: (Bytes, Bytes) -> bool): (Bytes, Bytes) -> int
  {
    (k, v) => if p(k, v) then |v| else 0
  }

  /** Every entry. */
  function Every(): (Bytes, Bytes) -> bool
  {
    (k, v) => true
  }

  // ---------------------------------------------------------------------
  // The callbacks
  // ---------------------------------------------------------------------

  /** What a header entry reads as: its tablet id and parsed meta, or None when the key or the value is bad. */
  type HeaderRead = (Bytes, Bytes) -> Option<(int64, TabletMetaPB)>

  /** The tablet a key of a family names, or None when the key does not decode. */
  type TabletOf = Bytes -> Option<int64>

  function ParseHeader(codec: Codec, k: Bytes, v: Bytes): Option<(int64, TabletMetaPB)>
  {
    match DecodeTabletMetaKey(k)
    case None => None
    case Some((tid, _)) =>
      match codec.parseMeta(v)
      case None => None
      case Some(meta) => Some((tid, meta))
  }

  function HeaderParser(codec: Codec): HeaderRead
  {
    (k, v) => ParseHeader(codec, k, v)
  }

  function LogKeyTablet(k: Bytes): Option<int64>
  {
    match DecodeMetaLogKey(k)
    case None => None
    case Some((tid, _)) => Some(tid)
  }

  function RowsetKeyTablet(k: Bytes): Option<int64>
  {
    match DecodeMetaRowsetKey(k)
    case None => None
    case Some((tid, _)) => Some(tid)
  }

  function PendingRowsetKeyTablet(k: Bytes): Option<int64>
  {
    match DecodePendingRowsetKey(k)
    case None => None
    case Some((tid, _)) => Some(tid)
  }

  /** The tablet a delete-vector key names; a key too short to hold one names none. */
  function DelVectorKeyTablet(k: Bytes): Option<int64>
  {
    if |k| < 24 then None else Some(DecodeDelVectorKey(k).0)
  }

  function LogTablet(): TabletOf
  {
    k => LogKeyTablet(k)
  }

  function RowsetTablet(): TabletOf
  {
    k => RowsetKeyTablet(k)
  }

  function PendingRowsetTablet(): TabletOf
  {
    k => PendingRowsetKeyTablet(k)
  }

  function DelVectorTablet(): TabletOf
  {
    k => DelVectorKeyTablet(k)
  }

  /** The record detail mode starts for a tablet when its header parses. */
  function NewTabletStats(tablet_id: int64, meta: TabletMetaPB, meta_bytes: nat): TabletMetaStats
  {
    TabletMetaStats(tablet_id, meta.table_id, meta_bytes, 0, 0, 0, 0, 0, 0, 0, 0)
  }

  /** The header callback: bad keys and unparsable headers are errors; in detail mode a repeated tablet id is one too, and its record is started afresh. */
  function HeaderStats(read: HeaderRead, detail: bool, s: MetaStoreStats, k: Bytes, v: Bytes): MetaStoreStats
  {
    match read(k, v)
    case None => s.(error_size := s.error_size + 1)
    case Some((tid, meta)) =>
      var counted := s.(tablet_size := s.tablet_size + 1, tablet_bytes := s.tablet_bytes + |v|);
      var updated := if IsPrimary(meta) then
          counted.(update_tablet_size := counted.update_tablet_size + 1,
                   update_tablet_bytes := counted.update_tablet_bytes + |v|)
        else counted;
      if !detail then updated
      else
        updated.(error_size := updated.error_size + (if tid in updated.tablets then 1 else 0),
                 tablets := updated.tablets[tid := NewTabletStats(tid, meta, |v|)])
  }

  /** The "rst_" callback: every entry counts. */
  function RstStats(s: MetaStoreStats, k: Bytes, v: Bytes): MetaStoreStats
  {
    s.(rst_size := s.rst_size + 1, rst_bytes := s.rst_bytes + |v|)
  }

  /** The log callback: a bad key is an error; an entry of a tablet without a record is counted but is no error. */
  function LogStats(tablet: TabletOf, detail: bool, s: MetaStoreStats, k: Bytes, v: Bytes): MetaStoreStats
  {
    match tablet(k)
    case None => s.(error_size := s.error_size + 1)
    case Some(tid) =>
      var counted := s.(log_size := s.log_size + 1, log_bytes := s.log_bytes + |v|);
      if detail && tid in counted.tablets then
        var t := counted.tablets[tid];
        counted.(tablets := counted.tablets[tid := t.(log_size := t.log_size + 1, log_bytes := t.log_bytes + |v|)])
      else counted
  }

  /** The delete-vector callback: every entry counts, its key unchecked; in detail mode one of a tablet without a record is an error. */
  function DelVectorStats(tablet: TabletOf, detail: bool, s: MetaStoreStats, k: Bytes, v: Bytes): MetaStoreStats
  {
    var counted := s.(delvec_size := s.delvec_size + 1, delvec_bytes := s.delvec_bytes + |v|);
    if !detail then counted
    else
      match tablet(k)
      case Some(tid) =>
        if tid in counted.tablets then
          var t := counted.tablets[tid];
          counted.(tablets := counted.tablets[tid := t.(delvec_size := t.delvec_size + 1, delvec_bytes := t.delvec_bytes + |v|)])
        else counted.(error_size := counted.error_size + 1)
      case None => counted.(error_size := counted.error_size + 1)
  }

  /** The rowset callback: a bad key is an error; in detail mode so is a rowset of a tablet without a record. */
  function RowsetStats(tablet: TabletOf, detail: bool, s: MetaStoreStats, k: Bytes, v: Bytes): MetaStoreStats
  {
    match tablet(k)
    case None => s.(error_size := s.error_size + 1)
    case Some(tid) =>
      var counted := s.(rowset_size := s.rowset_size + 1, rowset_bytes := s.rowset_bytes + |v|);
      if !detail then counted
      else if tid in counted.tablets then
        var t := counted.tablets[tid];
        counted.(tablets := counted.tablets[tid := t.(rowset_size := t.rowset_size + 1, rowset_bytes := t.rowset_bytes + |v|)])
      else counted.(error_size := counted.error_size + 1)
  }

  /** The pending-rowset callback: a bad key is passed over uncounted; in detail mode a pending rowset of a tablet without a record is an error. */
  function PendingRowsetStats(tablet: TabletOf, detail: bool, s: MetaStoreStats, k: Bytes, v: Bytes): MetaStoreStats
  {
    match tablet(k)
    case None => s
    case Some(tid) =>
      var counted := s.(pending_rowset_size := s.pending_rowset_size + 1,
                        pending_rowset_bytes := s.pending_rowset_bytes + |v|);
      if !detail then counted
      else if tid in counted.tablets then
        var t := counted.tablets[tid];
        counted.(tablets := counted.tablets[tid := t.(pending_rowset_size := t.pending_rowset_size + 1,
                                                      pending_rowset_bytes := t.pending_rowset_bytes + |v|)])
      else counted.(error_size := counted.error_size + 1)
  }

  function HeaderStep(read: HeaderRead, detail: bool): Step
  {
    (s, k, v) => HeaderStats(read, detail, s, k, v)
  }

  function RstStep(): Step
  {
    (s, k, v) => RstStats(s, k, v)
  }

  function LogStep(tablet: TabletOf, detail: bool): Step
  {
    (s, k, v) => LogStats(tablet, detail, s, k, v)
  }

  function DelVectorStep(tablet: TabletOf, detail: bool): Step
  {
    (s, k, v) => DelVectorStats(tablet, detail, s, k, v)
  }

  function RowsetStep(tablet: TabletOf, detail: bool): Step
  {
    (s, k, v) => RowsetStats(tablet, detail, s, k, v)
  }

  function PendingRowsetStep(tablet: TabletOf, detail: bool): Step
  {
    (s, k, v) => PendingRowsetStats(tablet, detail, s, k, v)
  }

  // ---------------------------------------------------------------------
  // get_stats
  // ---------------------------------------------------------------------

  /** After each scan, the family's counters are added to the overall ones. */
  function WithTotals(s: MetaStoreStats, size: nat, bytes: nat): MetaStoreStats
  {
    s.(total_size := s.total_size + size, total_bytes := s.total_bytes + bytes)
  }

  /** The keys of each family, in the order the iteration meets them. */
  datatype FamilyKeys = FamilyKeys(headers: seq<Bytes>, rst: seq<Bytes>, logs: seq<Bytes>,
                                   delvecs: seq<Bytes>, rowsets: seq<Bytes>, pendings: seq<Bytes>)

  /** The six prefix scans of `get_stats`, over the store's contents. */
  ghost function KeysOf(data: Data): FamilyKeys
  {
    FamilyKeys(ScanPrefix(data, HeaderPrefix), ScanPrefix(data, LegacyRowsetPrefix), ScanPrefix(data, LogPrefix),
               ScanPrefix(data, DelVectorPrefix), ScanPrefix(data, RowsetPrefix), ScanPrefix(data, PendingRowsetPrefix))
  }

  /** The header scan and its totals. */
  function AfterHeaderScan(data: Data, read: HeaderRead, keys: seq<Bytes>, s: MetaStoreStats, detail: bool): MetaStoreStats
  {
    var r := Fold(HeaderStep(read, detail), s, data, keys);
    WithTotals(r, r.tablet_size, r.tablet_bytes)
  }

  /** The "rst_" scan and its totals. */
  function AfterRstScan(data: Data, keys: seq<Bytes>, s: MetaStoreStats): MetaStoreStats
  {
    var r := Fold(RstStep(), s, data, keys);
    WithTotals(r, r.rst_size, r.rst_bytes)
  }

  /** The log scan and its totals. */
  function AfterLogScan(data: Data, tablet: TabletOf, keys: seq<Bytes>, s: MetaStoreStats, detail: bool): MetaStoreStats
  {
    var r := Fold(LogStep(tablet, detail), s, data, keys);
    WithTotals(r, r.log_size, r.log_bytes)
  }

  /** The delete-vector scan and its totals. */
  function AfterDelVectorScan(data: Data, tablet: TabletOf, keys: seq<Bytes>, s: MetaStoreStats, detail: bool): MetaStoreStats
  {
    var r := Fold(DelVectorStep(tablet, detail), s, data, keys);
    WithTotals(r, r.delvec_size, r.delvec_bytes)
  }

  /** The rowset scan and its totals. */
  function AfterRowsetScan(data: Data, tablet: TabletOf, keys: seq<Bytes>, s: MetaStoreStats, detail: bool): MetaStoreStats
  {
    var r := Fold(RowsetStep(tablet, detail), s, data, keys);
    WithTotals(r, r.rowset_size, r.rowset_bytes)
  }

  /** The pending-rowset scan and its totals. */
  function AfterPendingRowsetScan(data: Data, tablet: TabletOf, keys: seq<Bytes>, s: MetaStoreStats, detail: bool): MetaStoreStats
  {
    var r := Fold(PendingRowsetStep(tablet, detail), s, data, keys);
    WithTotals(r, r.pending_rowset_size, r.pending_rowset_bytes)
  }

  /** What `get_stats` leaves in the caller's record, which held `s0`, when the scans meet the keys `fk`. */
  function StatsAfter(data: Data, codec: Codec, fk: FamilyKeys, s0: MetaStoreStats, detail: bool): MetaStoreStats
  {
    var s1 := AfterHeaderScan(data, HeaderParser(codec), fk.headers, s0, detail);
    var s2 := AfterRstScan(data, fk.rst, s1);
    var s3 := AfterLogScan(data, LogTablet(), fk.logs, s2, detail);
    var s4 := AfterDelVectorScan(data, DelVectorTablet(), fk.delvecs, s3, detail);
    var s5 := AfterRowsetScan(data, RowsetTablet(), fk.rowsets, s4, detail);
    AfterPendingRowsetScan(data, PendingRowsetTablet(), fk.pendings, s5, detail)
  }

  /** The caller's statistics record, which `get_stats` updates in place. */
  class StatsRecord {
    var stats: MetaStoreStats
  }

  /** One scan of `get_stats`: the callback, run on each key and value the iteration meets, updating the record. */
  method Scan(step: Step, rec: StatsRecord, data: Data, keys: seq<Bytes>)
    modifies rec
    ensures rec.stats == Fold(step, old(rec.stats), data, keys)
  {
    ghost var s0 := rec.stats;
    var i := 0;
    while i < |keys|
      invariant i <= |keys|
      invariant rec.stats == Fold(step, s0, data, keys[..i])
    {
      assert keys[..i + 1][..i] == keys[..i];
      rec.stats := step(rec.stats, keys[i], ValueAt(data, keys[i]));
      i := i + 1;
    }
    assert keys[..i] == keys;
  }

  /** Adds the counters of a family to the overall ones. */
  method AddTotals(rec: StatsRecord, size: nat, bytes: nat)
    modifies rec
    ensures rec.stats == WithTotals(old(rec.stats), size, bytes)
  {
    rec.stats := rec.stats.(total_size := rec.stats.total_size + size, total_bytes := rec.stats.total_bytes + bytes);
  }

  /** `get_stats`: the six scans in order, each followed by its totals; the scans themselves always succeed. */
  method GetStats(store: Store, codec: Codec, rec: StatsRecord, detail: bool) returns (st: Status)
    modifies rec
    ensures st == OK
    ensures rec.stats == StatsAfter(store.data, codec, KeysOf(store.data), old(rec.stats), detail)
  {
    var keys := store.Iterate(HeaderPrefix);
    Scan(HeaderStep(HeaderParser(codec), detail), rec, store.data, keys);
    AddTotals(rec, rec.stats.tablet_size, rec.stats.tablet_bytes);
    keys := store.Iterate(LegacyRowsetPrefix);
    Scan(RstStep(), rec, store.data, keys);
    AddTotals(rec, rec.stats.rst_size, rec.stats.rst_bytes);
    keys := store.Iterate(LogPrefix);
    Scan(LogStep(LogTablet(), detail), rec, store.data, keys);
    AddTotals(rec, rec.stats.log_size, rec.stats.log_bytes);
    keys := store.Iterate(DelVectorPrefix);
    Scan(DelVectorStep(DelVectorTablet(), detail), rec, store.data, keys);
    AddTotals(rec, rec.stats.delvec_size, rec.stats.delvec_bytes);
    keys := store.Iterate(RowsetPrefix);
    Scan(RowsetStep(RowsetTablet(), detail), rec, store.data, keys);
    AddTotals(rec, rec.stats.rowset_size, rec.stats.rowset_bytes);
    keys := store.Iterate(PendingRowsetPrefix);
    Scan(PendingRowsetStep(PendingRowsetTablet(), detail), rec, store.data, keys);
    AddTotals(rec, rec.stats.pending_rowset_size, rec.stats.pending_rowset_bytes);
    st := OK;
  }

  // ---------------------------------------------------------------------
  // Which entries a scan counts
  // ---------------------------------------------------------------------

  function Count(p: (Bytes, Bytes) -> bool, data: Data, keys: seq<Bytes>): int
  {
    SumOver(One(p), data, keys)
  }

  function SizeOf(p: (Bytes, Bytes) -> bool, data: Data, keys: seq<Bytes>): int
  {
    SumOver(Size(p), data, keys)
  }

  /** Header entries whose key decodes and whose value parses. */
  function Parsed(read: HeaderRead): (Bytes, Bytes) -> bool
  {
    (k, v) => read(k, v).Some?
  }

  function Unparsed(read: HeaderRead): (Bytes, Bytes) -> bool
  {
    (k, v) => read(k, v).None?
  }

  /** Parsed headers of primary-key tablets. */
  function PrimaryParsed(read: HeaderRead): (Bytes, Bytes) -> bool
  {
    (k, v) => read(k, v).Some? && IsPrimary(read(k, v).value.1)
  }

  /** The tablet id of a parsed header, as a set of at most one. */
  function ParsedTablet(read: HeaderRead): (Bytes, Bytes) -> set<int64>
  {
    (k, v) => if read(k, v).Some? then {read(k, v).value.0} else {}
  }

  function Decodes(tablet: TabletOf): (Bytes, Bytes) -> bool
  {
    (k, v) => tablet(k).Some?
  }

  function Undecodable(tablet: TabletOf): (Bytes, Bytes) -> bool
  {
    (k, v) => tablet(k).None?
  }

  /** Entries of tablet `tid`. */
  function OfTablet(tablet: TabletOf, tid: int64): (Bytes, Bytes) -> bool
  {
    (k, v) => tablet(k) == Some(tid)
  }

  /** Entries of a tablet outside `d`. */
  function Orphan(tablet: TabletOf, d: set<int64>): (Bytes, Bytes) -> bool
  {
    (k, v) => tablet(k).Some? && tablet(k).value !in d
  }

  /** Entries that name no tablet of `d`: bad keys and orphans. */
  function Unowned(tablet: TabletOf, d: set<int64>): (Bytes, Bytes) -> bool
  {
    (k, v) => tablet(k).None? || tablet(k).value !in d
  }

  /** The counters of a tablet's record, zero when the header scan starts it. */
  predicate Fresh(t: TabletMetaStats)
  {
    t.log_size == 0 && t.log_bytes == 0 && t.delvec_size == 0 && t.delvec_bytes == 0 &&
    t.rowset_size == 0 && t.rowset_bytes == 0 && t.pending_rowset_size == 0 && t.pending_rowset_bytes == 0
  }

  // The fields a scan does not own, with the ones it owns blanked out.

  function OutsideHeader(s: MetaStoreStats): MetaStoreStats
  {
    s.(tablet_size := 0, tablet_bytes := 0, update_tablet_size := 0, update_tablet_bytes := 0,
       error_size := 0, tablets := map[])
  }

  function OutsideRst(s: MetaStoreStats): MetaStoreStats
  {
    s.(rst_size := 0, rst_bytes := 0)
  }

  function OutsideLog(s: MetaStoreStats): MetaStoreStats
  {
    s.(log_size := 0, log_bytes := 0, error_size := 0, tablets := map[])
  }

  function OutsideDelVector(s: MetaStoreStats): MetaStoreStats
  {
    s.(delvec_size := 0, delvec_bytes := 0, error_size := 0, tablets := map[])
  }

  function OutsideRowset(s: MetaStoreStats): MetaStoreStats
  {
    s.(rowset_size := 0, rowset_bytes := 0, error_size := 0, tablets := map[])
  }

  function OutsidePendingRowset(s: MetaStoreStats): MetaStoreStats
  {
    s.(pending_rowset_size := 0, pending_rowset_bytes := 0, error_size := 0, tablets := map[])
  }

  // ---------------------------------------------------------------------
  // What each scan adds
  // ---------------------------------------------------------------------

  /** The header scan counts the parsed headers, and the primary-key ones among them, with their bytes, and changes no counter of another family. */
  lemma {:induction false} HeaderScan(read: HeaderRead, detail: bool, s: MetaStoreStats, data: Data, keys: seq<Bytes>)
    ensures Fold(HeaderStep(read, detail), s, data, keys).tablet_size == s.tablet_size + Count(Parsed(read), data, keys)
    ensures Fold(HeaderStep(read, detail), s, data, keys).tablet_bytes == s.tablet_bytes + SizeOf(Parsed(read), data, keys)
    ensures Fold(HeaderStep(read, detail), s, data, keys).update_tablet_size == s.update_tablet_size + Count(PrimaryParsed(read), data, keys)
    ensures Fold(HeaderStep(read, detail), s, data, keys).update_tablet_bytes == s.update_tablet_bytes + SizeOf(PrimaryParsed(read), data, keys)
    ensures OutsideHeader(Fold(HeaderStep(read, detail), s, data, keys)) == OutsideHeader(s)
    decreases |keys|
  {
    if keys != [] {
      HeaderScan(read, detail, s, data, keys[..|keys| - 1]);
    }
  }

  /**
    Every header entry that does not read is an error. Without detail that
    is all the header scan changes besides its counters; in detail mode it
    adds a record for each parsed header's tablet, and a repeated tablet can
    only add errors.
   */
  lemma {:induction false} HeaderScanRecords(read: HeaderRead, detail: bool, s: MetaStoreStats, data: Data, keys: seq<Bytes>)
    ensures Fold(HeaderStep(read, detail), s, data, keys).error_size >= s.error_size + Count(Unparsed(read), data, keys)
    ensures !detail ==> Fold(HeaderStep(read, detail), s, data, keys).error_size == s.error_size + Count(Unparsed(read), data, keys)
    ensures !detail ==> Fold(HeaderStep(read, detail), s, data, keys).tablets == s.tablets
    ensures detail ==> Fold(HeaderStep(read, detail), s, data, keys).tablets.Keys == s.tablets.Keys + UnionOver(ParsedTablet(read), data, keys)
    decreases |keys|
  {
    if keys != [] {
      HeaderScanRecords(read, detail, s, data, keys[..|keys| - 1]);
    }
  }

  /**
    In detail mode the header scan adds one error per header that does not
    parse and one per parsed header whose tablet already has a record.
   */
  lemma {:induction false} HeaderScanDetailErrors(read: HeaderRead, s: MetaStoreStats, data: Data, keys: seq<Bytes>)
    ensures Fold(HeaderStep(read, true), s, data, keys).error_size ==
      s.error_size + Count(Unparsed(read), data, keys) + Duplicates(read, s.tablets.Keys, data, keys)
    decreases |keys|
  {
    if keys != [] {
      var n := |keys| - 1;
      HeaderScanDetailErrors(read, s, data, keys[..n]);
      HeaderScanRecords(read, true, s, data, keys[..n]);
    }
  }

  /**
    The parsed headers whose tablet already has a record when the scan meets
    them: a record in `known`, or one an earlier parsed header started.
   */
  function Duplicates(read: HeaderRead, known: set<int64>, data: Data, keys: seq<Bytes>): nat
    decreases |keys|
  {
    if keys == [] then 0
    else
      var n := |keys| - 1;
      var r := read(keys[n], ValueAt(data, keys[n]));
      Duplicates(read, known, data, keys[..n])
      + if r.Some? && r.value.0 in known + UnionOver(ParsedTablet(read), data, keys[..n]) then 1 else 0
  }

  /** In detail mode, the record of a tablet with a parsed header is a fresh one: the last such header started it. */
  lemma {:induction false} HeaderScanFresh(read: HeaderRead, s: MetaStoreStats, data: Data, keys: seq<Bytes>, tid: int64)
    requires tid in UnionOver(ParsedTablet(read), data, keys)
    ensures tid in Fold(HeaderStep(read, true), s, data, keys).tablets
    ensures Fresh(Fold(HeaderStep(read, true), s, data, keys).tablets[tid])
    decreases |keys|
  {
    var n := |keys| - 1;
    var k, v := keys[n], ValueAt(data, keys[n]);
    if !(read(k, v).Some? && read(k, v).value.0 == tid) {
      HeaderScanFresh(read, s, data, keys[..n], tid);
    }
  }

  /** The "rst_" scan counts every entry and its bytes, and changes nothing else. */
  lemma {:induction false} RstScan(s: MetaStoreStats, data: Data, keys: seq<Bytes>)
    ensures Fold(RstStep(), s, data, keys).rst_size == s.rst_size + |keys|
    ensures Fold(RstStep(), s, data, keys).rst_bytes == s.rst_bytes + SizeOf(Every(), data, keys)
    ensures OutsideRst(Fold(RstStep(), s, data, keys)) == OutsideRst(s)
    decreases |keys|
  {
    if keys != [] {
      RstScan(s, data, keys[..|keys| - 1]);
    }
  }

  /** The log scan counts the entries whose key decodes and their bytes, counts the others as errors, and keeps the set of tablet records. */
  lemma {:induction false} LogScan(tablet: TabletOf, detail: bool, s: MetaStoreStats, data: Data, keys: seq<Bytes>)
    ensures Fold(LogStep(tablet, detail), s, data, keys).log_size == s.log_size + Count(Decodes(tablet), data, keys)
    ensures Fold(LogStep(tablet, detail), s, data, keys).log_bytes == s.log_bytes + SizeOf(Decodes(tablet), data, keys)
    ensures Fold(LogStep(tablet, detail), s, data, keys).error_size == s.error_size + Count(Undecodable(tablet), data, keys)
    ensures OutsideLog(Fold(LogStep(tablet, detail), s, data, keys)) == OutsideLog(s)
    ensures Fold(LogStep(tablet, detail), s, data, keys).tablets.Keys == s.tablets.Keys
    ensures !detail ==> Fold(LogStep(tablet, detail), s, data, keys).tablets == s.tablets
    decreases |keys|
  {
    if keys != [] {
      LogScan(tablet, detail, s, data, keys[..|keys| - 1]);
    }
  }

  /** The delete-vector scan counts every entry and its bytes and keeps the set of tablet records; in detail mode each entry that names no recorded tablet is an error. */
  lemma {:induction false} DelVectorScan(tablet: TabletOf, detail: bool, s: MetaStoreStats, data: Data, keys: seq<Bytes>)
    ensures Fold(DelVectorStep(tablet, detail), s, data, keys).delvec_size == s.delvec_size + |keys|
    ensures Fold(DelVectorStep(tablet, detail), s, data, keys).delvec_bytes == s.delvec_bytes + SizeOf(Every(), data, keys)
    ensures OutsideDelVector(Fold(DelVectorStep(tablet, detail), s, data, keys)) == OutsideDelVector(s)
    ensures Fold(DelVectorStep(tablet, detail), s, data, keys).tablets.Keys == s.tablets.Keys
    ensures !detail ==> Fold(DelVectorStep(tablet, detail), s, data, keys).error_size == s.error_size && Fold(DelVectorStep(tablet, detail), s, data, keys).tablets == s.tablets
    ensures detail ==> Fold(DelVectorStep(tablet, detail), s, data, keys).error_size == s.error_size + Count(Unowned(tablet, s.tablets.Keys), data, keys)
    decreases |keys|
  {
    if keys != [] {
      DelVectorScan(tablet, detail, s, data, keys[..|keys| - 1]);
    }
  }

  /** The rowset scan counts the entries whose key decodes and their bytes, and keeps the set of tablet records; a bad key is an error, and in detail mode so is a rowset of an unrecorded tablet. */
  lemma {:induction false} RowsetScan(tablet: TabletOf, detail: bool, s: MetaStoreStats, data: Data, keys: seq<Bytes>)
    ensures Fold(RowsetStep(tablet, detail), s, data, keys).rowset_size == s.rowset_size + Count(Decodes(tablet), data, keys)
    ensures Fold(RowsetStep(tablet, detail), s, data, keys).rowset_bytes == s.rowset_bytes + SizeOf(Decodes(tablet), data, keys)
    ensures OutsideRowset(Fold(RowsetStep(tablet, detail), s, data, keys)) == OutsideRowset(s)
    ensures Fold(RowsetStep(tablet, detail), s, data, keys).tablets.Keys == s.tablets.Keys
    ensures !detail ==> Fold(RowsetStep(tablet, detail), s, data, keys).error_size == s.error_size + Count(Undecodable(tablet), data, keys) && Fold(RowsetStep(tablet, detail), s, data, keys).tablets == s.tablets
    ensures detail ==> Fold(RowsetStep(tablet, detail), s, data, keys).error_size == s.error_size + Count(Unowned(tablet, s.tablets.Keys), data, keys)
    decreases |keys|
  {
    if keys != [] {
      RowsetScan(tablet, detail, s, data, keys[..|keys| - 1]);
    }
  }

  /** The pending-rowset scan counts the entries whose key decodes and their bytes, and keeps the set of tablet records; a bad key is no error, but in detail mode a pending rowset of an unrecorded tablet is. */
  lemma {:induction false} PendingRowsetScan(tablet: TabletOf, detail: bool, s: MetaStoreStats, data: Data, keys: seq<Bytes>)
    ensures Fold(PendingRowsetStep(tablet, detail), s, data, keys).pending_rowset_size == s.pending_rowset_size + Count(Decodes(tablet), data, keys)
    ensures Fold(PendingRowsetStep(tablet, detail), s, data, keys).pending_rowset_bytes == s.pending_rowset_bytes + SizeOf(Decodes(tablet), data, keys)
    ensures OutsidePendingRowset(Fold(PendingRowsetStep(tablet, detail), s, data, keys)) == OutsidePendingRowset(s)
    ensures Fold(PendingRowsetStep(tablet, detail), s, data, keys).tablets.Keys == s.tablets.Keys
    ensures !detail ==> Fold(PendingRowsetStep(tablet, detail), s, data, keys).error_size == s.error_size && Fold(PendingRowsetStep(tablet, detail), s, data, keys).tablets == s.tablets
    ensures detail ==> Fold(PendingRowsetStep(tablet, detail), s, data, keys).error_size == s.error_size + Count(Orphan(tablet, s.tablets.Keys), data, keys)
    decreases |keys|
  {
    if keys != [] {
      PendingRowsetScan(tablet, detail, s, data, keys[..|keys| - 1]);
    }
  }

  /** In detail mode, the log scan adds to a recorded tablet's log counters the number and bytes of its entries, and changes nothing else in that record. */
  lemma {:induction false} LogScanTablet(tablet: TabletOf, s: MetaStoreStats, data: Data, keys: seq<Bytes>, tid: int64)
    requires tid in s.tablets
    ensures tid in Fold(LogStep(tablet, true), s, data, keys).tablets
    ensures Fold(LogStep(tablet, true), s, data, keys).tablets[tid].log_size == s.tablets[tid].log_size + Count(OfTablet(tablet, tid), data, keys)
    ensures Fold(LogStep(tablet, true), s, data, keys).tablets[tid].log_bytes == s.tablets[tid].log_bytes + SizeOf(OfTablet(tablet, tid), data, keys)
    ensures Fold(LogStep(tablet, true), s, data, keys).tablets[tid].(log_size := 0, log_bytes := 0) == s.tablets[tid].(log_size := 0, log_bytes := 0)
    decreases |keys|
  {
    if keys != [] {
      LogScanTablet(tablet, s, data, keys[..|keys| - 1], tid);
    }
  }

  /** In detail mode, the delete-vector scan adds to a recorded tablet's delete-vector counters the number and bytes of its entries, and changes nothing else in that record. */
  lemma {:induction false} DelVectorScanTablet(tablet: TabletOf, s: MetaStoreStats, data: Data, keys: seq<Bytes>, tid: int64)
    requires tid in s.tablets
    ensures tid in Fold(DelVectorStep(tablet, true), s, data, keys).tablets
    ensures Fold(DelVectorStep(tablet, true), s, data, keys).tablets[tid].delvec_size == s.tablets[tid].delvec_size + Count(OfTablet(tablet, tid), data, keys)
    ensures Fold(DelVectorStep(tablet, true), s, data, keys).tablets[tid].delvec_bytes == s.tablets[tid].delvec_bytes + SizeOf(OfTablet(tablet, tid), data, keys)
    ensures Fold(DelVectorStep(tablet, true), s, data, keys).tablets[tid].(delvec_size := 0, delvec_bytes := 0) == s.tablets[tid].(delvec_size := 0, delvec_bytes := 0)
    decreases |keys|
  {
    if keys != [] {
      DelVectorScanTablet(tablet, s, data, keys[..|keys| - 1], tid);
    }
  }

  /** In detail mode, the rowset scan adds to a recorded tablet's rowset counters the number and bytes of its entries, and changes nothing else in that record. */
  lemma {:induction false} RowsetScanTablet(tablet: TabletOf, s: MetaStoreStats, data: Data, keys: seq<Bytes>, tid: int64)
    requires tid in s.tablets
    ensures tid in Fold(RowsetStep(tablet, true), s, data, keys).tablets
    ensures Fold(RowsetStep(tablet, true), s, data, keys).tablets[tid].rowset_size == s.tablets[tid].rowset_size + Count(OfTablet(tablet, tid), data, keys)
    ensures Fold(RowsetStep(tablet, true), s, data, keys).tablets[tid].rowset_bytes == s.tablets[tid].rowset_bytes + SizeOf(OfTablet(tablet, tid), data, keys)
    ensures Fold(RowsetStep(tablet, true), s, data, keys).tablets[tid].(rowset_size := 0, rowset_bytes := 0) == s.tablets[tid].(rowset_size := 0, rowset_bytes := 0)
    decreases |keys|
  {
    if keys != [] {
      RowsetScanTablet(tablet, s, data, keys[..|keys| - 1], tid);
    }
  }

  /** In detail mode, the pending-rowset scan adds to a recorded tablet's pending-rowset counters the number and bytes of its entries, and changes nothing else in that record. */
  lemma {:induction false} PendingRowsetScanTablet(tablet: TabletOf, s: MetaStoreStats, data: Data, keys: seq<Bytes>, tid: int64)
    requires tid in s.tablets
    ensures tid in Fold(PendingRowsetStep(tablet, true), s, data, keys).tablets
    ensures Fold(PendingRowsetStep(tablet, true), s, data, keys).tablets[tid].pending_rowset_size == s.tablets[tid].pending_rowset_size + Count(OfTablet(tablet, tid), data, keys)
    ensures Fold(PendingRowsetStep(tablet, true), s, data, keys).tablets[tid].pending_rowset_bytes == s.tablets[tid].pending_rowset_bytes + SizeOf(OfTablet(tablet, tid), data, keys)
    ensures Fold(PendingRowsetStep(tablet, true), s, data, keys).tablets[tid].(pending_rowset_size := 0, pending_rowset_bytes := 0) == s.tablets[tid].(pending_rowset_size := 0, pending_rowset_bytes := 0)
    decreases |keys|
  {
    if keys != [] {
      PendingRowsetScanTablet(tablet, s, data, keys[..|keys| - 1], tid);
    }
  }

  // ---------------------------------------------------------------------
  // What get_stats leaves in the record
  // ---------------------------------------------------------------------

  /**
    Each family's counters grow by the entries the source counts for it: the
    parsed headers (and the primary-key ones), every "rst_" entry, the log,
    rowset and pending-rowset entries whose key decodes, and every
    delete-vector entry.
   */
  lemma GetStatsCounts(data: Data, codec: Codec, fk: FamilyKeys, s0: MetaStoreStats, detail: bool)
    ensures StatsAfter(data, codec, fk, s0, detail).tablet_size == s0.tablet_size + Count(Parsed(HeaderParser(codec)), data, fk.headers)
    ensures StatsAfter(data, codec, fk, s0, detail).tablet_bytes == s0.tablet_bytes + SizeOf(Parsed(HeaderParser(codec)), data, fk.headers)
    ensures StatsAfter(data, codec, fk, s0, detail).update_tablet_size ==
            s0.update_tablet_size + Count(PrimaryParsed(HeaderParser(codec)), data, fk.headers)
    ensures StatsAfter(data, codec, fk, s0, detail).update_tablet_bytes ==
            s0.update_tablet_bytes + SizeOf(PrimaryParsed(HeaderParser(codec)), data, fk.headers)
    ensures StatsAfter(data, codec, fk, s0, detail).rst_size == s0.rst_size + |fk.rst|
    ensures StatsAfter(data, codec, fk, s0, detail).rst_bytes == s0.rst_bytes + SizeOf(Every(), data, fk.rst)
    ensures StatsAfter(data, codec, fk, s0, detail).log_size == s0.log_size + Count(Decodes(LogTablet()), data, fk.logs)
    ensures StatsAfter(data, codec, fk, s0, detail).log_bytes == s0.log_bytes + SizeOf(Decodes(LogTablet()), data, fk.logs)
    ensures StatsAfter(data, codec, fk, s0, detail).delvec_size == s0.delvec_size + |fk.delvecs|
    ensures StatsAfter(data, codec, fk, s0, detail).delvec_bytes == s0.delvec_bytes + SizeOf(Every(), data, fk.delvecs)
    ensures StatsAfter(data, codec, fk, s0, detail).rowset_size == s0.rowset_size + Count(Decodes(RowsetTablet()), data, fk.rowsets)
    ensures StatsAfter(data, codec, fk, s0, detail).rowset_bytes == s0.rowset_bytes + SizeOf(Decodes(RowsetTablet()), data, fk.rowsets)
    ensures StatsAfter(data, codec, fk, s0, detail).pending_rowset_size ==
            s0.pending_rowset_size + Count(Decodes(PendingRowsetTablet()), data, fk.pendings)
    ensures StatsAfter(data, codec, fk, s0, detail).pending_rowset_bytes ==
            s0.pending_rowset_bytes + SizeOf(Decodes(PendingRowsetTablet()), data, fk.pendings)
  {
    var read := HeaderParser(codec);
    var h, r, l, d, w, p := fk.headers, fk.rst, fk.logs, fk.delvecs, fk.rowsets, fk.pendings;
    var s1 := AfterHeaderScan(data, read, h, s0, detail);
    var s2 := AfterRstScan(data, r, s1);
    var s3 := AfterLogScan(data, LogTablet(), l, s2, detail);
    var s4 := AfterDelVectorScan(data, DelVectorTablet(), d, s3, detail);
    var s5 := AfterRowsetScan(data, RowsetTablet(), w, s4, detail);
    HeaderScan(read, detail, s0, data, h);
    RstScan(s1, data, r);
    LogScan(LogTablet(), detail, s2, data, l);
    DelVectorScan(DelVectorTablet(), detail, s3, data, d);
    RowsetScan(RowsetTablet(), detail, s4, data, w);
    PendingRowsetScan(PendingRowsetTablet(), detail, s5, data, p);
  }

  /** The overall totals grow by the six family counters as the record ends up holding them. */
  lemma GetStatsTotals(data: Data, codec: Codec, fk: FamilyKeys, s0: MetaStoreStats, detail: bool)
    ensures StatsAfter(data, codec, fk, s0, detail).total_size == s0.total_size + StatsAfter(data, codec, fk, s0, detail).tablet_size + StatsAfter(data, codec, fk, s0, detail).rst_size + StatsAfter(data, codec, fk, s0, detail).log_size +
            StatsAfter(data, codec, fk, s0, detail).delvec_size + StatsAfter(data, codec, fk, s0, detail).rowset_size + StatsAfter(data, codec, fk, s0, detail).pending_rowset_size
    ensures StatsAfter(data, codec, fk, s0, detail).total_bytes == s0.total_bytes + StatsAfter(data, codec, fk, s0, detail).tablet_bytes + StatsAfter(data, codec, fk, s0, detail).rst_bytes + StatsAfter(data, codec, fk, s0, detail).log_bytes +
            StatsAfter(data, codec, fk, s0, detail).delvec_bytes + StatsAfter(data, codec, fk, s0, detail).rowset_bytes + StatsAfter(data, codec, fk, s0, detail).pending_rowset_bytes
  {
    var read := HeaderParser(codec);
    var h, r, l, d, w, p := fk.headers, fk.rst, fk.logs, fk.delvecs, fk.rowsets, fk.pendings;
    var s1 := AfterHeaderScan(data, read, h, s0, detail);
    var s2 := AfterRstScan(data, r, s1);
    var s3 := AfterLogScan(data, LogTablet(), l, s2, detail);
    var s4 := AfterDelVectorScan(data, DelVectorTablet(), d, s3, detail);
    var s5 := AfterRowsetScan(data, RowsetTablet(), w, s4, detail);
    HeaderScan(read, detail, s0, data, h);
    RstScan(s1, data, r);
    LogScan(LogTablet(), detail, s2, data, l);
    DelVectorScan(DelVectorTablet(), detail, s3, data, d);
    RowsetScan(RowsetTablet(), detail, s4, data, w);
    PendingRowsetScan(PendingRowsetTablet(), detail, s5, data, p);
  }

  /**
    Without detail, the errors are the header entries that do not read and
    the log and rowset entries whose key does not decode; pending-rowset
    keys that do not decode are not among them, and no tablet record is
    touched.
   */
  lemma GetStatsErrors(data: Data, codec: Codec, fk: FamilyKeys, s0: MetaStoreStats)
    ensures StatsAfter(data, codec, fk, s0, false).error_size ==
            s0.error_size + Count(Unparsed(HeaderParser(codec)), data, fk.headers) +
            Count(Undecodable(LogTablet()), data, fk.logs) +
            Count(Undecodable(RowsetTablet()), data, fk.rowsets)
    ensures StatsAfter(data, codec, fk, s0, false).tablets == s0.tablets
  {
    var detail := false;
    var read := HeaderParser(codec);
    var h, r, l, d, w, p := fk.headers, fk.rst, fk.logs, fk.delvecs, fk.rowsets, fk.pendings;
    var s1 := AfterHeaderScan(data, read, h, s0, detail);
    var s2 := AfterRstScan(data, r, s1);
    var s3 := AfterLogScan(data, LogTablet(), l, s2, detail);
    var s4 := AfterDelVectorScan(data, DelVectorTablet(), d, s3, detail);
    var s5 := AfterRowsetScan(data, RowsetTablet(), w, s4, detail);
    HeaderScanRecords(read, detail, s0, data, h);
    RstScan(s1, data, r);
    LogScan(LogTablet(), detail, s2, data, l);
    DelVectorScan(DelVectorTablet(), detail, s3, data, d);
    RowsetScan(RowsetTablet(), detail, s4, data, w);
    PendingRowsetScan(PendingRowsetTablet(), detail, s5, data, p);
  }

  /** The tablets that have a record once the header scan is over: those recorded before and those with a parsed header. */
  function RecordedTablets(data: Data, codec: Codec, fk: FamilyKeys, s0: MetaStoreStats): set<int64>
  {
    s0.tablets.Keys + UnionOver(ParsedTablet(HeaderParser(codec)), data, fk.headers)
  }

  /**
    In detail mode, the records are those the header scan made; after it,
    the errors are the log entries whose key does not decode, the
    delete-vector and rowset entries that name no recorded tablet, and the
    pending rowsets of an unrecorded tablet. The header scan itself adds at
    least one error per header entry that does not read.
   */
  lemma GetStatsDetailErrors(data: Data, codec: Codec, fk: FamilyKeys, s0: MetaStoreStats)
    ensures StatsAfter(data, codec, fk, s0, true).tablets.Keys == RecordedTablets(data, codec, fk, s0)
    ensures StatsAfter(data, codec, fk, s0, true).error_size ==
            AfterHeaderScan(data, HeaderParser(codec), fk.headers, s0, true).error_size +
            Count(Undecodable(LogTablet()), data, fk.logs) +
            Count(Unowned(DelVectorTablet(), RecordedTablets(data, codec, fk, s0)), data, fk.delvecs) +
            Count(Unowned(RowsetTablet(), RecordedTablets(data, codec, fk, s0)), data, fk.rowsets) +
            Count(Orphan(PendingRowsetTablet(), RecordedTablets(data, codec, fk, s0)), data, fk.pendings)
    ensures AfterHeaderScan(data, HeaderParser(codec), fk.headers, s0, true).error_size ==
            s0.error_size + Count(Unparsed(HeaderParser(codec)), data, fk.headers) +
            Duplicates(HeaderParser(codec), s0.tablets.Keys, data, fk.headers)
  {
    var detail := true;
    var read := HeaderParser(codec);
    var h, r, l, d, w, p := fk.headers, fk.rst, fk.logs, fk.delvecs, fk.rowsets, fk.pendings;
    var s1 := AfterHeaderScan(data, read, h, s0, detail);
    var s2 := AfterRstScan(data, r, s1);
    var s3 := AfterLogScan(data, LogTablet(), l, s2, detail);
    var s4 := AfterDelVectorScan(data, DelVectorTablet(), d, s3, detail);
    var s5 := AfterRowsetScan(data, RowsetTablet(), w, s4, detail);
    HeaderScanRecords(read, detail, s0, data, h);
    HeaderScanDetailErrors(read, s0, data, h);
    RstScan(s1, data, r);
    LogScan(LogTablet(), detail, s2, data, l);
    DelVectorScan(DelVectorTablet(), detail, s3, data, d);
    RowsetScan(RowsetTablet(), detail, s4, data, w);
    PendingRowsetScan(PendingRowsetTablet(), detail, s5, data, p);
  }

  /**
    In detail mode, the record of a tablet with a parsed header ends up
    holding exactly the number and bytes of that tablet's log and
    delete-vector entries.
   */
  lemma GetStatsTabletLogs(data: Data, codec: Codec, fk: FamilyKeys, s0: MetaStoreStats, tid: int64)
    requires tid in UnionOver(ParsedTablet(HeaderParser(codec)), data, fk.headers)
    ensures tid in StatsAfter(data, codec, fk, s0, true).tablets
    ensures StatsAfter(data, codec, fk, s0, true).tablets[tid].log_size ==
            Count(OfTablet(LogTablet(), tid), data, fk.logs)
    ensures StatsAfter(data, codec, fk, s0, true).tablets[tid].log_bytes ==
            SizeOf(OfTablet(LogTablet(), tid), data, fk.logs)
    ensures StatsAfter(data, codec, fk, s0, true).tablets[tid].delvec_size ==
            Count(OfTablet(DelVectorTablet(), tid), data, fk.delvecs)
    ensures StatsAfter(data, codec, fk, s0, true).tablets[tid].delvec_bytes ==
            SizeOf(OfTablet(DelVectorTablet(), tid), data, fk.delvecs)
  {
    var detail := true;
    var read := HeaderParser(codec);
    var h, r, l, d, w, p := fk.headers, fk.rst, fk.logs, fk.delvecs, fk.rowsets, fk.pendings;
    var s1 := AfterHeaderScan(data, read, h, s0, detail);
    var s2 := AfterRstScan(data, r, s1);
    var s3 := AfterLogScan(data, LogTablet(), l, s2, detail);
    var s4 := AfterDelVectorScan(data, DelVectorTablet(), d, s3, detail);
    var s5 := AfterRowsetScan(data, RowsetTablet(), w, s4, detail);
    HeaderScanFresh(read, s0, data, h, tid);
    RstScan(s1, data, r);
    assert tid in s2.tablets && Fresh(s2.tablets[tid]);
    LogScanTablet(LogTablet(), s2, data, l, tid);
    DelVectorScanTablet(DelVectorTablet(), s3, data, d, tid);
    RowsetScanTablet(RowsetTablet(), s4, data, w, tid);
    PendingRowsetScanTablet(PendingRowsetTablet(), s5, data, p, tid);
  }

  /**
    In detail mode, the record of a tablet with a parsed header ends up
    holding exactly the number and bytes of that tablet's rowset and
    pending-rowset entries.
   */
  lemma GetStatsTabletRowsets(data: Data, codec: Codec, fk: FamilyKeys, s0: MetaStoreStats, tid: int64)
    requires tid in UnionOver(ParsedTablet(HeaderParser(codec)), data, fk.headers)
    ensures tid in StatsAfter(data, codec, fk, s0, true).tablets
    ensures StatsAfter(data, codec, fk, s0, true).tablets[tid].rowset_size ==
            Count(OfTablet(RowsetTablet(), tid), data, fk.rowsets)
    ensures StatsAfter(data, codec, fk, s0, true).tablets[tid].rowset_bytes ==
            SizeOf(OfTablet(RowsetTablet(), tid), data, fk.rowsets)
    ensures StatsAfter(data, codec, fk, s0, true).tablets[tid].pending_rowset_size ==
            Count(OfTablet(PendingRowsetTablet(), tid), data, fk.pendings)
    ensures StatsAfter(data, codec, fk, s0, true).tablets[tid].pending_rowset_bytes ==
            SizeOf(OfTablet(PendingRowsetTablet(), tid), data, fk.pendings)
  {
    var detail := true;
    var read := HeaderParser(codec);
    var h, r, l, d, w, p := fk.headers, fk.rst, fk.logs, fk.delvecs, fk.rowsets, fk.pendings;
    var s1 := AfterHeaderScan(data, read, h, s0, detail);
    var s2 := AfterRstScan(data, r, s1);
    var s3 := AfterLogScan(data, LogTablet(), l, s2, detail);
    var s4 := AfterDelVectorScan(data, DelVectorTablet(), d, s3, detail);
    var s5 := AfterRowsetScan(data, RowsetTablet(), w, s4, detail);
    HeaderScanFresh(read, s0, data, h, tid);
    RstScan(s1, data, r);
    assert tid in s2.tablets && Fresh(s2.tablets[tid]);
    LogScanTablet(LogTablet(), s2, data, l, tid);
    DelVectorScanTablet(DelVectorTablet(), s3, data, d, tid);
    RowsetScanTablet(RowsetTablet(), s4, data, w, tid);
    PendingRowsetScanTablet(PendingRowsetTablet(), s5, data, p, tid);
  }
}
