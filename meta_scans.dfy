/**
  The scans over tablet headers and meta logs
  (be/src/storage/tablet_meta_manager.cpp:414-428, 777-804, 1101-1147):
  `traverse_headers` hands every decodable header to a visitor,
  `traverse_meta_logs` hands a tablet's log entries to a visitor in log-id
  order, and `remove` of a whole tablet deletes the tablet's headers and,
  for a primary-key tablet, clears its logs, delete vectors, rowsets and
  pending rowsets.

  Visitors are total functions of what they are handed; returning false
  stops the scan. What a visitor does with the entries is outside the model,
  so the scans return the calls they made, in order.
 */
module MetaScans {
  import opened Bytes
  import opened Wrappers
  import opened KeyCodec
  import opened KVStore
  import opened Messages
  import opened MetaBatch

  // ---------------------------------------------------------------------
  // traverse_headers
  // ---------------------------------------------------------------------

  /** A call of the header visitor: tablet id, schema hash and the stored header. */
  type HeaderCall = (int64, int32, Bytes)

  /** What the callback of `traverse_headers` reads from one key: its ids and value, or nothing when the key does not decode. */
  function ReadHeader(data: Data, k: Bytes): Option<HeaderCall>
  {
    match DecodeTabletMetaKey(k)
    case None => None
    case Some((id, hash)) => Some((id, hash, ValueAt(data, k)))
  }

  /** The reader `traverse_headers` applies to the keys of `data`. */
  function HeaderReader(data: Data): Bytes -> Option<HeaderCall>
  {
    k => ReadHeader(data, k)
  }

  /** The calls of a header scan that reads each key with `read`: unreadable keys are passed over, a false answer stops. */
  function HeaderCalls(read: Bytes -> Option<HeaderCall>, visit: (int64, int32, Bytes) -> bool, keys: seq<Bytes>): seq<HeaderCall>
    decreases |keys|
  {
    if keys == [] then []
    else
      match read(keys[0])
      case None => HeaderCalls(read, visit, keys[1..])
      case Some(c) => [c] + if visit(c.0, c.1, c.2) then HeaderCalls(read, visit, keys[1..]) else []
  }

  /** `traverse_headers`: a prefix scan over "tabletmeta_"; the scan itself always succeeds. */
  method TraverseHeaders(store: Store, visit: (int64, int32, Bytes) -> bool) returns (st: Status, calls: seq<HeaderCall>)
    ensures st == OK
    ensures calls == HeaderCalls(HeaderReader(store.data), visit, ScanPrefix(store.data, HeaderPrefix))
  {
    var keys := store.Iterate(HeaderPrefix);
    calls := VisitHeaders(store.data, visit, keys);
    st := OK;
  }

  /** The scan callback of `traverse_headers` run over the keys it is handed. */
  method VisitHeaders(data: Data, visit: (int64, int32, Bytes) -> bool, keys: seq<Bytes>) returns (calls: seq<HeaderCall>)
    ensures calls == HeaderCalls(HeaderReader(data), visit, keys)
  {
    ghost var read := HeaderReader(data);
    calls := [];
    var i := 0;
    var more := true;
    while i < |keys| && more
      invariant 0 <= i <= |keys|
      invariant more ==> calls + HeaderCalls(read, visit, keys[i..]) == HeaderCalls(read, visit, keys)
      invariant !more ==> calls == HeaderCalls(read, visit, keys)
      decreases |keys| - i
    {
      var k := keys[i];
      assert keys[i..][0] == k && keys[i..][1..] == keys[i + 1..];
      var r := DecodeTabletMetaKey(k);
      if r.Some? {
        var (id, hash) := r.value;
        var c := (id, hash, ValueAt(data, k));
        assert read(k) == Some(c);
        assert calls + ([c] + HeaderCalls(read, visit, keys[i + 1..])) == calls + [c] + HeaderCalls(read, visit, keys[i + 1..]);
        calls := calls + [c];
        more := visit(id, hash, ValueAt(data, k));
      } else {
        assert read(k).None?;
      }
      i := i + 1;
    }
    if more {
      assert keys[i..] == [];
    }
  }

  /** The visitor answered the call true. */
  predicate Continued(visit: (int64, int32, Bytes) -> bool, c: HeaderCall)
  {
    visit(c.0, c.1, c.2)
  }

  /** Every call but the last was answered true: a false answer ends the scan. */
  lemma {:induction false} HeaderCallsStopAtFalse(read: Bytes -> Option<HeaderCall>, visit: (int64, int32, Bytes) -> bool, keys: seq<Bytes>)
    ensures forall i | 0 <= i < |HeaderCalls(read, visit, keys)| - 1 :: Continued(visit, HeaderCalls(read, visit, keys)[i])
    decreases |keys|
  {
    if keys != [] {
      var rest := keys[1..];
      HeaderCallsStopAtFalse(read, visit, rest);
      var tail := HeaderCalls(read, visit, rest);
      match read(keys[0])
      case None =>
      case Some(c) =>
        if visit(c.0, c.1, c.2) {
          var calls := [c] + tail;
          assert forall i | 1 <= i < |calls| :: calls[i] == tail[i - 1];
        }
    }
  }

  /** Some key of `keys` reads as the call. */
  ghost predicate CalledFor(read: Bytes -> Option<HeaderCall>, keys: seq<Bytes>, c: HeaderCall)
  {
    exists k | k in keys :: read(k) == Some(c)
  }

  /** Every call is what some key of the scan reads as. */
  lemma {:induction false} HeaderCallsFromKeys(read: Bytes -> Option<HeaderCall>, visit: (int64, int32, Bytes) -> bool, keys: seq<Bytes>)
    ensures forall i | 0 <= i < |HeaderCalls(read, visit, keys)| :: CalledFor(read, keys, HeaderCalls(read, visit, keys)[i])
    decreases |keys|
  {
    if keys != [] {
      var rest := keys[1..];
      HeaderCallsFromKeys(read, visit, rest);
      var tail := HeaderCalls(read, visit, rest);
      var calls := HeaderCalls(read, visit, keys);
      var head := read(keys[0]).Some?;
      forall i | 0 <= i < |calls|
        ensures CalledFor(read, keys, calls[i])
      {
        if head && i == 0 {
          assert read(keys[0]) == Some(calls[0]);
        } else {
          var j := if head then i - 1 else i;
          assert 0 <= j < |tail| && calls[i] == tail[j];
          CalledForTail(read, keys, tail[j]);
        }
      }
    }
  }

  lemma CalledForTail(read: Bytes -> Option<HeaderCall>, keys: seq<Bytes>, c: HeaderCall)
    requires keys != [] && CalledFor(read, keys[1..], c)
    ensures CalledFor(read, keys, c)
  {
    var k :| k in keys[1..] && read(k) == Some(c);
    assert k in keys;
  }

  /** A visitor that always answers true is handed what every readable key reads as. */
  lemma {:induction false} HeaderCallsComplete(read: Bytes -> Option<HeaderCall>, visit: (int64, int32, Bytes) -> bool, keys: seq<Bytes>)
    requires forall id, hash, value :: visit(id, hash, value)
    ensures forall k | k in keys && read(k).Some? :: read(k).value in HeaderCalls(read, visit, keys)
    decreases |keys|
  {
    if keys != [] {
      var rest := keys[1..];
      HeaderCallsComplete(read, visit, rest);
      forall k | k in keys
        ensures k == keys[0] || k in rest
      {
        var i :| 0 <= i < |keys| && keys[i] == k;
        if i > 0 {
          assert rest[i - 1] == k;
        }
      }
    }
  }

  /** With a visitor that always answers true, `traverse_headers` visits each stored header once per key. */
  lemma TraverseHeadersVisitsHeader(data: Data, visit: (int64, int32, Bytes) -> bool, tablet_id: int64, schema_hash: int32)
    requires forall id, hash, value :: visit(id, hash, value)
    requires TabletMetaKey(tablet_id, schema_hash) in data
    ensures (tablet_id, schema_hash, data[TabletMetaKey(tablet_id, schema_hash)])
      in HeaderCalls(HeaderReader(data), visit, ScanPrefix(data, HeaderPrefix))
  {
    var k := TabletMetaKey(tablet_id, schema_hash);
    TabletMetaKeyRoundTrip(tablet_id, schema_hash);
    TabletMetaKeyHasTabletPrefix(tablet_id, schema_hash);
    var keys := ScanPrefix(data, HeaderPrefix);
    assert k in keys;
    assert HeaderReader(data)(k) == Some((tablet_id, schema_hash, data[k]));
    HeaderCallsComplete(HeaderReader(data), visit, keys);
  }

  /** Every call of `traverse_headers` is a stored header key that decodes to the ids handed over. */
  lemma TraverseHeadersCallsAreHeaders(data: Data, visit: (int64, int32, Bytes) -> bool, i: nat)
    requires i < |HeaderCalls(HeaderReader(data), visit, ScanPrefix(data, HeaderPrefix))|
    ensures var c := HeaderCalls(HeaderReader(data), visit, ScanPrefix(data, HeaderPrefix))[i];
      exists k | k in data && HasPrefix(k, HeaderPrefix) :: DecodeTabletMetaKey(k) == Some((c.0, c.1)) && c.2 == data[k]
  {
    var keys := ScanPrefix(data, HeaderPrefix);
    var read := HeaderReader(data);
    HeaderCallsFromKeys(read, visit, keys);
    var c := HeaderCalls(read, visit, keys)[i];
    assert CalledFor(read, keys, c);
    var k :| k in keys && read(k) == Some(c);
    assert ReadHeader(data, k) == Some(c);
  }
  // ---------------------------------------------------------------------
  // traverse_meta_logs
  // ---------------------------------------------------------------------

  /** A call of the log visitor: log id and the parsed log entry. */
  type LogCall = (uint64, TabletMetaLogPB)

  /** A log entry read from its key and value; None when either is corrupt. */
  function ReadLog(data: Data, codec: Codec, k: Bytes): Option<LogCall>
  {
    match DecodeMetaLogKey(k)
    case None => None
    case Some((_, log_id)) =>
      match codec.parseLog(ValueAt(data, k))
      case None => None
      case Some(log) => Some((log_id, log))
  }

  /** The reader `traverse_meta_logs` applies to the keys of `data`. */
  function LogReader(data: Data, codec: Codec): Bytes -> Option<LogCall>
  {
    k => ReadLog(data, codec, k)
  }

  /** The status and the calls of a log scan that reads each key with `read`: an unreadable entry stops the scan with Corruption. */
  function LogCalls(read: Bytes -> Option<LogCall>, visit: (uint64, TabletMetaLogPB) -> bool, keys: seq<Bytes>): (Status, seq<LogCall>)
    decreases |keys|
  {
    if keys == [] then (OK, [])
    else
      match read(keys[0])
      case None => (Corruption, [])
      case Some(c) =>
        if visit(c.0, c.1) then
          var r := LogCalls(read, visit, keys[1..]);
          (r.0, [c] + r.1)
        else (OK, [c])
  }

  /** The keys `traverse_meta_logs` visits: [MetaLogKey(t, 0), MetaLogKey(t, UINT64_MAX)), ascending. */
  ghost function LogScan(data: Data, tablet_id: int64): seq<Bytes>
  {
    ScanRange(data, MetaLogKey(tablet_id, 0), MetaLogKey(tablet_id, UINT64_MAX))
  }

  /** `traverse_meta_logs`: the tablet's log entries in log-id order until the visitor answers false or an entry is corrupt. */
  method TraverseMetaLogs(store: Store, codec: Codec, tablet_id: int64, visit: (uint64, TabletMetaLogPB) -> bool)
    returns (st: Status, calls: seq<LogCall>)
    ensures (st, calls) == LogCalls(LogReader(store.data, codec), visit, LogScan(store.data, tablet_id))
  {
    var keys := store.IterateRange(MetaLogKey(tablet_id, 0), MetaLogKey(tablet_id, UINT64_MAX));
    st, calls := VisitLogs(store.data, codec, visit, keys);
  }

  /** The scan callback of `traverse_meta_logs` run over the keys it is handed. */
  method VisitLogs(data: Data, codec: Codec, visit: (uint64, TabletMetaLogPB) -> bool, keys: seq<Bytes>)
    returns (st: Status, calls: seq<LogCall>)
    ensures (st, calls) == LogCalls(LogReader(data, codec), visit, keys)
  {
    ghost var read := LogReader(data, codec);
    st, calls := OK, [];
    var i := 0;
    var more := true;
    assert keys[0..] == keys && [] + LogCalls(read, visit, keys).1 == LogCalls(read, visit, keys).1;
    while i < |keys| && more
      invariant 0 <= i <= |keys|
      invariant more ==> st == OK && LogCalls(read, visit, keys) == Resume(calls, LogCalls(read, visit, keys[i..]))
      invariant !more ==> (st, calls) == LogCalls(read, visit, keys)
      decreases |keys| - i
    {
      var k := keys[i];
      LogStep(read, visit, keys, i, calls);
      var r := DecodeMetaLogKey(k);
      var log := if r.None? then None else codec.parseLog(ValueAt(data, k));
      if log.None? {
        assert read(k).None?;
        st, more := Corruption, false;
      } else {
        var c := (r.value.1, log.value);
        assert read(k) == Some(c);
        calls := calls + [c];
        more := visit(c.0, c.1);
      }
      i := i + 1;
    }
    if more {
      LogDone(read, visit, keys, calls);
    }
  }

  /** The calls made so far, followed by the outcome of the rest of a scan. */
  function Resume(calls: seq<LogCall>, rest: (Status, seq<LogCall>)): (Status, seq<LogCall>)
  {
    (rest.0, calls + rest.1)
  }

  /** One step of the scan: the calls so far followed by what the i-th key decides. */
  lemma LogStep(read: Bytes -> Option<LogCall>, visit: (uint64, TabletMetaLogPB) -> bool, keys: seq<Bytes>, i: nat,
                calls: seq<LogCall>)
    requires i < |keys|
    requires LogCalls(read, visit, keys) == Resume(calls, LogCalls(read, visit, keys[i..]))
    ensures read(keys[i]).None? ==> LogCalls(read, visit, keys) == (Corruption, calls)
    ensures read(keys[i]).Some? && !visit(read(keys[i]).value.0, read(keys[i]).value.1) ==>
      LogCalls(read, visit, keys) == (OK, calls + [read(keys[i]).value])
    ensures read(keys[i]).Some? && visit(read(keys[i]).value.0, read(keys[i]).value.1) ==>
      LogCalls(read, visit, keys) == Resume(calls + [read(keys[i]).value], LogCalls(read, visit, keys[i + 1..]))
  {
    LogCallsAt(read, visit, keys, i);
    ResumeStep(calls, LogCalls(read, visit, keys[i..]), read(keys[i]), visit, LogCalls(read, visit, keys[i + 1..]));
  }

  lemma ResumeStep(calls: seq<LogCall>, rest: (Status, seq<LogCall>), r: Option<LogCall>,
                   visit: (uint64, TabletMetaLogPB) -> bool, tail: (Status, seq<LogCall>))
    requires rest == match r
      case None => (Corruption, [])
      case Some(c) => if visit(c.0, c.1) then (tail.0, [c] + tail.1) else (OK, [c])
    ensures r.None? ==> Resume(calls, rest) == (Corruption, calls)
    ensures r.Some? && !visit(r.value.0, r.value.1) ==> Resume(calls, rest) == (OK, calls + [r.value])
    ensures r.Some? && visit(r.value.0, r.value.1) ==> Resume(calls, rest) == Resume(calls + [r.value], tail)
  {
    if r.None? {
      assert calls + [] == calls;
    } else {
      assert calls + ([r.value] + tail.1) == calls + [r.value] + tail.1;
    }
  }

  /** A scan that ran out of keys ends with OK and the calls made. */
  lemma LogDone(read: Bytes -> Option<LogCall>, visit: (uint64, TabletMetaLogPB) -> bool, keys: seq<Bytes>,
                calls: seq<LogCall>)
    requires LogCalls(read, visit, keys) == Resume(calls, LogCalls(read, visit, keys[|keys|..]))
    ensures LogCalls(read, visit, keys) == (OK, calls)
  {
    assert keys[|keys|..] == [] && calls + [] == calls;
  }

  /** The scan from the i-th key on: that key's read decides, then the rest of the keys. */
  lemma LogCallsAt(read: Bytes -> Option<LogCall>, visit: (uint64, TabletMetaLogPB) -> bool, keys: seq<Bytes>, i: nat)
    requires i < |keys|
    ensures LogCalls(read, visit, keys[i..]) ==
      match read(keys[i])
      case None => (Corruption, [])
      case Some(c) =>
        if visit(c.0, c.1) then (LogCalls(read, visit, keys[i + 1..]).0, [c] + LogCalls(read, visit, keys[i + 1..]).1)
        else (OK, [c])
  {
    assert keys[i..][0] == keys[i] && keys[i..][1..] == keys[i + 1..];
  }

  /** The calls are what the keys at the head of the scan read as, and every call but the last was answered true. */
  lemma {:induction false} LogCallsRead(read: Bytes -> Option<LogCall>, visit: (uint64, TabletMetaLogPB) -> bool, keys: seq<Bytes>)
    ensures var calls := LogCalls(read, visit, keys).1;
      && |calls| <= |keys|
      && (forall i | 0 <= i < |calls| :: read(keys[i]) == Some(calls[i]))
      && (forall i | 0 <= i < |calls| - 1 :: visit(calls[i].0, calls[i].1))
    decreases |keys|
  {
    if keys != [] {
      var rest := keys[1..];
      LogCallsRead(read, visit, rest);
      assert forall i | 1 <= i < |keys| :: keys[i] == rest[i - 1];
    }
  }

  /** The scan reports Corruption exactly when it reaches an unreadable entry before the visitor stops it. */
  lemma {:induction false} LogCallsCorruption(read: Bytes -> Option<LogCall>, visit: (uint64, TabletMetaLogPB) -> bool, keys: seq<Bytes>)
    ensures var (st, calls) := LogCalls(read, visit, keys);
      && (st == OK || st == Corruption)
      && (st == Corruption <==>
            |calls| < |keys| && read(keys[|calls|]).None?
            && forall i | 0 <= i < |calls| :: visit(calls[i].0, calls[i].1))
    decreases |keys|
  {
    if keys != [] {
      var rest := keys[1..];
      LogCallsCorruption(read, visit, rest);
      var r := LogCalls(read, visit, rest);
      match read(keys[0])
      case None =>
      case Some(c) =>
        var calls := [c] + r.1;
        if visit(c.0, c.1) {
          assert forall i | 1 <= i < |calls| :: calls[i] == r.1[i - 1];
          assert |r.1| < |rest| ==> keys[|calls|] == rest[|r.1|];
          assert calls[0] == c;
          if forall i | 0 <= i < |r.1| :: visit(r.1[i].0, r.1[i].1) {
            forall i | 0 <= i < |calls|
              ensures visit(calls[i].0, calls[i].1)
            {
              if i > 0 {
                assert calls[i] == r.1[i - 1];
              }
            }
          }
          if forall i | 0 <= i < |calls| :: visit(calls[i].0, calls[i].1) {
            forall i | 0 <= i < |r.1|
              ensures visit(r.1[i].0, r.1[i].1)
            {
              assert calls[i + 1] == r.1[i];
            }
          }
        } else {
          assert !visit(calls[0].0, calls[0].1);
        }
    }
  }

  /** A stored key of the log range that decodes is the log key of this tablet with an id below UINT64_MAX. */
  lemma LogScanKey(tablet_id: int64, k: Bytes)
    requires InRange(k, MetaLogKey(tablet_id, 0), MetaLogKey(tablet_id, UINT64_MAX))
    requires DecodeMetaLogKey(k).Some?
    ensures var r := DecodeMetaLogKey(k).value;
      k == MetaLogKey(tablet_id, r.1) && r.1 < UINT64_MAX
  {
    var r := DecodeMetaLogKey(k).value;
    InRangeHasPrefix(k, LogPrefix + TabletIdField(tablet_id), Fixed64(0), Fixed64(UINT64_MAX));
    PrefixOfPrefix(k, LogPrefix, TabletIdField(tablet_id));
    MetaLogKeyOfDecoded(k);
    MetaLogKeyInRange(tablet_id, 0, UINT64_MAX, r.0, r.1);
  }

  /** `traverse_meta_logs` hands the log entries over in strictly ascending log-id order. */
  lemma TraverseMetaLogsAscending(data: Data, codec: Codec, tablet_id: int64, visit: (uint64, TabletMetaLogPB) -> bool)
    ensures var calls := LogCalls(LogReader(data, codec), visit, LogScan(data, tablet_id)).1;
      forall i, j | 0 <= i < j < |calls| :: calls[i].0 < calls[j].0
  {
    var keys := LogScan(data, tablet_id);
    var read := LogReader(data, codec);
    LogCallsRead(read, visit, keys);
    var calls := LogCalls(read, visit, keys).1;
    forall i, j | 0 <= i < j < |calls|
      ensures calls[i].0 < calls[j].0
    {
      assert read(keys[i]) == Some(calls[i]) && read(keys[j]) == Some(calls[j]);
      assert keys[i] in keys && keys[j] in keys;
      assert Below(keys[i], keys[j]);
      LogScanKey(tablet_id, keys[i]);
      LogScanKey(tablet_id, keys[j]);
      MetaLogKeyOrder(tablet_id, calls[i].0, tablet_id, calls[j].0);
    }
  }

  /**
    With a visitor that always answers true, a scan that ends without
    Corruption has handed over every stored log entry of the tablet, except
    one at log id UINT64_MAX, which lies outside the range.
   */
  lemma TraverseMetaLogsComplete(data: Data, codec: Codec, tablet_id: int64, visit: (uint64, TabletMetaLogPB) -> bool, log_id: uint64)
    requires forall l, log :: visit(l, log)
    requires MetaLogKey(tablet_id, log_id) in data
    ensures var (st, calls) := LogCalls(LogReader(data, codec), visit, LogScan(data, tablet_id));
      st == OK && log_id < UINT64_MAX ==>
        codec.parseLog(data[MetaLogKey(tablet_id, log_id)]).Some?
        && (log_id, codec.parseLog(data[MetaLogKey(tablet_id, log_id)]).value) in calls
  {
    var keys := LogScan(data, tablet_id);
    var read := LogReader(data, codec);
    var r := LogCalls(read, visit, keys);
    if r.0 == OK && log_id < UINT64_MAX {
      LogCallsRead(read, visit, keys);
      LogCallsExhaustive(read, visit, keys);
      var k := MetaLogKey(tablet_id, log_id);
      MetaLogKeyInRange(tablet_id, 0, UINT64_MAX, tablet_id, log_id);
      assert k in keys;
      var j :| 0 <= j < |keys| && keys[j] == k;
      MetaLogKeyRoundTrip(tablet_id, log_id);
      assert read(k) == Some(r.1[j]);
      assert ReadLog(data, codec, k) == Some(r.1[j]);
    }
  }

  /** A visitor that never stops makes a scan that ends without Corruption go through every key. */
  lemma {:induction false} LogCallsExhaustive(read: Bytes -> Option<LogCall>, visit: (uint64, TabletMetaLogPB) -> bool, keys: seq<Bytes>)
    requires forall l, log :: visit(l, log)
    ensures var r := LogCalls(read, visit, keys); r.0 == OK ==> |r.1| == |keys|
    decreases |keys|
  {
    if keys != [] {
      LogCallsExhaustive(read, visit, keys[1..]);
    }
  }

  // ---------------------------------------------------------------------
  // remove of a whole tablet
  // ---------------------------------------------------------------------

  /** The primary-key flag after one header: a header that parses decides it, one that does not leaves it. */
  function PrimaryAfter(codec: Codec, value: Bytes, is_primary: bool): bool
  {
    match codec.parseMeta(value)
    case None => is_primary
    case Some(m) => IsPrimary(m)
  }

  /**
    The scan of `remove(tablet_id)` over the keys under "tabletmeta_<id>_":
    it deletes each key `own` accepts and notes whether its header, when it
    parses, is of a primary-key tablet (the last parsed header wins); the
    first key `own` rejects stops the scan. For `remove(tablet_id)`, `own`
    is `OwnHeaderOf(tablet_id)`: an undecodable key, or one of another
    tablet, stops it.
   */
  function RemoveVisit(data: Data, codec: Codec, keys: seq<Bytes>, own: Bytes -> bool, is_primary: bool): (seq<BatchOp>, bool)
    decreases |keys|
  {
    if keys == [] || !own(keys[0]) then ([], is_primary)
    else
      var r := RemoveVisit(data, codec, keys[1..], own, PrimaryAfter(codec, ValueAt(data, keys[0]), is_primary));
      ([BatchOp.Delete(keys[0])] + r.0, r.1)
  }

  /** The key is a header of the tablet: it decodes, and to this tablet's id. */
  predicate OwnHeader(k: Bytes, tablet_id: int64)
  {
    match DecodeTabletMetaKey(k)
    case None => false
    case Some((tid, _)) => tid == tablet_id
  }

  /** The test the scan of `remove(tablet_id)` applies to each key before going on. */
  function OwnHeaderOf(tablet_id: int64): Bytes -> bool
  {
    k => OwnHeader(k, tablet_id)
  }

  /** One step of the scan of `remove(tablet_id)`, taken at position `i` of the keys. */
  lemma RemoveVisitFrom(data: Data, codec: Codec, keys: seq<Bytes>, i: nat, own: Bytes -> bool, is_primary: bool)
    requires i < |keys|
    ensures RemoveVisit(data, codec, keys[i..], own, is_primary) ==
      if !own(keys[i]) then ([], is_primary)
      else
        ([BatchOp.Delete(keys[i])] + RemoveVisit(data, codec, keys[i + 1..], own, PrimaryAfter(codec, ValueAt(data, keys[i]), is_primary)).0,
         RemoveVisit(data, codec, keys[i + 1..], own, PrimaryAfter(codec, ValueAt(data, keys[i]), is_primary)).1)
  {
    assert keys[i..][0] == keys[i] && keys[i..][1..] == keys[i + 1..];
  }

  /** The range clears a primary-key tablet's removal queues after the header deletions. */
  function PrimaryClearOps(tablet_id: int64): seq<BatchOp>
  {
    [ClearLogOp(tablet_id), ClearDelVectorOp(tablet_id), ClearRowsetOp(tablet_id), ClearPendingRowsetOp(tablet_id)]
  }

  /** The keys `remove(tablet_id)` scans: those under "tabletmeta_<id>_", ascending. */
  ghost function HeaderScan(data: Data, tablet_id: int64): seq<Bytes>
  {
    ScanPrefix(data, TabletHeaderPrefix(tablet_id))
  }

  /** The header deletions and the primary-key flag of `remove(tablet_id)`'s scan. */
  ghost function RemovalScan(data: Data, codec: Codec, tablet_id: int64): (seq<BatchOp>, bool)
  {
    RemoveVisit(data, codec, HeaderScan(data, tablet_id), OwnHeaderOf(tablet_id), false)
  }

  /** The range clears `remove(tablet_id)` queues: the four of a primary-key tablet, or none. */
  function RemovalClears(is_primary: bool, tablet_id: int64): seq<BatchOp>
  {
    if is_primary then PrimaryClearOps(tablet_id) else []
  }

  /** The batch `remove(tablet_id)` writes. */
  ghost function RemoveTabletOps(data: Data, codec: Codec, tablet_id: int64): seq<BatchOp>
  {
    RemovalScan(data, codec, tablet_id).0 + RemovalClears(RemovalScan(data, codec, tablet_id).1, tablet_id)
  }

  /** `remove(tablet_id)`: deletes the tablet's headers and, for a primary-key tablet, everything else it owns. */
  method RemoveTablet(store: Store, codec: Codec, tablet_id: int64) returns (st: Status)
    modifies store
    ensures st == OK
    ensures store.data == ApplyBatch(old(store.data), RemoveTabletOps(old(store.data), codec, tablet_id))
  {
    var keys := store.Iterate(TabletHeaderPrefix(tablet_id));
    var batch := new WriteBatch();
    var is_primary := DeleteHeaders(batch, store.data, codec, keys, tablet_id);
    if is_primary {
      ClearPrimary(batch, tablet_id);
    } else {
      assert batch.ops == batch.ops + [];
    }
    store.Write(batch);
    return OK;
  }

  /** The four range clears `remove(tablet_id)` queues for a primary-key tablet. */
  method ClearPrimary(batch: WriteBatch, tablet_id: int64)
    modifies batch
    ensures batch.ops == old(batch.ops) + PrimaryClearOps(tablet_id)
  {
    ClearLog(batch, tablet_id);
    ClearDelVector(batch, tablet_id);
    ClearRowset(batch, tablet_id);
    ClearPendingRowset(batch, tablet_id);
  }

  /** The scan callback of `remove(tablet_id)`, queueing its deletions on a fresh batch. */
  method DeleteHeaders(batch: WriteBatch, data: Data, codec: Codec, keys: seq<Bytes>, tablet_id: int64) returns (is_primary: bool)
    requires batch.ops == []
    modifies batch
    ensures (batch.ops, is_primary) == RemoveVisit(data, codec, keys, OwnHeaderOf(tablet_id), false)
  {
    is_primary := false;
    ghost var full := RemoveVisit(data, codec, keys, OwnHeaderOf(tablet_id), false);
    var i := 0;
    var more := true;
    assert keys[0..] == keys && [] + full.0 == full.0;
    while i < |keys| && more
      invariant 0 <= i <= |keys|
      invariant more ==> RemoveRest(data, codec, keys, i, OwnHeaderOf(tablet_id), batch.ops, is_primary, full)
      invariant !more ==> batch.ops == full.0 && is_primary == full.1
      decreases |keys| - i
    {
      var k := keys[i];
      var r := DecodeTabletMetaKey(k);
      if r.None? || r.value.0 != tablet_id {
        RemoveRestStop(data, codec, keys, i, OwnHeaderOf(tablet_id), batch.ops, is_primary, full);
        more := false;
      } else {
        RemoveRestStep(data, codec, keys, i, OwnHeaderOf(tablet_id), batch.ops, is_primary, full);
        batch.Delete(k);
        var meta := codec.parseMeta(ValueAt(data, k));
        if meta.Some? {
          is_primary := IsPrimary(meta.value);
        }
      }
      i := i + 1;
    }
    if more {
      assert keys[i..] == [] && batch.ops + [] == batch.ops;
    }
  }

  /** The deletions queued so far, followed by those the scan of keys[i..] queues, make up the whole scan's. */
  ghost predicate RemoveRest(data: Data, codec: Codec, keys: seq<Bytes>, i: nat, own: Bytes -> bool,
                             ops: seq<BatchOp>, is_primary: bool, full: (seq<BatchOp>, bool))
    requires i <= |keys|
  {
    var r := RemoveVisit(data, codec, keys[i..], own, is_primary);
    ops + r.0 == full.0 && r.1 == full.1
  }

  /** A key that is not a header of the tablet ends the scan with what has been queued. */
  lemma RemoveRestStop(data: Data, codec: Codec, keys: seq<Bytes>, i: nat, own: Bytes -> bool,
                       ops: seq<BatchOp>, is_primary: bool, full: (seq<BatchOp>, bool))
    requires i < |keys| && RemoveRest(data, codec, keys, i, own, ops, is_primary, full)
    requires !own(keys[i])
    ensures ops == full.0 && is_primary == full.1
  {
    RemoveVisitFrom(data, codec, keys, i, own, is_primary);
    assert ops + [] == ops;
  }

  /** A header of the tablet is deleted and its parsed header, if any, sets the flag. */
  lemma RemoveRestStep(data: Data, codec: Codec, keys: seq<Bytes>, i: nat, own: Bytes -> bool,
                       ops: seq<BatchOp>, is_primary: bool, full: (seq<BatchOp>, bool))
    requires i < |keys| && RemoveRest(data, codec, keys, i, own, ops, is_primary, full)
    requires own(keys[i])
    ensures RemoveRest(data, codec, keys, i + 1, own, ops + [BatchOp.Delete(keys[i])],
                       PrimaryAfter(codec, ValueAt(data, keys[i]), is_primary), full)
  {
    RemoveVisitFrom(data, codec, keys, i, own, is_primary);
    var rest := RemoveVisit(data, codec, keys[i + 1..], own, PrimaryAfter(codec, ValueAt(data, keys[i]), is_primary));
    assert ops + ([BatchOp.Delete(keys[i])] + rest.0) == ops + [BatchOp.Delete(keys[i])] + rest.0;
  }

  /** The scan deletes the keys at the head of its run, up to the first key that is undecodable or of another tablet. */
  lemma {:induction false} RemoveVisitDeletes(data: Data, codec: Codec, keys: seq<Bytes>, own: Bytes -> bool, is_primary: bool)
    ensures var ops := RemoveVisit(data, codec, keys, own, is_primary).0;
      && |ops| <= |keys|
      && (forall i | 0 <= i < |ops| :: ops[i] == BatchOp.Delete(keys[i]))
      && (|ops| < |keys| ==> !own(keys[|ops|]))
    decreases |keys|
  {
    if keys != [] {
      var rest := keys[1..];
      if own(keys[0]) {
        var primary := PrimaryAfter(codec, ValueAt(data, keys[0]), is_primary);
        RemoveVisitDeletes(data, codec, rest, own, primary);
        var r := RemoveVisit(data, codec, rest, own, primary);
        assert RemoveVisit(data, codec, keys, own, is_primary).0 == [BatchOp.Delete(keys[0])] + r.0;
        DeletesCons(keys, r.0, own);
      }
    }
  }

  lemma DeletesCons(keys: seq<Bytes>, ops: seq<BatchOp>, own: Bytes -> bool)
    requires keys != [] && |ops| <= |keys| - 1
    requires forall i | 0 <= i < |ops| :: ops[i] == BatchOp.Delete(keys[1..][i])
    requires |ops| < |keys| - 1 ==> !own(keys[1..][|ops|])
    ensures var all := [BatchOp.Delete(keys[0])] + ops;
      && (forall i | 0 <= i < |all| :: all[i] == BatchOp.Delete(keys[i]))
      && (|all| < |keys| ==> !own(keys[|all|]))
  {
    var all := [BatchOp.Delete(keys[0])] + ops;
    assert forall i | 1 <= i < |all| :: all[i] == ops[i - 1] && keys[i] == keys[1..][i - 1];
  }

  /** The header at `i` parses as a primary-key tablet and none of the headers after it, up to `n`, parses. */
  ghost predicate PrimaryLastAt(data: Data, codec: Codec, keys: seq<Bytes>, i: nat, n: nat)
    requires i < n <= |keys|
  {
    && codec.parseMeta(ValueAt(data, keys[i])).Some? && IsPrimary(codec.parseMeta(ValueAt(data, keys[i])).value)
    && forall j | i < j < n :: codec.parseMeta(ValueAt(data, keys[j])).None?
  }

  /** A header that parses sets the flag: it ends up true exactly when the last header that parsed is of a primary-key tablet. */
  ghost predicate LastParsedPrimary(data: Data, codec: Codec, keys: seq<Bytes>, n: nat, is_primary: bool)
    requires n <= |keys|
  {
    || (exists i | 0 <= i < n :: PrimaryLastAt(data, codec, keys, i, n))
    || (is_primary && forall j | 0 <= j < n :: codec.parseMeta(ValueAt(data, keys[j])).None?)
  }

  lemma {:induction false} RemoveVisitPrimary(data: Data, codec: Codec, keys: seq<Bytes>, own: Bytes -> bool, is_primary: bool)
    ensures var r := RemoveVisit(data, codec, keys, own, is_primary);
      |r.0| <= |keys| && (r.1 <==> LastParsedPrimary(data, codec, keys, |r.0|, is_primary))
    decreases |keys|
  {
    if keys != [] {
      var rest := keys[1..];
      if own(keys[0]) {
        var primary := PrimaryAfter(codec, ValueAt(data, keys[0]), is_primary);
        RemoveVisitPrimary(data, codec, rest, own, primary);
        var r := RemoveVisit(data, codec, rest, own, primary);
        assert RemoveVisit(data, codec, keys, own, is_primary) == ([BatchOp.Delete(keys[0])] + r.0, r.1);
        ShiftLastParsed(data, codec, keys, |r.0|, primary, is_primary);
      }
    }
  }

  /** LastParsedPrimary over keys[1..] with the flag the first key leaves, read over keys. */
  lemma ShiftLastParsed(data: Data, codec: Codec, keys: seq<Bytes>, n: nat, primary: bool, is_primary: bool)
    requires 0 < |keys| && n < |keys|
    requires primary == PrimaryAfter(codec, ValueAt(data, keys[0]), is_primary)
    ensures LastParsedPrimary(data, codec, keys[1..], n, primary) <==> LastParsedPrimary(data, codec, keys, n + 1, is_primary)
  {
    var rest := keys[1..];
    assert forall i | 0 <= i < n :: rest[i] == keys[i + 1];
    if LastParsedPrimary(data, codec, rest, n, primary) {
      if i :| 0 <= i < n && PrimaryLastAt(data, codec, rest, i, n) {
        assert forall j | i + 1 < j < n + 1 :: keys[j] == rest[j - 1];
        assert PrimaryLastAt(data, codec, keys, i + 1, n + 1);
      } else {
        assert forall j | 1 <= j < n + 1 :: keys[j] == rest[j - 1];
        if codec.parseMeta(ValueAt(data, keys[0])).Some? {
          assert PrimaryLastAt(data, codec, keys, 0, n + 1);
        }
      }
    }
    var m := n + 1;
    if LastParsedPrimary(data, codec, keys, m, is_primary) {
      if i :| 0 <= i < m && PrimaryLastAt(data, codec, keys, i, m) {
        if i > 0 {
          assert forall j | i - 1 < j < n :: rest[j] == keys[j + 1];
          assert PrimaryLastAt(data, codec, rest, i - 1, n);
        } else {
          assert forall j | 0 <= j < n :: rest[j] == keys[j + 1];
        }
      } else {
        assert forall j | 0 <= j < n :: rest[j] == keys[j + 1];
      }
    }
  }

  // ---------------------------------------------------------------------
  // What remove(tablet_id) leaves in the store
  // ---------------------------------------------------------------------

  /** Every stored key under the tablet's header prefix decodes, as keys written by `save` do. */
  ghost predicate HeadersDecode(data: Data, tablet_id: int64)
  {
    forall k | k in data && HasPrefix(k, TabletHeaderPrefix(tablet_id)) :: DecodeTabletMetaKey(k).Some?
  }

  /** The key lies in one of the four ranges a primary-key tablet's removal clears. */
  predicate ClearedForPrimary(tablet_id: int64, k: Bytes)
  {
    || Touches(ClearLogOp(tablet_id), k) || Touches(ClearDelVectorOp(tablet_id), k)
    || Touches(ClearRowsetOp(tablet_id), k) || Touches(ClearPendingRowsetOp(tablet_id), k)
  }

  /** When the tablet's headers all decode, the scan of `remove(tablet_id)` deletes every one of them. */
  lemma RemoveVisitWhole(data: Data, codec: Codec, tablet_id: int64)
    requires HeadersDecode(data, tablet_id)
    ensures |RemovalScan(data, codec, tablet_id).0| == |HeaderScan(data, tablet_id)|
  {
    var keys := HeaderScan(data, tablet_id);
    RemoveVisitDeletes(data, codec, keys, OwnHeaderOf(tablet_id), false);
    var ops := RemovalScan(data, codec, tablet_id).0;
    if |ops| < |keys| {
      var k := keys[|ops|];
      assert k in keys;
      TabletHeaderPrefixDecodes(tablet_id, k);
      assert false;
    }
  }

  /** Header deletions followed by steps that only erase: a key survives unless one of them reaches it. */
  lemma DeletionsThenErasures(m: Data, dels: seq<BatchOp>, keys: seq<Bytes>, clears: seq<BatchOp>, k: Bytes)
    requires |dels| <= |keys| && forall i | 0 <= i < |dels| :: dels[i] == BatchOp.Delete(keys[i])
    requires forall i | 0 <= i < |clears| :: !clears[i].Put?
    ensures Lookup(ApplyBatch(m, dels + clears), k) ==
      if (exists i | 0 <= i < |dels| :: keys[i] == k) || (exists i | 0 <= i < |clears| :: Touches(clears[i], k))
      then None else Lookup(m, k)
  {
    var ops := dels + clears;
    assert forall i | 0 <= i < |dels| :: ops[i] == dels[i];
    assert forall i | 0 <= i < |clears| :: ops[|dels| + i] == clears[i];
    DeletionsAt(m, ops, k);
    if exists i | 0 <= i < |ops| :: Touches(ops[i], k) {
      var i :| 0 <= i < |ops| && Touches(ops[i], k);
      if i < |dels| {
        assert keys[i] == k;
      } else {
        assert Touches(clears[i - |dels|], k);
      }
    }
    if exists i | 0 <= i < |dels| :: keys[i] == k {
      var i :| 0 <= i < |dels| && keys[i] == k;
      assert Touches(ops[i], k);
    }
    if exists i | 0 <= i < |clears| :: Touches(clears[i], k) {
      var i :| 0 <= i < |clears| && Touches(clears[i], k);
      assert Touches(ops[|dels| + i], k);
    }
  }

  /** The primary-key clears only erase, and they reach exactly the keys of the four ranges. */
  lemma PrimaryClearOpsReach(tablet_id: int64, k: Bytes)
    ensures forall i | 0 <= i < |PrimaryClearOps(tablet_id)| :: !PrimaryClearOps(tablet_id)[i].Put?
    ensures (exists i | 0 <= i < |PrimaryClearOps(tablet_id)| :: Touches(PrimaryClearOps(tablet_id)[i], k)) <==>
      ClearedForPrimary(tablet_id, k)
  {
    var c := PrimaryClearOps(tablet_id);
    if ClearedForPrimary(tablet_id, k) {
      if Touches(c[0], k) {
      } else if Touches(c[1], k) {
      } else if Touches(c[2], k) {
      } else {
        assert Touches(c[3], k);
      }
    }
  }

  /** What `remove(tablet_id)` leaves at one key, in terms of its scan and flag. */
  lemma RemoveTabletAt(data: Data, codec: Codec, tablet_id: int64, k: Bytes)
    ensures |RemovalScan(data, codec, tablet_id).0| <= |HeaderScan(data, tablet_id)|
    ensures Lookup(ApplyBatch(data, RemoveTabletOps(data, codec, tablet_id)), k) ==
      if (exists i | 0 <= i < |RemovalScan(data, codec, tablet_id).0| :: HeaderScan(data, tablet_id)[i] == k)
         || (RemovalScan(data, codec, tablet_id).1 && ClearedForPrimary(tablet_id, k))
      then None else Lookup(data, k)
  {
    var keys := HeaderScan(data, tablet_id);
    var r := RemovalScan(data, codec, tablet_id);
    var clears := RemovalClears(r.1, tablet_id);
    RemoveVisitDeletes(data, codec, keys, OwnHeaderOf(tablet_id), false);
    if r.1 {
      PrimaryClearOpsReach(tablet_id, k);
    }
    assert (exists i | 0 <= i < |clears| :: Touches(clears[i], k)) <==> r.1 && ClearedForPrimary(tablet_id, k);
    DeletionsThenErasures(data, r.0, keys, clears, k);
  }

  /** `remove(tablet_id)` erases every header of the tablet, whatever its schema hash. */
  lemma RemoveTabletErasesHeaders(data: Data, codec: Codec, tablet_id: int64, k: Bytes)
    requires HeadersDecode(data, tablet_id)
    requires HasPrefix(k, TabletHeaderPrefix(tablet_id))
    ensures k !in ApplyBatch(data, RemoveTabletOps(data, codec, tablet_id))
  {
    RemoveTabletAt(data, codec, tablet_id, k);
    if k in data {
      var keys := HeaderScan(data, tablet_id);
      RemoveVisitWhole(data, codec, tablet_id);
      assert k in keys;
      var j :| 0 <= j < |keys| && keys[j] == k;
    }
  }

  /**
    The flag that decides the range clears: with the tablet's headers all
    decodable, it is set exactly when the last of them that parses is of a
    primary-key tablet.
   */
  lemma RemoveTabletPrimaryFlag(data: Data, codec: Codec, tablet_id: int64)
    requires HeadersDecode(data, tablet_id)
    ensures RemovalScan(data, codec, tablet_id).1 <==>
      exists i | 0 <= i < |HeaderScan(data, tablet_id)| ::
        PrimaryLastAt(data, codec, HeaderScan(data, tablet_id), i, |HeaderScan(data, tablet_id)|)
  {
    var keys := HeaderScan(data, tablet_id);
    RemoveVisitWhole(data, codec, tablet_id);
    RemoveVisitPrimary(data, codec, keys, OwnHeaderOf(tablet_id), false);
  }

  /**
    Outside the tablet's headers, `remove(tablet_id)` erases exactly the keys
    of the four cleared ranges, and only for a primary-key tablet; every
    other key keeps its value.
   */
  lemma RemoveTabletKeepsOthers(data: Data, codec: Codec, tablet_id: int64, k: Bytes)
    requires !HasPrefix(k, TabletHeaderPrefix(tablet_id))
    ensures Lookup(ApplyBatch(data, RemoveTabletOps(data, codec, tablet_id)), k) ==
      if RemovalScan(data, codec, tablet_id).1 && ClearedForPrimary(tablet_id, k) then None else Lookup(data, k)
  {
    RemoveTabletAt(data, codec, tablet_id, k);
    var keys := HeaderScan(data, tablet_id);
    forall i | 0 <= i < |keys|
      ensures keys[i] != k
    {
      assert keys[i] in keys;
    }
  }
}
