/**
  Importing a tablet's metadata from a JSON document
  (be/src/storage/tablet_meta_manager.cpp:437-587).

  `load_json_meta` takes either a bare tablet header, which becomes one
  header put, or a document with a "tablet_meta" member, which
  `build_primary_meta` turns into a destructive import: the header is put,
  the tablet's log, delete vectors, rowsets and pending rowsets are cleared,
  and then the document's rowsets, pending rowsets, log entries and delete
  vectors are put, in that order. Any entry whose JSON does not convert
  fails the import, and nothing is written.

  The JSON text and its conversion to protobuf messages are external: the
  document is given already split into its members (`MetaDoc`), and the
  conversions are a parameter (`JsonCodec`). The lemmas say what the import
  leaves at every key: the tablet's cleared families hold exactly what the
  document puts there, and every key outside the tablet keeps its value.
 */
module MetaImport {
  import opened Bytes
  import opened Wrappers
  import opened KeyCodec
  import opened KVStore
  import opened Messages
  import opened MetaBatch

  /** The JSON text of one member or array element. */
  type JsonText = seq<char>

  /** An element of "pending_rs_metas": its "version" and its "rs_meta" object. */
  datatype PendingRowsetJson = PendingRowsetJson(version: int64, rs_meta: JsonText)

  /** An element of "tablet_meta_logs": its "logid" and its "tablet_meta_log" object. */
  datatype MetaLogJson = MetaLogJson(logid: uint64, tablet_meta_log: JsonText)

  /** An element of "del_vectors": its "segment_id", "version" and "base64_val". */
  datatype DelVectorJson = DelVectorJson(segment_id: uint32, version: int64, base64_val: seq<char>)

  /**
    A document with a "tablet_meta" member. `tablet_meta` is None when that
    member is not an object; an array member that is absent or not an array
    reads as an empty list, since the import then skips it.
   */
  datatype MetaDoc = MetaDoc(
    tablet_meta: Option<JsonText>,
    applied_rs_metas: seq<JsonText>,
    pending_rs_metas: seq<PendingRowsetJson>,
    tablet_meta_logs: seq<MetaLogJson>,
    del_vectors: seq<DelVectorJson>)

  /** What `load_json_meta` finds in the file: text that does not parse, a bare header, or a document. */
  datatype JsonInput =
    | Unparsable
    | BareHeader(text: JsonText)
    | Document(doc: MetaDoc)

  /** The external conversions: `json2pb::JsonToProtoMessage` for each message, and `base64_decode`. */
  datatype JsonCodec = JsonCodec(
    toMeta: JsonText -> Option<TabletMetaPB>,
    toRowset: JsonText -> Option<RowsetMetaPB>,
    toLog: JsonText -> Option<TabletMetaLogPB>,
    base64: seq<char> -> Bytes)

  // ---------------------------------------------------------------------
  // The entries a document puts
  // ---------------------------------------------------------------------

  /** The key and value each element of a list converts to: all of them, in order, or None if any fails. */
  function Entries<T>(entry: T -> Option<(Bytes, Bytes)>, xs: seq<T>): (r: Option<seq<(Bytes, Bytes)>>)
    ensures r.Some? <==> forall i | 0 <= i < |xs| :: entry(xs[i]).Some?
    ensures r.Some? ==> |r.value| == |xs| && forall i | 0 <= i < |xs| :: r.value[i] == entry(xs[i]).value
    decreases |xs|
  {
    if xs == [] then Some([])
    else
      var n := |xs| - 1;
      match Entries(entry, xs[..n])
      case None => None
      case Some(kvs) =>
        match entry(xs[n])
        case None => None
        case Some(kv) => Some(kvs + [kv])
  }

  /** One put per key and value, in order. */
  function PutOps(kvs: seq<(Bytes, Bytes)>): (ops: seq<BatchOp>)
    ensures |ops| == |kvs|
    ensures forall i | 0 <= i < |kvs| :: ops[i] == BatchOp.Put(kvs[i].0, kvs[i].1)
    decreases |kvs|
  {
    if kvs == [] then [] else PutOps(kvs[..|kvs| - 1]) + [BatchOp.Put(kvs[|kvs| - 1].0, kvs[|kvs| - 1].1)]
  }

  /** An applied rowset: under its segment id, the serialised rowset. */
  function RowsetEntry(codec: Codec, jc: JsonCodec, tablet_id: int64): JsonText -> Option<(Bytes, Bytes)>
  {
    j => match jc.toRowset(j)
         case None => None
         case Some(r) => Some((MetaRowsetKey(tablet_id, r.rowset_seg_id), codec.serializeRowset(r)))
  }

  /** A pending rowset: under the version the document gives, the serialised rowset. */
  function PendingRowsetEntry(codec: Codec, jc: JsonCodec, tablet_id: int64): PendingRowsetJson -> Option<(Bytes, Bytes)>
  {
    (p: PendingRowsetJson) => match jc.toRowset(p.rs_meta)
         case None => None
         case Some(r) => Some((PendingRowsetKey(tablet_id, p.version), codec.serializeRowset(r)))
  }

  /** A log entry: under its log id, the serialised log record. */
  function MetaLogEntry(codec: Codec, jc: JsonCodec, tablet_id: int64): MetaLogJson -> Option<(Bytes, Bytes)>
  {
    (l: MetaLogJson) => match jc.toLog(l.tablet_meta_log)
         case None => None
         case Some(log) => Some((MetaLogKey(tablet_id, l.logid), codec.serializeLog(log)))
  }

  /** A delete vector: under its segment and version, the decoded bytes; this one never fails. */
  function DelVectorEntry(jc: JsonCodec, tablet_id: int64): DelVectorJson -> Option<(Bytes, Bytes)>
  {
    (d: DelVectorJson) => Some((DelVectorKey(tablet_id, d.segment_id, d.version), jc.base64(d.base64_val)))
  }

  /** The steps queued before the document's entries: the header put, then the four clears. */
  function HeadOps(codec: Codec, meta: TabletMetaPB): seq<BatchOp>
  {
    [PutTabletMetaOp(codec, meta), ClearLogOp(meta.tablet_id), ClearDelVectorOp(meta.tablet_id),
     ClearRowsetOp(meta.tablet_id), ClearPendingRowsetOp(meta.tablet_id)]
  }

  /** The tablet header the document holds, if "tablet_meta" is an object that converts. */
  function ImportedMeta(jc: JsonCodec, doc: MetaDoc): Option<TabletMetaPB>
  {
    match doc.tablet_meta
    case None => None
    case Some(j) => jc.toMeta(j)
  }

  /** The entries of the four lists, in the order they are put, or None if one of them fails. */
  function DocEntries(codec: Codec, jc: JsonCodec, doc: MetaDoc, tablet_id: int64): Option<seq<(Bytes, Bytes)>>
  {
    match (Entries(RowsetEntry(codec, jc, tablet_id), doc.applied_rs_metas),
           Entries(PendingRowsetEntry(codec, jc, tablet_id), doc.pending_rs_metas),
           Entries(MetaLogEntry(codec, jc, tablet_id), doc.tablet_meta_logs),
           Entries(DelVectorEntry(jc, tablet_id), doc.del_vectors))
    case (Some(a), Some(b), Some(c), Some(d)) => Some(a + b + c + d)
    case _ => None
  }

  /** The puts of the four lists, list by list, or None when an entry does not convert. */
  function EntryOps(codec: Codec, jc: JsonCodec, doc: MetaDoc, tablet_id: int64): Option<seq<BatchOp>>
  {
    match (Entries(RowsetEntry(codec, jc, tablet_id), doc.applied_rs_metas),
           Entries(PendingRowsetEntry(codec, jc, tablet_id), doc.pending_rs_metas),
           Entries(MetaLogEntry(codec, jc, tablet_id), doc.tablet_meta_logs),
           Entries(DelVectorEntry(jc, tablet_id), doc.del_vectors))
    case (Some(a), Some(b), Some(c), Some(d)) => Some(PutOps(a) + PutOps(b) + PutOps(c) + PutOps(d))
    case _ => None
  }

  /** The whole batch `build_primary_meta` queues, or None when it fails. */
  function ImportOps(codec: Codec, jc: JsonCodec, doc: MetaDoc): Option<seq<BatchOp>>
  {
    match ImportedMeta(jc, doc)
    case None => None
    case Some(meta) =>
      match EntryOps(codec, jc, doc, meta.tablet_id)
      case None => None
      case Some(ops) => Some(HeadOps(codec, meta) + ops)
  }

  // ---------------------------------------------------------------------
  // build_primary_meta and load_json_meta
  // ---------------------------------------------------------------------

  /** One of the import's loops: each element converted and put; false at the first that does not convert. */
  method QueueEntries<T>(batch: WriteBatch, entry: T -> Option<(Bytes, Bytes)>, xs: seq<T>) returns (ok: bool)
    modifies batch
    ensures ok <==> Entries(entry, xs).Some?
    ensures ok ==> batch.ops == old(batch.ops) + PutOps(Entries(entry, xs).value)
  {
    var i := 0;
    while i < |xs|
      invariant i <= |xs|
      invariant Entries(entry, xs[..i]).Some?
      invariant batch.ops == old(batch.ops) + PutOps(Entries(entry, xs[..i]).value)
    {
      var kv := entry(xs[i]);
      if kv.None? {
        return false;
      }
      batch.Put(kv.value.0, kv.value.1);
      QueueStep(old(batch.ops), entry, xs, i);
      i := i + 1;
    }
    assert xs[..i] == xs;
    return true;
  }

  /** One more converted element: its put follows the puts of the elements before it. */
  lemma QueueStep<T>(s: seq<BatchOp>, entry: T -> Option<(Bytes, Bytes)>, xs: seq<T>, i: nat)
    requires i < |xs| && Entries(entry, xs[..i]).Some? && entry(xs[i]).Some?
    ensures Entries(entry, xs[..i + 1]).Some?
    ensures s + PutOps(Entries(entry, xs[..i]).value) + [BatchOp.Put(entry(xs[i]).value.0, entry(xs[i]).value.1)]
         == s + PutOps(Entries(entry, xs[..i + 1]).value)
  {
    assert xs[..i + 1][..i] == xs[..i];
    var kvs := Entries(entry, xs[..i]).value;
    var kv := entry(xs[i]).value;
    assert Entries(entry, xs[..i + 1]).value == kvs + [kv];
    PutOpsAppend(kvs, [kv]);
  }

  /** The four loops of `build_primary_meta`, in order; false at the first entry that does not convert. */
  method QueueDocEntries(batch: WriteBatch, codec: Codec, jc: JsonCodec, doc: MetaDoc, tablet_id: int64) returns (ok: bool)
    modifies batch
    ensures ok <==> EntryOps(codec, jc, doc, tablet_id).Some?
    ensures ok ==> batch.ops == old(batch.ops) + EntryOps(codec, jc, doc, tablet_id).value
  {
    ok := QueueEntries(batch, RowsetEntry(codec, jc, tablet_id), doc.applied_rs_metas);
    if !ok {
      return;
    }
    ghost var a := Entries(RowsetEntry(codec, jc, tablet_id), doc.applied_rs_metas).value;
    ok := QueueEntries(batch, PendingRowsetEntry(codec, jc, tablet_id), doc.pending_rs_metas);
    if !ok {
      return;
    }
    ghost var b := Entries(PendingRowsetEntry(codec, jc, tablet_id), doc.pending_rs_metas).value;
    ok := QueueEntries(batch, MetaLogEntry(codec, jc, tablet_id), doc.tablet_meta_logs);
    if !ok {
      return;
    }
    ghost var c := Entries(MetaLogEntry(codec, jc, tablet_id), doc.tablet_meta_logs).value;
    ok := QueueEntries(batch, DelVectorEntry(jc, tablet_id), doc.del_vectors);
    ghost var d := Entries(DelVectorEntry(jc, tablet_id), doc.del_vectors).value;
    ConcatAssoc(old(batch.ops), PutOps(a), PutOps(b), PutOps(c), PutOps(d));
  }

  /** The header put and the four clears that open `build_primary_meta`'s batch. */
  method QueueHead(batch: WriteBatch, codec: Codec, meta: TabletMetaPB)
    modifies batch
    ensures batch.ops == old(batch.ops) + HeadOps(codec, meta)
  {
    var tablet_id := meta.tablet_id;
    PutTabletMeta(batch, codec, meta);
    ClearLog(batch, tablet_id);
    ClearDelVector(batch, tablet_id);
    ClearRowset(batch, tablet_id);
    ClearPendingRowset(batch, tablet_id);
    ghost var s, a, b, c, d, e := old(batch.ops), PutTabletMetaOp(codec, meta), ClearLogOp(tablet_id),
      ClearDelVectorOp(tablet_id), ClearRowsetOp(tablet_id), ClearPendingRowsetOp(tablet_id);
    assert s + [a] + [b] + [c] + [d] + [e] == s + [a, b, c, d, e];
  }

  /** `build_primary_meta`: queues the import on `batch`; a document that does not convert is an internal error. */
  method BuildPrimaryMeta(batch: WriteBatch, codec: Codec, jc: JsonCodec, doc: MetaDoc) returns (st: Status)
    modifies batch
    ensures st == OK <==> ImportOps(codec, jc, doc).Some?
    ensures st == OK || st == InternalError
    ensures st == OK ==> batch.ops == old(batch.ops) + ImportOps(codec, jc, doc).value
  {
    if doc.tablet_meta.None? {
      return InternalError;
    }
    var parsed := jc.toMeta(doc.tablet_meta.value);
    if parsed.None? {
      return InternalError;
    }
    var meta := parsed.value;
    var tablet_id := meta.tablet_id;
    QueueHead(batch, codec, meta);
    var ok := QueueDocEntries(batch, codec, jc, doc, tablet_id);
    if !ok {
      return InternalError;
    }
    Regroup(old(batch.ops), HeadOps(codec, meta), EntryOps(codec, jc, doc, tablet_id).value);
    return OK;
  }

  /**
    Regrouping a batch queued in parts. Stated over abstract sequences, so
    that the concrete steps of the import are not unfolded where it is used.
   */
  lemma Regroup(s: seq<BatchOp>, h: seq<BatchOp>, e: seq<BatchOp>)
    ensures s + h + e == s + (h + e)
  {
  }

  lemma ConcatAssoc(s: seq<BatchOp>, a: seq<BatchOp>, b: seq<BatchOp>, c: seq<BatchOp>, d: seq<BatchOp>)
    ensures s + a + b + c + d == s + (a + b + c + d)
  {
  }

  /** The batch `load_json_meta` writes: one header put for a bare header, the import for a document. */
  function LoadJsonOps(codec: Codec, jc: JsonCodec, input: JsonInput): Option<seq<BatchOp>>
  {
    match input
    case Unparsable => None
    case BareHeader(text) =>
      (match jc.toMeta(text)
       case None => None
       case Some(meta) => Some([PutTabletMetaOp(codec, meta)]))
    case Document(doc) => ImportOps(codec, jc, doc)
  }

  /** `load_json_meta`: writes the batch in one go, or writes nothing and reports an internal error. */
  method LoadJsonMeta(store: Store, codec: Codec, jc: JsonCodec, input: JsonInput) returns (st: Status)
    modifies store
    ensures st == OK <==> LoadJsonOps(codec, jc, input).Some?
    ensures st == OK ==> store.data == ApplyBatch(old(store.data), LoadJsonOps(codec, jc, input).value)
    ensures st != OK ==> st == InternalError && store.data == old(store.data)
  {
    if input.Unparsable? {
      return InternalError;
    }
    var batch := new WriteBatch();
    if input.BareHeader? {
      var parsed := jc.toMeta(input.text);
      if parsed.None? {
        return InternalError;
      }
      PutTabletMeta(batch, codec, parsed.value);
      assert [] + [PutTabletMetaOp(codec, parsed.value)] == [PutTabletMetaOp(codec, parsed.value)];
    } else {
      st := BuildPrimaryMeta(batch, codec, jc, input.doc);
      if st != OK {
        return st;
      }
      ghost var ops := ImportOps(codec, jc, input.doc).value;
      assert [] + ops == ops;
    }
    assert batch.ops == LoadJsonOps(codec, jc, input).value;
    store.Write(batch);
    return OK;
  }

  /** A bare header file changes the header's own key and nothing else. */
  lemma BareHeaderAt(m: Data, codec: Codec, jc: JsonCodec, text: JsonText, k: Bytes)
    requires jc.toMeta(text).Some?
    ensures var meta := jc.toMeta(text).value;
      Lookup(ApplyBatch(m, LoadJsonOps(codec, jc, BareHeader(text)).value), k) ==
        if k == TabletMetaKey(meta.tablet_id, meta.schema_hash) then Some(codec.serializeMeta(meta)) else Lookup(m, k)
  {
    ApplyBatchOneAt(m, PutTabletMetaOp(codec, jc.toMeta(text).value), k);
  }

  // ---------------------------------------------------------------------
  // What the import leaves at each key
  // ---------------------------------------------------------------------

  /** The puts of two lists are the puts of their concatenation. */
  lemma PutOpsAppend(x: seq<(Bytes, Bytes)>, y: seq<(Bytes, Bytes)>)
    ensures PutOps(x) + PutOps(y) == PutOps(x + y)
  {
    assert forall i | 0 <= i < |x + y| :: (PutOps(x) + PutOps(y))[i] == PutOps(x + y)[i] by {
      forall i | 0 <= i < |x + y|
        ensures (PutOps(x) + PutOps(y))[i] == PutOps(x + y)[i]
      {
        if i < |x| {
          assert (x + y)[i] == x[i];
        } else {
          assert (x + y)[i] == y[i - |x|];
        }
      }
    }
  }

  /** In a concatenation, the later list decides when it has the key. */
  lemma {:induction false} LastValueAppend(x: seq<(Bytes, Bytes)>, y: seq<(Bytes, Bytes)>, k: Bytes)
    ensures LastFor(x + y, k) == if LastFor(y, k).Some? then LastFor(y, k) else LastFor(x, k)
    decreases |y|
  {
    if y == [] {
      assert x + y == x;
    } else {
      var n := |y| - 1;
      assert (x + y)[..|x + y| - 1] == x + y[..n];
      LastValueAppend(x, y[..n], k);
    }
  }

  /** Puts on top of any batch: the last put of a key decides, and the keys they do not put keep what the batch left. */
  lemma {:induction false} PutsAt(m: Data, head: seq<BatchOp>, kvs: seq<(Bytes, Bytes)>, k: Bytes)
    ensures Lookup(ApplyBatch(m, head + PutOps(kvs)), k) ==
      if LastFor(kvs, k).Some? then LastFor(kvs, k) else Lookup(ApplyBatch(m, head), k)
    decreases |kvs|
  {
    if kvs == [] {
      assert head + PutOps(kvs) == head;
    } else {
      var n := |kvs| - 1;
      var op := BatchOp.Put(kvs[n].0, kvs[n].1);
      assert head + PutOps(kvs) == (head + PutOps(kvs[..n])) + [op];
      PutsAt(m, head, kvs[..n], k);
      ApplyBatchSnocAt(m, head + PutOps(kvs[..n]), op, k);
    }
  }

  /** The puts of the four lists are the puts of their entries, one list after another. */
  lemma EntryOpsArePuts(codec: Codec, jc: JsonCodec, doc: MetaDoc, tablet_id: int64)
    ensures EntryOps(codec, jc, doc, tablet_id).Some? <==> DocEntries(codec, jc, doc, tablet_id).Some?
    ensures EntryOps(codec, jc, doc, tablet_id).Some? ==>
      EntryOps(codec, jc, doc, tablet_id).value == PutOps(DocEntries(codec, jc, doc, tablet_id).value)
  {
    var ra := Entries(RowsetEntry(codec, jc, tablet_id), doc.applied_rs_metas);
    var rb := Entries(PendingRowsetEntry(codec, jc, tablet_id), doc.pending_rs_metas);
    var rc := Entries(MetaLogEntry(codec, jc, tablet_id), doc.tablet_meta_logs);
    var rd := Entries(DelVectorEntry(jc, tablet_id), doc.del_vectors);
    if ra.Some? && rb.Some? && rc.Some? && rd.Some? {
      var a, b, c, d := ra.value, rb.value, rc.value, rd.value;
      PutOpsAppend(a, b);
      PutOpsAppend(a + b, c);
      PutOpsAppend(a + b + c, d);
    }
  }

  /** The keys the four clears of `build_primary_meta` erase. */
  predicate Cleared(tablet_id: int64, k: Bytes)
  {
    || Touches(ClearLogOp(tablet_id), k)
    || Touches(ClearDelVectorOp(tablet_id), k)
    || Touches(ClearRowsetOp(tablet_id), k)
    || Touches(ClearPendingRowsetOp(tablet_id), k)
  }

  /** A cleared key lies in one of the tablet's four families. */
  predicate InTabletFamilies(tablet_id: int64, k: Bytes)
  {
    || HasPrefix(k, LogPrefix + TabletIdField(tablet_id))
    || HasPrefix(k, DelVectorPrefix + TabletIdField(tablet_id))
    || HasPrefix(k, RowsetPrefix + TabletIdField(tablet_id))
    || HasPrefix(k, PendingRowsetPrefix + TabletIdField(tablet_id))
  }

  lemma ClearedInTabletFamilies(tablet_id: int64, k: Bytes)
    requires Cleared(tablet_id, k)
    ensures InTabletFamilies(tablet_id, k)
  {
    if Touches(ClearLogOp(tablet_id), k) {
      ClearLogStaysInTablet(tablet_id, k);
    } else if Touches(ClearDelVectorOp(tablet_id), k) {
      ClearDelVectorStaysInTablet(tablet_id, k);
    } else if Touches(ClearRowsetOp(tablet_id), k) {
      ClearRowsetStaysInTablet(tablet_id, k);
    } else {
      ClearPendingRowsetStaysInTablet(tablet_id, k);
    }
  }

  /** Keys under prefixes that differ in their first two bytes are different keys. */
  lemma PrefixesApart(k1: Bytes, p: Bytes, k2: Bytes, q: Bytes)
    requires HasPrefix(k1, p) && HasPrefix(k2, q)
    requires |p| >= 2 && |q| >= 2 && (p[0] != q[0] || p[1] != q[1])
    ensures k1 != k2
  {
    assert k1[0] == p[0] && k1[1] == p[1];
    assert k2[0] == q[0] && k2[1] == q[1];
  }

  /** No clear erases a header key. */
  lemma HeaderNotCleared(tablet_id: int64, schema_hash: int32, t: int64)
    ensures !Cleared(t, TabletMetaKey(tablet_id, schema_hash))
  {
    var k := TabletMetaKey(tablet_id, schema_hash);
    assert HasPrefix(k, HeaderPrefix) by {
      assert k[..|HeaderPrefix|] == HeaderPrefix;
    }
    if Cleared(t, k) {
      ClearedInTabletFamilies(t, k);
      var f := TabletIdField(t);
      if HasPrefix(k, LogPrefix + f) {
        PrefixesApart(k, LogPrefix + f, k, HeaderPrefix);
      } else if HasPrefix(k, DelVectorPrefix + f) {
        PrefixesApart(k, DelVectorPrefix + f, k, HeaderPrefix);
      } else if HasPrefix(k, RowsetPrefix + f) {
        PrefixesApart(k, RowsetPrefix + f, k, HeaderPrefix);
      } else {
        PrefixesApart(k, PendingRowsetPrefix + f, k, HeaderPrefix);
      }
    }
  }

  /** After the header put and the clears: the header holds the new meta, the cleared keys nothing, the rest what it held. */
  lemma HeadOpsAt(m: Data, codec: Codec, meta: TabletMetaPB, k: Bytes)
    ensures Lookup(ApplyBatch(m, HeadOps(codec, meta)), k) ==
      if Cleared(meta.tablet_id, k) then None
      else if k == TabletMetaKey(meta.tablet_id, meta.schema_hash) then Some(codec.serializeMeta(meta))
      else Lookup(m, k)
  {
    var t := meta.tablet_id;
    PutThenDeletionsAt(m, PutTabletMetaOp(codec, meta), ClearLogOp(t), ClearDelVectorOp(t), ClearRowsetOp(t),
                       ClearPendingRowsetOp(t), k);
    HeaderNotCleared(meta.tablet_id, meta.schema_hash, t);
  }

  /** A put followed by four erasing steps, over abstract steps so that no key is unfolded. */
  lemma PutThenDeletionsAt(m: Data, put: BatchOp, c1: BatchOp, c2: BatchOp, c3: BatchOp, c4: BatchOp, k: Bytes)
    requires put.Put? && !c1.Put? && !c2.Put? && !c3.Put? && !c4.Put?
    ensures Lookup(ApplyBatch(m, [put, c1, c2, c3, c4]), k) ==
      if Touches(c1, k) || Touches(c2, k) || Touches(c3, k) || Touches(c4, k) then None
      else if k == put.key then Some(put.value)
      else Lookup(m, k)
  {
    var clears := [c1, c2, c3, c4];
    assert [put, c1, c2, c3, c4] == [put] + clears;
    ApplyBatchAppend(m, [put], clears);
    ApplyBatchOneAt(m, put, k);
    DeletionsAt(ApplyBatch(m, [put]), clears, k);
    assert (Touches(c1, k) || Touches(c2, k) || Touches(c3, k) || Touches(c4, k)) <==>
           exists i | 0 <= i < |clears| :: Touches(clears[i], k) by {
      if Touches(c1, k) || Touches(c2, k) || Touches(c3, k) || Touches(c4, k) {
        if Touches(clears[0], k) {
        } else if Touches(clears[1], k) {
        } else if Touches(clears[2], k) {
        } else {
          assert Touches(clears[3], k);
        }
      }
    }
  }

  /**
    What `build_primary_meta`'s batch leaves at any key: the last entry of
    the document with that key decides; failing that, a key of the tablet's
    cleared families holds nothing, the header key holds the new header, and
    every other key keeps its value.
   */
  lemma ImportAt(m: Data, codec: Codec, jc: JsonCodec, doc: MetaDoc, k: Bytes)
    requires ImportOps(codec, jc, doc).Some?
    ensures var meta := ImportedMeta(jc, doc).value;
      var kvs := DocEntries(codec, jc, doc, meta.tablet_id).value;
      Lookup(ApplyBatch(m, ImportOps(codec, jc, doc).value), k) ==
        if LastFor(kvs, k).Some? then LastFor(kvs, k)
        else if Cleared(meta.tablet_id, k) then None
        else if k == TabletMetaKey(meta.tablet_id, meta.schema_hash) then Some(codec.serializeMeta(meta))
        else Lookup(m, k)
  {
    var meta := ImportedMeta(jc, doc).value;
    var t := meta.tablet_id;
    var kvs := DocEntries(codec, jc, doc, t).value;
    var head := HeadOps(codec, meta);
    EntryOpsArePuts(codec, jc, doc, t);
    PutsAt(m, head, kvs, k);
    HeadOpsAt(m, codec, meta, k);
  }

  // ---------------------------------------------------------------------
  // Family by family
  // ---------------------------------------------------------------------

  /** Every entry's key starts with `p`. */
  predicate KeysUnder(kvs: seq<(Bytes, Bytes)>, p: Bytes)
  {
    forall i | 0 <= i < |kvs| :: HasPrefix(kvs[i].0, p)
  }

  lemma UnderOwnPrefix(p: Bytes, x: Bytes)
    ensures HasPrefix(p + x, p)
  {
    assert (p + x)[..|p|] == p;
  }

  /** A list whose keys all start with `p` has no entry for a key that does not. */
  lemma LastValueOutside(kvs: seq<(Bytes, Bytes)>, p: Bytes, k: Bytes)
    requires KeysUnder(kvs, p) && !HasPrefix(k, p)
    ensures LastFor(kvs, k).None?
  {
  }

  lemma RowsetEntriesUnder(codec: Codec, jc: JsonCodec, tablet_id: int64, xs: seq<JsonText>)
    requires Entries(RowsetEntry(codec, jc, tablet_id), xs).Some?
    ensures KeysUnder(Entries(RowsetEntry(codec, jc, tablet_id), xs).value, RowsetPrefix + TabletIdField(tablet_id))
  {
    var kvs := Entries(RowsetEntry(codec, jc, tablet_id), xs).value;
    forall i | 0 <= i < |kvs|
      ensures HasPrefix(kvs[i].0, RowsetPrefix + TabletIdField(tablet_id))
    {
      var r := jc.toRowset(xs[i]).value;
      assert kvs[i].0 == MetaRowsetKey(tablet_id, r.rowset_seg_id);
      UnderOwnPrefix(RowsetPrefix + TabletIdField(tablet_id), Fixed32(r.rowset_seg_id));
    }
  }

  lemma PendingRowsetEntriesUnder(codec: Codec, jc: JsonCodec, tablet_id: int64, xs: seq<PendingRowsetJson>)
    requires Entries(PendingRowsetEntry(codec, jc, tablet_id), xs).Some?
    ensures KeysUnder(Entries(PendingRowsetEntry(codec, jc, tablet_id), xs).value, PendingRowsetPrefix + TabletIdField(tablet_id))
  {
    var kvs := Entries(PendingRowsetEntry(codec, jc, tablet_id), xs).value;
    forall i | 0 <= i < |kvs|
      ensures HasPrefix(kvs[i].0, PendingRowsetPrefix + TabletIdField(tablet_id))
    {
      assert kvs[i].0 == PendingRowsetKey(tablet_id, xs[i].version);
      UnderOwnPrefix(PendingRowsetPrefix + TabletIdField(tablet_id), TabletIdField(xs[i].version));
    }
  }

  lemma MetaLogEntriesUnder(codec: Codec, jc: JsonCodec, tablet_id: int64, xs: seq<MetaLogJson>)
    requires Entries(MetaLogEntry(codec, jc, tablet_id), xs).Some?
    ensures KeysUnder(Entries(MetaLogEntry(codec, jc, tablet_id), xs).value, LogPrefix + TabletIdField(tablet_id))
  {
    var kvs := Entries(MetaLogEntry(codec, jc, tablet_id), xs).value;
    forall i | 0 <= i < |kvs|
      ensures HasPrefix(kvs[i].0, LogPrefix + TabletIdField(tablet_id))
    {
      assert kvs[i].0 == MetaLogKey(tablet_id, xs[i].logid);
      UnderOwnPrefix(LogPrefix + TabletIdField(tablet_id), Fixed64(xs[i].logid));
    }
  }

  lemma DelVectorEntriesUnder(jc: JsonCodec, tablet_id: int64, xs: seq<DelVectorJson>)
    ensures Entries(DelVectorEntry(jc, tablet_id), xs).Some?
    ensures KeysUnder(Entries(DelVectorEntry(jc, tablet_id), xs).value, DelVectorPrefix + TabletIdField(tablet_id))
  {
    var kvs := Entries(DelVectorEntry(jc, tablet_id), xs).value;
    forall i | 0 <= i < |kvs|
      ensures HasPrefix(kvs[i].0, DelVectorPrefix + TabletIdField(tablet_id))
    {
      assert kvs[i].0 == DelVectorKey(tablet_id, xs[i].segment_id, xs[i].version);
      DelVectorKeyUnder(tablet_id, xs[i].segment_id, xs[i].version);
    }
  }

  lemma DelVectorKeyUnder(tablet_id: int64, segment_id: uint32, version: int64)
    ensures HasPrefix(DelVectorKey(tablet_id, segment_id, version), DelVectorPrefix + TabletIdField(tablet_id))
  {
    ConcatUnder(DelVectorPrefix + TabletIdField(tablet_id), Fixed32(segment_id), Fixed64(VersionField(version)));
  }

  lemma ConcatUnder(p: Bytes, x: Bytes, y: Bytes)
    ensures HasPrefix(p + x + y, p)
  {
    assert p + x + y == p + (x + y);
    UnderOwnPrefix(p, x + y);
  }

  /** A key whose first two bytes are not those of `p` does not start with `p`. */
  lemma NotUnder(k: Bytes, p: Bytes)
    requires |k| >= 2 && |p| >= 2 && (k[0] != p[0] || k[1] != p[1])
    ensures !HasPrefix(k, p)
  {
  }

  /** The four lists of an import that succeeded, and where their keys lie. */
  lemma DocEntriesParts(codec: Codec, jc: JsonCodec, doc: MetaDoc, t: int64)
    requires DocEntries(codec, jc, doc, t).Some?
    ensures var a := Entries(RowsetEntry(codec, jc, t), doc.applied_rs_metas);
      var b := Entries(PendingRowsetEntry(codec, jc, t), doc.pending_rs_metas);
      var c := Entries(MetaLogEntry(codec, jc, t), doc.tablet_meta_logs);
      var d := Entries(DelVectorEntry(jc, t), doc.del_vectors);
      && a.Some? && b.Some? && c.Some? && d.Some?
      && DocEntries(codec, jc, doc, t).value == a.value + b.value + c.value + d.value
      && KeysUnder(a.value, RowsetPrefix + TabletIdField(t))
      && KeysUnder(b.value, PendingRowsetPrefix + TabletIdField(t))
      && KeysUnder(c.value, LogPrefix + TabletIdField(t))
      && KeysUnder(d.value, DelVectorPrefix + TabletIdField(t))
  {
    RowsetEntriesUnder(codec, jc, t, doc.applied_rs_metas);
    PendingRowsetEntriesUnder(codec, jc, t, doc.pending_rs_metas);
    MetaLogEntriesUnder(codec, jc, t, doc.tablet_meta_logs);
    DelVectorEntriesUnder(jc, t, doc.del_vectors);
  }

  /** In the four lists put one after another, the last list that has the key decides. */
  lemma LastValueOfFour(a: seq<(Bytes, Bytes)>, b: seq<(Bytes, Bytes)>, c: seq<(Bytes, Bytes)>, d: seq<(Bytes, Bytes)>, k: Bytes)
    ensures LastFor(a + b + c + d, k) ==
      if LastFor(d, k).Some? then LastFor(d, k)
      else if LastFor(c, k).Some? then LastFor(c, k)
      else if LastFor(b, k).Some? then LastFor(b, k)
      else LastFor(a, k)
  {
    LastValueAppend(a + b + c, d, k);
    LastValueAppend(a + b, c, k);
    LastValueAppend(a, b, k);
  }

  /**
    After the import, each applied rowset id of the tablet below UINT32_MAX
    holds the last rowset of "applied_rs_metas" with that id, or nothing:
    the tablet's rowsets are exactly the document's.
   */
  lemma ImportRowsetAt(m: Data, codec: Codec, jc: JsonCodec, doc: MetaDoc, rowset_id: uint32)
    requires ImportOps(codec, jc, doc).Some?
    requires rowset_id < UINT32_MAX
    ensures var t := ImportedMeta(jc, doc).value.tablet_id;
      var k := MetaRowsetKey(t, rowset_id);
      Lookup(ApplyBatch(m, ImportOps(codec, jc, doc).value), k) ==
        LastFor(Entries(RowsetEntry(codec, jc, t), doc.applied_rs_metas).value, k)
  {
    var t := ImportedMeta(jc, doc).value.tablet_id;
    var k := MetaRowsetKey(t, rowset_id);
    EntryOpsArePuts(codec, jc, doc, t);
    DocEntriesParts(codec, jc, doc, t);
    var a := Entries(RowsetEntry(codec, jc, t), doc.applied_rs_metas).value;
    var b := Entries(PendingRowsetEntry(codec, jc, t), doc.pending_rs_metas).value;
    var c := Entries(MetaLogEntry(codec, jc, t), doc.tablet_meta_logs).value;
    var d := Entries(DelVectorEntry(jc, t), doc.del_vectors).value;
    FamiliesDistinct(t, 0, 0, rowset_id, 0, 0, 0);
    NotUnder(k, PendingRowsetPrefix + TabletIdField(t));
    NotUnder(k, LogPrefix + TabletIdField(t));
    NotUnder(k, DelVectorPrefix + TabletIdField(t));
    LastValueOutside(b, PendingRowsetPrefix + TabletIdField(t), k);
    LastValueOutside(c, LogPrefix + TabletIdField(t), k);
    LastValueOutside(d, DelVectorPrefix + TabletIdField(t), k);
    LastValueOfFour(a, b, c, d, k);
    ImportAt(m, codec, jc, doc, k);
    ClearRowsetCovers(t, t, rowset_id);
  }

  /** The same for pending rowsets, for versions 0 <= v < INT64_MAX. */
  lemma ImportPendingRowsetAt(m: Data, codec: Codec, jc: JsonCodec, doc: MetaDoc, version: int64)
    requires ImportOps(codec, jc, doc).Some?
    requires 0 <= version < INT64_MAX
    ensures var t := ImportedMeta(jc, doc).value.tablet_id;
      var k := PendingRowsetKey(t, version);
      Lookup(ApplyBatch(m, ImportOps(codec, jc, doc).value), k) ==
        LastFor(Entries(PendingRowsetEntry(codec, jc, t), doc.pending_rs_metas).value, k)
  {
    var t := ImportedMeta(jc, doc).value.tablet_id;
    var k := PendingRowsetKey(t, version);
    EntryOpsArePuts(codec, jc, doc, t);
    DocEntriesParts(codec, jc, doc, t);
    var a := Entries(RowsetEntry(codec, jc, t), doc.applied_rs_metas).value;
    var b := Entries(PendingRowsetEntry(codec, jc, t), doc.pending_rs_metas).value;
    var c := Entries(MetaLogEntry(codec, jc, t), doc.tablet_meta_logs).value;
    var d := Entries(DelVectorEntry(jc, t), doc.del_vectors).value;
    FamiliesDistinct(t, 0, 0, 0, version, 0, 0);
    NotUnder(k, RowsetPrefix + TabletIdField(t));
    NotUnder(k, LogPrefix + TabletIdField(t));
    NotUnder(k, DelVectorPrefix + TabletIdField(t));
    LastValueOutside(a, RowsetPrefix + TabletIdField(t), k);
    LastValueOutside(c, LogPrefix + TabletIdField(t), k);
    LastValueOutside(d, DelVectorPrefix + TabletIdField(t), k);
    LastValueOfFour(a, b, c, d, k);
    ImportAt(m, codec, jc, doc, k);
    ClearPendingRowsetCovers(t, t, version);
  }

  /** The same for log entries, for log ids below UINT64_MAX. */
  lemma ImportMetaLogAt(m: Data, codec: Codec, jc: JsonCodec, doc: MetaDoc, log_id: uint64)
    requires ImportOps(codec, jc, doc).Some?
    requires log_id < UINT64_MAX
    ensures var t := ImportedMeta(jc, doc).value.tablet_id;
      var k := MetaLogKey(t, log_id);
      Lookup(ApplyBatch(m, ImportOps(codec, jc, doc).value), k) ==
        LastFor(Entries(MetaLogEntry(codec, jc, t), doc.tablet_meta_logs).value, k)
  {
    var t := ImportedMeta(jc, doc).value.tablet_id;
    var k := MetaLogKey(t, log_id);
    EntryOpsArePuts(codec, jc, doc, t);
    DocEntriesParts(codec, jc, doc, t);
    var a := Entries(RowsetEntry(codec, jc, t), doc.applied_rs_metas).value;
    var b := Entries(PendingRowsetEntry(codec, jc, t), doc.pending_rs_metas).value;
    var c := Entries(MetaLogEntry(codec, jc, t), doc.tablet_meta_logs).value;
    var d := Entries(DelVectorEntry(jc, t), doc.del_vectors).value;
    FamiliesDistinct(t, 0, log_id, 0, 0, 0, 0);
    NotUnder(k, RowsetPrefix + TabletIdField(t));
    NotUnder(k, PendingRowsetPrefix + TabletIdField(t));
    NotUnder(k, DelVectorPrefix + TabletIdField(t));
    LastValueOutside(a, RowsetPrefix + TabletIdField(t), k);
    LastValueOutside(b, PendingRowsetPrefix + TabletIdField(t), k);
    LastValueOutside(d, DelVectorPrefix + TabletIdField(t), k);
    LastValueOfFour(a, b, c, d, k);
    ImportAt(m, codec, jc, doc, k);
    ClearLogCovers(t, t, log_id);
  }

  /** The same for delete vectors, for every version of the segments below UINT32_MAX. */
  lemma ImportDelVectorAt(m: Data, codec: Codec, jc: JsonCodec, doc: MetaDoc, segment_id: uint32, version: int64)
    requires ImportOps(codec, jc, doc).Some?
    requires segment_id < UINT32_MAX
    ensures var t := ImportedMeta(jc, doc).value.tablet_id;
      var k := DelVectorKey(t, segment_id, version);
      Lookup(ApplyBatch(m, ImportOps(codec, jc, doc).value), k) ==
        LastFor(Entries(DelVectorEntry(jc, t), doc.del_vectors).value, k)
  {
    var t := ImportedMeta(jc, doc).value.tablet_id;
    var k := DelVectorKey(t, segment_id, version);
    EntryOpsArePuts(codec, jc, doc, t);
    DocEntriesParts(codec, jc, doc, t);
    var a := Entries(RowsetEntry(codec, jc, t), doc.applied_rs_metas).value;
    var b := Entries(PendingRowsetEntry(codec, jc, t), doc.pending_rs_metas).value;
    var c := Entries(MetaLogEntry(codec, jc, t), doc.tablet_meta_logs).value;
    var d := Entries(DelVectorEntry(jc, t), doc.del_vectors).value;
    FamiliesDistinct(t, 0, 0, 0, 0, segment_id, version);
    NotUnder(k, RowsetPrefix + TabletIdField(t));
    NotUnder(k, PendingRowsetPrefix + TabletIdField(t));
    NotUnder(k, LogPrefix + TabletIdField(t));
    LastValueOutside(a, RowsetPrefix + TabletIdField(t), k);
    LastValueOutside(b, PendingRowsetPrefix + TabletIdField(t), k);
    LastValueOutside(c, LogPrefix + TabletIdField(t), k);
    LastValueOfFour(a, b, c, d, k);
    ImportAt(m, codec, jc, doc, k);
    ClearDelVectorCovers(t, t, segment_id, version);
  }

  /** No entry of the document lies outside the tablet's four families. */
  lemma NoEntryOutside(codec: Codec, jc: JsonCodec, doc: MetaDoc, t: int64, k: Bytes)
    requires DocEntries(codec, jc, doc, t).Some?
    requires !InTabletFamilies(t, k)
    ensures LastFor(DocEntries(codec, jc, doc, t).value, k).None?
  {
    DocEntriesParts(codec, jc, doc, t);
    var a := Entries(RowsetEntry(codec, jc, t), doc.applied_rs_metas).value;
    var b := Entries(PendingRowsetEntry(codec, jc, t), doc.pending_rs_metas).value;
    var c := Entries(MetaLogEntry(codec, jc, t), doc.tablet_meta_logs).value;
    var d := Entries(DelVectorEntry(jc, t), doc.del_vectors).value;
    LastValueOutside(a, RowsetPrefix + TabletIdField(t), k);
    LastValueOutside(b, PendingRowsetPrefix + TabletIdField(t), k);
    LastValueOutside(c, LogPrefix + TabletIdField(t), k);
    LastValueOutside(d, DelVectorPrefix + TabletIdField(t), k);
    LastValueOfFour(a, b, c, d, k);
  }

  /**
    The import leaves every key outside the tablet's log, delete-vector,
    rowset and pending-rowset families as it was, except the imported
    header's own key.
   */
  lemma ImportKeepsOtherKeys(m: Data, codec: Codec, jc: JsonCodec, doc: MetaDoc, k: Bytes)
    requires ImportOps(codec, jc, doc).Some?
    requires var meta := ImportedMeta(jc, doc).value;
      !InTabletFamilies(meta.tablet_id, k) && k != TabletMetaKey(meta.tablet_id, meta.schema_hash)
    ensures Lookup(ApplyBatch(m, ImportOps(codec, jc, doc).value), k) == Lookup(m, k)
  {
    var t := ImportedMeta(jc, doc).value.tablet_id;
    EntryOpsArePuts(codec, jc, doc, t);
    NoEntryOutside(codec, jc, doc, t, k);
    if Cleared(t, k) {
      ClearedInTabletFamilies(t, k);
    }
    ImportAt(m, codec, jc, doc, k);
  }

  /** After the import, the imported header's key holds the new header and every other header is unchanged. */
  lemma ImportHeaderAt(m: Data, codec: Codec, jc: JsonCodec, doc: MetaDoc, tablet_id: int64, schema_hash: int32)
    requires ImportOps(codec, jc, doc).Some?
    ensures var meta := ImportedMeta(jc, doc).value;
      var k := TabletMetaKey(tablet_id, schema_hash);
      Lookup(ApplyBatch(m, ImportOps(codec, jc, doc).value), k) ==
        if tablet_id == meta.tablet_id && schema_hash == meta.schema_hash then Some(codec.serializeMeta(meta))
        else Lookup(m, k)
  {
    var meta := ImportedMeta(jc, doc).value;
    var t := meta.tablet_id;
    var k := TabletMetaKey(tablet_id, schema_hash);
    EntryOpsArePuts(codec, jc, doc, t);
    HeaderNotCleared(tablet_id, schema_hash, t);
    HeaderOutsideFamilies(tablet_id, schema_hash, t);
    NoEntryOutside(codec, jc, doc, t, k);
    TabletMetaKeyRoundTrip(tablet_id, schema_hash);
    TabletMetaKeyRoundTrip(t, meta.schema_hash);
    ImportAt(m, codec, jc, doc, k);
  }

  /** A header key lies in none of a tablet's four families. */
  lemma HeaderOutsideFamilies(tablet_id: int64, schema_hash: int32, t: int64)
    ensures !InTabletFamilies(t, TabletMetaKey(tablet_id, schema_hash))
  {
    var k := TabletMetaKey(tablet_id, schema_hash);
    var f := TabletIdField(t);
    FamiliesDistinct(tablet_id, schema_hash, 0, 0, 0, 0, 0);
    assert |k| >= |HeaderPrefix| by {
      TabletMetaKeyHasTabletPrefix(tablet_id, schema_hash);
    }
    NotUnder(k, LogPrefix + f);
    NotUnder(k, DelVectorPrefix + f);
    NotUnder(k, RowsetPrefix + f);
    NotUnder(k, PendingRowsetPrefix + f);
  }
}
