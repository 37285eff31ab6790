/**
  The write operations of the tablet metadata store
  (be/src/storage/tablet_meta_manager.cpp:366-412, 673-728, 744-775,
  806-811, 876-894, 1150-1171, 1199-1202).

  Each operation builds one write batch and applies it to the store in one
  atomic write. Its batch is also written as a function of the inputs, and
  the lemmas of this module say what the batch leaves at every key: which
  keys now hold which value, which are gone, and that nothing else changes.
 */
module MetaWrites {
  import opened Bytes
  import opened Wrappers
  import opened KeyCodec
  import opened KVStore
  import opened Messages
  import opened MetaBatch

  // ---------------------------------------------------------------------
  // save and remove of a tablet header
  // ---------------------------------------------------------------------

  /** A header of a non-primary-key tablet may not carry an updates section. */
  predicate RejectsUpdates(meta: TabletMetaPB)
  {
    !IsPrimary(meta) && meta.updates.Some?
  }

  /** The header names the next log id, so the log entries before it are dropped. */
  predicate TrimsLog(meta: TabletMetaPB)
  {
    meta.updates.Some? && meta.updates.value.next_log_id.Some?
  }

  function NextLogId(meta: TabletMetaPB): uint64
    requires TrimsLog(meta)
  {
    meta.updates.value.next_log_id.value
  }

  function SaveOps(codec: Codec, tablet_id: int64, schema_hash: int32, meta: TabletMetaPB): seq<BatchOp>
  {
    [BatchOp.Put(TabletMetaKey(tablet_id, schema_hash), codec.serializeMeta(meta))]
    + if TrimsLog(meta) then [BatchOp.DeleteRange(MetaLogKey(tablet_id, 0), MetaLogKey(tablet_id, NextLogId(meta)))] else []
  }

  /** `save` of a header message: rejected for a non-primary tablet with updates, otherwise one batch. */
  method Save(store: Store, codec: Codec, tablet_id: int64, schema_hash: int32, meta: TabletMetaPB)
    returns (st: Status)
    modifies store
    ensures st == InvalidArgument <==> RejectsUpdates(meta)
    ensures st == OK <==> !RejectsUpdates(meta)
    ensures st == OK ==> store.data == ApplyBatch(old(store.data), SaveOps(codec, tablet_id, schema_hash, meta))
    ensures st != OK ==> store.data == old(store.data)
  {
    if RejectsUpdates(meta) {
      return InvalidArgument;
    }
    var batch := new WriteBatch();
    batch.Put(TabletMetaKey(tablet_id, schema_hash), codec.serializeMeta(meta));
    if TrimsLog(meta) {
      batch.DeleteRange(MetaLogKey(tablet_id, 0), MetaLogKey(tablet_id, NextLogId(meta)));
    }
    store.Write(batch);
    return OK;
  }

  /**
    `save` of an in-memory tablet meta, given here already converted to its
    message: primary-key tablets are refused, the rest go through `Save`.
   */
  method SaveTabletMeta(store: Store, codec: Codec, tablet_id: int64, schema_hash: int32, meta: TabletMetaPB)
    returns (st: Status)
    modifies store
    ensures st == NotSupported <==> IsPrimary(meta)
    ensures st == InvalidArgument <==> RejectsUpdates(meta)
    ensures st == OK <==> !IsPrimary(meta) && !RejectsUpdates(meta)
    ensures st == OK ==> store.data == ApplyBatch(old(store.data), SaveOps(codec, tablet_id, schema_hash, meta))
    ensures st != OK ==> store.data == old(store.data)
  {
    if IsPrimary(meta) {
      return NotSupported;
    }
    st := Save(store, codec, tablet_id, schema_hash, meta);
  }

  /**
    After `save`: the header key holds the message (and parses back to it),
    the tablet's log entries below the next log id are gone, and every other
    key keeps its value.
   */
  lemma SaveEffect(m: Data, codec: Codec, tablet_id: int64, schema_hash: int32, meta: TabletMetaPB, k: Bytes)
    ensures var m' := ApplyBatch(m, SaveOps(codec, tablet_id, schema_hash, meta));
      && Lookup(m', TabletMetaKey(tablet_id, schema_hash)) == Some(codec.serializeMeta(meta))
      && (ParsesBack(codec) ==> codec.parseMeta(m'[TabletMetaKey(tablet_id, schema_hash)]) == Some(meta))
      && (k != TabletMetaKey(tablet_id, schema_hash) && !HasPrefix(k, LogPrefix + TabletIdField(tablet_id))
          ==> Lookup(m', k) == Lookup(m, k))
  {
    var put := BatchOp.Put(TabletMetaKey(tablet_id, schema_hash), codec.serializeMeta(meta));
    var header := TabletMetaKey(tablet_id, schema_hash);
    ApplyBatchOneAt(m, put, header);
    ApplyBatchOneAt(m, put, k);
    if TrimsLog(meta) {
      var lo, hi := MetaLogKey(tablet_id, 0), MetaLogKey(tablet_id, NextLogId(meta));
      ApplyBatchSnocAt(m, [put], BatchOp.DeleteRange(lo, hi), header);
      ApplyBatchSnocAt(m, [put], BatchOp.DeleteRange(lo, hi), k);
      FamiliesDistinct(tablet_id, schema_hash, 0, 0, 0, 0, 0);
      assert !InRange(header, lo, hi) by {
        if InRange(header, lo, hi) {
          InRangeHasPrefix(header, LogPrefix + TabletIdField(tablet_id), Fixed64(0), Fixed64(NextLogId(meta)));
          PrefixHead(header, LogPrefix, TabletIdField(tablet_id));
        }
      }
      if InRange(k, lo, hi) {
        InRangeHasPrefix(k, LogPrefix + TabletIdField(tablet_id), Fixed64(0), Fixed64(NextLogId(meta)));
      }
    }
  }

  /** After `save`: of all log entries, exactly this tablet's entries with a log id below the next one are gone. */
  lemma SaveTrimsLog(m: Data, codec: Codec, tablet_id: int64, schema_hash: int32, meta: TabletMetaPB, t: int64, log_id: uint64)
    ensures Lookup(ApplyBatch(m, SaveOps(codec, tablet_id, schema_hash, meta)), MetaLogKey(t, log_id)) ==
      if TrimsLog(meta) && t == tablet_id && log_id < NextLogId(meta) then None
      else Lookup(m, MetaLogKey(t, log_id))
  {
    var put := BatchOp.Put(TabletMetaKey(tablet_id, schema_hash), codec.serializeMeta(meta));
    FamiliesDistinct(tablet_id, schema_hash, log_id, 0, 0, 0, 0);
    FamiliesDistinct(t, schema_hash, log_id, 0, 0, 0, 0);
    ApplyBatchOneAt(m, put, MetaLogKey(t, log_id));
    if TrimsLog(meta) {
      ApplyBatchSnocAt(m, [put], BatchOp.DeleteRange(MetaLogKey(tablet_id, 0), MetaLogKey(tablet_id, NextLogId(meta))), MetaLogKey(t, log_id));
      MetaLogKeyInRange(tablet_id, 0, NextLogId(meta), t, log_id);
    }
  }

  /** `remove` of one header: a batch that deletes the header key. */
  method RemoveHeader(store: Store, tablet_id: int64, schema_hash: int32) returns (st: Status)
    modifies store
    ensures st == OK
    ensures store.data == old(store.data) - {TabletMetaKey(tablet_id, schema_hash)}
  {
    var batch := new WriteBatch();
    RemoveTabletMeta(batch, tablet_id, schema_hash);
    store.Write(batch);
    ApplyBatchOne(old(store.data), RemoveTabletMetaOp(tablet_id, schema_hash));
    return OK;
  }

  // ---------------------------------------------------------------------
  // rowset_commit, rowset_delete and the pending rowsets
  // ---------------------------------------------------------------------

  /** The log entry of a rowset commit: a single OP_ROWSET_COMMIT op carrying the edit. */
  function CommitLog(edit: EditVersionMetaPB): (log: TabletMetaLogPB)
    ensures |log.ops| == 1 && log.ops[0].op_type == OpRowsetCommit && log.ops[0].commit == Some(edit)
  {
    TabletMetaLogPB([TabletMetaOpPB(OpRowsetCommit, Some(edit), None)])
  }

  /** An empty key stands for "no transaction rowset key to delete". */
  function DeleteTxnKey(rowset_meta_key: Bytes): seq<BatchOp>
  {
    if rowset_meta_key == [] then [] else [BatchOp.Delete(rowset_meta_key)]
  }

  function RowsetCommitOps(codec: Codec, tablet_id: int64, log_id: int64, edit: EditVersionMetaPB,
                           rowset: RowsetMetaPB, rowset_meta_key: Bytes): seq<BatchOp>
  {
    [BatchOp.Put(MetaLogKey(tablet_id, AsUnsigned64(log_id)), codec.serializeLog(CommitLog(edit))),
     PutRowsetMetaOp(codec, tablet_id, rowset)]
    + DeleteTxnKey(rowset_meta_key)
    + [DeletePendingRowsetOp(tablet_id, edit.version.major)]
  }

  /** `rowset_commit`: log the commit, store the rowset, drop the transaction key and the pending rowset, in one batch. */
  method RowsetCommit(store: Store, codec: Codec, tablet_id: int64, log_id: int64, edit: EditVersionMetaPB,
                      rowset: RowsetMetaPB, rowset_meta_key: Bytes) returns (st: Status)
    modifies store
    ensures st == OK
    ensures store.data == ApplyBatch(old(store.data), RowsetCommitOps(codec, tablet_id, log_id, edit, rowset, rowset_meta_key))
  {
    var batch := new WriteBatch();
    batch.Put(MetaLogKey(tablet_id, AsUnsigned64(log_id)), codec.serializeLog(CommitLog(edit)));
    PutRowsetMeta(batch, codec, tablet_id, rowset);
    var puts := batch.ops;
    assert puts == [BatchOp.Put(MetaLogKey(tablet_id, AsUnsigned64(log_id)), codec.serializeLog(CommitLog(edit))),
                    PutRowsetMetaOp(codec, tablet_id, rowset)];
    if rowset_meta_key != [] {
      batch.Delete(rowset_meta_key);
    }
    assert batch.ops == puts + DeleteTxnKey(rowset_meta_key);
    DeletePendingRowsetInBatch(batch, tablet_id, edit.version.major);
    assert batch.ops == RowsetCommitOps(codec, tablet_id, log_id, edit, rowset, rowset_meta_key);
    store.Write(batch);
    return OK;
  }

  /**
    After `rowset_commit`: the log key holds the commit record, the rowset
    key holds the rowset (both unless the transaction key is that very key),
    the pending rowset of the edit's major version and the transaction key
    are gone, and with faithful codecs the log entry reads back as one
    OP_ROWSET_COMMIT op carrying the edit.
   */
  lemma RowsetCommitEffect(m: Data, codec: Codec, tablet_id: int64, log_id: int64, edit: EditVersionMetaPB,
                           rowset: RowsetMetaPB, rowset_meta_key: Bytes)
    ensures var m' := ApplyBatch(m, RowsetCommitOps(codec, tablet_id, log_id, edit, rowset, rowset_meta_key));
      var log_key, rowset_key := MetaLogKey(tablet_id, AsUnsigned64(log_id)), MetaRowsetKey(tablet_id, rowset.rowset_seg_id);
      && Lookup(m', log_key) == (if rowset_meta_key == log_key then None else Some(codec.serializeLog(CommitLog(edit))))
      && Lookup(m', rowset_key) == (if rowset_meta_key == rowset_key then None else Some(codec.serializeRowset(rowset)))
      && PendingRowsetKey(tablet_id, edit.version.major) !in m'
      && (rowset_meta_key != [] ==> rowset_meta_key !in m')
      && (ParsesBack(codec) && rowset_meta_key != log_key ==>
            exists log :: codec.parseLog(m'[log_key]) == Some(log) && |log.ops| == 1
              && log.ops[0].op_type == OpRowsetCommit && log.ops[0].commit == Some(edit))
      && (ParsesBack(codec) && rowset_meta_key != rowset_key ==> codec.parseRowset(m'[rowset_key]) == Some(rowset))
  {
    var log_key, rowset_key := MetaLogKey(tablet_id, AsUnsigned64(log_id)), MetaRowsetKey(tablet_id, rowset.rowset_seg_id);
    FamiliesDistinct(tablet_id, 0, AsUnsigned64(log_id), rowset.rowset_seg_id, edit.version.major, 0, 0);
    RowsetCommitAt(m, codec, tablet_id, log_id, edit, rowset, rowset_meta_key, log_key);
    RowsetCommitAt(m, codec, tablet_id, log_id, edit, rowset, rowset_meta_key, rowset_key);
    RowsetCommitAt(m, codec, tablet_id, log_id, edit, rowset, rowset_meta_key, PendingRowsetKey(tablet_id, edit.version.major));
    RowsetCommitAt(m, codec, tablet_id, log_id, edit, rowset, rowset_meta_key, rowset_meta_key);
    var m' := ApplyBatch(m, RowsetCommitOps(codec, tablet_id, log_id, edit, rowset, rowset_meta_key));
    if ParsesBack(codec) && rowset_meta_key != log_key {
      assert codec.parseLog(m'[log_key]) == Some(CommitLog(edit));
    }
  }

  /** `rowset_commit` touches no key besides the log key, the rowset key, the pending key and the transaction key. */
  lemma RowsetCommitKeepsOthers(m: Data, codec: Codec, tablet_id: int64, log_id: int64, edit: EditVersionMetaPB,
                                rowset: RowsetMetaPB, rowset_meta_key: Bytes, k: Bytes)
    requires k != MetaLogKey(tablet_id, AsUnsigned64(log_id)) && k != MetaRowsetKey(tablet_id, rowset.rowset_seg_id)
    requires k != PendingRowsetKey(tablet_id, edit.version.major) && (rowset_meta_key == [] || k != rowset_meta_key)
    ensures Lookup(ApplyBatch(m, RowsetCommitOps(codec, tablet_id, log_id, edit, rowset, rowset_meta_key)), k) == Lookup(m, k)
  {
    RowsetCommitAt(m, codec, tablet_id, log_id, edit, rowset, rowset_meta_key, k);
  }

  /** What the batch of `rowset_commit` leaves at one key: later steps override earlier ones. */
  lemma RowsetCommitAt(m: Data, codec: Codec, tablet_id: int64, log_id: int64, edit: EditVersionMetaPB,
                       rowset: RowsetMetaPB, rowset_meta_key: Bytes, k: Bytes)
    ensures Lookup(ApplyBatch(m, RowsetCommitOps(codec, tablet_id, log_id, edit, rowset, rowset_meta_key)), k) ==
      if k == PendingRowsetKey(tablet_id, edit.version.major) then None
      else if rowset_meta_key != [] && k == rowset_meta_key then None
      else if k == MetaRowsetKey(tablet_id, rowset.rowset_seg_id) then Some(codec.serializeRowset(rowset))
      else if k == MetaLogKey(tablet_id, AsUnsigned64(log_id)) then Some(codec.serializeLog(CommitLog(edit)))
      else Lookup(m, k)
  {
    CommitBatchAt(m, MetaLogKey(tablet_id, AsUnsigned64(log_id)), codec.serializeLog(CommitLog(edit)),
                  MetaRowsetKey(tablet_id, rowset.rowset_seg_id), codec.serializeRowset(rowset),
                  rowset_meta_key, PendingRowsetKey(tablet_id, edit.version.major), k);
  }

  /** Two puts, an optional deletion and a deletion, in that order, at one key. */
  lemma CommitBatchAt(m: Data, log_key: Bytes, log_value: Bytes, rowset_key: Bytes, rowset_value: Bytes,
                      txn_key: Bytes, pending_key: Bytes, k: Bytes)
    ensures Lookup(ApplyBatch(m, [BatchOp.Put(log_key, log_value), BatchOp.Put(rowset_key, rowset_value)]
                                 + DeleteTxnKey(txn_key) + [BatchOp.Delete(pending_key)]), k) ==
      if k == pending_key then None
      else if txn_key != [] && k == txn_key then None
      else if k == rowset_key then Some(rowset_value)
      else if k == log_key then Some(log_value)
      else Lookup(m, k)
  {
    var log_put := BatchOp.Put(log_key, log_value);
    var rowset_put := BatchOp.Put(rowset_key, rowset_value);
    var puts := [log_put, rowset_put];
    ApplyBatchSnocAt(m, puts + DeleteTxnKey(txn_key), BatchOp.Delete(pending_key), k);
    if txn_key != [] {
      ApplyBatchSnocAt(m, puts, BatchOp.Delete(txn_key), k);
    } else {
      assert puts + DeleteTxnKey(txn_key) == puts;
    }
    assert puts == [log_put] + [rowset_put];
    ApplyBatchSnocAt(m, [log_put], rowset_put, k);
    ApplyBatchOneAt(m, log_put, k);
  }

  /**
    `rowset_id + segments` in 32-bit unsigned arithmetic: the sum modulo
    2^32, which for two 32-bit operands is the sum or the sum less 2^32.
   */
  function SegmentEnd(rowset_id: uint32, segments: uint32): (end: uint32)
    ensures end == (rowset_id + segments) % TWO_TO_32
  {
    if rowset_id + segments < TWO_TO_32 then rowset_id + segments else rowset_id + segments - TWO_TO_32
  }

  function RowsetDeleteOps(tablet_id: int64, rowset_id: uint32, segments: uint32): seq<BatchOp>
  {
    [BatchOp.Delete(MetaRowsetKey(tablet_id, rowset_id))]
    + if segments > 0 then
        [BatchOp.DeleteRange(DelVectorKey(tablet_id, rowset_id, INT64_MAX), DelVectorKey(tablet_id, SegmentEnd(rowset_id, segments), INT64_MAX))]
      else []
  }

  /** `rowset_delete`: drop the rowset and every delete vector of its segments, in one batch. */
  method RowsetDelete(store: Store, tablet_id: int64, rowset_id: uint32, segments: uint32) returns (st: Status)
    modifies store
    ensures st == OK
    ensures store.data == ApplyBatch(old(store.data), RowsetDeleteOps(tablet_id, rowset_id, segments))
  {
    var batch := new WriteBatch();
    batch.Delete(MetaRowsetKey(tablet_id, rowset_id));
    if segments > 0 {
      batch.DeleteRange(DelVectorKey(tablet_id, rowset_id, INT64_MAX), DelVectorKey(tablet_id, SegmentEnd(rowset_id, segments), INT64_MAX));
    }
    store.Write(batch);
    return OK;
  }

  /** After `rowset_delete` the rowset key is gone. */
  lemma RowsetDeleteDropsRowset(m: Data, tablet_id: int64, rowset_id: uint32, segments: uint32)
    ensures MetaRowsetKey(tablet_id, rowset_id) !in ApplyBatch(m, RowsetDeleteOps(tablet_id, rowset_id, segments))
  {
    var rk := MetaRowsetKey(tablet_id, rowset_id);
    var del := BatchOp.Delete(rk);
    ApplyBatchOneAt(m, del, rk);
    if segments > 0 {
      var range := BatchOp.DeleteRange(DelVectorKey(tablet_id, rowset_id, INT64_MAX), DelVectorKey(tablet_id, SegmentEnd(rowset_id, segments), INT64_MAX));
      assert RowsetDeleteOps(tablet_id, rowset_id, segments) == [del] + [range];
      ApplyBatchSnocAt(m, [del], range, rk);
      assert !Touches(range, rk) by {
        if Touches(range, rk) {
          FamiliesDistinct(tablet_id, 0, 0, rowset_id, 0, 0, 0);
          RowsetDeleteRangeInDelVectors(tablet_id, rowset_id, SegmentEnd(rowset_id, segments), rk);
          PrefixHead(rk, DelVectorPrefix, TabletIdField(tablet_id));
        }
      }
    }
  }

  /**
    After `rowset_delete`, every version of the delete vectors of segments
    rowset_id .. rowset_id + segments - 1 is gone — unless that sum passes
    UINT32_MAX, in which case the wrapped end lies below the start and no
    delete vector goes — and every other delete vector stays.
   */
  lemma RowsetDeleteEffect(m: Data, tablet_id: int64, rowset_id: uint32, segments: uint32, t: int64, segment_id: uint32, version: int64)
    ensures Lookup(ApplyBatch(m, RowsetDeleteOps(tablet_id, rowset_id, segments)), DelVectorKey(t, segment_id, version)) ==
      if t == tablet_id && rowset_id <= segment_id < SegmentEnd(rowset_id, segments) then None
      else Lookup(m, DelVectorKey(t, segment_id, version))
  {
    var dk := DelVectorKey(t, segment_id, version);
    var del := BatchOp.Delete(MetaRowsetKey(tablet_id, rowset_id));
    FamiliesDistinct(tablet_id, 0, 0, rowset_id, 0, segment_id, version);
    FamiliesDistinct(t, 0, 0, rowset_id, 0, segment_id, version);
    ApplyBatchOneAt(m, del, dk);
    if segments > 0 {
      var range := BatchOp.DeleteRange(DelVectorKey(tablet_id, rowset_id, INT64_MAX), DelVectorKey(tablet_id, SegmentEnd(rowset_id, segments), INT64_MAX));
      assert RowsetDeleteOps(tablet_id, rowset_id, segments) == [del] + [range];
      ApplyBatchSnocAt(m, [del], range, dk);
      DelVectorKeyInRange(tablet_id, rowset_id, INT64_MAX, SegmentEnd(rowset_id, segments), INT64_MAX, t, segment_id, version);
    } else {
      assert RowsetDeleteOps(tablet_id, rowset_id, segments) == [del];
      assert SegmentEnd(rowset_id, segments) == rowset_id;
    }
  }

  /** Whatever lies between two delete-vector keys of a tablet is itself under that tablet's delete-vector prefix. */
  lemma RowsetDeleteRangeInDelVectors(tablet_id: int64, s1: uint32, s2: uint32, k: Bytes)
    requires InRange(k, DelVectorKey(tablet_id, s1, INT64_MAX), DelVectorKey(tablet_id, s2, INT64_MAX))
    ensures HasPrefix(k, DelVectorPrefix + TabletIdField(tablet_id))
  {
    var top := Fixed64(VersionField(INT64_MAX));
    InRangeFieldsHasPrefix(k, DelVectorPrefix + TabletIdField(tablet_id), Fixed32(s1), top, Fixed32(s2), top);
  }

  /** `rowset_delete` touches nothing outside the rowset key and the tablet's delete vectors. */
  lemma RowsetDeleteKeepsOthers(m: Data, tablet_id: int64, rowset_id: uint32, segments: uint32, k: Bytes)
    requires k != MetaRowsetKey(tablet_id, rowset_id) && !HasPrefix(k, DelVectorPrefix + TabletIdField(tablet_id))
    ensures Lookup(ApplyBatch(m, RowsetDeleteOps(tablet_id, rowset_id, segments)), k) == Lookup(m, k)
  {
    var del := BatchOp.Delete(MetaRowsetKey(tablet_id, rowset_id));
    ApplyBatchOneAt(m, del, k);
    if segments > 0 {
      var range := BatchOp.DeleteRange(DelVectorKey(tablet_id, rowset_id, INT64_MAX), DelVectorKey(tablet_id, SegmentEnd(rowset_id, segments), INT64_MAX));
      assert RowsetDeleteOps(tablet_id, rowset_id, segments) == [del] + [range];
      ApplyBatchSnocAt(m, [del], range, k);
      if Touches(range, k) {
        RowsetDeleteRangeInDelVectors(tablet_id, rowset_id, SegmentEnd(rowset_id, segments), k);
      }
    }
  }

  function PendingRowsetCommitOps(codec: Codec, tablet_id: int64, version: int64, rowset: RowsetMetaPB,
                                  rowset_meta_key: Bytes): seq<BatchOp>
  {
    DeleteTxnKey(rowset_meta_key) + [BatchOp.Put(PendingRowsetKey(tablet_id, version), codec.serializeRowset(rowset))]
  }

  /** `pending_rowset_commit`: drop the transaction key and store the rowset as pending at `version`, in one batch. */
  method PendingRowsetCommit(store: Store, codec: Codec, tablet_id: int64, version: int64, rowset: RowsetMetaPB,
                             rowset_meta_key: Bytes) returns (st: Status)
    modifies store
    ensures st == OK
    ensures store.data == ApplyBatch(old(store.data), PendingRowsetCommitOps(codec, tablet_id, version, rowset, rowset_meta_key))
  {
    var batch := new WriteBatch();
    if rowset_meta_key != [] {
      batch.Delete(rowset_meta_key);
    }
    batch.Put(PendingRowsetKey(tablet_id, version), codec.serializeRowset(rowset));
    store.Write(batch);
    return OK;
  }

  /**
    After `pending_rowset_commit`: the pending key holds the rowset (the put
    comes last, so even a transaction key equal to it does not erase it),
    the transaction key is gone otherwise, and every other key is unchanged.
   */
  lemma PendingRowsetCommitEffect(m: Data, codec: Codec, tablet_id: int64, version: int64, rowset: RowsetMetaPB,
                                  rowset_meta_key: Bytes, k: Bytes)
    ensures var m' := ApplyBatch(m, PendingRowsetCommitOps(codec, tablet_id, version, rowset, rowset_meta_key));
      && Lookup(m', PendingRowsetKey(tablet_id, version)) == Some(codec.serializeRowset(rowset))
      && (ParsesBack(codec) ==> codec.parseRowset(m'[PendingRowsetKey(tablet_id, version)]) == Some(rowset))
      && (rowset_meta_key != [] && rowset_meta_key != PendingRowsetKey(tablet_id, version) ==> rowset_meta_key !in m')
      && (k != PendingRowsetKey(tablet_id, version) && (rowset_meta_key == [] || k != rowset_meta_key) ==>
            Lookup(m', k) == Lookup(m, k))
  {
    var put := BatchOp.Put(PendingRowsetKey(tablet_id, version), codec.serializeRowset(rowset));
    var pending := PendingRowsetKey(tablet_id, version);
    ApplyBatchSnocAt(m, DeleteTxnKey(rowset_meta_key), put, pending);
    ApplyBatchSnocAt(m, DeleteTxnKey(rowset_meta_key), put, rowset_meta_key);
    ApplyBatchSnocAt(m, DeleteTxnKey(rowset_meta_key), put, k);
    if rowset_meta_key != [] {
      ApplyBatchOneAt(m, BatchOp.Delete(rowset_meta_key), pending);
      ApplyBatchOneAt(m, BatchOp.Delete(rowset_meta_key), rowset_meta_key);
      ApplyBatchOneAt(m, BatchOp.Delete(rowset_meta_key), k);
    } else {
      assert ApplyBatch(m, []) == m;
    }
  }

  /** The store overload of `delete_pending_rowset`: one point removal. */
  method DeletePendingRowset(store: Store, tablet_id: int64, version: int64) returns (st: Status)
    modifies store
    ensures st == OK
    ensures store.data == old(store.data) - {PendingRowsetKey(tablet_id, version)}
  {
    store.Remove(PendingRowsetKey(tablet_id, version));
    return OK;
  }

  // ---------------------------------------------------------------------
  // apply_rowset_commit
  // ---------------------------------------------------------------------

  /** The log entry of an apply: a single OP_APPLY op carrying the version. */
  function ApplyLog(version: EditVersionPB): (log: TabletMetaLogPB)
    ensures |log.ops| == 1 && log.ops[0].op_type == OpApply && log.ops[0].apply == Some(version)
  {
    TabletMetaLogPB([TabletMetaOpPB(OpApply, None, Some(version))])
  }

  /** One put per (segment, delete vector) pair, all at version `major`. */
  function DelVectorPuts(codec: Codec, tablet_id: int64, major: int64, delvecs: seq<(uint32, DelVector)>): (ops: seq<BatchOp>)
    ensures |ops| == |delvecs|
    decreases |delvecs|
  {
    if delvecs == [] then []
    else
      var n := |delvecs| - 1;
      DelVectorPuts(codec, tablet_id, major, delvecs[..n])
      + [BatchOp.Put(DelVectorKey(tablet_id, delvecs[n].0, major), codec.saveDelVector(delvecs[n].1))]
  }

  function ApplyRowsetCommitOps(codec: Codec, tablet_id: int64, log_id: int64, version: EditVersionPB,
                                delvecs: seq<(uint32, DelVector)>): seq<BatchOp>
  {
    [BatchOp.Put(MetaLogKey(tablet_id, AsUnsigned64(log_id)), codec.serializeLog(ApplyLog(version)))]
    + DelVectorPuts(codec, tablet_id, version.major, delvecs)
  }

  /** Taking one more pair adds its put at the end of the batch. */
  lemma ApplyRowsetCommitOpsSnoc(codec: Codec, tablet_id: int64, log_id: int64, version: EditVersionPB,
                                 delvecs: seq<(uint32, DelVector)>, i: nat)
    requires i < |delvecs|
    ensures ApplyRowsetCommitOps(codec, tablet_id, log_id, version, delvecs[..i + 1]) ==
      ApplyRowsetCommitOps(codec, tablet_id, log_id, version, delvecs[..i])
      + [BatchOp.Put(DelVectorKey(tablet_id, delvecs[i].0, version.major), codec.saveDelVector(delvecs[i].1))]
  {
    var head := [BatchOp.Put(MetaLogKey(tablet_id, AsUnsigned64(log_id)), codec.serializeLog(ApplyLog(version)))];
    var put := BatchOp.Put(DelVectorKey(tablet_id, delvecs[i].0, version.major), codec.saveDelVector(delvecs[i].1));
    var puts := DelVectorPuts(codec, tablet_id, version.major, delvecs[..i]);
    assert delvecs[..i + 1][..i] == delvecs[..i];
    assert DelVectorPuts(codec, tablet_id, version.major, delvecs[..i + 1]) == puts + [put];
    assert head + (puts + [put]) == head + puts + [put];
  }

  /** `apply_rowset_commit`: log the apply and store each delete vector under the applied major version. */
  method ApplyRowsetCommit(store: Store, codec: Codec, tablet_id: int64, log_id: int64, version: EditVersionPB,
                           delvecs: seq<(uint32, DelVector)>) returns (st: Status)
    modifies store
    ensures st == OK
    ensures store.data == ApplyBatch(old(store.data), ApplyRowsetCommitOps(codec, tablet_id, log_id, version, delvecs))
  {
    var batch := new WriteBatch();
    batch.Put(MetaLogKey(tablet_id, AsUnsigned64(log_id)), codec.serializeLog(ApplyLog(version)));
    assert batch.ops == ApplyRowsetCommitOps(codec, tablet_id, log_id, version, delvecs[..0]);
    var i := 0;
    while i < |delvecs|
      invariant i <= |delvecs|
      invariant store.data == old(store.data)
      invariant batch.ops == ApplyRowsetCommitOps(codec, tablet_id, log_id, version, delvecs[..i])
    {
      ApplyRowsetCommitOpsSnoc(codec, tablet_id, log_id, version, delvecs, i);
      batch.Put(DelVectorKey(tablet_id, delvecs[i].0, version.major), codec.saveDelVector(delvecs[i].1));
      i := i + 1;
    }
    assert delvecs[..i] == delvecs;
    store.Write(batch);
    return OK;
  }

  /**
    After `apply_rowset_commit`: the log key holds the OP_APPLY record, the
    delete vector of each named segment at the major version is the one of
    the last pair naming it, and every other delete-vector key of the
    tablet and version keeps its value.
   */
  lemma ApplyRowsetCommitEffect(m: Data, codec: Codec, tablet_id: int64, log_id: int64, version: EditVersionPB,
                                delvecs: seq<(uint32, DelVector)>, segment_id: uint32)
    ensures var m' := ApplyBatch(m, ApplyRowsetCommitOps(codec, tablet_id, log_id, version, delvecs));
      && Lookup(m', MetaLogKey(tablet_id, AsUnsigned64(log_id))) == Some(codec.serializeLog(ApplyLog(version)))
      && Lookup(m', DelVectorKey(tablet_id, segment_id, version.major)) ==
           match LastFor(delvecs, segment_id)
           case Some(dv) => Some(codec.saveDelVector(dv))
           case None => Lookup(m, DelVectorKey(tablet_id, segment_id, version.major))
  {
    var log_key := MetaLogKey(tablet_id, AsUnsigned64(log_id));
    var puts := DelVectorPuts(codec, tablet_id, version.major, delvecs);
    var log_put := BatchOp.Put(log_key, codec.serializeLog(ApplyLog(version)));
    ApplyBatchAppend(m, [log_put], puts);
    var m1 := ApplyBatch(m, [log_put]);
    FamiliesDistinct(tablet_id, 0, AsUnsigned64(log_id), 0, 0, segment_id, version.major);
    ApplyBatchOneAt(m, log_put, log_key);
    ApplyBatchOneAt(m, log_put, DelVectorKey(tablet_id, segment_id, version.major));
    DelVectorPutsAt(m1, codec, tablet_id, version.major, delvecs, segment_id);
    DelVectorPutsKeep(m1, codec, tablet_id, version.major, delvecs, log_key);
  }

  /** `apply_rowset_commit` leaves every key other than its log key and the tablet's delete vectors at the major version alone. */
  lemma ApplyRowsetCommitKeepsOthers(m: Data, codec: Codec, tablet_id: int64, log_id: int64, version: EditVersionPB,
                                     delvecs: seq<(uint32, DelVector)>, k: Bytes)
    requires k != MetaLogKey(tablet_id, AsUnsigned64(log_id))
    requires forall s: uint32 :: k != DelVectorKey(tablet_id, s, version.major)
    ensures Lookup(ApplyBatch(m, ApplyRowsetCommitOps(codec, tablet_id, log_id, version, delvecs)), k) == Lookup(m, k)
  {
    var log_put := BatchOp.Put(MetaLogKey(tablet_id, AsUnsigned64(log_id)), codec.serializeLog(ApplyLog(version)));
    ApplyBatchAppend(m, [log_put], DelVectorPuts(codec, tablet_id, version.major, delvecs));
    ApplyBatchOneAt(m, log_put, k);
    DelVectorPutsKeep(ApplyBatch(m, [log_put]), codec, tablet_id, version.major, delvecs, k);
  }

  lemma {:induction false} DelVectorPutsAt(m: Data, codec: Codec, tablet_id: int64, major: int64,
                                          delvecs: seq<(uint32, DelVector)>, segment_id: uint32)
    ensures Lookup(ApplyBatch(m, DelVectorPuts(codec, tablet_id, major, delvecs)), DelVectorKey(tablet_id, segment_id, major)) ==
      match LastFor(delvecs, segment_id)
      case Some(dv) => Some(codec.saveDelVector(dv))
      case None => Lookup(m, DelVectorKey(tablet_id, segment_id, major))
    decreases |delvecs|
  {
    if delvecs != [] {
      var n := |delvecs| - 1;
      var ops := DelVectorPuts(codec, tablet_id, major, delvecs);
      assert ops == DelVectorPuts(codec, tablet_id, major, delvecs[..n]) + [ops[n]];
      DelVectorPutsAt(m, codec, tablet_id, major, delvecs[..n], segment_id);
      ApplyBatchSnocAt(m, DelVectorPuts(codec, tablet_id, major, delvecs[..n]), ops[n], DelVectorKey(tablet_id, segment_id, major));
      if delvecs[n].0 != segment_id {
        DelVectorKeyRoundTrip(tablet_id, segment_id, major);
        DelVectorKeyRoundTrip(tablet_id, delvecs[n].0, major);
      }
    }
  }

  /** The delete-vector puts touch no key outside the delete vectors of the tablet at version `major`. */
  lemma {:induction false} DelVectorPutsKeep(m: Data, codec: Codec, tablet_id: int64, major: int64,
                                            delvecs: seq<(uint32, DelVector)>, k: Bytes)
    requires forall s: uint32 :: k != DelVectorKey(tablet_id, s, major)
    ensures Lookup(ApplyBatch(m, DelVectorPuts(codec, tablet_id, major, delvecs)), k) == Lookup(m, k)
    decreases |delvecs|
  {
    if delvecs != [] {
      var n := |delvecs| - 1;
      var ops := DelVectorPuts(codec, tablet_id, major, delvecs);
      assert ops == DelVectorPuts(codec, tablet_id, major, delvecs[..n]) + [ops[n]];
      DelVectorPutsKeep(m, codec, tablet_id, major, delvecs[..n], k);
      ApplyBatchSnocAt(m, DelVectorPuts(codec, tablet_id, major, delvecs[..n]), ops[n], k);
      assert k != DelVectorKey(tablet_id, delvecs[n].0, major);
    }
  }

  // ---------------------------------------------------------------------
  // set_del_vector and delete_del_vector_range
  // ---------------------------------------------------------------------

  /** `set_del_vector`: one point write, keyed by the delete vector's own version. */
  method SetDelVector(store: Store, codec: Codec, tablet_id: int64, segment_id: uint32, delvec: DelVector) returns (st: Status)
    modifies store
    ensures st == OK
    ensures store.data == old(store.data)[DelVectorKey(tablet_id, segment_id, delvec.version) := codec.saveDelVector(delvec)]
  {
    store.Put(DelVectorKey(tablet_id, segment_id, delvec.version), codec.saveDelVector(delvec));
    return OK;
  }

  /**
    `start_version - 1` on int64: for INT64_MIN the subtraction overflows;
    the model takes the two's-complement wrap to INT64_MAX.
   */
  function WrappingPredecessor(v: int64): int64
  {
    if v == INT64_MIN then INT64_MAX else v - 1
  }

  function DeleteDelVectorRangeOps(tablet_id: int64, segment_id: uint32, start_version: int64, end_version: int64): seq<BatchOp>
    requires start_version < end_version
  {
    [BatchOp.DeleteRange(DelVectorKey(tablet_id, segment_id, end_version - 1),
                         DelVectorKey(tablet_id, segment_id, WrappingPredecessor(start_version)))]
  }

  /** `delete_del_vector_range`: nothing to do for an empty range, an error for a reversed one, else one range deletion. */
  method DeleteDelVectorRange(store: Store, tablet_id: int64, segment_id: uint32, start_version: int64, end_version: int64)
    returns (st: Status)
    modifies store
    ensures st == OK <==> start_version <= end_version
    ensures st == InvalidArgument <==> start_version > end_version
    ensures start_version >= end_version ==> store.data == old(store.data)
    ensures start_version < end_version ==>
      store.data == ApplyBatch(old(store.data), DeleteDelVectorRangeOps(tablet_id, segment_id, start_version, end_version))
  {
    if start_version == end_version {
      return OK;
    }
    if start_version > end_version {
      return InvalidArgument;
    }
    var batch := new WriteBatch();
    batch.DeleteRange(DelVectorKey(tablet_id, segment_id, end_version - 1),
                      DelVectorKey(tablet_id, segment_id, WrappingPredecessor(start_version)));
    store.Write(batch);
    return OK;
  }

  /**
    After `delete_del_vector_range` with start < end: exactly the versions
    start <= v < end of that one segment are gone. A start of INT64_MIN
    wraps the upper key round to the smallest one, and nothing is deleted.
   */
  lemma DeleteDelVectorRangeEffect(m: Data, tablet_id: int64, segment_id: uint32, start_version: int64, end_version: int64,
                                   t: int64, s: uint32, v: int64)
    requires start_version < end_version
    ensures Lookup(ApplyBatch(m, DeleteDelVectorRangeOps(tablet_id, segment_id, start_version, end_version)), DelVectorKey(t, s, v)) ==
      if t == tablet_id && s == segment_id && start_version <= v < end_version && start_version != INT64_MIN then None
      else Lookup(m, DelVectorKey(t, s, v))
  {
    ApplyBatchOneAt(m, DeleteDelVectorRangeOps(tablet_id, segment_id, start_version, end_version)[0], DelVectorKey(t, s, v));
    DelVectorKeyInRange(tablet_id, segment_id, end_version - 1, segment_id, WrappingPredecessor(start_version), t, s, v);
  }

  /** `delete_del_vector_range` touches nothing outside that segment's delete vectors. */
  lemma DeleteDelVectorRangeKeepsOthers(m: Data, tablet_id: int64, segment_id: uint32, start_version: int64, end_version: int64, k: Bytes)
    requires start_version < end_version
    requires !HasPrefix(k, DelVectorPrefix + TabletIdField(tablet_id) + Fixed32(segment_id))
    ensures Lookup(ApplyBatch(m, DeleteDelVectorRangeOps(tablet_id, segment_id, start_version, end_version)), k) == Lookup(m, k)
  {
    var range := DeleteDelVectorRangeOps(tablet_id, segment_id, start_version, end_version)[0];
    ApplyBatchOneAt(m, range, k);
    if Touches(range, k) {
      InRangeHasPrefix(k, DelVectorPrefix + TabletIdField(tablet_id) + Fixed32(segment_id),
        Fixed64(VersionField(end_version - 1)), Fixed64(VersionField(WrappingPredecessor(start_version))));
    }
  }
}
