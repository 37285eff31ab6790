/**
  The helpers of the tablet metadata store that queue one step on a
  caller's write batch (be/src/storage/tablet_meta_manager.cpp:896-945,
  1192-1209): the `put_*` helpers, the `clear_*` range deletions, and the
  point deletions of a header and of a pending rowset.

  Each step is also a function, so that the effect of a whole batch can be
  stated with `KVStore.BatchAt`. The lemmas say which keys each range
  deletion covers; every `clear_*` range stops short of the largest id of
  its family.
 */
module MetaBatch {
  import opened Bytes
  import opened Wrappers
  import opened KeyCodec
  import opened KVStore
  import opened Messages

  // ---------------------------------------------------------------------
  // The steps
  // ---------------------------------------------------------------------

  function PutRowsetMetaOp(codec: Codec, tablet_id: int64, rowset: RowsetMetaPB): BatchOp
  {
    BatchOp.Put(MetaRowsetKey(tablet_id, rowset.rowset_seg_id), codec.serializeRowset(rowset))
  }

  function PutDelVectorOp(codec: Codec, tablet_id: int64, segment_id: uint32, delvec: DelVector): BatchOp
  {
    BatchOp.Put(DelVectorKey(tablet_id, segment_id, delvec.version), codec.saveDelVector(delvec))
  }

  function PutTabletMetaOp(codec: Codec, meta: TabletMetaPB): BatchOp
  {
    BatchOp.Put(TabletMetaKey(meta.tablet_id, meta.schema_hash), codec.serializeMeta(meta))
  }

  function ClearRowsetOp(tablet_id: int64): BatchOp
  {
    BatchOp.DeleteRange(MetaRowsetKey(tablet_id, 0), MetaRowsetKey(tablet_id, UINT32_MAX))
  }

  function ClearLogOp(tablet_id: int64): BatchOp
  {
    BatchOp.DeleteRange(MetaLogKey(tablet_id, 0), MetaLogKey(tablet_id, UINT64_MAX))
  }

  function ClearDelVectorOp(tablet_id: int64): BatchOp
  {
    BatchOp.DeleteRange(DelVectorKey(tablet_id, 0, INT64_MAX), DelVectorKey(tablet_id, UINT32_MAX, INT64_MAX))
  }

  function ClearPendingRowsetOp(tablet_id: int64): BatchOp
  {
    BatchOp.DeleteRange(PendingRowsetKey(tablet_id, 0), PendingRowsetKey(tablet_id, INT64_MAX))
  }

  function RemoveTabletMetaOp(tablet_id: int64, schema_hash: int32): BatchOp
  {
    BatchOp.Delete(TabletMetaKey(tablet_id, schema_hash))
  }

  function DeletePendingRowsetOp(tablet_id: int64, version: int64): BatchOp
  {
    BatchOp.Delete(PendingRowsetKey(tablet_id, version))
  }

  // ---------------------------------------------------------------------
  // What the range deletions cover
  // ---------------------------------------------------------------------

  /** `clear_rowset` removes the tablet's rowsets except the one with id UINT32_MAX. */
  lemma ClearRowsetCovers(tablet_id: int64, t: int64, rowset_id: uint32)
    ensures Touches(ClearRowsetOp(tablet_id), MetaRowsetKey(t, rowset_id)) <==>
      t == tablet_id && rowset_id < UINT32_MAX
  {
    MetaRowsetKeyInRange(tablet_id, 0, UINT32_MAX, t, rowset_id);
  }

  /** `clear_log` removes the tablet's log entries except the one with id UINT64_MAX. */
  lemma ClearLogCovers(tablet_id: int64, t: int64, log_id: uint64)
    ensures Touches(ClearLogOp(tablet_id), MetaLogKey(t, log_id)) <==>
      t == tablet_id && log_id < UINT64_MAX
  {
    MetaLogKeyInRange(tablet_id, 0, UINT64_MAX, t, log_id);
  }

  /** `clear_del_vector` removes every version of the tablet's segments, except segment UINT32_MAX. */
  lemma ClearDelVectorCovers(tablet_id: int64, t: int64, segment_id: uint32, version: int64)
    ensures Touches(ClearDelVectorOp(tablet_id), DelVectorKey(t, segment_id, version)) <==>
      t == tablet_id && segment_id < UINT32_MAX
  {
    DelVectorKeyInRange(tablet_id, 0, INT64_MAX, UINT32_MAX, INT64_MAX, t, segment_id, version);
  }

  /** `clear_pending_rowset` removes the tablet's pending rowsets of versions 0 <= v < INT64_MAX only. */
  lemma ClearPendingRowsetCovers(tablet_id: int64, t: int64, version: int64)
    ensures Touches(ClearPendingRowsetOp(tablet_id), PendingRowsetKey(t, version)) <==>
      t == tablet_id && 0 <= version < INT64_MAX
  {
    PendingRowsetKeyInRange(tablet_id, 0, INT64_MAX, t, version);
  }

  /** Whatever else lies in a cleared range starts with the family prefix and the tablet id. */
  lemma ClearRowsetStaysInTablet(tablet_id: int64, k: Bytes)
    requires Touches(ClearRowsetOp(tablet_id), k)
    ensures HasPrefix(k, RowsetPrefix + TabletIdField(tablet_id))
  {
    InRangeHasPrefix(k, RowsetPrefix + TabletIdField(tablet_id), Fixed32(0), Fixed32(UINT32_MAX));
  }

  lemma ClearLogStaysInTablet(tablet_id: int64, k: Bytes)
    requires Touches(ClearLogOp(tablet_id), k)
    ensures HasPrefix(k, LogPrefix + TabletIdField(tablet_id))
  {
    InRangeHasPrefix(k, LogPrefix + TabletIdField(tablet_id), Fixed64(0), Fixed64(UINT64_MAX));
  }

  lemma ClearPendingRowsetStaysInTablet(tablet_id: int64, k: Bytes)
    requires Touches(ClearPendingRowsetOp(tablet_id), k)
    ensures HasPrefix(k, PendingRowsetPrefix + TabletIdField(tablet_id))
  {
    InRangeHasPrefix(k, PendingRowsetPrefix + TabletIdField(tablet_id), TabletIdField(0), TabletIdField(INT64_MAX));
  }

  lemma ClearDelVectorStaysInTablet(tablet_id: int64, k: Bytes)
    requires Touches(ClearDelVectorOp(tablet_id), k)
    ensures HasPrefix(k, DelVectorPrefix + TabletIdField(tablet_id))
  {
    var top := Fixed64(VersionField(INT64_MAX));
    InRangeFieldsHasPrefix(k, DelVectorPrefix + TabletIdField(tablet_id), Fixed32(0), top, Fixed32(UINT32_MAX), top);
  }

  // ---------------------------------------------------------------------
  // The helpers, each queueing its step on the caller's batch
  // ---------------------------------------------------------------------

  method PutRowsetMeta(batch: WriteBatch, codec: Codec, tablet_id: int64, rowset: RowsetMetaPB)
    modifies batch
    ensures batch.ops == old(batch.ops) + [PutRowsetMetaOp(codec, tablet_id, rowset)]
  {
    batch.Put(MetaRowsetKey(tablet_id, rowset.rowset_seg_id), codec.serializeRowset(rowset));
  }

  method PutDelVector(batch: WriteBatch, codec: Codec, tablet_id: int64, segment_id: uint32, delvec: DelVector)
    modifies batch
    ensures batch.ops == old(batch.ops) + [PutDelVectorOp(codec, tablet_id, segment_id, delvec)]
  {
    batch.Put(DelVectorKey(tablet_id, segment_id, delvec.version), codec.saveDelVector(delvec));
  }

  method PutTabletMeta(batch: WriteBatch, codec: Codec, meta: TabletMetaPB)
    modifies batch
    ensures batch.ops == old(batch.ops) + [PutTabletMetaOp(codec, meta)]
  {
    batch.Put(TabletMetaKey(meta.tablet_id, meta.schema_hash), codec.serializeMeta(meta));
  }

  method ClearRowset(batch: WriteBatch, tablet_id: int64)
    modifies batch
    ensures batch.ops == old(batch.ops) + [ClearRowsetOp(tablet_id)]
  {
    batch.DeleteRange(MetaRowsetKey(tablet_id, 0), MetaRowsetKey(tablet_id, UINT32_MAX));
  }

  method ClearLog(batch: WriteBatch, tablet_id: int64)
    modifies batch
    ensures batch.ops == old(batch.ops) + [ClearLogOp(tablet_id)]
  {
    batch.DeleteRange(MetaLogKey(tablet_id, 0), MetaLogKey(tablet_id, UINT64_MAX));
  }

  method ClearDelVector(batch: WriteBatch, tablet_id: int64)
    modifies batch
    ensures batch.ops == old(batch.ops) + [ClearDelVectorOp(tablet_id)]
  {
    batch.DeleteRange(DelVectorKey(tablet_id, 0, INT64_MAX), DelVectorKey(tablet_id, UINT32_MAX, INT64_MAX));
  }

  method ClearPendingRowset(batch: WriteBatch, tablet_id: int64)
    modifies batch
    ensures batch.ops == old(batch.ops) + [ClearPendingRowsetOp(tablet_id)]
  {
    batch.DeleteRange(PendingRowsetKey(tablet_id, 0), PendingRowsetKey(tablet_id, INT64_MAX));
  }

  method RemoveTabletMeta(batch: WriteBatch, tablet_id: int64, schema_hash: int32)
    modifies batch
    ensures batch.ops == old(batch.ops) + [RemoveTabletMetaOp(tablet_id, schema_hash)]
  {
    batch.Delete(TabletMetaKey(tablet_id, schema_hash));
  }

  /** The batch overload of `delete_pending_rowset`. */
  method DeletePendingRowsetInBatch(batch: WriteBatch, tablet_id: int64, version: int64)
    modifies batch
    ensures batch.ops == old(batch.ops) + [DeletePendingRowsetOp(tablet_id, version)]
  {
    batch.Delete(PendingRowsetKey(tablet_id, version));
  }
}
