/**
  The protobuf messages that the tablet metadata store keeps as values,
  reduced to the fields the store looks at, and the codecs that turn them
  into bytes. Serialisation is done by external libraries (protobuf and the
  delete-vector bitmap format), so the model takes the codecs as a
  parameter and never looks inside them.
 */
module Messages {
  import opened Bytes
  import opened Wrappers

  /** `schema().keys_type()`: only PRIMARY_KEYS tablets have logs, delete vectors and pending rowsets. */
  datatype KeysType = DupKeys | UniqueKeys | AggKeys | PrimaryKeys

  /** `TabletUpdatesPB`: the updates section of a primary-key tablet. */
  datatype TabletUpdatesPB = TabletUpdatesPB(next_log_id: Option<uint64>)

  /** `TabletMetaPB`: the tablet header. */
  datatype TabletMetaPB = TabletMetaPB(
    tablet_id: int64,
    schema_hash: int32,
    table_id: int64,
    keys_type: KeysType,
    updates: Option<TabletUpdatesPB>)

  /** `RowsetMetaPB`: a rowset, keyed by its segment id; the rest is opaque. */
  datatype RowsetMetaPB = RowsetMetaPB(rowset_seg_id: uint32, body: Bytes)

  datatype EditVersionPB = EditVersionPB(major: int64, minor: int64)

  /** `EditVersionMetaPB`: the edit a rowset commit records; the rest is opaque. */
  datatype EditVersionMetaPB = EditVersionMetaPB(version: EditVersionPB, body: Bytes)

  datatype TabletMetaOpType = OpRowsetCommit | OpApply

  datatype TabletMetaOpPB = TabletMetaOpPB(
    op_type: TabletMetaOpType,
    commit: Option<EditVersionMetaPB>,
    apply: Option<EditVersionPB>)

  /** `TabletMetaLogPB`: one entry of a tablet's meta log. */
  datatype TabletMetaLogPB = TabletMetaLogPB(ops: seq<TabletMetaOpPB>)

  /** A delete vector: the version it belongs to and its bitmap. */
  datatype DelVector = DelVector(version: int64, bitmap: Bytes)

  /** The external serialisers: `SerializeAsString`, `ParseFromArray`, `DelVector::save` and `DelVector::load`. */
  datatype Codec = Codec(
    serializeMeta: TabletMetaPB -> Bytes,
    parseMeta: Bytes -> Option<TabletMetaPB>,
    serializeRowset: RowsetMetaPB -> Bytes,
    parseRowset: Bytes -> Option<RowsetMetaPB>,
    serializeLog: TabletMetaLogPB -> Bytes,
    parseLog: Bytes -> Option<TabletMetaLogPB>,
    saveDelVector: DelVector -> Bytes,
    loadDelVector: (int64, Bytes) -> Option<DelVector>)

  /** What the libraries promise: parsing what was serialised gives the message back. */
  ghost predicate ParsesBack(c: Codec)
  {
    && (forall m :: c.parseMeta(c.serializeMeta(m)) == Some(m))
    && (forall r :: c.parseRowset(c.serializeRowset(r)) == Some(r))
    && (forall l :: c.parseLog(c.serializeLog(l)) == Some(l))
    && (forall d: DelVector :: c.loadDelVector(d.version, c.saveDelVector(d)) == Some(d))
  }

  predicate IsPrimary(m: TabletMetaPB)
  {
    m.keys_type == PrimaryKeys
  }
}
