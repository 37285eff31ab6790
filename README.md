# Tablet metadata store

A Dafny model of StarRocks' tablet metadata store,
`be/src/storage/tablet_meta_manager.cpp`. The store keeps every piece of a
tablet's persistent metadata as entries of one ordered key-value column
family. There are five key families:

| family | key |
|---|---|
| tablet header | `"tabletmeta_<tablet id>_<schema hash>"`, with both numbers in decimal text |
| meta log | `"tlg_"` be64(tablet id) be64(log id) |
| committed rowset | `"trs_"` be64(tablet id) be32(rowset segment id) |
| pending rowset | `"tpr_"` be64(tablet id) be64(version) |
| delete vector | `"dlv_"` be64(tablet id) be32(segment id) be64(INT64_MAX - version) |

Every write builds one write batch of Put, Delete and DeleteRange steps and
commits it at once. The reads are scans over a prefix or a key range, in
ascending unsigned byte order.

The model has these modules:

- `Bytes` and `Decimal`: byte strings, the fixed-width integer types, big-endian encodings, the lexicographic key order and the decimal text of the header key.
- `KeyCodec`: every key encoder and decoder. Its lemmas cover round trips, the rejection of malformed keys, key order and range membership.
- `KVStore`: the store and its write batch, as the classes `Store` (field `data`, a map) and `WriteBatch` (field `ops`, a sequence). `ApplyBatch` gives the meaning of a batch. `ScanPrefix` and `ScanRange` give the meaning of an iteration.
- `Messages`: the protobuf messages, reduced to the fields the store reads, and a `Codec` record that stands for the external serialisers.
- `MetaBatch`: the `put_*` and `clear_*` batch helpers, `remove_tablet_meta` and `delete_pending_rowset` on a batch.
- `MetaWrites`: `save`, `remove(tablet, schema hash)`, `rowset_commit`, `rowset_delete`, `pending_rowset_commit`, `delete_pending_rowset`, `apply_rowset_commit`, `set_del_vector` and `delete_del_vector_range`.
- `MetaScans`: `traverse_headers`, `traverse_meta_logs` and `remove(tablet)`.
- `DelVectorScan` and `DelVectorList`: `get_del_vector` and `list_del_vector`.
- `MetaStats`: `get_stats`. The class `StatsRecord` is the caller's statistics record that the scan callbacks update.
- `MetaImport`: `build_primary_meta` and the branch structure of `load_json_meta`.

Each store operation is a method. Its postcondition ties the new store to
`ApplyBatch` of a batch function of its inputs, or ties its result to a
function of the store. Lemmas then state, key by key, what that batch or
function does. Scan callbacks that update captured variables are loops with
invariants: the `first`/`found` flags, `last_segment_id`, `is_primary` and
the statistics counters.

Some behaviours of the source are kept on purpose because they differ from
family to family:

- `traverse_headers` skips a header key it cannot decode. `remove(tablet)` stops at one.
- `get_stats` counts undecodable header, log and rowset keys as errors, but passes over undecodable pending-rowset keys without counting them.
- `get_stats` also scans the older `"rst_"` prefix.
- In detail mode, `get_stats` counts a log entry of an unknown tablet as no error. A delete-vector, rowset or pending-rowset entry of an unknown tablet is an error.
- The upper bounds of the `clear_*` ranges exclude the largest id: rowset UINT32_MAX, log id UINT64_MAX, segment UINT32_MAX, pending version INT64_MAX.
- `get_del_vector` overwrites the delete vector loader's status with the scan's status. A delete vector that fails to load is still reported with OK, and the model keeps that.
- `get_del_vector` scans from the key of version INT64_MAX up to, but not including, the key of version 0, so it only ever sees positive versions.
- `delete_del_vector_range` computes `start_version - 1` on int64. The model takes the two's-complement wrap, so a range starting at INT64_MIN deletes nothing.

The header decoder splits the text after the prefix at its first `'_'`, as
the code does with `memchr`. It does not split at the last one. It checks
neither the prefix nor the leading bytes of a fixed-width key: each decoder
checks only the key's length. Each of the two numbers is read as gutil's
`safe_strto64` and `safe_strto32` read it: ASCII whitespace at either end
is dropped, then an optional sign and the digits must fill the rest, within
the range of the type.

## Model

| member | source | states |
|---|---|---|
| Bytes.SignedUnsignedInverse | be/src/storage/tablet_meta_manager.cpp:589-596 | reading an int64 as its 64-bit two's-complement pattern and back is the identity in both directions (how tablet ids and versions go through `BigEndian::FromHost64`) |
| Bytes.FromBigEndianOfBigEndian | be/src/storage/tablet_meta_manager.cpp:589-605 | decoding the big-endian bytes of a number gives the number back |
| Bytes.BigEndianOfFromBigEndian | be/src/storage/tablet_meta_manager.cpp:598-605 | encoding the number read from any byte string gives that byte string back |
| Bytes.BigEndianInjective | be/src/storage/tablet_meta_manager.cpp:589-596 | two numbers of the same width have equal big-endian encodings exactly when they are equal |
| Bytes.BigEndianOrder | be/src/storage/tablet_meta_manager.cpp:646-657 | big-endian encodings of one width sort in unsigned byte order exactly as the numbers do |
| Bytes.BelowTransitive | be/src/storage/tablet_meta_manager.cpp:835 | the store's key order is transitive |
| Bytes.BelowTotal | be/src/storage/tablet_meta_manager.cpp:835 | any two keys are equal or one sorts before the other |
| Bytes.BelowAppend | be/src/storage/tablet_meta_manager.cpp:646-657 | keys built from an equal-length head and a tail compare by head first, then by tail |
| Bytes.InRangeHasPrefix | be/src/storage/tablet_meta_manager.cpp:919-938 | every key in a range whose two bounds share a prefix carries that prefix |
| Bytes.AscendingUnique | be/src/storage/tablet_meta_manager.cpp:985 | there is only one strictly ascending listing of a set of keys, the order an iteration visits them in |
| Bytes.Ascending | be/src/storage/tablet_meta_manager.cpp:985 | the ascending listing of a key set is strictly ascending and holds exactly the keys of the set |
| Decimal.TrimPadded | be/src/storage/tablet_meta_manager.cpp:82-87 | the parser's trim drops the whitespace around a text that neither starts nor ends with whitespace, and nothing else |
| Decimal.ParsePadded | be/src/storage/tablet_meta_manager.cpp:82-87 | the decimal text of an integer, with any ASCII whitespace before and after it, parses to that integer |
| Decimal.NoUnderscorePadded | be/src/storage/tablet_meta_manager.cpp:78-82 | whitespace and the text of a number hold no '_', so the first '_' of a padded header key is its separator |
| Decimal.ParseText | be/src/storage/tablet_meta_manager.cpp:66-88 | parsing the decimal text of an integer gives the integer back |
| Decimal.ParseInt64Text | be/src/storage/tablet_meta_manager.cpp:66-83 | the 64-bit parser reads back the tablet id that the header key spells out |
| Decimal.ParseInt32Text | be/src/storage/tablet_meta_manager.cpp:66-87 | the 32-bit parser reads back the schema hash that the header key spells out |
| Decimal.NoUnderscoreInDigits | be/src/storage/tablet_meta_manager.cpp:66-68 | the decimal text of a number holds no '_', so the separator of a header key is the first '_' after the prefix |
| Decimal.IndexOfFirst | be/src/storage/tablet_meta_manager.cpp:77-80 | the search for '_' fails exactly when there is none, and otherwise finds the first one |
| KeyCodec.Fixed64RoundTrip | be/src/storage/tablet_meta_manager.cpp:589-605 | a 64-bit field reads back as written, and every 8 bytes are the field of the number they read as |
| KeyCodec.Fixed32RoundTrip | be/src/storage/tablet_meta_manager.cpp:607-624 | a 32-bit field reads back as written, and every 4 bytes are the field of the number they read as |
| KeyCodec.Fixed64Order | be/src/storage/tablet_meta_manager.cpp:589-596 | 64-bit fields sort and compare equal exactly as their unsigned values do |
| KeyCodec.Fixed32Order | be/src/storage/tablet_meta_manager.cpp:607-614 | 32-bit fields sort and compare equal exactly as their unsigned values do |
| KeyCodec.TabletIdFieldOfId | be/src/storage/tablet_meta_manager.cpp:598-605 | a tablet id written as a 64-bit field reads back as the same signed id |
| KeyCodec.TabletIdOrder | be/src/storage/tablet_meta_manager.cpp:589-596 | tablet id fields sort by the id's unsigned bit pattern, so negative ids sort after all non-negative ones, and they are equal exactly when the ids are |
| KeyCodec.DecodeTabletMetaKey | be/src/storage/tablet_meta_manager.cpp:70-80 | a header key of at most 12 bytes, or one with no '_' after the prefix, does not decode |
| KeyCodec.DecodeTabletMetaKeyAt | be/src/storage/tablet_meta_manager.cpp:70-88 | given the first '_' after the prefix, a header key decodes exactly when the text before it parses as an int64 and the text after it as an int32, and then yields those two numbers |
| KeyCodec.PaddedTabletMetaKeyDecodes | be/src/storage/tablet_meta_manager.cpp:70-88 | a header key with whitespace around either number decodes to the same tablet id and schema hash |
| KeyCodec.TabletMetaKeyRoundTrip | be/src/storage/tablet_meta_manager.cpp:66-88 | decoding the header key of (tablet id, schema hash) gives back that pair |
| KeyCodec.TabletMetaKeyHasTabletPrefix | be/src/storage/tablet_meta_manager.cpp:1130-1131 | a tablet's header key starts with `"tabletmeta_<id>_"` and with `"tabletmeta_"` |
| KeyCodec.TabletHeaderPrefixDecodes | be/src/storage/tablet_meta_manager.cpp:1104-1131 | a decodable key under `"tabletmeta_<id>_"` decodes to that tablet id |
| KeyCodec.DecodeMetaLogKey | be/src/storage/tablet_meta_manager.cpp:598-605 | a log key decodes exactly when it is 20 bytes long |
| KeyCodec.MetaLogKeyOfDecoded | be/src/storage/tablet_meta_manager.cpp:589-605 | a 20-byte key under `"tlg_"` is the log key of the pair it decodes to |
| KeyCodec.MetaLogKeyRoundTrip | be/src/storage/tablet_meta_manager.cpp:589-605 | decoding the log key of (tablet id, log id) gives back that pair |
| KeyCodec.MetaLogKeyOrder | be/src/storage/tablet_meta_manager.cpp:589-596 | log keys sort by tablet id bit pattern, then by log id |
| KeyCodec.MetaLogKeyInRange | be/src/storage/tablet_meta_manager.cpp:779-781 | a log key lies between the log keys (t, lo) and (t, hi) exactly when it belongs to tablet t and lo <= log id < hi |
| KeyCodec.DecodeMetaRowsetKey | be/src/storage/tablet_meta_manager.cpp:616-624 | a rowset key decodes exactly when it is 16 bytes long |
| KeyCodec.MetaRowsetKeyOfDecoded | be/src/storage/tablet_meta_manager.cpp:607-624 | a 16-byte key under `"trs_"` is the rowset key of the pair it decodes to |
| KeyCodec.MetaRowsetKeyRoundTrip | be/src/storage/tablet_meta_manager.cpp:607-624 | decoding the rowset key of (tablet id, rowset id) gives back that pair |
| KeyCodec.MetaRowsetKeyOrder | be/src/storage/tablet_meta_manager.cpp:607-614 | rowset keys sort by tablet id bit pattern, then by rowset id |
| KeyCodec.MetaRowsetKeyInRange | be/src/storage/tablet_meta_manager.cpp:919-924 | a rowset key lies between the rowset keys (t, lo) and (t, hi) exactly when it belongs to tablet t and lo <= rowset id < hi |
| KeyCodec.DecodePendingRowsetKey | be/src/storage/tablet_meta_manager.cpp:635-644 | a pending-rowset key decodes exactly when it is 20 bytes long |
| KeyCodec.PendingRowsetKeyOfDecoded | be/src/storage/tablet_meta_manager.cpp:626-644 | a 20-byte key under `"tpr_"` is the pending-rowset key of the pair it decodes to |
| KeyCodec.PendingRowsetKeyRoundTrip | be/src/storage/tablet_meta_manager.cpp:626-644 | decoding the pending-rowset key of (tablet id, version) gives back that pair |
| KeyCodec.PendingRowsetKeyOrder | be/src/storage/tablet_meta_manager.cpp:626-633 | pending-rowset keys sort by tablet id bit pattern, then by the version's bit pattern |
| KeyCodec.PendingRowsetKeyInRange | be/src/storage/tablet_meta_manager.cpp:1204-1209 | for non-negative bounds, a pending-rowset key lies between (t, lo) and (t, hi) exactly when it belongs to tablet t and lo <= version < hi |
| KeyCodec.DelVectorKeyRoundTrip | be/src/storage/tablet_meta_manager.cpp:646-671 | both delete-vector decoders give back the tablet id, segment id and version of an encoded key, for every int64 version |
| KeyCodec.DelVectorKeyOfDecoded | be/src/storage/tablet_meta_manager.cpp:646-665 | a 24-byte key under `"dlv_"` is the delete-vector key of the triple it decodes to |
| KeyCodec.DecodeDelVectorKeyVersionAgrees | be/src/storage/tablet_meta_manager.cpp:659-671 | on a 24-byte key, the version-only decoder agrees with the full decoder |
| KeyCodec.DelVectorKeyOrder | be/src/storage/tablet_meta_manager.cpp:646-657 | delete-vector keys sort by tablet id bit pattern, then by segment id, then by version DESCENDING |
| KeyCodec.NewerDelVectorSortsFirst | be/src/storage/tablet_meta_manager.cpp:652-656 | for one tablet and segment, the key of a newer version sorts before the key of an older one |
| KeyCodec.DelVectorKeyInRange | be/src/storage/tablet_meta_manager.cpp:815-816 | a delete-vector key lies between (t, s1, v1) and (t, s2, v2) exactly when it belongs to tablet t and its (segment, reversed version) falls in the half-open interval |
| KVStore.LastFor | be/src/storage/tablet_meta_manager.cpp:764-773 | the value of the last pair listed for a key, with no later pair for that key; none exactly when no pair lists the key |
| KVStore.ApplyOpAt | be/src/storage/tablet_meta_manager.cpp:392-405 | after one batch step, a key it touches holds the put value or nothing, and every other key is unchanged |
| KVStore.LastTouch | be/src/storage/tablet_meta_manager.cpp:392-405 | finds the last step of a batch that touches a key, or reports that none does |
| KVStore.ApplyBatchAt | be/src/storage/tablet_meta_manager.cpp:392-405 | after a batch, a key holds what the last step touching it left, or its old value when no step touches it |
| KVStore.ApplyBatchAppend | be/src/storage/tablet_meta_manager.cpp:457-469 | applying two batches one after the other is applying their concatenation |
| KVStore.DeletionsAt | be/src/storage/tablet_meta_manager.cpp:1131-1146 | a batch of deletions erases exactly the keys some step touches, and leaves all other keys as they were |
| KVStore.ScanRange | be/src/storage/tablet_meta_manager.cpp:835 | a range iteration meets exactly the stored keys in [lo, hi), each once, in ascending order |
| KVStore.ScanPrefix | be/src/storage/tablet_meta_manager.cpp:985 | a prefix iteration meets exactly the stored keys with that prefix, each once, in ascending order |
| KVStore.SortKeys | be/src/storage/tablet_meta_manager.cpp:985 | sorts a set of keys into their unique ascending listing |
| KVStore.WriteBatch.constructor | be/src/storage/tablet_meta_manager.cpp:389 | a new batch is empty |
| KVStore.WriteBatch.Put | be/src/storage/tablet_meta_manager.cpp:392 | appends one Put step |
| KVStore.WriteBatch.Delete | be/src/storage/tablet_meta_manager.cpp:1114 | appends one Delete step |
| KVStore.WriteBatch.DeleteRange | be/src/storage/tablet_meta_manager.cpp:400 | appends one DeleteRange step |
| KVStore.Store.constructor | be/src/storage/tablet_meta_manager.cpp:366-406 | a store holding the given entries |
| KVStore.Store.Get | be/src/storage/tablet_meta_manager.cpp:303 | a stored key yields OK and its value; a missing key yields NotFound |
| KVStore.Store.Put | be/src/storage/tablet_meta_manager.cpp:810 | the one key now holds the value and nothing else changes |
| KVStore.Store.Remove | be/src/storage/tablet_meta_manager.cpp:1201 | the one key is gone and nothing else changes |
| KVStore.Store.Write | be/src/storage/tablet_meta_manager.cpp:405 | the store becomes the batch applied, in order, to the old store |
| KVStore.Store.Iterate | be/src/storage/tablet_meta_manager.cpp:985 | returns the keys under the prefix in ascending order |
| KVStore.Store.IterateRange | be/src/storage/tablet_meta_manager.cpp:835 | returns the keys of [lo, hi) in ascending order |
| MetaBatch.ClearRowsetCovers | be/src/storage/tablet_meta_manager.cpp:919-924 | `clear_rowset` erases the rowset key (t, r) exactly when t is the tablet and r < UINT32_MAX |
| MetaBatch.ClearLogCovers | be/src/storage/tablet_meta_manager.cpp:926-931 | `clear_log` erases the log key (t, l) exactly when t is the tablet and l < UINT64_MAX |
| MetaBatch.ClearDelVectorCovers | be/src/storage/tablet_meta_manager.cpp:933-938 | `clear_del_vector` erases the delete-vector key (t, s, v) exactly when t is the tablet and s < UINT32_MAX, for every version |
| MetaBatch.ClearPendingRowsetCovers | be/src/storage/tablet_meta_manager.cpp:1204-1209 | `clear_pending_rowset` erases the pending key (t, v) exactly when t is the tablet and 0 <= v < INT64_MAX |
| MetaBatch.ClearRowsetStaysInTablet | be/src/storage/tablet_meta_manager.cpp:919-924 | every key `clear_rowset` erases starts with `"trs_"` and the tablet id |
| MetaBatch.ClearLogStaysInTablet | be/src/storage/tablet_meta_manager.cpp:926-931 | every key `clear_log` erases starts with `"tlg_"` and the tablet id |
| MetaBatch.ClearPendingRowsetStaysInTablet | be/src/storage/tablet_meta_manager.cpp:1204-1209 | every key `clear_pending_rowset` erases starts with `"tpr_"` and the tablet id |
| MetaBatch.ClearDelVectorStaysInTablet | be/src/storage/tablet_meta_manager.cpp:933-938 | every key `clear_del_vector` erases starts with `"dlv_"` and the tablet id |
| MetaBatch.PutRowsetMeta | be/src/storage/tablet_meta_manager.cpp:896-902 | appends the put of the serialised rowset under its rowset key |
| MetaBatch.PutDelVector | be/src/storage/tablet_meta_manager.cpp:904-910 | appends the put of the saved delete vector under its (tablet, segment, version) key |
| MetaBatch.PutTabletMeta | be/src/storage/tablet_meta_manager.cpp:912-917 | appends the put of the serialised header under the header key of its own tablet id and schema hash |
| MetaBatch.ClearRowset | be/src/storage/tablet_meta_manager.cpp:919-924 | appends the rowset range deletion of the tablet |
| MetaBatch.ClearLog | be/src/storage/tablet_meta_manager.cpp:926-931 | appends the log range deletion of the tablet |
| MetaBatch.ClearDelVector | be/src/storage/tablet_meta_manager.cpp:933-938 | appends the delete-vector range deletion of the tablet |
| MetaBatch.ClearPendingRowset | be/src/storage/tablet_meta_manager.cpp:1204-1209 | appends the pending-rowset range deletion of the tablet |
| MetaBatch.RemoveTabletMeta | be/src/storage/tablet_meta_manager.cpp:940-945 | appends the deletion of one header key |
| MetaBatch.DeletePendingRowsetInBatch | be/src/storage/tablet_meta_manager.cpp:1192-1197 | appends the deletion of one pending-rowset key |
| MetaWrites.Save | be/src/storage/tablet_meta_manager.cpp:377-406 | a non-primary-key header with updates is refused with InvalidArgument and the store is unchanged; otherwise the save batch is applied and the result is OK |
| MetaWrites.SaveTabletMeta | be/src/storage/tablet_meta_manager.cpp:366-375 | a primary-key tablet is refused with NotSupported; a non-primary message with updates gets InvalidArgument; every other message succeeds with OK, and the store is then as after `save` of the message; on failure the store is unchanged |
| MetaWrites.SaveEffect | be/src/storage/tablet_meta_manager.cpp:377-406 | after a save the header key holds the serialised header, which parses back to it; every key other than the header and the tablet's logs is unchanged |
| MetaWrites.SaveTrimsLog | be/src/storage/tablet_meta_manager.cpp:394-403 | after a save, a log entry is gone exactly when the header has updates with `next_log_id`, the entry is this tablet's and its id is below `next_log_id`; every other log entry is unchanged |
| MetaWrites.RemoveHeader | be/src/storage/tablet_meta_manager.cpp:408-412 | `remove(tablet, schema hash)` erases exactly that header key and returns OK |
| MetaWrites.CommitLog | be/src/storage/tablet_meta_manager.cpp:677-682 | the log written by a rowset commit holds one OP_ROWSET_COMMIT op carrying the edit |
| MetaWrites.RowsetCommit | be/src/storage/tablet_meta_manager.cpp:673-707 | the commit batch is applied in one write and the result is OK |
| MetaWrites.RowsetCommitEffect | be/src/storage/tablet_meta_manager.cpp:673-707 | after a commit, the log key holds the commit log and the rowset key holds the rowset (unless the transaction key is that same key), the pending entry of the edit's major version is gone, and so is a non-empty transaction key |
| MetaWrites.RowsetCommitKeepsOthers | be/src/storage/tablet_meta_manager.cpp:673-707 | a commit leaves every key except those four unchanged |
| MetaWrites.RowsetCommitAt | be/src/storage/tablet_meta_manager.cpp:673-707 | the value of every key after a commit, in the order the batch's steps decide it |
| MetaWrites.SegmentEnd | be/src/storage/tablet_meta_manager.cpp:720 | `rowset_id + segments` wraps modulo 2^32 |
| MetaWrites.RowsetDelete | be/src/storage/tablet_meta_manager.cpp:709-728 | the delete batch is applied and the result is OK |
| MetaWrites.RowsetDeleteDropsRowset | be/src/storage/tablet_meta_manager.cpp:714 | after `rowset_delete` the rowset key is gone |
| MetaWrites.RowsetDeleteEffect | be/src/storage/tablet_meta_manager.cpp:718-725 | a delete vector is erased exactly when it belongs to the tablet and its segment lies in [rowset id, wrapped end); others keep their value |
| MetaWrites.RowsetDeleteKeepsOthers | be/src/storage/tablet_meta_manager.cpp:709-728 | every key other than the rowset key and the tablet's delete vectors is unchanged |
| MetaWrites.PendingRowsetCommit | be/src/storage/tablet_meta_manager.cpp:1150-1171 | the pending-commit batch is applied and the result is OK |
| MetaWrites.PendingRowsetCommitEffect | be/src/storage/tablet_meta_manager.cpp:1150-1171 | the pending key holds the rowset, which parses back; a non-empty transaction key that differs from it is gone; every other key is unchanged |
| MetaWrites.DeletePendingRowset | be/src/storage/tablet_meta_manager.cpp:1199-1202 | exactly the one pending key is erased |
| MetaWrites.ApplyLog | be/src/storage/tablet_meta_manager.cpp:750-756 | the log written on apply holds one OP_APPLY op carrying the version |
| MetaWrites.DelVectorPuts | be/src/storage/tablet_meta_manager.cpp:764-773 | one put per delete vector given |
| MetaWrites.ApplyRowsetCommitOpsSnoc | be/src/storage/tablet_meta_manager.cpp:764-773 | each pass of the loop appends the put of the next delete vector at the major version |
| MetaWrites.ApplyRowsetCommit | be/src/storage/tablet_meta_manager.cpp:744-775 | the apply batch (log put, then one put per delete vector) is applied and the result is OK |
| MetaWrites.ApplyRowsetCommitKeepsOthers | be/src/storage/tablet_meta_manager.cpp:744-775 | apply leaves every key other than the log key and the tablet's delete-vector keys at the major version unchanged |
| MetaWrites.ApplyRowsetCommitEffect | be/src/storage/tablet_meta_manager.cpp:744-775 | after apply, the log key holds the apply log and each segment's key at the major version holds its last listed delete vector, or its old value when the segment is not listed |
| MetaWrites.DelVectorPutsAt | be/src/storage/tablet_meta_manager.cpp:764-773 | the delete-vector puts leave each segment's key at the last listed value |
| MetaWrites.DelVectorPutsKeep | be/src/storage/tablet_meta_manager.cpp:764-773 | the delete-vector puts leave every key that is no segment's key at that version unchanged |
| MetaWrites.SetDelVector | be/src/storage/tablet_meta_manager.cpp:806-811 | the delete vector's key now holds its saved form and nothing else changes |
| MetaWrites.DeleteDelVectorRange | be/src/storage/tablet_meta_manager.cpp:876-894 | start == end is OK with no change; start > end is InvalidArgument with no change; otherwise the range deletion is applied and the result is OK |
| MetaWrites.DeleteDelVectorRangeEffect | be/src/storage/tablet_meta_manager.cpp:884-893 | for start < end, a delete vector is erased exactly when it is of that tablet and segment with start <= version < end, unless start is INT64_MIN |
| MetaWrites.DeleteDelVectorRangeKeepsOthers | be/src/storage/tablet_meta_manager.cpp:884-893 | keys outside the segment's delete vectors are unchanged |
| MetaScans.TraverseHeaders | be/src/storage/tablet_meta_manager.cpp:414-428 | the callback is called on the decodable header keys in ascending order until it returns false, and the result is OK |
| MetaScans.VisitHeaders | be/src/storage/tablet_meta_manager.cpp:416-426 | the loop over the scanned keys makes exactly the calls the traversal specifies |
| MetaScans.HeaderCallsStopAtFalse | be/src/storage/tablet_meta_manager.cpp:425 | every call except the last one returned true |
| MetaScans.HeaderCallsFromKeys | be/src/storage/tablet_meta_manager.cpp:420-425 | every call is made with the decoded id and hash of a scanned key and that key's value |
| MetaScans.HeaderCallsComplete | be/src/storage/tablet_meta_manager.cpp:420-425 | a callback that always continues is called on every decodable key |
| MetaScans.TraverseHeadersVisitsHeader | be/src/storage/tablet_meta_manager.cpp:414-428 | a callback that always continues meets every stored header, with its id, hash and value |
| MetaScans.TraverseHeadersCallsAreHeaders | be/src/storage/tablet_meta_manager.cpp:414-428 | every call is about a stored key under `"tabletmeta_"` that decodes to the id and hash passed |
| MetaScans.TraverseMetaLogs | be/src/storage/tablet_meta_manager.cpp:777-804 | the callback is called on the tablet's log range in ascending order; the result is Corruption at the first key or value that does not decode, else OK |
| MetaScans.VisitLogs | be/src/storage/tablet_meta_manager.cpp:783-797 | the loop over the scanned keys makes exactly the calls the traversal specifies and returns its status |
| MetaScans.LogCallsRead | be/src/storage/tablet_meta_manager.cpp:785-797 | each call gets the decoded log id and parsed log of the key at its position, and every call but the last returned true |
| MetaScans.LogCallsCorruption | be/src/storage/tablet_meta_manager.cpp:785-797 | the result is OK or Corruption, and it is Corruption exactly when the scan stopped at a key whose key or value does not decode, with every earlier call having continued |
| MetaScans.TraverseMetaLogsAscending | be/src/storage/tablet_meta_manager.cpp:777-804 | the callback sees strictly increasing log ids |
| MetaScans.TraverseMetaLogsComplete | be/src/storage/tablet_meta_manager.cpp:777-804 | with a callback that always continues and an OK result, every stored log of the tablet with id below UINT64_MAX is passed, parsed, to the callback |
| MetaScans.LogCallsExhaustive | be/src/storage/tablet_meta_manager.cpp:785-797 | with a callback that always continues, an OK result means every key was visited |
| MetaScans.RemoveTablet | be/src/storage/tablet_meta_manager.cpp:1101-1147 | `remove(tablet)` applies the batch its header scan builds and returns OK |
| MetaScans.DeleteHeaders | be/src/storage/tablet_meta_manager.cpp:1104-1131 | the scan callback deletes the tablet's header keys in order, stops at the first key of another tablet or an undecodable one, and tracks `is_primary` from the last header that parses |
| MetaScans.ClearPrimary | be/src/storage/tablet_meta_manager.cpp:1132-1145 | appends the four clears in the order log, delete vector, rowset, pending rowset |
| MetaScans.RemoveVisitDeletes | be/src/storage/tablet_meta_manager.cpp:1104-1127 | the deletions are the scanned keys from the first one, up to the first key the callback rejects |
| MetaScans.RemoveVisitPrimary | be/src/storage/tablet_meta_manager.cpp:1118-1124 | `is_primary` ends as the primary-key flag of the last visited header that parses, or false when none parses |
| MetaScans.RemoveTabletAt | be/src/storage/tablet_meta_manager.cpp:1101-1147 | after `remove(tablet)` a key is gone exactly when it is one of the deleted headers, or the tablet was primary and the key is in one of its four cleared ranges; every other key is unchanged |
| MetaScans.RemoveTabletErasesHeaders | be/src/storage/tablet_meta_manager.cpp:1101-1131 | when every key under `"tabletmeta_<id>_"` decodes, all of them are gone afterwards |
| MetaScans.RemoveTabletPrimaryFlag | be/src/storage/tablet_meta_manager.cpp:1118-1133 | when every key decodes, the clears run exactly when the last header of the tablet that parses is a primary-key one |
| MetaScans.RemoveTabletKeepsOthers | be/src/storage/tablet_meta_manager.cpp:1101-1147 | a key outside the tablet's header prefix changes only when it is in a cleared range of a primary tablet |
| DelVectorScan.KeyVersions | be/src/storage/tablet_meta_manager.cpp:667-671 | the versions read from the tails of the scanned keys, one per key |
| DelVectorScan.SegmentScanDescending | be/src/storage/tablet_meta_manager.cpp:815-835 | the segment's range scan meets strictly decreasing versions |
| DelVectorScan.SegmentScanComplete | be/src/storage/tablet_meta_manager.cpp:815-835 | every positive version stored for the segment is met by the scan |
| DelVectorScan.SegmentScanVersions | be/src/storage/tablet_meta_manager.cpp:815-835 | the scan lists exactly the segment's stored positive versions, newest first, and each key it meets is that version's key |
| DelVectorScan.FirstAtMost | be/src/storage/tablet_meta_manager.cpp:828-832 | the first position whose version is at most the query, with every earlier version above it |
| DelVectorScan.FirstAtMostNewest | be/src/storage/tablet_meta_manager.cpp:828-832 | on a newest-first listing, the first version at most the query is the largest stored version at most the query |
| DelVectorScan.FirstIsNewest | be/src/storage/tablet_meta_manager.cpp:824-826 | the first version met is the newest stored one, and the listing is empty exactly when nothing is stored |
| DelVectorScan.GetDelVector | be/src/storage/tablet_meta_manager.cpp:813-848 | returns the status, delete vector and latest version that `get_del_vector` computes from the segment's scan |
| DelVectorScan.VisitNewestFirst | be/src/storage/tablet_meta_manager.cpp:819-847 | the callback loop with its `first` and `found` flags: `latest_version` is the first version met, and the first version at most the query is loaded (OK), or NotFound when there is none |
| DelVectorScan.GetDelVectorFound | be/src/storage/tablet_meta_manager.cpp:840-843 | the status is OK or NotFound, and OK exactly when some stored version is at most the query, even when newer ones exist |
| DelVectorScan.GetDelVectorNewest | be/src/storage/tablet_meta_manager.cpp:828-832 | on OK, the delete vector is the one loaded from the largest stored version at most the query |
| DelVectorScan.GetDelVectorLatest | be/src/storage/tablet_meta_manager.cpp:824-826 | `latest_version` is set exactly when the segment has a stored version, and is then the newest one |
| DelVectorScan.GetDelVectorAtStoredVersion | be/src/storage/tablet_meta_manager.cpp:813-848 | a query at a stored version finds the delete vector of exactly that version |
| DelVectorScan.SetThenGetDelVector | be/src/storage/tablet_meta_manager.cpp:806-848 | after `set_del_vector` of a positive version, `get_del_vector` at that version is OK and returns the same delete vector |
| DelVectorList.ListDelVector | be/src/storage/tablet_meta_manager.cpp:851-874 | returns the list the callback builds over the tablet's delete-vector range |
| DelVectorList.CollectListed | be/src/storage/tablet_meta_manager.cpp:857-868 | the loop with `last_segment_id`: appends (segment, version) when the segment differs from the last appended one and the version is below the ceiling |
| DelVectorList.CollectSnoc | be/src/storage/tablet_meta_manager.cpp:864-867 | one more key extends the list by one callback step |
| DelVectorList.CollectInvariant | be/src/storage/tablet_meta_manager.cpp:857-868 | on entries in scan order, the list is in ascending segment order and holds for each segment its newest version below the ceiling, and every segment that has one |
| DelVectorList.ListDelVectorAscending | be/src/storage/tablet_meta_manager.cpp:851-874 | the listed segments are strictly ascending, and the first one is below UINT32_MAX |
| DelVectorList.ListDelVectorNewest | be/src/storage/tablet_meta_manager.cpp:851-874 | each listed (segment, version) is stored, is below the ceiling, and no stored version of that segment below the ceiling is newer |
| DelVectorList.ListDelVectorComplete | be/src/storage/tablet_meta_manager.cpp:851-874 | every segment below UINT32_MAX that has a stored version below the ceiling is listed |
| MetaStats.Scan | be/src/storage/tablet_meta_manager.cpp:984-985 | one iteration: the record ends as the callback folded over the scanned keys |
| MetaStats.AddTotals | be/src/storage/tablet_meta_manager.cpp:986 | adds one family's counters to the overall totals |
| MetaStats.GetStats | be/src/storage/tablet_meta_manager.cpp:947-1099 | the six scans and their totals, in the source's order, leave the record as the specification `StatsAfter` says, and the result is OK |
| MetaStats.HeaderScan | be/src/storage/tablet_meta_manager.cpp:951-971 | the header scan adds the count and bytes of the headers that decode and parse, and of the primary-key ones |
| MetaStats.HeaderScanRecords | be/src/storage/tablet_meta_manager.cpp:951-983 | without detail the errors grow by exactly the headers that fail and no tablet record changes; with detail the records gain exactly the parsed tablets, and the exact error count is stated by `HeaderScanDetailErrors` |
| MetaStats.HeaderScanDetailErrors | be/src/storage/tablet_meta_manager.cpp:951-983 | in detail mode the header scan adds exactly one error per header that does not decode or parse, plus one per parsed header whose tablet already has a record |
| MetaStats.HeaderScanFresh | be/src/storage/tablet_meta_manager.cpp:972-981 | in detail mode each parsed tablet has a record whose family counters are zero |
| MetaStats.RstScan | be/src/storage/tablet_meta_manager.cpp:988-996 | every `"rst_"` entry is counted, and nothing else changes |
| MetaStats.LogScan | be/src/storage/tablet_meta_manager.cpp:998-1021 | log entries whose key decodes are counted, the others are errors, and no tablet record is added |
| MetaStats.DelVectorScan | be/src/storage/tablet_meta_manager.cpp:1023-1044 | every delete-vector entry is counted, and no tablet record is added |
| MetaStats.RowsetScan | be/src/storage/tablet_meta_manager.cpp:1046-1070 | rowset entries whose key decodes are counted, and no tablet record is added |
| MetaStats.PendingRowsetScan | be/src/storage/tablet_meta_manager.cpp:1072-1096 | pending entries whose key decodes are counted, and no tablet record is added |
| MetaStats.LogScanTablet | be/src/storage/tablet_meta_manager.cpp:1006-1016 | in detail mode a recorded tablet's log counters grow by its own log entries |
| MetaStats.DelVectorScanTablet | be/src/storage/tablet_meta_manager.cpp:1026-1039 | in detail mode a recorded tablet's delete-vector counters grow by its own entries |
| MetaStats.RowsetScanTablet | be/src/storage/tablet_meta_manager.cpp:1054-1065 | in detail mode a recorded tablet's rowset counters grow by its own entries |
| MetaStats.PendingRowsetScanTablet | be/src/storage/tablet_meta_manager.cpp:1079-1091 | in detail mode a recorded tablet's pending counters grow by its own entries |
| MetaStats.GetStatsCounts | be/src/storage/tablet_meta_manager.cpp:947-1099 | after `get_stats`, each family counter has grown by exactly the entries the source counts for it |
| MetaStats.GetStatsTotals | be/src/storage/tablet_meta_manager.cpp:984-1095 | the overall totals grow by the sum of the six family counters |
| MetaStats.GetStatsErrors | be/src/storage/tablet_meta_manager.cpp:947-1099 | without detail, the errors are the failed headers plus the undecodable log and rowset keys, and no tablet record changes |
| MetaStats.GetStatsDetailErrors | be/src/storage/tablet_meta_manager.cpp:947-1099 | with detail, the records are those of the previously recorded and the parsed tablets; the header scan's errors are the failed headers plus the duplicate headers; the errors after it are the undecodable log keys and the delete-vector, rowset and pending entries of unrecorded tablets |
| MetaStats.GetStatsTabletLogs | be/src/storage/tablet_meta_manager.cpp:998-1044 | with detail, a parsed tablet's record holds exactly the count and bytes of its own log and delete-vector entries |
| MetaStats.GetStatsTabletRowsets | be/src/storage/tablet_meta_manager.cpp:1046-1096 | with detail, a parsed tablet's record holds exactly the count and bytes of its own rowset and pending entries |
| MetaImport.Entries | be/src/storage/tablet_meta_manager.cpp:471-541 | a document list converts exactly when every element does, and then element by element |
| MetaImport.PutOps | be/src/storage/tablet_meta_manager.cpp:471-541 | one put per converted entry, in order |
| MetaImport.QueueEntries | be/src/storage/tablet_meta_manager.cpp:471-487 | the loop over one document list queues its puts and reports failure exactly when an element does not convert |
| MetaImport.QueueDocEntries | be/src/storage/tablet_meta_manager.cpp:471-542 | queues the puts of the four lists in the source's order, and succeeds exactly when all of them convert |
| MetaImport.QueueHead | be/src/storage/tablet_meta_manager.cpp:448-469 | queues the header put and then the four clears |
| MetaImport.BuildPrimaryMeta | be/src/storage/tablet_meta_manager.cpp:437-545 | OK exactly when the header and every list entry convert, otherwise InternalError; on OK the batch gains the header put, the four clears, then the puts of the lists |
| MetaImport.LoadJsonMeta | be/src/storage/tablet_meta_manager.cpp:557-587 | a document with no `tablet_meta` member writes a single header put; one with it writes the import batch; an unparsable document or failed conversion is InternalError with the store unchanged |
| MetaImport.BareHeaderAt | be/src/storage/tablet_meta_manager.cpp:564-580 | the bare-header import changes only the header key, which holds the serialised header |
| MetaImport.PutsAt | be/src/storage/tablet_meta_manager.cpp:471-541 | after a run of puts, a key holds its last listed value, or what it held before when not listed |
| MetaImport.HeadOpsAt | be/src/storage/tablet_meta_manager.cpp:448-469 | after the header put and the clears, the cleared keys are gone, the header key holds the header, and every other key is unchanged |
| MetaImport.ImportAt | be/src/storage/tablet_meta_manager.cpp:437-545 | after the import, a key holds its last listed value, or else nothing when cleared, or else the header when it is the header key, or else its old value |
| MetaImport.ImportRowsetAt | be/src/storage/tablet_meta_manager.cpp:461-487 | after the import, the tablet's rowset entries are exactly those of the document, the last one listed per key winning, for every rowset id below UINT32_MAX |
| MetaImport.ImportPendingRowsetAt | be/src/storage/tablet_meta_manager.cpp:467-507 | after the import, the tablet's pending entries are exactly those of the document, for every version in [0, INT64_MAX) |
| MetaImport.ImportMetaLogAt | be/src/storage/tablet_meta_manager.cpp:457-527 | after the import, the tablet's log entries are exactly those of the document, for every log id below UINT64_MAX |
| MetaImport.ImportDelVectorAt | be/src/storage/tablet_meta_manager.cpp:459-542 | after the import, the tablet's delete vectors are exactly those of the document, for every segment below UINT32_MAX and every version |
| MetaImport.ImportKeepsOtherKeys | be/src/storage/tablet_meta_manager.cpp:437-545 | a key outside the tablet's four families and other than its header key is unchanged by the import |
| MetaImport.ImportHeaderAt | be/src/storage/tablet_meta_manager.cpp:448-455 | after the import, the imported header's key holds it, and every other header key is unchanged |
| MetaImport.DelVectorEntriesUnder | be/src/storage/tablet_meta_manager.cpp:529-542 | delete-vector entries always convert, and each key is under the tablet's `"dlv_"` prefix |

## Left out

- Reading and trimming the JSON file in `load_json_meta` are file I/O. The model starts from the parsed document: unparsable, a bare header, or a document with its members already split.
- JSON parsing, json2pb, protobuf serialisation, base64 decoding and `DelVector::save`/`load` are external libraries. They are parameters (`Codec`, `JsonCodec`). `ParsesBack` states the one property the model assumes of them, and only where a lemma requires it.
- A JSON member that is missing or not an array reads as an empty list. `GetInt64` on a missing member is not modelled.
- `get_primary_meta`, `get_json_meta` and `json_to_string` assemble JSON text around the external codecs, so they are not part of this model.
- `get_tablet_meta`, `rowset_iterate` and `pending_rowset_iterate` are not modelled. The first only reads one key and hands it to an external deserialiser. The other two wrap a prefix iteration around an external parser, with a CHECK abort on a corrupt rowset.
- Failures of the key-value store (`RETURN_IF_ERROR`, a failed batch step or write, a failed iteration), CHECK and LOG(FATAL) aborts, and logging are not modelled. Every batch step and write succeeds, which is why most write operations return OK.
- Column-family handles are not modelled: every operation works on the one meta column family.
- Range deletions and range iterations are taken as half-open `[lo, hi)`. This is an assumption about the store, stated in `KVStore`.
- The `size_t` wrap-around of the statistics counters is not modelled: they are unbounded `nat`s.
- Delete-vector keys that are not 24 bytes long are handled differently by each of the three scans that meet them:
  - `get_del_vector` reads the version from the last 8 bytes of each key in the segment's range. Every such key starts with the 16-byte bound prefix, so the read is in bounds, and the model reads the same bytes and skips nothing. Its lemmas require every `"dlv_"` key to be 24 bytes (`DelVectorKeysWellFormed`), because the tail of a key of another length is not that key's version.
  - `list_del_vector` decodes the first 24 bytes of each key in the tablet's range. The source reads a shorter key out of bounds, which is undefined. The model skips such a key (`KeyEntry` gives no entry) and decodes a longer one from its first 24 bytes, as the source does. Its lemmas require `DelVectorKeysWellFormed` too.
  - `get_stats` also decodes 24 bytes from every `"dlv_"` key. The model counts every such entry in the delete-vector counters, as the source does. In detail mode, a key shorter than 24 bytes names no tablet (`DelVectorKeyTablet`) and is counted as an error. That stands for the out-of-bounds read, whose tablet id is undefined.
- The value handed to a scan callback is `ValueAt`, the stored value of the key. The iterator itself is not modelled.
- MetaImport.BuildPrimaryMeta: after a failure, the contents of the caller's batch are not stated. The only caller discards that batch without writing it.
- MetaImport.ImportRowsetAt, MetaImport.ImportPendingRowsetAt, MetaImport.ImportMetaLogAt, MetaImport.ImportDelVectorAt: the ids at the exclusive ends of the clear ranges are excluded. An entry stored there before the import is not cleared.
- MetaWrites.DeleteDelVectorRange: `start_version - 1` at INT64_MIN is signed overflow, which is undefined in the source. The model takes the two's-complement wrap, under which nothing is deleted.
- MetaWrites.DelVectorPuts: its own contract gives only the number of puts. Their contents are stated by `ApplyRowsetCommitOpsSnoc` and `DelVectorPutsAt`.
