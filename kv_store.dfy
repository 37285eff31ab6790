/**
  The ordered key-value store beneath the tablet metadata (the meta column
  family of the data directory's KVStore): a finite map from byte strings
  to byte strings kept in unsigned lexicographic key order.

  Writes go through write batches: a batch is a list of Put, Delete and
  DeleteRange steps, applied in order and all at once. Scans yield the keys
  of a prefix or of a range in ascending order. Range deletions and range
  scans cover the half-open interval [lo, hi); this is how the model takes
  RocksDB's DeleteRange and bounded iteration.
 */
module KVStore {
  import opened Bytes
  import opened Wrappers

  type Data = map<Bytes, Bytes>

  datatype BatchOp =
    | Put(key: Bytes, value: Bytes)
    | Delete(key: Bytes)
    | DeleteRange(lo: Bytes, hi: Bytes)

  function Lookup(m: Data, k: Bytes): Option<Bytes>
  {
    if k in m then Some(m[k]) else None
  }

  /** The step writes or erases `k`. */
  predicate Touches(op: BatchOp, k: Bytes)
  {
    match op
    case Put(key, _) => key == k
    case Delete(key) => key == k
    case DeleteRange(lo, hi) => InRange(k, lo, hi)
  }

  /** The value an iteration hands over with key `k`: the stored value (a scan only meets stored keys). */
  function ValueAt(m: Data, k: Bytes): Bytes
  {
    if k in m then m[k] else []
  }

  /** One batch step. */
  function ApplyOp(m: Data, op: BatchOp): Data
  {
    match op
    case Put(k, v) => m[k := v]
    case Delete(k) => m - {k}
    case DeleteRange(lo, hi) => map k | k in m && !InRange(k, lo, hi) :: m[k]
  }

  /** After one step, a touched key holds the put value or nothing; every other key is unchanged. */
  lemma ApplyOpAt(m: Data, op: BatchOp, k: Bytes)
    ensures Lookup(ApplyOp(m, op), k) == if !Touches(op, k) then Lookup(m, k) else if op.Put? then Some(op.value) else None
  {
  }

  /** The steps of a batch applied in order. */
  function ApplyBatch(m: Data, ops: seq<BatchOp>): Data
    decreases |ops|
  {
    if ops == [] then m else ApplyOp(ApplyBatch(m, ops[..|ops| - 1]), ops[|ops| - 1])
  }

  /** The position of the last step of `ops` that touches `k`. */
  function LastTouch(ops: seq<BatchOp>, k: Bytes): (r: Option<nat>)
    ensures r.Some? ==> r.value < |ops| && Touches(ops[r.value], k)
    ensures r.Some? ==> forall j | r.value < j < |ops| :: !Touches(ops[j], k)
    ensures r.None? ==> forall j | 0 <= j < |ops| :: !Touches(ops[j], k)
    decreases |ops|
  {
    if ops == [] then None
    else if Touches(ops[|ops| - 1], k) then Some(|ops| - 1)
    else LastTouch(ops[..|ops| - 1], k)
  }

  /** The value of the last pair listed for `key`, if any pair lists it: a later put of the same key wins. */
  function LastFor<K(==), V>(pairs: seq<(K, V)>, key: K): (r: Option<V>)
    ensures r.None? <==> forall i | 0 <= i < |pairs| :: pairs[i].0 != key
    ensures r.Some? ==> exists i | 0 <= i < |pairs| ::
      pairs[i] == (key, r.value) && forall j | i < j < |pairs| :: pairs[j].0 != key
    decreases |pairs|
  {
    if pairs == [] then None
    else if pairs[|pairs| - 1].0 == key then Some(pairs[|pairs| - 1].1)
    else
      var r := LastFor(pairs[..|pairs| - 1], key);
      assert r.Some? ==> exists i | 0 <= i < |pairs| - 1 ::
        pairs[i] == (key, r.value) && forall j | i < j < |pairs| - 1 :: pairs[j].0 != key;
      r
  }

  /**
    What a batch leaves at one key, stated without replaying it: the last
    step that touches the key decides, and a key no step touches keeps its
    value.
   */
  function BatchAt(m: Data, ops: seq<BatchOp>, k: Bytes): Option<Bytes>
  {
    match LastTouch(ops, k)
    case None => Lookup(m, k)
    case Some(i) => if ops[i].Put? then Some(ops[i].value) else None
  }

  lemma {:induction false} ApplyBatchAt(m: Data, ops: seq<BatchOp>, k: Bytes)
    ensures Lookup(ApplyBatch(m, ops), k) == BatchAt(m, ops, k)
    decreases |ops|
  {
    if ops != [] {
      var init := ops[..|ops| - 1];
      ApplyBatchAt(m, init, k);
      ApplyOpAt(ApplyBatch(m, init), ops[|ops| - 1], k);
      if !Touches(ops[|ops| - 1], k) {
        match LastTouch(init, k)
        case None =>
        case Some(i) => assert ops[i] == init[i];
      }
    }
  }

  lemma ApplyBatchOne(m: Data, op: BatchOp)
    ensures ApplyBatch(m, [op]) == ApplyOp(m, op)
  {
    assert [op][..0] == [];
  }

  /** A step appended to a batch acts on what the batch left. */
  lemma ApplyBatchSnoc(m: Data, ops: seq<BatchOp>, op: BatchOp)
    ensures ApplyBatch(m, ops + [op]) == ApplyOp(ApplyBatch(m, ops), op)
  {
    assert (ops + [op])[..|ops|] == ops;
  }

  /** What a step appended to a batch leaves at one key. */
  lemma ApplyBatchSnocAt(m: Data, ops: seq<BatchOp>, op: BatchOp, k: Bytes)
    ensures Lookup(ApplyBatch(m, ops + [op]), k) ==
      if !Touches(op, k) then Lookup(ApplyBatch(m, ops), k) else if op.Put? then Some(op.value) else None
  {
    ApplyBatchSnoc(m, ops, op);
    ApplyOpAt(ApplyBatch(m, ops), op, k);
  }

  /** What a one-step batch leaves at one key. */
  lemma ApplyBatchOneAt(m: Data, op: BatchOp, k: Bytes)
    ensures Lookup(ApplyBatch(m, [op]), k) == if !Touches(op, k) then Lookup(m, k) else if op.Put? then Some(op.value) else None
  {
    ApplyBatchOne(m, op);
    ApplyOpAt(m, op, k);
  }

  /** Steps appended to a batch act on what the earlier steps left. */
  lemma {:induction false} ApplyBatchAppend(m: Data, a: seq<BatchOp>, b: seq<BatchOp>)
    ensures ApplyBatch(m, a + b) == ApplyBatch(ApplyBatch(m, a), b)
    decreases |b|
  {
    if b == [] {
      assert a + b == a;
    } else {
      assert (a + b)[..|a + b| - 1] == a + b[..|b| - 1];
      ApplyBatchAppend(m, a, b[..|b| - 1]);
    }
  }

  /** A batch that only erases leaves a key unchanged unless one of its steps erases it. */
  lemma DeletionsAt(m: Data, ops: seq<BatchOp>, k: Bytes)
    requires forall i | 0 <= i < |ops| :: !ops[i].Put?
    ensures Lookup(ApplyBatch(m, ops), k) ==
      if exists i | 0 <= i < |ops| :: Touches(ops[i], k) then None else Lookup(m, k)
  {
    ApplyBatchAt(m, ops, k);
  }

  // ---------------------------------------------------------------------
  // Scans
  // ---------------------------------------------------------------------

  /** The keys of `m` in [lo, hi), ascending: what a bounded iteration visits. */
  ghost function ScanRange(m: Data, lo: Bytes, hi: Bytes): (ks: seq<Bytes>)
    ensures StrictlyAscending(ks)
    ensures forall i | 0 <= i < |ks| :: ks[i] in m
    ensures forall k {:trigger k in ks} :: k in ks <==> k in m && InRange(k, lo, hi)
  {
    var ks := Ascending(set k | k in m && InRange(k, lo, hi));
    assert forall i | 0 <= i < |ks| :: ks[i] in ks;
    ks
  }

  /** The keys of `m` that start with `p`, ascending: what a prefix iteration visits. */
  ghost function ScanPrefix(m: Data, p: Bytes): (ks: seq<Bytes>)
    ensures StrictlyAscending(ks)
    ensures forall i | 0 <= i < |ks| :: ks[i] in m
    ensures forall k {:trigger k in ks} :: k in ks <==> k in m && HasPrefix(k, p)
  {
    var ks := Ascending(set k | k in m && HasPrefix(k, p));
    assert forall i | 0 <= i < |ks| :: ks[i] in ks;
    ks
  }

  /** Puts the keys of a finite set in ascending order by repeatedly taking the least one. */
  method SortKeys(s: set<Bytes>) returns (ks: seq<Bytes>)
    ensures ks == Ascending(s)
  {
    ks := [];
    var rest := s;
    while rest != {}
      invariant rest <= s
      invariant StrictlyAscending(ks)
      invariant forall k :: k in ks <==> k in s && k !in rest
      invariant forall i, k | 0 <= i < |ks| && k in rest :: Below(ks[i], k)
      decreases |rest|
    {
      LeastExists(rest);
      var m :| m in rest && Least(m, rest);
      forall k | k in rest && k != m
        ensures Below(m, k)
      {
        BelowTotal(m, k);
      }
      ks := ks + [m];
      rest := rest - {m};
    }
    AscendingUnique(ks, Ascending(s));
  }

  // ---------------------------------------------------------------------
  // Write batches and the store
  // ---------------------------------------------------------------------

  /** A RocksDB write batch: the steps queued so far. */
  class WriteBatch {
    var ops: seq<BatchOp>

    constructor()
      ensures ops == []
    {
      ops := [];
    }

    method Put(key: Bytes, value: Bytes)
      modifies this
      ensures ops == old(ops) + [BatchOp.Put(key, value)]
    {
      ops := ops + [BatchOp.Put(key, value)];
    }

    method Delete(key: Bytes)
      modifies this
      ensures ops == old(ops) + [BatchOp.Delete(key)]
    {
      ops := ops + [BatchOp.Delete(key)];
    }

    method DeleteRange(lo: Bytes, hi: Bytes)
      modifies this
      ensures ops == old(ops) + [BatchOp.DeleteRange(lo, hi)]
    {
      ops := ops + [BatchOp.DeleteRange(lo, hi)];
    }
  }

  /** The meta column family of a data directory's key-value store. */
  class Store {
    var data: Data

    constructor(init: Data)
      ensures data == init
    {
      data := init;
    }

    /** `KVStore::get`: NotFound for a missing key. */
    method Get(key: Bytes) returns (st: Status, value: Bytes)
      ensures key in data ==> st == OK && value == data[key]
      ensures key !in data ==> st == NotFound && value == []
    {
      if key in data {
        st, value := OK, data[key];
      } else {
        st, value := NotFound, [];
      }
    }

    method Put(key: Bytes, value: Bytes)
      modifies this
      ensures data == old(data)[key := value]
    {
      data := data[key := value];
    }

    method Remove(key: Bytes)
      modifies this
      ensures data == old(data) - {key}
    {
      data := data - {key};
    }

    /** `KVStore::write_batch`: every step of the batch, in order, as one atomic write. */
    method Write(batch: WriteBatch)
      modifies this
      ensures data == ApplyBatch(old(data), batch.ops)
    {
      var ops := batch.ops;
      var i := 0;
      while i < |ops|
        invariant i <= |ops|
        invariant data == ApplyBatch(old(data), ops[..i])
      {
        assert ops[..i + 1][..i] == ops[..i];
        data := ApplyOp(data, ops[i]);
        i := i + 1;
      }
      assert ops[..i] == ops;
    }

    /** `KVStore::iterate`: the keys that start with `prefix`, ascending. */
    method Iterate(prefix: Bytes) returns (keys: seq<Bytes>)
      ensures keys == ScanPrefix(data, prefix)
    {
      keys := SortKeys(set k | k in data && HasPrefix(k, prefix));
    }

    /** `KVStore::iterate_range`: the keys in [lo, hi), ascending. */
    method IterateRange(lo: Bytes, hi: Bytes) returns (keys: seq<Bytes>)
      ensures keys == ScanRange(data, lo, hi)
    {
      keys := SortKeys(set k | k in data && InRange(k, lo, hi));
    }
  }
}
