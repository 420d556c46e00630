/** Private data of old blocks: the write of highest version for each key, and the removal of what
    the committed hashes no longer match (v2.2/core/ledger/kvledger/txmgmt/txmgr/lockbased_txmgr.go). */
module Reconcile {
  import opened Common
  import opened Mvcc

  // ---------- what is reconciled ----------

  datatype KVWrite = KVWrite(key: string, isDelete: bool, value: Bytes)

  /** rwset None: bytes that do not unmarshal. */
  datatype CollPvtRwset = CollPvtRwset(name: string, rwset: Option<seq<KVWrite>>)

  datatype NsPvtRwset = NsPvtRwset(name: string, colls: seq<CollPvtRwset>)

  datatype TxPvtData = TxPvtData(seqInBlock: nat, namespaces: seq<NsPvtRwset>)

  datatype PvtKVWrite = PvtKVWrite(key: string, isDelete: bool, value: Bytes, version: Height)

  datatype Entry = Entry(hashedKey: Key, write: PvtKVWrite)

  type PvtDataMap = map<Key, PvtKVWrite>

  /** updateUsingPvtWrite */
  function Updated(m: PvtDataMap, e: Entry): PvtDataMap {
    if e.hashedKey !in m || m[e.hashedKey].version.Less(e.write.version) then m[e.hashedKey := e.write] else m
  }

  function Folded(m: PvtDataMap, es: seq<Entry>): PvtDataMap {
    if es == [] then m else Updated(Folded(m, es[..|es| - 1]), es[|es| - 1])
  }

  lemma {:induction false} FoldedConcat(m: PvtDataMap, a: seq<Entry>, b: seq<Entry>)
    ensures Folded(m, a + b) == Folded(Folded(m, a), b)
  {
    if b == [] {
      assert a + b == a;
    } else {
      FoldedConcat(m, a, b[..|b| - 1]);
      assert (a + b)[..|a + b| - 1] == a + b[..|b| - 1];
    }
  }

  // ---------- the entries in the order of the loops ----------

  /** A loop over items: their entries one after the other. */
  function Flat<T(!new)>(items: seq<T>, entries: T -> seq<Entry>): seq<Entry> {
    if items == [] then [] else Flat(items[..|items| - 1], entries) + entries(items[|items| - 1])
  }

  lemma FlatNext<T(!new)>(m: PvtDataMap, items: seq<T>, entries: T -> seq<Entry>, i: nat)
    requires i < |items|
    ensures Folded(m, Flat(items[..i + 1], entries)) == Folded(Folded(m, Flat(items[..i], entries)), entries(items[i]))
  {
    assert items[..i + 1][..i] == items[..i];
    FoldedConcat(m, Flat(items[..i], entries), entries(items[i]));
  }

  function EntryOf(hash: string -> Bytes, ns: string, coll: string, ver: Height, w: KVWrite): Entry {
    Entry(Hashed(ns, coll, hash(w.key)), PvtKVWrite(w.key, w.isDelete, w.value, ver))
  }

  function CollEntries(hash: string -> Bytes, ns: string, ver: Height, c: CollPvtRwset): seq<Entry> {
    if c.rwset.None? then [] else Flat(c.rwset.value, w => [EntryOf(hash, ns, c.name, ver, w)])
  }

  function NsEntries(hash: string -> Bytes, ver: Height, n: NsPvtRwset): seq<Entry> {
    Flat(n.colls, c => CollEntries(hash, n.name, ver, c))
  }

  function TxEntries(hash: string -> Bytes, block: nat, tx: TxPvtData): seq<Entry> {
    Flat(tx.namespaces, n => NsEntries(hash, Height(block, tx.seqInBlock), n))
  }

  function BlockEntries(hash: string -> Bytes, block: nat, txs: seq<TxPvtData>): seq<Entry> {
    Flat(txs, tx => TxEntries(hash, block, tx))
  }

  predicate NsUnmarshals(n: NsPvtRwset) {
    forall c | c in n.colls :: c.rwset.Some?
  }

  predicate TxUnmarshals(tx: TxPvtData) {
    forall n | n in tx.namespaces :: NsUnmarshals(n)
  }

  predicate WellFormed(txs: seq<TxPvtData>) {
    forall tx | tx in txs :: TxUnmarshals(tx)
  }

  // ---------- the write of highest version ----------

  /** Entries of the blocks looked at, by block. */
  type Seen = map<nat, seq<Entry>>

  /** Entry i of block b is write w of k: no write of k has a higher version, none before it in the block as high. */
  ghost predicate IsBest(seen: Seen, b: nat, i: nat, k: Key, w: PvtKVWrite) {
    && b in seen && i < |seen[b]| && seen[b][i] == Entry(k, w)
    && forall c, j | c in seen && 0 <= j < |seen[c]| && seen[c][j].hashedKey == k ::
         && !w.version.Less(seen[c][j].write.version)
         && (c == b && j < i ==> seen[c][j].write.version.Less(w.version))
  }

  ghost predicate HighestOf(m: PvtDataMap, seen: Seen) {
    && (forall b, i | b in seen && 0 <= i < |seen[b]| :: seen[b][i].hashedKey in m)
    && (forall k | k in m :: exists b: nat, i: nat :: IsBest(seen, b, i, k, m[k]))
  }

  predicate AllFrom(es: seq<Entry>, block: nat) {
    forall i | 0 <= i < |es| :: es[i].write.version.block == block
  }

  lemma {:induction false} FlatAllFrom<T(!new)>(items: seq<T>, entries: T -> seq<Entry>, block: nat)
    requires forall x | x in items :: AllFrom(entries(x), block)
    ensures AllFrom(Flat(items, entries), block)
  {
    if items != [] {
      FlatAllFrom(items[..|items| - 1], entries, block);
    }
  }

  lemma BlockEntriesFrom(hash: string -> Bytes, block: nat, txs: seq<TxPvtData>)
    ensures AllFrom(BlockEntries(hash, block, txs), block)
  {
    forall tx
      ensures AllFrom(TxEntries(hash, block, tx), block)
    {
      var ver := Height(block, tx.seqInBlock);
      forall n
        ensures AllFrom(NsEntries(hash, ver, n), block)
      {
        forall c
          ensures AllFrom(CollEntries(hash, n.name, ver, c), block)
        {
          if c.rwset.Some? {
            FlatAllFrom(c.rwset.value, w => [EntryOf(hash, n.name, c.name, ver, w)], block);
          }
        }
        FlatAllFrom(n.colls, c => CollEntries(hash, n.name, ver, c), block);
      }
      FlatAllFrom(tx.namespaces, n => NsEntries(hash, ver, n), block);
    }
    FlatAllFrom(txs, tx => TxEntries(hash, block, tx), block);
  }

  /** One more entry of block b. */
  lemma HighestStep(m: PvtDataMap, seen: Seen, b: nat, e: Entry)
    requires b in seen && HighestOf(m, seen)
    ensures HighestOf(Updated(m, e), seen[b := seen[b] + [e]])
  {
    var m', seen' := Updated(m, e), seen[b := seen[b] + [e]];
    forall k | k in m'
      ensures exists c: nat, j: nat :: IsBest(seen', c, j, k, m'[k])
    {
      if k in m && m'[k] == m[k] {
        var c: nat, j: nat :| IsBest(seen, c, j, k, m[k]);
        assert IsBest(seen', c, j, k, m'[k]);
      } else {
        if k in m {
          var c: nat, j: nat :| IsBest(seen, c, j, k, m[k]);
        }
        assert IsBest(seen', b, |seen[b]|, k, e.write);
      }
    }
  }

  lemma {:induction false} HighestBlock(m: PvtDataMap, seen: Seen, b: nat, es: seq<Entry>)
    requires b !in seen && HighestOf(m, seen)
    ensures HighestOf(Folded(m, es), seen[b := es])
  {
    if es == [] {
      var seen' := seen[b := es];
      forall k | k in m
        ensures exists c: nat, j: nat :: IsBest(seen', c, j, k, m[k])
      {
        var c: nat, j: nat :| IsBest(seen, c, j, k, m[k]);
        assert IsBest(seen', c, j, k, m[k]);
      }
    } else {
      var n := |es| - 1;
      HighestBlock(m, seen, b, es[..n]);
      HighestStep(Folded(m, es[..n]), seen[b := es[..n]], b, es[n]);
      assert es[..n] + [es[n]] == es;
      assert seen[b := es[..n]][b := es] == seen[b := es];
    }
  }

  /** The order in which the blocks are looked at does not count. */
  lemma HighestDetermined(m: PvtDataMap, m': PvtDataMap, seen: Seen)
    requires HighestOf(m, seen) && HighestOf(m', seen) && forall b | b in seen :: AllFrom(seen[b], b)
    ensures m == m'
  {
    forall k | k in m
      ensures k in m' && m[k] == m'[k]
    {
      var b: nat, i: nat :| IsBest(seen, b, i, k, m[k]);
      assert seen[b][i].hashedKey == k;
      var c: nat, j: nat :| IsBest(seen, c, j, k, m'[k]);
    }
    forall k | k in m'
      ensures k in m
    {
      var c: nat, j: nat :| IsBest(seen, c, j, k, m'[k]);
      assert seen[c][j].hashedKey == k;
    }
  }

  type Reconciled = map<nat, seq<TxPvtData>>

  function AllEntries(hash: string -> Bytes, reconciled: Reconciled): Seen {
    map b | b in reconciled :: BlockEntries(hash, b, reconciled[b])
  }

  // ---------- the loops ----------

  class UniquePvtData {
    var data: PvtDataMap
    const hash: string -> Bytes

    constructor (h: string -> Bytes)
      ensures data == map[] && hash == h
    {
      data, hash := map[], h;
    }

    method UpdateUsingPvtWrite(w: KVWrite, ns: string, coll: string, ver: Height)
      modifies this`data
      ensures data == Updated(old(data), EntryOf(hash, ns, coll, ver, w))
    {
      var hashedKey := Hashed(ns, coll, hash(w.key));
      if hashedKey !in data || data[hashedKey].version.Less(ver) {
        data := data[hashedKey := PvtKVWrite(w.key, w.isDelete, w.value, ver)];
      }
    }

    method UpdateUsingCollPvtData(c: CollPvtRwset, ns: string, ver: Height) returns (ok: bool)
      modifies this`data
      ensures ok <==> c.rwset.Some?
      ensures ok ==> data == Folded(old(data), CollEntries(hash, ns, ver, c))
    {
      if c.rwset.None? {
        return false;
      }
      var writes := c.rwset.value;
      ghost var entries := w => [EntryOf(hash, ns, c.name, ver, w)];
      for i := 0 to |writes|
        invariant data == Folded(old(data), Flat(writes[..i], entries))
      {
        FlatNext(old(data), writes, entries, i);
        UpdateUsingPvtWrite(writes[i], ns, c.name, ver);
      }
      assert writes[..|writes|] == writes;
      ok := true;
    }

    method UpdateUsingNsPvtData(n: NsPvtRwset, ver: Height) returns (ok: bool)
      modifies this`data
      ensures ok <==> NsUnmarshals(n)
      ensures ok ==> data == Folded(old(data), NsEntries(hash, ver, n))
    {
      ghost var entries := c => CollEntries(hash, n.name, ver, c);
      for i := 0 to |n.colls|
        invariant forall c | c in n.colls[..i] :: c.rwset.Some?
        invariant data == Folded(old(data), Flat(n.colls[..i], entries))
      {
        FlatNext(old(data), n.colls, entries, i);
        var done := UpdateUsingCollPvtData(n.colls[i], n.name, ver);
        if !done {
          return false;
        }
      }
      assert n.colls[..|n.colls|] == n.colls;
      ok := true;
    }

    method UpdateUsingTxPvtData(tx: TxPvtData, block: nat) returns (ok: bool)
      modifies this`data
      ensures ok <==> TxUnmarshals(tx)
      ensures ok ==> data == Folded(old(data), TxEntries(hash, block, tx))
    {
      var ver := Height(block, tx.seqInBlock);
      ghost var entries := n => NsEntries(hash, ver, n);
      for i := 0 to |tx.namespaces|
        invariant forall n | n in tx.namespaces[..i] :: NsUnmarshals(n)
        invariant data == Folded(old(data), Flat(tx.namespaces[..i], entries))
      {
        FlatNext(old(data), tx.namespaces, entries, i);
        var done := UpdateUsingNsPvtData(tx.namespaces[i], ver);
        if !done {
          return false;
        }
      }
      assert tx.namespaces[..|tx.namespaces|] == tx.namespaces;
      ok := true;
    }

    method UpdateUsingBlockPvtdata(txs: seq<TxPvtData>, block: nat) returns (ok: bool)
      modifies this`data
      ensures ok <==> WellFormed(txs)
      ensures ok ==> data == Folded(old(data), BlockEntries(hash, block, txs))
    {
      ghost var entries := tx => TxEntries(hash, block, tx);
      for i := 0 to |txs|
        invariant WellFormed(txs[..i])
        invariant data == Folded(old(data), Flat(txs[..i], entries))
      {
        FlatNext(old(data), txs, entries, i);
        var done := UpdateUsingTxPvtData(txs[i], block);
        if !done {
          return false;
        }
      }
      assert txs[..|txs|] == txs;
      ok := true;
    }

    /** constructUniquePvtData: the blocks in any order. */
    method ConstructUniquePvtData(reconciled: Reconciled) returns (ok: bool)
      requires data == map[]
      modifies this`data
      ensures ok <==> forall b | b in reconciled :: WellFormed(reconciled[b])
      ensures ok ==> HighestOf(data, AllEntries(hash, reconciled))
    {
      var todo := reconciled.Keys;
      ghost var seen: Seen := map[];
      while todo != {}
        invariant todo <= reconciled.Keys && seen.Keys == reconciled.Keys - todo
        invariant forall b | b in seen :: WellFormed(reconciled[b]) && seen[b] == BlockEntries(hash, b, reconciled[b])
        invariant HighestOf(data, seen)
        decreases todo
      {
        var blkNum :| blkNum in todo;
        ghost var es := BlockEntries(hash, blkNum, reconciled[blkNum]);
        HighestBlock(data, seen, blkNum, es);
        var done := UpdateUsingBlockPvtdata(reconciled[blkNum], blkNum);
        if !done {
          return false;
        }
        seen := seen[blkNum := es];
        todo := todo - {blkNum};
      }
      assert seen == AllEntries(hash, reconciled);
      ok := true;
    }

    /** checkIfPvtWriteIsStale, with its side effect on the version. */
    method CheckIfPvtWriteIsStale(hashedKey: Key, db: State, valueHash: Bytes -> Bytes) returns (isStale: bool)
      requires hashedKey in data
      modifies this`data
      ensures isStale == Stale(old(data)[hashedKey], Lookup(db, hashedKey), valueHash)
      ensures data == if isStale then old(data)
                      else old(data)[hashedKey := Patched(old(data)[hashedKey], Lookup(db, hashedKey))]
    {
      var kvWrite := data[hashedKey];
      if hashedKey !in db {
        assert data == data[hashedKey := kvWrite];
        return !kvWrite.isDelete;
      }
      var vv := db[hashedKey];
      if vv.version == kvWrite.version {
        assert data == data[hashedKey := kvWrite];
        return false;
      }
      if vv.value == valueHash(kvWrite.value) {
        data := data[hashedKey := kvWrite.(version := vv.version)];
        return false;
      }
      isStale := true;
    }

    /** findAndRemoveStalePvtData: the keys in any order. */
    method FindAndRemoveStalePvtData(db: State, valueHash: Bytes -> Bytes)
      modifies this`data
      ensures data == Fresh(old(data), db, valueHash)
    {
      var todo := data.Keys;
      while todo != {}
        invariant todo <= data.Keys <= old(data).Keys
        invariant forall k | k in todo :: data[k] == old(data)[k]
        invariant forall k | k in old(data) && k !in todo ::
                    && (k in data <==> !Stale(old(data)[k], Lookup(db, k), valueHash))
                    && (k in data ==> data[k] == Patched(old(data)[k], Lookup(db, k)))
        decreases todo
      {
        var hashedKey :| hashedKey in todo;
        var isStale := CheckIfPvtWriteIsStale(hashedKey, db, valueHash);
        if isStale {
          data := data - {hashedKey};
        }
        todo := todo - {hashedKey};
      }
    }
  }

  // ---------- stale writes ----------

  predicate Stale(w: PvtKVWrite, committed: Option<Versioned>, valueHash: Bytes -> Bytes) {
    if committed.None? then !w.isDelete
    else w.version != committed.value.version && valueHash(w.value) != committed.value.value
  }

  function Patched(w: PvtKVWrite, committed: Option<Versioned>): PvtKVWrite {
    if committed.None? then w else w.(version := committed.value.version)
  }

  function Fresh(m: PvtDataMap, db: State, valueHash: Bytes -> Bytes): PvtDataMap {
    map k | k in m && !Stale(m[k], Lookup(db, k), valueHash) :: Patched(m[k], Lookup(db, k))
  }

  /** RemoveStaleAndCommitPvtDataOfOldBlocks up to the update batch: None on data that does not unmarshal. */
  method ReconcileOldBlocks(reconciled: Reconciled, db: State, hash: string -> Bytes, valueHash: Bytes -> Bytes)
    returns (batch: Option<PvtDataMap>)
    ensures batch.Some? <==> forall b | b in reconciled :: WellFormed(reconciled[b])
    ensures batch.Some? ==>
              exists m :: HighestOf(m, AllEntries(hash, reconciled)) && batch.value == Fresh(m, db, valueHash)
  {
    var unique := new UniquePvtData(hash);
    var ok := unique.ConstructUniquePvtData(reconciled);
    if !ok {
      return None;
    }
    ghost var m := unique.data;
    unique.FindAndRemoveStalePvtData(db, valueHash);
    batch := Some(unique.data);
  }

  /** The committed hash at a version is the hash of what was written at that version. */
  ghost predicate Honest(seen: Seen, db: State, valueHash: Bytes -> Bytes) {
    forall b, i | b in seen && 0 <= i < |seen[b]| && seen[b][i].hashedKey in db ::
      var e, vv := seen[b][i], db[seen[b][i].hashedKey];
      e.write.version == vv.version ==> valueHash(e.write.value) == vv.value
  }

  /** Whatever the order of blocks and keys there is one batch. A key gets into it iff its write of
      highest version agrees with the committed state, and then private value and version agree with
      the committed hash and version; a key without a hash is only deleted. */
  lemma BatchAgreesWithHashes(m: PvtDataMap, batch: PvtDataMap, seen: Seen, db: State, valueHash: Bytes -> Bytes,
                              k: Key, b: nat, i: nat)
    requires HighestOf(m, seen) && batch == Fresh(m, db, valueHash) && Honest(seen, db, valueHash)
    requires forall c | c in seen :: AllFrom(seen[c], c)
    requires b in seen && i < |seen[b]| && IsBest(seen, b, i, k, seen[b][i].write)
    ensures var w := seen[b][i].write;
            && (k in batch <==> if k in db then valueHash(w.value) == db[k].value else w.isDelete)
            && (k in batch ==> batch[k] == w.(version := if k in db then db[k].version else w.version))
  {
    assert seen[b][i].hashedKey == k;
    var c: nat, j: nat :| IsBest(seen, c, j, k, m[k]);
    assert m[k] == seen[b][i].write;
  }

  /** The batch is the same for every order. */
  lemma {:induction false} BatchDetermined(m: PvtDataMap, m': PvtDataMap, reconciled: Reconciled, hash: string -> Bytes,
                                           db: State, valueHash: Bytes -> Bytes)
    requires HighestOf(m, AllEntries(hash, reconciled)) && HighestOf(m', AllEntries(hash, reconciled))
    ensures Fresh(m, db, valueHash) == Fresh(m', db, valueHash)
  {
    forall b | b in reconciled
      ensures AllFrom(BlockEntries(hash, b, reconciled[b]), b)
    {
      BlockEntriesFrom(hash, b, reconciled[b]);
    }
    HighestDetermined(m, m', AllEntries(hash, reconciled));
  }
}
