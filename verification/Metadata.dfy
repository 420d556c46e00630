/** Versions of private data catching up with those of the hashes after updates of metadata only
    (v1.4/core/ledger/kvledger/txmgmt/validator/valimpl/helper.go). */
module Metadata {
  import opened Common
  import opened Mvcc

  datatype CollKey = CollKey(ns: string, coll: string, key: string)

  /** value None is a delete. */
  type PvtUpdates = map<CollKey, Update>

  type PvtState = map<CollKey, Versioned>

  function HashedKey(k: CollKey, keyHash: string -> Bytes): Key {
    Hashed(k.ns, k.coll, keyHash(k.key))
  }

  /** UpdateBatch.Get: a delete reads as no value. */
  function GetHashed(updates: Updates, k: Key): Option<Versioned> {
    if k in updates && updates[k].value.Some? then Some(Versioned(updates[k].value.value, updates[k].version)) else None
  }

  function GetPvt(batch: PvtUpdates, k: CollKey): Option<Versioned> {
    if k in batch && batch[k].value.Some? then Some(Versioned(batch[k].value.value, batch[k].version)) else None
  }

  /** retrieveLatestVal */
  function LatestVal(batch: PvtUpdates, db: PvtState, k: CollKey): Option<Versioned> {
    if GetPvt(batch, k).Some? then GetPvt(batch, k)
    else if k in db then Some(db[k])
    else None
  }

  /** The private state once the batch is committed. */
  function After(batch: PvtUpdates, db: PvtState, k: CollKey): Option<Versioned> {
    if k in batch then GetPvt(batch, k) else if k in db then Some(db[k]) else None
  }

  /** What the key's entry must become, if anything. */
  function CatchUp(h: Hashes, batch: PvtUpdates, hashUpdates: Updates, db: PvtState, k: CollKey): Option<Update> {
    var hashed, latest := GetHashed(hashUpdates, HashedKey(k, h.keyHash)), LatestVal(batch, db, k);
    if hashed.Some? && latest.Some? && latest.value.version != hashed.value.version
        && h.valueHash(latest.value.value) == hashed.value.value
    then Some(Update(Some(latest.value.value), hashed.value.version))
    else None
  }

  /** The batch once the keys have caught up; every other entry is as before. */
  function CaughtUp(h: Hashes, batch: PvtUpdates, keys: set<CollKey>, hashUpdates: Updates, db: PvtState): PvtUpdates {
    map k | k in batch.Keys + keys && (k in batch || CatchUp(h, batch, hashUpdates, db, k).Some?) ::
      if k in keys && CatchUp(h, batch, hashUpdates, db, k).Some? then CatchUp(h, batch, hashUpdates, db, k).value
      else batch[k]
  }

  /** One more key: only its own entry changes, and its latest value is still the one it had. */
  lemma CaughtUpStep(h: Hashes, batch: PvtUpdates, keys: set<CollKey>, hashUpdates: Updates, db: PvtState, k: CollKey)
    requires k !in keys
    ensures var c, to := CaughtUp(h, batch, keys, hashUpdates, db), CatchUp(h, batch, hashUpdates, db, k);
            && CaughtUp(h, batch, keys + {k}, hashUpdates, db) == (if to.Some? then c[k := to.value] else c)
            && LatestVal(c, db, k) == LatestVal(batch, db, k)
  {
  }

  datatype Hashes = Hashes(keyHash: string -> Bytes, valueHash: Bytes -> Bytes)

  class Validator {
    const h: Hashes
    var pvtUpdateBatch: PvtUpdates

    constructor (hashes: Hashes, batch: PvtUpdates)
      ensures h == hashes && pvtUpdateBatch == batch
    {
      h, pvtUpdateBatch := hashes, batch;
    }

    /** incrementPvtdataVersionIfNeeded: the keys in any order. */
    method IncrementPvtdataVersionIfNeeded(metadataUpdates: set<CollKey>, hashUpdates: Updates, db: PvtState)
      modifies this
      ensures pvtUpdateBatch == CaughtUp(h, old(pvtUpdateBatch), metadataUpdates, hashUpdates, db)
    {
      var todo := metadataUpdates;
      ghost var batch, done: set<CollKey> := pvtUpdateBatch, {};
      while todo != {}
        invariant todo !! done && todo + done == metadataUpdates
        invariant pvtUpdateBatch == CaughtUp(h, batch, done, hashUpdates, db)
        decreases todo
      {
        var collKey :| collKey in todo;
        CaughtUpStep(h, batch, done, hashUpdates, db, collKey);
        todo := todo - {collKey};
        done := done + {collKey};
        var hashedVal := GetHashed(hashUpdates, HashedKey(collKey, h.keyHash));
        if hashedVal == None {
          continue;
        }
        var latestVal := LatestVal(pvtUpdateBatch, db, collKey);
        if latestVal == None || latestVal.value.version == hashedVal.value.version {
          continue;
        }
        if h.valueHash(latestVal.value.value) == hashedVal.value.value {
          pvtUpdateBatch := pvtUpdateBatch[collKey := Update(Some(latestVal.value.value), hashedVal.value.version)];
        }
      }
    }
  }

  /** A key with updated metadata and a hashed value in the block ends with the private value and the
      version of its hash iff the latest private value the peer has is the one hashed; a value the
      peer missed is never given the new version. A database entry is older than the block. */
  lemma CatchUpAgreesIff(h: Hashes, batch: PvtUpdates, keys: set<CollKey>, hashUpdates: Updates, db: PvtState,
                         k: CollKey)
    requires k in keys && GetHashed(hashUpdates, HashedKey(k, h.keyHash)).Some?
    requires k in db ==> db[k].version != GetHashed(hashUpdates, HashedKey(k, h.keyHash)).value.version
    ensures var hashed, latest := GetHashed(hashUpdates, HashedKey(k, h.keyHash)).value, LatestVal(batch, db, k);
            var after := After(CaughtUp(h, batch, keys, hashUpdates, db), db, k);
            && (after.Some? && after.value.version == hashed.version && h.valueHash(after.value.value) == hashed.value
                <==> latest.Some? && h.valueHash(latest.value.value) == hashed.value)
            && (!(latest.Some? && h.valueHash(latest.value.value) == hashed.value) ==> after == After(batch, db, k))
  {
    var c := CaughtUp(h, batch, keys, hashUpdates, db);
    assert k in c <==> k in batch || CatchUp(h, batch, hashUpdates, db, k).Some?;
  }
}
