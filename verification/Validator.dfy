/** The block validator: the software branch runs MVCC, the hardware branch takes
    the verdicts from the accelerator. Both fill `validationCode` of each
    transaction in place and return the update batch. */
module Validator {
  import opened Common
  import opened Mvcc

  class Transaction {
    const indexInBlock: nat
    const rwset: TxRwSet
    var validationCode: Code

    constructor (indexInBlock: nat, rwset: TxRwSet)
      ensures this.indexInBlock == indexInBlock && this.rwset == rwset
    {
      this.indexInBlock := indexInBlock;
      this.rwset := rwset;
      validationCode := VALID;
    }

    function View(): Tx {
      Tx(indexInBlock, rwset)
    }
  }

  function Views(txs: seq<Transaction>): (r: seq<Tx>)
    ensures |r| == |txs|
    ensures forall i | 0 <= i < |txs| :: r[i] == txs[i].View()
  {
    seq(|txs|, i requires 0 <= i < |txs| => txs[i].View())
  }

  function Codes(txs: seq<Transaction>): (r: seq<Code>)
    reads txs
    ensures |r| == |txs|
    ensures forall i | 0 <= i < |txs| :: r[i] == txs[i].validationCode
  {
    seq(|txs|, i requires 0 <= i < |txs| reads txs => txs[i].validationCode)
  }

  predicate Distinct(txs: seq<Transaction>) {
    forall i, j | 0 <= i < j < |txs| :: txs[i] != txs[j]
  }

  /** What GetBlockData delivers: one flag per transaction of the block. */
  datatype HwBlock = HwBlock(num: nat, valid: bool, flags: seq<Code>)

  datatype HwError = InvalidBlock | IndexOutOfRange

  /** The batch once one more transaction is judged. */
  function NextBatch(db: State, num: nat, doMvcc: bool, b: Batch, tx: Tx): Batch {
    var code := if doMvcc then Verdict(db, b.updates, tx.rwset) else VALID;
    Batch(b.codes + [code],
          if code == VALID then ApplyWrites(b.updates, Writes(tx.rwset), Height(num, tx.indexInBlock)) else b.updates)
  }

  /** Batches one transaction apart, from the empty one on. */
  ghost predicate Growing(db: State, num: nat, doMvcc: bool, txs: seq<Tx>, batches: seq<Batch>) {
    && |batches| == |txs| + 1 && batches[0] == Batch([], map[])
    && forall i | 0 <= i < |txs| :: batches[i + 1] == NextBatch(db, num, doMvcc, batches[i], txs[i])
  }

  lemma BatchStep(db: State, num: nat, txs: seq<Tx>, doMvcc: bool, i: nat)
    requires i < |txs|
    ensures MvccBatch(db, num, txs[..i + 1], doMvcc)
            == NextBatch(db, num, doMvcc, MvccBatch(db, num, txs[..i], doMvcc), txs[i])
  {
    assert txs[..i + 1][..i] == txs[..i];
    var codes := CodesOf(db, num, txs[..i], doMvcc);
    var code := if doMvcc then Verdict(db, UpdatesOf(num, txs[..i], codes), txs[i].rwset) else VALID;
    assert (codes + [code])[..i] == codes;
  }

  lemma BatchesGrow(db: State, num: nat, txs: seq<Tx>, doMvcc: bool) returns (batches: seq<Batch>)
    ensures Growing(db, num, doMvcc, txs, batches) && batches[|txs|] == MvccBatch(db, num, txs, doMvcc)
  {
    batches := seq(|txs| + 1, i requires 0 <= i <= |txs| => MvccBatch(db, num, txs[..i], doMvcc));
    assert txs[..0] == [] && txs[..|txs|] == txs;
    forall i | 0 <= i < |txs|
      ensures batches[i + 1] == NextBatch(db, num, doMvcc, batches[i], txs[i])
    {
      BatchStep(db, num, txs, doMvcc, i);
    }
  }

  class StateValidator {
    var db: State

    constructor (db: State)
      ensures this.db == db
    {
      this.db := db;
    }

    method ValidateReadSet(ns: string, kvReads: seq<KVRead>, ups: Updates) returns (valid: bool)
      ensures valid <==> ReadsCurrent(db, ups, ns, kvReads)
    {
      for i := 0 to |kvReads|
        invariant forall j | 0 <= j < i :: ReadCurrent(db, ups, Pub(ns, kvReads[j].key), kvReads[j].version)
      {
        valid := ValidateKVRead(Pub(ns, kvReads[i].key), kvReads[i].version, ups);
        if !valid {
          assert kvReads[i] in kvReads;
          return false;
        }
      }
      return true;
    }

    /** validateKVRead and validateKVReadHash: same check on the two key spaces. */
    method ValidateKVRead(k: Key, version: Option<Height>, ups: Updates) returns (valid: bool)
      ensures valid <==> ReadCurrent(db, ups, k, version)
    {
      if k in ups {
        return false;
      }
      var committedVersion := VersionOf(db, k);
      if committedVersion != version {
        return false;
      }
      return true;
    }

    method ValidateRangeQueries(ns: string, rqs: seq<RangeQuery>, ups: Updates) returns (valid: bool)
      ensures valid <==> RangesCurrent(db, ups, ns, rqs)
    {
      for i := 0 to |rqs|
        invariant forall j | 0 <= j < i :: RangeCurrent(Overlay(db, ups), ns, rqs[j])
      {
        if !RangeCurrent(Overlay(db, ups), ns, rqs[i]) {
          assert rqs[i] in rqs;
          return false;
        }
      }
      return true;
    }

    method ValidateCollHashedReadSet(ns: string, c: CollHashedRwSet, ups: Updates) returns (valid: bool)
      ensures valid <==> forall r | r in c.hashedReads :: ReadCurrent(db, ups, Hashed(ns, c.coll, r.keyHash), r.version)
    {
      for i := 0 to |c.hashedReads|
        invariant forall j | 0 <= j < i ::
                    ReadCurrent(db, ups, Hashed(ns, c.coll, c.hashedReads[j].keyHash), c.hashedReads[j].version)
      {
        valid := ValidateKVRead(Hashed(ns, c.coll, c.hashedReads[i].keyHash), c.hashedReads[i].version, ups);
        if !valid {
          assert c.hashedReads[i] in c.hashedReads;
          return false;
        }
      }
      return true;
    }

    method ValidateNsHashedReadSets(ns: string, colls: seq<CollHashedRwSet>, ups: Updates) returns (valid: bool)
      ensures valid <==> HashedCurrent(db, ups, ns, colls)
    {
      for i := 0 to |colls|
        invariant forall j | 0 <= j < i ::
                    forall r | r in colls[j].hashedReads ::
                      ReadCurrent(db, ups, Hashed(ns, colls[j].coll, r.keyHash), r.version)
      {
        valid := ValidateCollHashedReadSet(ns, colls[i], ups);
        if !valid {
          assert colls[i] in colls;
          return false;
        }
      }
      return true;
    }

    method ValidateTx(rw: TxRwSet, ups: Updates) returns (code: Code)
      ensures code == Verdict(db, ups, rw)
    {
      for i := 0 to |rw|
        invariant Verdict(db, ups, rw) == Verdict(db, ups, rw[i..])
      {
        var valid := ValidateReadSet(rw[i].ns, rw[i].kvReads, ups);
        if !valid {
          return MVCC_READ_CONFLICT;
        }
        valid := ValidateRangeQueries(rw[i].ns, rw[i].rangeQueries, ups);
        if !valid {
          return PHANTOM_READ_CONFLICT;
        }
        valid := ValidateNsHashedReadSets(rw[i].ns, rw[i].collHashed, ups);
        if !valid {
          return MVCC_READ_CONFLICT;
        }
        assert rw[i..][1..] == rw[i + 1..];
      }
      return VALID;
    }

    method ValidateEndorserTx(rw: TxRwSet, doMvcc: bool, ups: Updates) returns (code: Code)
      ensures code == if doMvcc then Verdict(db, ups, rw) else VALID
    {
      code := VALID;
      if doMvcc {
        code := ValidateTx(rw, ups);
      }
    }

    /** validateAndPrepareBatch, software branch. */
    method ValidateAndPrepareBatch(num: nat, txs: seq<Transaction>, doMvcc: bool) returns (updates: Updates)
      requires Distinct(txs)
      modifies txs
      ensures Batch(Codes(txs), updates) == MvccBatch(db, num, Views(txs), doMvcc)
    {
      ghost var batches := BatchesGrow(db, num, Views(txs), doMvcc);
      updates := JudgeAll(num, txs, doMvcc, batches);
    }

    /** Its loop: judge each transaction and, if it is valid, add its writes. */
    method JudgeAll(num: nat, txs: seq<Transaction>, doMvcc: bool, ghost batches: seq<Batch>) returns (updates: Updates)
      requires Distinct(txs) && Growing(db, num, doMvcc, Views(txs), batches)
      modifies txs
      ensures Batch(Codes(txs), updates) == batches[|txs|]
    {
      updates := map[];
      for i := 0 to |txs|
        invariant updates == batches[i].updates && |batches[i].codes| == i
        invariant forall j | 0 <= j < i :: txs[j].validationCode == batches[i].codes[j]
      {
        var tx := txs[i];
        assert batches[i + 1] == NextBatch(db, num, doMvcc, batches[i], tx.View());
        var validationCode := ValidateEndorserTx(tx.rwset, doMvcc, updates);
        tx.validationCode := validationCode;
        if validationCode == VALID {
          updates := ApplyWrites(updates, Writes(tx.rwset), Height(num, tx.indexInBlock));
        }
      }
      assert Codes(txs) == batches[|txs|].codes;
    }

    /** validateAndPrepareBatch, hardware branch: the flag of a transaction is the one
        at its position in `txs`. A missing flag is an index-out-of-range panic. */
    method PrepareHardwareBatch(num: nat, txs: seq<Transaction>, fm: HwBlock) returns (r: Result<Updates, HwError>)
      requires Distinct(txs)
      modifies txs
      ensures !fm.valid ==> r == Err(InvalidBlock) && Codes(txs) == old(Codes(txs))
      ensures fm.valid ==>
                r == if |fm.flags| < |txs| then Err(IndexOutOfRange)
                     else Ok(UpdatesOf(num, Views(txs), fm.flags[..|txs|]))
      ensures fm.valid ==>
                forall i | 0 <= i < |txs| ::
                  txs[i].validationCode == if i < |fm.flags| then fm.flags[i] else old(txs[i].validationCode)
    {
      if !fm.valid {
        return Err(InvalidBlock);
      }
      var updates: Updates := map[];
      ghost var views := Views(txs);
      for i := 0 to |txs|
        invariant i <= |fm.flags|
        invariant updates == UpdatesOf(num, views[..i], fm.flags[..i])
        invariant forall j | 0 <= j < i :: txs[j].validationCode == fm.flags[j]
        invariant forall j | i <= j < |txs| :: txs[j].validationCode == old(txs[j].validationCode)
      {
        if i >= |fm.flags| {
          return Err(IndexOutOfRange);
        }
        var tx := txs[i];
        var validationCode := fm.flags[i];
        tx.validationCode := validationCode;
        if validationCode == VALID {
          updates := ApplyWrites(updates, Writes(tx.rwset), Height(num, tx.indexInBlock));
        }
        assert views[..i + 1][..i] == views[..i];
        assert fm.flags[..i + 1][..i] == fm.flags[..i];
      }
      assert views[..|txs|] == views;
      return Ok(updates);
    }

    /** validateAndPrepareBatch: blocks before the starting block never go to hardware. */
    method PrepareBatch(num: nat, txs: seq<Transaction>, doMvcc: bool, hwEnabled: bool, hwStartingBlock: nat,
                        fm: HwBlock)
      returns (r: Result<Updates, HwError>)
      requires Distinct(txs)
      modifies txs
      ensures num < hwStartingBlock || !hwEnabled ==>
                r.Ok? && Batch(Codes(txs), r.value) == MvccBatch(db, num, Views(txs), doMvcc)
      ensures !(num < hwStartingBlock || !hwEnabled) && fm.valid && |txs| <= |fm.flags| ==>
                && r == Ok(UpdatesOf(num, Views(txs), fm.flags[..|txs|]))
                && Codes(txs) == fm.flags[..|txs|]
      ensures !(num < hwStartingBlock || !hwEnabled) && !(fm.valid && |txs| <= |fm.flags|) ==>
                r == Err(if fm.valid then IndexOutOfRange else InvalidBlock)
    {
      if num < hwStartingBlock || !hwEnabled {
        var updates := ValidateAndPrepareBatch(num, txs, doMvcc);
        r := Ok(updates);
      } else {
        r := PrepareHardwareBatch(num, txs, fm);
      }
    }
  }

  // ---------- the hardware branch against the software branch ----------

  /** Transactions keep their block order; some indices may have been dropped. */
  predicate InBlockOrder(txs: seq<Tx>) {
    forall i, j | 0 <= i < j < |txs| :: txs[i].indexInBlock < txs[j].indexInBlock
  }

  predicate Kept(txs: seq<Tx>, index: nat) {
    exists p | 0 <= p < |txs| :: txs[p].indexInBlock == index
  }

  /** The accelerator judges every kept transaction as MVCC does, and never passes a
      transaction the software dropped. Flags are laid out by index in the block. */
  predicate FlagsMatchMvcc(txs: seq<Tx>, codes: seq<Code>, flags: seq<Code>)
    requires |codes| == |txs|
  {
    && (forall p | 0 <= p < |txs| ::
          txs[p].indexInBlock < |flags| && (flags[txs[p].indexInBlock] == VALID <==> codes[p] == VALID))
    && (forall j | 0 <= j < |flags| :: !Kept(txs, j) ==> flags[j] != VALID)
  }

  /** Position of the first transaction that does not sit at its own index. */
  function FirstGap(txs: seq<Tx>): (d: nat)
    ensures d <= |txs|
    ensures forall p | 0 <= p < d :: txs[p].indexInBlock == p
    ensures d < |txs| ==> txs[d].indexInBlock != d
  {
    if txs == [] then 0
    else
      var d := FirstGap(txs[..|txs| - 1]);
      if d < |txs| - 1 || txs[|txs| - 1].indexInBlock != |txs| - 1 then d else |txs|
  }

  predicate SameValid(a: seq<Code>, b: seq<Code>)
    requires |a| == |b|
  {
    forall p | 0 <= p < |a| :: a[p] == VALID <==> b[p] == VALID
  }

  lemma {:induction false} IndexAtLeastPosition(txs: seq<Tx>, p: nat)
    requires InBlockOrder(txs) && p < |txs|
    ensures p <= txs[p].indexInBlock
    ensures FirstGap(txs) <= p ==> p < txs[p].indexInBlock
  {
    if p > 0 {
      IndexAtLeastPosition(txs, p - 1);
    }
  }

  /** Which flag the hardware branch picks for a position past the first gap: never
      that of the transaction itself, always one of an earlier position or a dropped one. */
  lemma {:induction false} FlagPastGap(txs: seq<Tx>, codes: seq<Code>, flags: seq<Code>, p: nat)
    requires InBlockOrder(txs) && |codes| == |txs| <= |flags| && FlagsMatchMvcc(txs, codes, flags)
    requires FirstGap(txs) <= p < |txs|
    requires forall q | FirstGap(txs) <= q < p :: codes[q] != VALID
    ensures flags[p] != VALID
  {
    if Kept(txs, p) {
      var q :| 0 <= q < |txs| && txs[q].indexInBlock == p;
      IndexAtLeastPosition(txs, q);
      if q < FirstGap(txs) {
        assert txs[q].indexInBlock == q;
      }
    }
  }

  lemma {:induction false} AgreementKillsTail(txs: seq<Tx>, codes: seq<Code>, flags: seq<Code>, p: nat)
    requires InBlockOrder(txs) && |codes| == |txs| <= |flags| && FlagsMatchMvcc(txs, codes, flags)
    requires SameValid(flags[..|txs|], codes)
    requires FirstGap(txs) <= p < |txs|
    ensures codes[p] != VALID
    decreases p
  {
    forall q | FirstGap(txs) <= q < p
      ensures codes[q] != VALID
    {
      AgreementKillsTail(txs, codes, flags, q);
    }
    FlagPastGap(txs, codes, flags, p);
    assert flags[..|txs|][p] == flags[p];
  }

  /** Nothing valid at or behind position d, seen in the verdicts and seen in the flags. */
  lemma TailInvalidIff(txs: seq<Tx>, codes: seq<Code>, flags: seq<Code>)
    requires InBlockOrder(txs) && |codes| == |txs| <= |flags| && FlagsMatchMvcc(txs, codes, flags)
    ensures (forall p | FirstGap(txs) <= p < |txs| :: codes[p] != VALID)
            <==> forall j | FirstGap(txs) <= j < |flags| :: flags[j] != VALID
  {
    var d := FirstGap(txs);
    if forall p | d <= p < |txs| :: codes[p] != VALID {
      forall j | d <= j < |flags|
        ensures flags[j] != VALID
      {
        if Kept(txs, j) {
          var q :| 0 <= q < |txs| && txs[q].indexInBlock == j;
        }
      }
    }
    if forall j | d <= j < |flags| :: flags[j] != VALID {
      forall p | d <= p < |txs|
        ensures codes[p] != VALID
      {
        IndexAtLeastPosition(txs, p);
      }
    }
  }

  /** Indexing the flags by position is right exactly when nothing valid follows the first
      dropped transaction, that is, when no flag at or behind that place is VALID; then both
      branches prepare the same batch. */
  lemma {:induction false} HardwareAgreesIffNothingValidPastGap(db: State, num: nat, txs: seq<Tx>, flags: seq<Code>)
    requires InBlockOrder(txs) && |txs| <= |flags|
    requires FlagsMatchMvcc(txs, MvccBatch(db, num, txs, true).codes, flags)
    ensures SameValid(flags[..|txs|], MvccBatch(db, num, txs, true).codes)
            <==> forall p | FirstGap(txs) <= p < |txs| :: MvccBatch(db, num, txs, true).codes[p] != VALID
    ensures SameValid(flags[..|txs|], MvccBatch(db, num, txs, true).codes)
            <==> forall j | FirstGap(txs) <= j < |flags| :: flags[j] != VALID
    ensures SameValid(flags[..|txs|], MvccBatch(db, num, txs, true).codes)
            ==> UpdatesOf(num, txs, flags[..|txs|]) == MvccBatch(db, num, txs, true).updates
  {
    var codes := MvccBatch(db, num, txs, true).codes;
    TailInvalidIff(txs, codes, flags);
    if SameValid(flags[..|txs|], codes) {
      forall p | FirstGap(txs) <= p < |txs|
        ensures codes[p] != VALID
      {
        AgreementKillsTail(txs, codes, flags, p);
      }
      SameValidSameUpdates(num, txs, flags[..|txs|], codes);
    }
    if forall p | FirstGap(txs) <= p < |txs| :: codes[p] != VALID {
      forall p | 0 <= p < |txs|
        ensures flags[..|txs|][p] == VALID <==> codes[p] == VALID
      {
        if p < FirstGap(txs) {
          assert txs[p].indexInBlock == p;
        } else {
          FlagPastGap(txs, codes, flags, p);
        }
      }
    }
  }

  lemma {:induction false} SameValidSameUpdates(num: nat, txs: seq<Tx>, a: seq<Code>, b: seq<Code>)
    requires |a| == |b| == |txs| && SameValid(a, b)
    ensures UpdatesOf(num, txs, a) == UpdatesOf(num, txs, b)
  {
    if txs != [] {
      SameValidSameUpdates(num, txs[..|txs| - 1], a[..|txs| - 1], b[..|txs| - 1]);
    }
  }

  lemma SingleTxBatch(num: nat, tx: Tx, code: Code)
    ensures UpdatesOf(num, [tx], [code]) ==
            if code == VALID then ApplyWrites(map[], Writes(tx.rwset), Height(num, tx.indexInBlock)) else map[]
  {
    assert [tx][..0] == [] && [code][..0] == [];
  }

  /** Drop the first of two transactions and the hardware branch loses every write
      of the second, although MVCC and the accelerator both pass it. */
  lemma DroppedTransactionLosesWrites(db: State, num: nat, rw: TxRwSet)
    requires Verdict(db, map[], rw) == VALID && Writes(rw) != []
    ensures var txs, flags := [Tx(1, rw)], [MVCC_READ_CONFLICT, VALID];
            && FlagsMatchMvcc(txs, MvccBatch(db, num, txs, true).codes, flags)
            && UpdatesOf(num, txs, flags[..1]) == map[]
            && Writes(rw)[0].key in MvccBatch(db, num, txs, true).updates
  {
    var txs, flags := [Tx(1, rw)], [MVCC_READ_CONFLICT, VALID];
    SingleTxBatch(num, txs[0], VALID);
    SingleTxBatch(num, txs[0], MVCC_READ_CONFLICT);
    assert txs[..0] == [];
    assert CodesOf(db, num, txs, true) == [VALID];
    assert flags[..1] == [MVCC_READ_CONFLICT];
    assert Kept(txs, 1) by { assert txs[0].indexInBlock == 1; }
    ApplyWritesKeys(map[], Writes(rw), Height(num, 1));
  }
}
