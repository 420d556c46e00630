/** Merging the validation results of a block's transactions, which arrive in any order
    (v1.4/core/committer/txvalidator/validator.go). */
module TxMerge {
  import opened Common

  datatype Code = VALID | NOT_VALIDATED | DUPLICATE_TXID | CHAINCODE_VERSION_CONFLICT | Other(code: int)

  datatype ChaincodeInstance = ChaincodeInstance(chainID: string, chaincodeName: string)

  datatype TxResult = TxResult(tIdx: nat, code: Code, chaincode: Option<ChaincodeInstance>,
                               upgraded: Option<ChaincodeInstance>,
                               txid: string, err: Option<string>)

  /** Failed: the error of a worker. Skipped: a transaction was not validated. Stored: the flags of the block. */
  datatype Outcome = Failed(err: string) | Skipped(id: nat) | Stored(flags: seq<Code>)

  /** generateCCKey */
  function CCKey(cc: ChaincodeInstance): string {
    cc.chaincodeName + "/" + cc.chainID
  }

  /** Result i is about transaction i. */
  predicate ByIndex(results: seq<TxResult>) {
    forall i | 0 <= i < |results| :: results[i].tIdx == i
  }

  // ---------- the merged outcome ----------

  predicate Passed(r: TxResult) {
    r.err.None? && r.code == VALID
  }

  function TxidOf(r: TxResult): string {
    if Passed(r) then r.txid else ""
  }

  function Txids(results: seq<TxResult>): seq<string> {
    seq(|results|, i requires 0 <= i < |results| => TxidOf(results[i]))
  }

  function Codes(results: seq<TxResult>): seq<Code> {
    seq(|results|, i requires 0 <= i < |results| => results[i].code)
  }

  function Invokes(results: seq<TxResult>): map<nat, ChaincodeInstance> {
    map i: nat | i < |results| && Passed(results[i]) && results[i].chaincode.Some? :: results[i].chaincode.value
  }

  function Upgrades(results: seq<TxResult>): map<nat, ChaincodeInstance> {
    map i: nat | i < |results| && Passed(results[i]) && results[i].upgraded.Some? :: results[i].upgraded.value
  }

  predicate RepeatsEarlier(txids: seq<string>, i: nat)
    requires i < |txids|
  {
    txids[i] != "" && txids[i] in txids[..i]
  }

  /** After the duplicate check. */
  function Checked(results: seq<TxResult>, forbid: bool): (flags: seq<Code>)
    ensures |flags| == |results|
  {
    seq(|results|, i requires 0 <= i < |results| =>
      if forbid && RepeatsEarlier(Txids(results), i) then DUPLICATE_TXID else results[i].code)
  }

  predicate Upgraded(upgrades: map<nat, ChaincodeInstance>, key: string) {
    exists j :: j in upgrades && CCKey(upgrades[j]) == key
  }

  predicate Superseded(upgrades: map<nat, ChaincodeInstance>, i: nat) {
    i in upgrades && exists j :: j in upgrades && i < j && CCKey(upgrades[j]) == CCKey(upgrades[i])
  }

  /** The flag of a transaction after the upgrade check. */
  function Settled(invokes: map<nat, ChaincodeInstance>, upgrades: map<nat, ChaincodeInstance>, i: nat,
                   flag: Code): Code {
    if Superseded(upgrades, i) then CHAINCODE_VERSION_CONFLICT
    else if flag == VALID && i in invokes && Upgraded(upgrades, CCKey(invokes[i])) then CHAINCODE_VERSION_CONFLICT
    else flag
  }

  function FinalFlags(results: seq<TxResult>, forbid: bool): (flags: seq<Code>)
    ensures |flags| == |results|
  {
    seq(|results|, i requires 0 <= i < |results| =>
      Settled(Invokes(results), Upgrades(results), i, Checked(results, forbid)[i]))
  }

  predicate LowestError(results: seq<TxResult>, i: nat) {
    i < |results| && results[i].err.Some? && forall j | 0 <= j < i :: results[j].err.None?
  }

  predicate FirstSkipped(flags: seq<Code>, i: nat) {
    i < |flags| && flags[i] == NOT_VALIDATED && NOT_VALIDATED !in flags[..i]
  }

  /** What validation of the block must give; neither arrival nor iteration order is in it. */
  ghost predicate IsOutcome(results: seq<TxResult>, forbid: bool, r: Outcome) {
    if exists i: nat :: LowestError(results, i) then
      r.Failed? && exists i: nat :: LowestError(results, i) && r.err == results[i].err.value
    else if NOT_VALIDATED in FinalFlags(results, forbid) then
      r.Skipped? && FirstSkipped(FinalFlags(results, forbid), r.id)
    else
      r == Stored(FinalFlags(results, forbid))
  }

  // ---------- the upgrade of highest index ----------

  /** Among the upgrades looked at, `final` has the highest index of each chaincode. */
  predicate Latest(final: map<string, nat>, upgrades: map<nat, ChaincodeInstance>, todo: set<nat>) {
    && (forall t | t in upgrades && t !in todo :: CCKey(upgrades[t]) in final && t <= final[CCKey(upgrades[t])])
    && (forall key | key in final ::
          final[key] in upgrades && final[key] !in todo && CCKey(upgrades[final[key]]) == key)
  }

  /** The others are flagged. */
  predicate Flagged(flags: seq<Code>, before: seq<Code>, final: map<string, nat>, upgrades: map<nat, ChaincodeInstance>,
                    todo: set<nat>)
    requires Latest(final, upgrades, todo)
  {
    && |flags| == |before|
    && forall i | 0 <= i < |flags| ::
         flags[i] == if i in upgrades && i !in todo && final[CCKey(upgrades[i])] != i then CHAINCODE_VERSION_CONFLICT
                     else before[i]
  }

  lemma LatestStep(final: map<string, nat>, upgrades: map<nat, ChaincodeInstance>, todo: set<nat>, t: nat, key: string)
    requires Latest(final, upgrades, todo) && t in todo && t in upgrades && key == CCKey(upgrades[t])
    ensures Latest(if key !in final || final[key] < t then final[key := t] else final, upgrades, todo - {t})
    ensures key in final ==> final[key] != t
  {
  }

  lemma FlaggedStep(flags: seq<Code>, before: seq<Code>, final: map<string, nat>, upgrades: map<nat, ChaincodeInstance>,
                    todo: set<nat>,
                    t: nat, key: string)
    requires Latest(final, upgrades, todo) && t in todo && t in upgrades && key == CCKey(upgrades[t])
    requires Flagged(flags, before, final, upgrades, todo) && forall u | u in upgrades :: u < |flags|
    ensures Latest(if key !in final || final[key] < t then final[key := t] else final, upgrades, todo - {t})
    ensures var f := if key !in final || final[key] < t then final[key := t] else final;
            var loser := if key !in final then -1 else if final[key] < t then final[key] else t;
            Flagged(if loser == -1 then flags else flags[loser := CHAINCODE_VERSION_CONFLICT], before, f, upgrades,
                    todo - {t})
  {
    LatestStep(final, upgrades, todo, t, key);
  }

  // ---------- the code ----------

  class TxValidator {
    const forbidDuplicateTXIdInBlock: bool

    constructor (forbid: bool)
      ensures forbidDuplicateTXIdInBlock == forbid
    {
      forbidDuplicateTXIdInBlock := forbid;
    }

    /** markTXIdDuplicates */
    method MarkTXIdDuplicates(txids: seq<string>, txsfltr: array<Code>)
      requires |txids| == txsfltr.Length
      modifies txsfltr
      ensures forall i | 0 <= i < |txids| ::
                txsfltr[i] == if RepeatsEarlier(txids, i) then DUPLICATE_TXID else old(txsfltr[i])
    {
      var txidMap: set<string> := {};
      for id := 0 to |txids|
        invariant forall t :: t in txidMap <==> t != "" && t in txids[..id]
        invariant forall i | 0 <= i < |txids| ::
                    txsfltr[i] == if i < id && RepeatsEarlier(txids, i) then DUPLICATE_TXID else old(txsfltr[i])
      {
        var txid := txids[id];
        assert txids[..id + 1] == txids[..id] + [txid];
        if txid == "" {
          continue;
        }
        if txid in txidMap {
          txsfltr[id] := DUPLICATE_TXID;
        } else {
          txidMap := txidMap + {txid};
        }
      }
    }

    /** The first loop of invalidTXsForUpgradeCC, over a map in any order. */
    method InvalidateSuperseded(upgrades: map<nat, ChaincodeInstance>, txsfltr: array<Code>)
      returns (final: map<string, nat>)
      requires forall t | t in upgrades :: t < txsfltr.Length
      modifies txsfltr
      ensures forall key :: key in final <==> Upgraded(upgrades, key)
      ensures forall i | 0 <= i < txsfltr.Length ::
                txsfltr[i] == if Superseded(upgrades, i) then CHAINCODE_VERSION_CONFLICT else old(txsfltr[i])
    {
      final := map[];
      ghost var before := txsfltr[..];
      var todo := upgrades.Keys;
      while todo != {}
        invariant todo <= upgrades.Keys
        invariant Latest(final, upgrades, todo)
        invariant Flagged(txsfltr[..], before, final, upgrades, todo)
        decreases todo
      {
        var tIdx :| tIdx in todo;
        var key := CCKey(upgrades[tIdx]);
        LatestStep(final, upgrades, todo, tIdx, key);
        FlaggedStep(txsfltr[..], before, final, upgrades, todo, tIdx, key);
        if key !in final {
          final := final[key := tIdx];
        } else if final[key] < tIdx {
          txsfltr[final[key]] := CHAINCODE_VERSION_CONFLICT;
          final := final[key := tIdx];
        } else {
          txsfltr[tIdx] := CHAINCODE_VERSION_CONFLICT;
        }
        todo := todo - {tIdx};
      }
      forall i | i in upgrades
        ensures final[CCKey(upgrades[i])] != i <==> Superseded(upgrades, i)
      {
        var last := final[CCKey(upgrades[i])];
        assert last in upgrades && CCKey(upgrades[last]) == CCKey(upgrades[i]);
      }
    }

    /** invalidTXsForUpgradeCC: the second loop, over the invoked chaincodes in any order. */
    method InvalidTXsForUpgradeCC(invokes: map<nat, ChaincodeInstance>, upgrades: map<nat, ChaincodeInstance>,
                                  txsfltr: array<Code>)
      requires forall t | t in upgrades :: t < txsfltr.Length
      requires forall t | t in invokes :: t < txsfltr.Length
      modifies txsfltr
      ensures forall i | 0 <= i < txsfltr.Length :: txsfltr[i] == Settled(invokes, upgrades, i, old(txsfltr[i]))
    {
      if |upgrades| == 0 {
        assert upgrades == map[];
        return;
      }
      var final := InvalidateSuperseded(upgrades, txsfltr);
      ghost var before := txsfltr[..];
      var todo := invokes.Keys;
      while todo != {}
        invariant todo <= invokes.Keys
        invariant forall i | 0 <= i < txsfltr.Length ::
                    txsfltr[i] == if i in invokes && i !in todo && CCKey(invokes[i]) in final && before[i] == VALID
                                  then CHAINCODE_VERSION_CONFLICT else before[i]
        decreases todo
      {
        var tIdx :| tIdx in todo;
        if CCKey(invokes[tIdx]) in final {
          if txsfltr[tIdx] == VALID {
            txsfltr[tIdx] := CHAINCODE_VERSION_CONFLICT;
          }
        }
        todo := todo - {tIdx};
      }
    }

    /** allValidated */
    method AllValidated(txsfltr: array<Code>) returns (r: Option<nat>)
      ensures if NOT_VALIDATED in txsfltr[..] then r.Some? && FirstSkipped(txsfltr[..], r.value) else r == None
    {
      for id := 0 to txsfltr.Length
        invariant NOT_VALIDATED !in txsfltr[..id]
      {
        if txsfltr[id] == NOT_VALIDATED {
          return Some(id);
        }
        assert txsfltr[..id + 1] == txsfltr[..id] + [txsfltr[id]];
      }
      assert txsfltr[..txsfltr.Length] == txsfltr[..];
      r := None;
    }

    /** The loop over the results as they come in: afterwards every result is merged. */
    method MergeAll(arrivals: seq<TxResult>, ghost results: seq<TxResult>) returns (merge: Merge)
      requires ByIndex(results) && |arrivals| == |results| && forall r :: r in arrivals <==> r in results
      ensures fresh(merge) && fresh(merge.txsfltr) && fresh(merge.txidArray)
      ensures if merge.err.None? then forall i | 0 <= i < |results| :: results[i].err.None?
              else LowestError(results, merge.errPos) && merge.err == results[merge.errPos].err
      ensures merge.err.None? ==> merge.txsfltr[..] == Codes(results)
      ensures merge.txidArray[..] == Txids(results) && merge.invokes == Invokes(results)
              && merge.upgrades == Upgrades(results)
    {
      merge := new Merge(|arrivals|);
      ghost var done: set<nat> := {};
      for i := 0 to |arrivals|
        invariant fresh(merge) && fresh(merge.txsfltr) && fresh(merge.txidArray)
        invariant forall k | 0 <= k < i :: arrivals[k].tIdx in done
        invariant forall t | t in done :: t < |results|
        invariant merge.Merged(done, results)
      {
        assert arrivals[i] in arrivals;
        merge.Add(arrivals[i], done, results);
        done := done + {arrivals[i].tIdx};
      }
      forall i: nat | i < |results|
        ensures i in done
      {
        assert results[i] in arrivals;
      }
    }

    /** The merge of Validate: results as they come in, then the checks that need them all. */
    method Validate(arrivals: seq<TxResult>, ghost results: seq<TxResult>) returns (r: Outcome)
      requires ByIndex(results) && multiset(arrivals) == multiset(results)
      ensures IsOutcome(results, forbidDuplicateTXIdInBlock, r)
    {
      SameResults(arrivals, results);
      var merge := MergeAll(arrivals, results);
      if merge.err.Some? {
        return Failed(merge.err.value);
      }
      if forbidDuplicateTXIdInBlock {
        MarkTXIdDuplicates(merge.txidArray[..], merge.txsfltr);
      }
      assert merge.txsfltr[..] == Checked(results, forbidDuplicateTXIdInBlock);
      InvalidTXsForUpgradeCC(merge.invokes, merge.upgrades, merge.txsfltr);
      assert merge.txsfltr[..] == FinalFlags(results, forbidDuplicateTXIdInBlock);
      var skipped := AllValidated(merge.txsfltr);
      r := if skipped.Some? then Skipped(skipped.value) else Stored(merge.txsfltr[..]);
    }
  }

  predicate ErrorMerged(err: Option<string>, errPos: nat, done: set<nat>, results: seq<TxResult>) {
    if err.None? then forall i | 0 <= i < |results| && i in done :: results[i].err.None?
    else
      && errPos < |results| && errPos in done && results[errPos].err == err
      && forall i | 0 <= i < |results| && i in done && results[i].err.Some? :: errPos <= i
  }

  predicate FlagsMerged(flags: seq<Code>, done: set<nat>, results: seq<TxResult>) {
    && |flags| == |results|
    && forall i | 0 <= i < |results| ::
         flags[i] == if i in done && results[i].err.None? then results[i].code else NOT_VALIDATED
  }

  predicate TxidsMerged(txids: seq<string>, done: set<nat>, results: seq<TxResult>) {
    |txids| == |results| && forall i | 0 <= i < |results| :: txids[i] == if i in done then TxidOf(results[i]) else ""
  }

  predicate MapMerged(m: map<nat, ChaincodeInstance>, all: map<nat, ChaincodeInstance>, done: set<nat>) {
    m.Keys == all.Keys * done && forall i | i in m :: m[i] == all[i]
  }

  /** The variables of the merge loop. */
  class Merge {
    var err: Option<string>
    var errPos: nat
    const txsfltr: array<Code>
    const txidArray: array<string>
    var invokes: map<nat, ChaincodeInstance>
    var upgrades: map<nat, ChaincodeInstance>

    constructor (n: nat)
      ensures txsfltr.Length == n == txidArray.Length && fresh(txsfltr) && fresh(txidArray)
      ensures err == None && invokes == map[] == upgrades
      ensures forall i | 0 <= i < n :: txsfltr[i] == NOT_VALIDATED && txidArray[i] == ""
    {
      err, errPos, invokes, upgrades := None, 0, map[], map[];
      txsfltr := new Code[n](_ => NOT_VALIDATED);
      txidArray := new string[n](_ => "");
    }

    /** The results of the transactions `done` are merged. */
    ghost predicate Merged(done: set<nat>, results: seq<TxResult>)
      reads this, txsfltr, txidArray
    {
      && ErrorMerged(err, errPos, done, results)
      && FlagsMerged(txsfltr[..], done, results) && TxidsMerged(txidArray[..], done, results)
      && MapMerged(invokes, Invokes(results), done) && MapMerged(upgrades, Upgrades(results), done)
    }

    /** The body of the loop. */
    method Add(res: TxResult, ghost done: set<nat>, ghost results: seq<TxResult>)
      requires ByIndex(results) && Merged(done, results) && res in results
      modifies this, txsfltr, txidArray
      ensures Merged(done + {res.tIdx}, results)
    {
      var t := res.tIdx;
      assert results[t] == res;
      MergeStep(err, errPos, done, res, results);
      FlagsStep(txsfltr[..], txidArray[..], done, res, results);
      MapStep(invokes, Invokes(results), done, t);
      MapStep(upgrades, Upgrades(results), done, t);
      if res.err.Some? {
        if err.None? || res.tIdx < errPos {
          err := res.err;
          errPos := res.tIdx;
        }
      } else {
        txsfltr[res.tIdx] := res.code;
        if res.code == VALID {
          if res.chaincode.Some? {
            invokes := invokes[res.tIdx := res.chaincode.value];
          }
          if res.upgraded.Some? {
            upgrades := upgrades[res.tIdx := res.upgraded.value];
          }
          txidArray[res.tIdx] := res.txid;
        }
      }
    }
  }

  lemma MergeStep(err: Option<string>, errPos: nat, done: set<nat>, res: TxResult, results: seq<TxResult>)
    requires ErrorMerged(err, errPos, done, results) && res.tIdx < |results| && results[res.tIdx] == res
    ensures if res.err.Some? && (err.None? || res.tIdx < errPos) then
            ErrorMerged(res.err, res.tIdx, done + {res.tIdx}, results)
            else ErrorMerged(err, errPos, done + {res.tIdx}, results)
  {
  }

  lemma FlagsStep(flags: seq<Code>, txids: seq<string>, done: set<nat>, res: TxResult, results: seq<TxResult>)
    requires FlagsMerged(flags, done, results) && TxidsMerged(txids, done, results)
    requires res.tIdx < |results| && results[res.tIdx] == res
    ensures FlagsMerged(if res.err.None? then flags[res.tIdx := res.code] else flags, done + {res.tIdx}, results)
    ensures TxidsMerged(if Passed(res) then txids[res.tIdx := res.txid] else txids, done + {res.tIdx}, results)
  {
  }

  lemma MapStep(m: map<nat, ChaincodeInstance>, all: map<nat, ChaincodeInstance>, done: set<nat>, t: nat)
    requires MapMerged(m, all, done)
    ensures MapMerged(if t in all then m[t := all[t]] else m, all, done + {t})
  {
  }

  lemma SameResults(arrivals: seq<TxResult>, results: seq<TxResult>)
    requires multiset(arrivals) == multiset(results)
    ensures |arrivals| == |results| && forall r :: r in arrivals <==> r in results
  {
    assert |multiset(arrivals)| == |multiset(results)|;
    assert forall r :: r in arrivals <==> r in multiset(arrivals);
  }

  // ---------- what the outcome promises ----------

  /** The outcome is determined by the results: neither the order of arrival nor that of the maps counts. */
  lemma OutcomeDetermined(results: seq<TxResult>, forbid: bool, a: Outcome, b: Outcome)
    requires IsOutcome(results, forbid, a) && IsOutcome(results, forbid, b)
    ensures a == b
  {
    var flags := FinalFlags(results, forbid);
    if i: nat :| LowestError(results, i) {
      assert forall j: nat :: LowestError(results, j) ==> j == i;
    } else if NOT_VALIDATED in flags {
      FirstIsUnique(flags, a.id, b.id);
    }
  }

  lemma FirstIsUnique(flags: seq<Code>, j: nat, k: nat)
    requires FirstSkipped(flags, j) && FirstSkipped(flags, k)
    ensures j == k
  {
    assert forall i: nat, l: nat | i < l < |flags| :: flags[i] in flags[..l] by {
      forall i: nat, l: nat | i < l < |flags|
        ensures flags[i] in flags[..l]
      {
        assert flags[..l][i] == flags[i];
      }
    }
  }

  /** With the duplicate check no two valid transactions share a transaction id. */
  lemma NoSharedTxid(results: seq<TxResult>, i: nat, j: nat)
    requires i < j < |results| && results[i].err.None? && results[j].err.None?
    requires FinalFlags(results, true)[i] == VALID && FinalFlags(results, true)[j] == VALID
    ensures results[i].txid != results[j].txid || results[i].txid == ""
  {
    assert Checked(results, true)[i] == VALID == Checked(results, true)[j];
    assert Txids(results)[..j][i] == Txids(results)[i];
  }

  /** No valid transaction invokes a chaincode that is upgraded in the block. */
  lemma NoValidInvokeOfUpgraded(results: seq<TxResult>, forbid: bool, i: nat, j: nat)
    requires i < |results| && j in Upgrades(results) && i in Invokes(results)
    requires CCKey(Invokes(results)[i]) == CCKey(Upgrades(results)[j])
    ensures FinalFlags(results, forbid)[i] != VALID
  {
    assert Upgraded(Upgrades(results), CCKey(Invokes(results)[i]));
  }

  predicate LatestUpgrade(results: seq<TxResult>, i: nat) {
    i in Upgrades(results) && !Superseded(Upgrades(results), i)
  }

  /** An upgrade is valid in the end iff it is the last of its chaincode in the block, repeats no
      transaction id, and invokes no upgraded chaincode; an earlier one is a version conflict. */
  lemma UpgradeValidIff(results: seq<TxResult>, forbid: bool, i: nat)
    requires i in Upgrades(results)
    ensures FinalFlags(results, forbid)[i] == VALID
       <==> && LatestUpgrade(results, i) && !(forbid && RepeatsEarlier(Txids(results), i))
            && !(i in Invokes(results) && Upgraded(Upgrades(results), CCKey(Invokes(results)[i])))
    ensures Superseded(Upgrades(results), i) ==> FinalFlags(results, forbid)[i] == CHAINCODE_VERSION_CONFLICT
  {
  }

  /** So at most one upgrade of a chaincode stays valid. */
  lemma OneUpgradeValid(results: seq<TxResult>, forbid: bool, i: nat, j: nat)
    requires i in Upgrades(results) && j in Upgrades(results)
             && CCKey(Upgrades(results)[i]) == CCKey(Upgrades(results)[j])
    requires FinalFlags(results, forbid)[i] == VALID == FinalFlags(results, forbid)[j]
    ensures i == j
  {
    UpgradeValidIff(results, forbid, i);
    UpgradeValidIff(results, forbid, j);
    assert i < j ==> Superseded(Upgrades(results), i);
    assert j < i ==> Superseded(Upgrades(results), j);
  }

  /** An upgrade that repeats a transaction id is dropped itself and still supersedes the one before
      it: then no upgrade of the chaincode is valid, exactly when the last one is not. */
  lemma NoUpgradeValidIff(results: seq<TxResult>, forbid: bool, last: nat)
    requires LatestUpgrade(results, last)
    ensures (forall i | i in Upgrades(results) && CCKey(Upgrades(results)[i]) == CCKey(Upgrades(results)[last]) ::
               FinalFlags(results, forbid)[i] != VALID)
       <==> || (forbid && RepeatsEarlier(Txids(results), last))
            || (last in Invokes(results) && Upgraded(Upgrades(results), CCKey(Invokes(results)[last])))
  {
    forall i | i in Upgrades(results) && CCKey(Upgrades(results)[i]) == CCKey(Upgrades(results)[last]) && i != last
      ensures FinalFlags(results, forbid)[i] != VALID
    {
      assert last < i ==> Superseded(Upgrades(results), last);
      assert i < last ==> Superseded(Upgrades(results), i);
    }
    UpgradeValidIff(results, forbid, last);
  }
}
