/** The passes around MVCC: dropping transactions the committer already flagged,
    and writing the verdicts back into the block's filter. Re-running a stored block
    with MVCC off, as recovery does, reproduces the original batch. */
module Replay {
  import opened Common
  import opened Mvcc
  import opened Validator

  datatype DropReason = NIL_TXACTION | INVALID_OTHER_REASON | INVALID_WRITESET

  /** One entry of the block's TRANSACTIONS_FILTER metadata. */
  datatype Flag =
    | Judged(code: Code)
    | Dropped(reason: DropReason)
    | Committer(verdict: nat)      // set by the committer before MVCC, NOT_VALIDATED included
  {
    predicate IsValid() {
      this == Judged(VALID)
    }
  }

  /** What unmarshalling an envelope yields. */
  datatype Envelope =
    | Parsed(rwset: TxRwSet)
    | Rejected(reason: DropReason)
    | WithoutRwSet                  // a type with no processor: kept out, flag untouched
    | Malformed                     // makes the whole block fail unless already flagged

  function KeptTxs(envs: seq<Envelope>, flags: seq<Flag>): (txs: seq<Tx>)
    requires |envs| == |flags|
    ensures InBlockOrder(txs)
    ensures forall p | 0 <= p < |txs| :: txs[p].indexInBlock < |envs|
  {
    if envs == [] then []
    else
      var n := |envs| - 1;
      KeptTxs(envs[..n], flags[..n]) + if flags[n].IsValid() && envs[n].Parsed? then [Tx(n, envs[n].rwset)] else []
  }

  function PreFlags(envs: seq<Envelope>, flags: seq<Flag>): seq<Flag>
    requires |envs| == |flags|
  {
    seq(|flags|, i requires 0 <= i < |flags| =>
      if flags[i].IsValid() && envs[i].Rejected? then Dropped(envs[i].reason) else flags[i])
  }

  function PostFlags(flags: seq<Flag>, txs: seq<Tx>, codes: seq<Code>): (r: seq<Flag>)
    requires |codes| == |txs| && forall p | 0 <= p < |txs| :: txs[p].indexInBlock < |flags|
    ensures |r| == |flags|
  {
    if txs == [] then flags
    else
      var n := |txs| - 1;
      PostFlags(flags, txs[..n], codes[..n])[txs[n].indexInBlock := Judged(codes[n])]
  }

  predicate Fails(envs: seq<Envelope>, flags: seq<Flag>)
    requires |envs| == |flags|
  {
    exists i | 0 <= i < |envs| :: flags[i].IsValid() && envs[i].Malformed?
  }

  method Preprocess(envs: seq<Envelope>, flags: array<Flag>) returns (r: Option<seq<Transaction>>)
    requires flags.Length == |envs|
    modifies flags
    ensures r.None? <==> Fails(envs, old(flags[..]))
    ensures r.Some? ==>
              && flags[..] == PreFlags(envs, old(flags[..]))
              && Views(r.value) == KeptTxs(envs, old(flags[..]))
              && Distinct(r.value)
              && fresh(set tx | tx in r.value)
  {
    var txs: seq<Transaction> := [];
    ghost var was := flags[..];
    for i := 0 to |envs|
      invariant forall j | i <= j < |envs| :: flags[j] == was[j]
      invariant forall j | 0 <= j < i :: flags[j] == PreFlags(envs, was)[j]
      invariant !Fails(envs[..i], was[..i])
      invariant Views(txs) == KeptTxs(envs[..i], was[..i])
      invariant Distinct(txs) && fresh(set tx | tx in txs)
    {
      assert envs[..i + 1][..i] == envs[..i] && was[..i + 1][..i] == was[..i];
      assert envs[..i + 1][i] == envs[i] && was[..i + 1][i] == was[i];
      if flags[i].IsValid() {
        match envs[i]
        case Malformed =>
          return None;
        case Rejected(reason) =>
          flags[i] := Dropped(reason);
        case WithoutRwSet =>
        case Parsed(rwset) =>
          var tx := new Transaction(i, rwset);
          assert Views(txs + [tx]) == Views(txs) + [tx.View()];
          txs := txs + [tx];
      }
    }
    assert envs[..|envs|] == envs && was[..|envs|] == was;
    return Some(txs);
  }

  method Postprocess(flags: array<Flag>, txs: seq<Transaction>)
    requires forall p | 0 <= p < |txs| :: txs[p].indexInBlock < flags.Length
    modifies flags
    ensures flags[..] == PostFlags(old(flags[..]), Views(txs), Codes(txs))
  {
    ghost var was, views, codes := flags[..], Views(txs), Codes(txs);
    for i := 0 to |txs|
      invariant flags[..] == PostFlags(was, views[..i], codes[..i])
    {
      flags[txs[i].indexInBlock] := Judged(txs[i].validationCode);
      assert views[..i + 1][..i] == views[..i] && codes[..i + 1][..i] == codes[..i];
    }
    assert views[..|txs|] == views && codes[..|txs|] == codes;
  }

  /** Result of a whole pass: the filter written back and the update batch. */
  datatype Outcome = Outcome(flags: seq<Flag>, txs: seq<Tx>, batch: Batch)

  function Process(db: State, num: nat, envs: seq<Envelope>, flags: seq<Flag>, doMvcc: bool): Option<Outcome>
    requires |envs| == |flags|
  {
    if Fails(envs, flags) then None
    else
      var txs := KeptTxs(envs, flags);
      var batch := MvccBatch(db, num, txs, doMvcc);
      Some(Outcome(PostFlags(PreFlags(envs, flags), txs, batch.codes), txs, batch))
  }

  method ProcessBlock(v: StateValidator, num: nat, envs: seq<Envelope>, flags: array<Flag>, doMvcc: bool)
    returns (r: Option<Updates>)
    requires flags.Length == |envs|
    modifies flags
    ensures v.db == old(v.db)
    ensures var spec := Process(v.db, num, envs, old(flags[..]), doMvcc);
            && (r.Some? <==> spec.Some?)
            && (r.Some? ==> r.value == spec.value.batch.updates && flags[..] == spec.value.flags)
  {
    var pre := Preprocess(envs, flags);
    if pre.None? {
      return None;
    }
    var updates := JudgeAndPostprocess(v, num, pre.value, flags, doMvcc);
    ProcessIs(v.db, num, envs, old(flags[..]), doMvcc,
              MvccBatch(v.db, num, KeptTxs(envs, old(flags[..])), doMvcc).codes, updates);
    return Some(updates);
  }

  method JudgeAndPostprocess(v: StateValidator, num: nat, txs: seq<Transaction>, flags: array<Flag>, doMvcc: bool)
    returns (updates: Updates)
    requires Distinct(txs) && forall p | 0 <= p < |txs| :: txs[p].indexInBlock < flags.Length
    modifies txs, flags
    ensures v.db == old(v.db)
    ensures var batch := MvccBatch(v.db, num, Views(txs), doMvcc);
            && |batch.codes| == |txs| && updates == batch.updates
            && flags[..] == PostFlags(old(flags[..]), Views(txs), batch.codes)
  {
    updates := v.ValidateAndPrepareBatch(num, txs, doMvcc);
    Postprocess(flags, txs);
  }

  lemma ProcessIs(db: State, num: nat, envs: seq<Envelope>, flags: seq<Flag>, doMvcc: bool, codes: seq<Code>,
                  updates: Updates)
    requires |envs| == |flags| && !Fails(envs, flags)
    requires Batch(codes, updates) == MvccBatch(db, num, KeptTxs(envs, flags), doMvcc)
    ensures var txs := KeptTxs(envs, flags);
            && |codes| == |txs|
            && Process(db, num, envs, flags, doMvcc)
               == Some(Outcome(PostFlags(PreFlags(envs, flags), txs, codes), txs, Batch(codes, updates)))
  {
  }

  // ---------- replay ----------

  function ValidTxs(txs: seq<Tx>, codes: seq<Code>): seq<Tx>
    requires |txs| == |codes|
  {
    if txs == [] then []
    else
      var n := |txs| - 1;
      ValidTxs(txs[..n], codes[..n]) + if codes[n] == VALID then [txs[n]] else []
  }

  lemma {:induction false} PostFlagsAt(flags: seq<Flag>, txs: seq<Tx>, codes: seq<Code>, i: nat)
    requires |codes| == |txs| && InBlockOrder(txs) && i < |flags|
    requires forall p | 0 <= p < |txs| :: txs[p].indexInBlock < |flags|
    ensures forall p | 0 <= p < |txs| ::
              txs[p].indexInBlock == i ==> PostFlags(flags, txs, codes)[i] == Judged(codes[p])
    ensures !Kept(txs, i) ==> PostFlags(flags, txs, codes)[i] == flags[i]
  {
    if txs != [] {
      var n := |txs| - 1;
      PostFlagsAt(flags, txs[..n], codes[..n], i);
      if !Kept(txs, i) {
        assert txs[n].indexInBlock != i;
        assert !Kept(txs[..n], i);
      }
    }
  }

  /** Positions of the kept transactions. */
  lemma {:induction false} KeptIff(envs: seq<Envelope>, flags: seq<Flag>, i: nat)
    requires |envs| == |flags| && i < |envs|
    ensures Kept(KeptTxs(envs, flags), i) <==> flags[i].IsValid() && envs[i].Parsed?
  {
    var n := |envs| - 1;
    var txs, before := KeptTxs(envs, flags), KeptTxs(envs[..n], flags[..n]);
    if i == n {
      if flags[n].IsValid() && envs[n].Parsed? {
        assert txs[|txs| - 1].indexInBlock == n;
      } else {
        assert txs == before;
      }
    } else {
      KeptIff(envs[..n], flags[..n], i);
      if Kept(before, i) {
        var p :| 0 <= p < |before| && before[p].indexInBlock == i;
        assert txs[p] == before[p];
      }
      if Kept(txs, i) {
        var p :| 0 <= p < |txs| && txs[p].indexInBlock == i;
        assert before[p] == txs[p];
      }
    }
  }

  /** What the two passes write at each index of the filter. */
  lemma WrittenFlag(envs: seq<Envelope>, flags: seq<Flag>, codes: seq<Code>, i: nat)
    requires |envs| == |flags| && i < |envs| && |codes| == |KeptTxs(envs, flags)|
    ensures var txs := KeptTxs(envs, flags);
            var out := PostFlags(PreFlags(envs, flags), txs, codes);
            && (forall p | 0 <= p < |txs| :: txs[p].indexInBlock == i ==> out[i] == Judged(codes[p]))
            && (out[i].IsValid() ==> flags[i].IsValid() && !envs[i].Rejected?)
            && (out[i].IsValid() && envs[i].Parsed? <==> SelectsValid(txs, codes, i))
  {
    var txs := KeptTxs(envs, flags);
    PostFlagsAt(PreFlags(envs, flags), txs, codes, i);
    KeptIff(envs, flags, i);
    if Kept(txs, i) {
      var p :| 0 <= p < |txs| && txs[p].indexInBlock == i;
    }
  }

  predicate SelectsValid(txs: seq<Tx>, codes: seq<Code>, i: nat)
    requires |codes| == |txs|
  {
    exists p | 0 <= p < |txs| :: txs[p].indexInBlock == i && codes[p] == VALID
  }

  lemma SelectsValidInPrefix(txs: seq<Tx>, codes: seq<Code>, tx: Tx, code: Code, i: nat)
    requires |codes| == |txs| && tx.indexInBlock != i
    ensures SelectsValid(txs + [tx], codes + [code], i) <==> SelectsValid(txs, codes, i)
  {
    var txs', codes' := txs + [tx], codes + [code];
    if SelectsValid(txs, codes, i) {
      var p :| 0 <= p < |txs| && txs[p].indexInBlock == i && codes[p] == VALID;
      assert txs'[p].indexInBlock == i && codes'[p] == VALID;
    }
    if SelectsValid(txs', codes', i) {
      var p :| 0 <= p < |txs'| && txs'[p].indexInBlock == i && codes'[p] == VALID;
      assert p < |txs| && txs[p].indexInBlock == i && codes[p] == VALID;
    }
  }

  lemma ValidTxsPush(txs: seq<Tx>, codes: seq<Code>, tx: Tx, code: Code)
    requires |codes| == |txs|
    ensures ValidTxs(txs + [tx], codes + [code]) == ValidTxs(txs, codes) + if code == VALID then [tx] else []
  {
    assert (txs + [tx])[..|txs|] == txs && (codes + [code])[..|txs|] == codes;
  }

  /** The filter is valid at exactly the indices judged VALID. */
  predicate Marks(envs: seq<Envelope>, txs: seq<Tx>, codes: seq<Code>, out: seq<Flag>)
    requires |out| == |envs| && |codes| == |txs|
  {
    forall i | 0 <= i < |envs| :: out[i].IsValid() && envs[i].Parsed? <==> SelectsValid(txs, codes, i)
  }

  lemma MarksPrefix(envs: seq<Envelope>, txs: seq<Tx>, codes: seq<Code>, out: seq<Flag>, tx: Tx, code: Code)
    requires |out| == |envs| > 0 && |codes| == |txs| && tx.indexInBlock == |envs| - 1
    requires forall p | 0 <= p < |txs| :: txs[p].indexInBlock < |envs| - 1
    requires Marks(envs, txs + [tx], codes + [code], out)
    ensures Marks(envs[..|envs| - 1], txs, codes, out[..|envs| - 1])
    ensures out[|envs| - 1].IsValid() && envs[|envs| - 1].Parsed? <==> code == VALID
  {
    var n := |envs| - 1;
    forall i | 0 <= i < n
      ensures out[..n][i].IsValid() && envs[..n][i].Parsed? <==> SelectsValid(txs, codes, i)
    {
      SelectsValidInPrefix(txs, codes, tx, code, i);
    }
    assert (txs + [tx])[|txs|].indexInBlock == n && (codes + [code])[|txs|] == code;
  }

  /** Such a filter keeps exactly the transactions judged VALID. */
  lemma {:induction false} KeptDetermined(envs: seq<Envelope>, flags: seq<Flag>, txs: seq<Tx>, codes: seq<Code>,
                                          out: seq<Flag>)
    requires |envs| == |flags| == |out| && |codes| == |txs| && txs == KeptTxs(envs, flags)
    requires Marks(envs, txs, codes, out)
    ensures KeptTxs(envs, out) == ValidTxs(txs, codes)
    decreases |envs|
  {
    if envs != [] {
      var n := |envs| - 1;
      var before := KeptTxs(envs[..n], flags[..n]);
      if flags[n].IsValid() && envs[n].Parsed? {
        var tx, codes', code := Tx(n, envs[n].rwset), codes[..|before|], codes[|before|];
        assert txs == before + [tx] && codes == codes' + [code];
        MarksPrefix(envs, before, codes', out, tx, code);
        KeptDetermined(envs[..n], flags[..n], before, codes', out[..n]);
        ValidTxsPush(before, codes', tx, code);
      } else {
        assert txs == before;
        assert !SelectsValid(txs, codes, n);
        KeptDetermined(envs[..n], flags[..n], txs, codes, out[..n]);
      }
    }
  }

  lemma UpdatesPush(num: nat, txs: seq<Tx>, codes: seq<Code>, tx: Tx, code: Code)
    requires |codes| == |txs|
    ensures var before := UpdatesOf(num, txs, codes);
            UpdatesOf(num, txs + [tx], codes + [code])
            == if code == VALID then ApplyWrites(before, Writes(tx.rwset), Height(num, tx.indexInBlock)) else before
  {
    assert (txs + [tx])[..|txs|] == txs && (codes + [code])[..|txs|] == codes;
  }

  lemma {:induction false} ReplayUpdates(num: nat, txs: seq<Tx>, codes: seq<Code>, all: seq<Code>)
    requires |codes| == |txs| && |all| == |ValidTxs(txs, codes)| && forall i | 0 <= i < |all| :: all[i] == VALID
    ensures UpdatesOf(num, ValidTxs(txs, codes), all) == UpdatesOf(num, txs, codes)
  {
    if txs != [] {
      var n := |txs| - 1;
      var before := ValidTxs(txs[..n], codes[..n]);
      ReplayUpdates(num, txs[..n], codes[..n], all[..|before|]);
      assert txs == txs[..n] + [txs[n]] && codes == codes[..n] + [codes[n]];
      UpdatesPush(num, txs[..n], codes[..n], txs[n], codes[n]);
      ValidTxsPush(txs[..n], codes[..n], txs[n], codes[n]);
      if codes[n] == VALID {
        UpdatesPush(num, before, all[..|before|], txs[n], VALID);
        assert all == all[..|before|] + [VALID];
      } else {
        assert ValidTxs(txs, codes) == before && all[..|before|] == all;
      }
    }
  }

  lemma {:induction false} AllValidWithoutMvcc(db: State, num: nat, txs: seq<Tx>)
    ensures forall i | 0 <= i < |txs| :: CodesOf(db, num, txs, false)[i] == VALID
  {
    if txs != [] {
      AllValidWithoutMvcc(db, num, txs[..|txs| - 1]);
    }
  }

  /** Replaying a stored block on the filter its first pass wrote back, with MVCC off:
      it cannot fail, keeps exactly the VALID transactions, leaves the filter as it is
      and yields the same update batch, whatever state it is replayed against. */
  lemma ReplayEqualsOriginal(db: State, db': State, num: nat, envs: seq<Envelope>, flags: seq<Flag>)
    requires |envs| == |flags| && Process(db, num, envs, flags, true).Some?
    ensures var first := Process(db, num, envs, flags, true).value;
            && |first.flags| == |envs|
            && Process(db', num, envs, first.flags, false).Some?
            && var again := Process(db', num, envs, first.flags, false).value;
               && again.flags == first.flags
               && again.batch.updates == first.batch.updates
               && again.txs == ValidTxs(first.txs, first.batch.codes)
  {
    var first := Process(db, num, envs, flags, true).value;
    var codes := first.batch.codes;
    forall i | 0 <= i < |envs|
      ensures !(first.flags[i].IsValid() && envs[i].Malformed?)
      ensures first.flags[i].IsValid() && envs[i].Parsed? <==> SelectsValid(first.txs, codes, i)
    {
      WrittenFlag(envs, flags, codes, i);
    }
    assert !Fails(envs, first.flags);
    KeptDetermined(envs, flags, first.txs, codes, first.flags);
    var again := Process(db', num, envs, first.flags, false).value;
    AllValidWithoutMvcc(db', num, again.txs);
    ReplayUpdates(num, first.txs, codes, again.batch.codes);
    forall i | 0 <= i < |envs|
      ensures again.flags[i] == first.flags[i]
    {
      WrittenFlag(envs, flags, codes, i);
      WrittenFlag(envs, first.flags, again.batch.codes, i);
      PostFlagsAt(PreFlags(envs, first.flags), again.txs, again.batch.codes, i);
      if Kept(again.txs, i) {
        KeptIff(envs, first.flags, i);
      }
    }
  }
}
