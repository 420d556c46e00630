/** Serializability of the committed chain. Blocks are validated against the state
    before the block and written as one batch; the theorems say that this equals
    running the VALID transactions one at a time, each on what it saw when it was
    endorsed. */
module Serializability {
  import opened Common
  import opened Mvcc

  type Chain = seq<seq<Tx>>

  /** Block by block: validate with MVCC, write the batch. */
  function StateAfter(chain: Chain): State {
    if chain == [] then map[]
    else
      var n := |chain| - 1;
      var before := StateAfter(chain[..n]);
      Overlay(before, MvccBatch(before, n, chain[n], true).updates)
  }

  function BlockCodes(chain: Chain, n: nat): (codes: seq<Code>)
    requires n < |chain|
    ensures |codes| == |chain[n]|
  {
    MvccBatch(StateAfter(chain[..n]), n, chain[n], true).codes
  }

  // ---------- one transaction at a time ----------

  /** Apply a write set straight to the state. */
  function Execute(st: State, ws: seq<Write>, h: Height): State
    decreases ws
  {
    if ws == [] then st
    else
      Execute(if ws[0].value.Some? then st[ws[0].key := Versioned(ws[0].value.value, h)] else st - {ws[0].key},
              ws[1..], h)
  }

  function SerialBlock(st: State, num: nat, txs: seq<Tx>, codes: seq<Code>): State
    requires |codes| == |txs|
  {
    if txs == [] then st
    else
      var last := |txs| - 1;
      var before := SerialBlock(st, num, txs[..last], codes[..last]);
      if codes[last] == VALID then Execute(before, Writes(txs[last].rwset), Height(num, txs[last].indexInBlock))
      else before
  }

  /** The serial state in which transaction i of block n runs. */
  function SerialState(chain: Chain, n: nat, i: nat): State
    requires n < |chain| && i <= |chain[n]|
  {
    SerialBlock(StateAfter(chain[..n]), n, chain[n][..i], BlockCodes(chain, n)[..i])
  }

  lemma {:induction false} OverlayExecutes(st: State, ups: Updates, ws: seq<Write>, h: Height)
    ensures Overlay(st, ApplyWrites(ups, ws, h)) == Execute(Overlay(st, ups), ws, h)
    decreases ws
  {
    if ws != [] {
      var w := ws[0];
      var ups' := ups[w.key := Update(w.value, h)];
      OverlayExecutes(st, ups', ws[1..], h);
      var direct := if w.value.Some? then Overlay(st, ups)[w.key := Versioned(w.value.value, h)]
                    else Overlay(st, ups) - {w.key};
      assert Overlay(st, ups') == direct by {
        SameLookups(Overlay(st, ups'), direct);
      }
    }
  }

  lemma SameLookups(a: State, b: State)
    requires forall k :: Lookup(a, k) == Lookup(b, k)
    ensures a == b
  {
    assert forall k :: k in a <==> k in b by {
      forall k
        ensures k in a <==> k in b
      {
        assert Lookup(a, k) == Lookup(b, k);
      }
    }
    forall k | k in a
      ensures a[k] == b[k]
    {
      assert Lookup(a, k) == Lookup(b, k);
    }
  }

  /** The one batch of a block has the effect of its VALID transactions in order. */
  lemma {:induction false} BatchIsSerial(st: State, num: nat, txs: seq<Tx>, codes: seq<Code>)
    requires |codes| == |txs|
    ensures Overlay(st, UpdatesOf(num, txs, codes)) == SerialBlock(st, num, txs, codes)
  {
    if txs == [] {
      SameLookups(Overlay(st, map[]), st);
    } else {
      var last := |txs| - 1;
      BatchIsSerial(st, num, txs[..last], codes[..last]);
      if codes[last] == VALID {
        OverlayExecutes(st, UpdatesOf(num, txs[..last], codes[..last]), Writes(txs[last].rwset),
                        Height(num, txs[last].indexInBlock));
      }
    }
  }

  lemma SerialStateIsOverlay(chain: Chain, n: nat, i: nat)
    requires n < |chain| && i <= |chain[n]|
    ensures var before := StateAfter(chain[..n]);
            SerialState(chain, n, i) == Overlay(before, UpdatesOf(n, chain[n][..i], BlockCodes(chain, n)[..i]))
  {
    BatchIsSerial(StateAfter(chain[..n]), n, chain[n][..i], BlockCodes(chain, n)[..i]);
  }

  /** Running past the last transaction of block n gives the state after the block. */
  lemma SerialStateAtEnd(chain: Chain, n: nat)
    requires n < |chain|
    ensures SerialState(chain, n, |chain[n]|) == StateAfter(chain[..n + 1])
  {
    SerialStateIsOverlay(chain, n, |chain[n]|);
    assert chain[..n + 1][..n] == chain[..n];
    assert chain[n][..|chain[n]|] == chain[n];
    assert BlockCodes(chain, n)[..|chain[n]|] == BlockCodes(chain, n);
  }

  // ---------- versions only grow ----------

  /** Every version in the state was written before block n. */
  predicate WrittenBefore(st: State, n: nat) {
    forall k | k in st :: st[k].version.block < n
  }

  /** What a later state may hold for a key: the old entry, nothing, or a write of
      block h or later. */
  ghost predicate OnlyNewer(earlier: State, later: State, h: nat) {
    forall k :: KeptOrNewer(earlier, later, h, k)
  }

  predicate KeptOrNewer(earlier: State, later: State, h: nat, k: Key) {
    Lookup(later, k) == Lookup(earlier, k) || k !in later || later[k].version.block >= h
  }

  lemma {:induction false} ExecuteVersions(st: State, ws: seq<Write>, h: Height)
    ensures forall k ::
              || Lookup(Execute(st, ws, h), k) == Lookup(st, k)
              || k !in Execute(st, ws, h) || Execute(st, ws, h)[k].version == h
    decreases ws
  {
    if ws != [] {
      ExecuteVersions(if ws[0].value.Some? then st[ws[0].key := Versioned(ws[0].value.value, h)] else st - {ws[0].key},
                      ws[1..], h);
    }
  }

  lemma {:induction false} SerialBlockVersions(st: State, num: nat, txs: seq<Tx>, codes: seq<Code>)
    requires |codes| == |txs|
    ensures OnlyNewer(st, SerialBlock(st, num, txs, codes), num)
    ensures WrittenBefore(st, num) ==> WrittenBefore(SerialBlock(st, num, txs, codes), num + 1)
  {
    if txs != [] {
      var last := |txs| - 1;
      SerialBlockVersions(st, num, txs[..last], codes[..last]);
      if codes[last] == VALID {
        var before := SerialBlock(st, num, txs[..last], codes[..last]);
        var h := Height(num, txs[last].indexInBlock);
        ExecuteVersions(before, Writes(txs[last].rwset), h);
        var after := SerialBlock(st, num, txs, codes);
        assert after == Execute(before, Writes(txs[last].rwset), h);
        forall k
          ensures KeptOrNewer(st, after, num, k)
          ensures WrittenBefore(st, num) && k in after ==> after[k].version.block < num + 1
        {
          assert Lookup(after, k) == Lookup(before, k) || k !in after || after[k].version == h;
          assert KeptOrNewer(st, before, num, k);
        }
      }
    }
  }

  lemma {:induction false} ChainVersions(chain: Chain)
    ensures WrittenBefore(StateAfter(chain), |chain|)
  {
    if chain != [] {
      var n := |chain| - 1;
      ChainVersions(chain[..n]);
      SerialBlockVersions(StateAfter(chain[..n]), n, chain[n], BlockCodes(chain, n));
      SerialStateAtEnd(chain, n);
      assert chain[n][..|chain[n]|] == chain[n];
      assert BlockCodes(chain, n)[..|chain[n]|] == BlockCodes(chain, n);
      assert chain[..n + 1] == chain;
    }
  }

  lemma {:induction false} LaterStatesOnlyNewer(chain: Chain, h: nat, n: nat)
    requires h <= n <= |chain|
    ensures OnlyNewer(StateAfter(chain[..h]), StateAfter(chain[..n]), h)
    decreases n
  {
    if h < n {
      var m := n - 1;
      LaterStatesOnlyNewer(chain, h, m);
      var mid, after := StateAfter(chain[..m]), StateAfter(chain[..n]);
      SerialStateAtEnd(chain, m);
      SerialBlockVersions(mid, m, chain[m][..|chain[m]|], BlockCodes(chain, m)[..|chain[m]|]);
      assert OnlyNewer(mid, after, m);
      OnlyNewerTransitive(StateAfter(chain[..h]), mid, after, h, m);
    }
  }

  lemma OnlyNewerTransitive(a: State, b: State, c: State, h: nat, m: nat)
    requires OnlyNewer(a, b, h) && OnlyNewer(b, c, m) && h <= m
    ensures OnlyNewer(a, c, h)
  {
    forall k
      ensures KeptOrNewer(a, c, h, k)
    {
      assert KeptOrNewer(b, c, m, k) && KeptOrNewer(a, b, h, k);
    }
  }

  lemma SerialStateOnlyNewer(chain: Chain, h: nat, n: nat, i: nat)
    requires h <= n < |chain| && i <= |chain[n]|
    ensures OnlyNewer(StateAfter(chain[..h]), SerialState(chain, n, i), h)
  {
    LaterStatesOnlyNewer(chain, h, n);
    SerialBlockVersions(StateAfter(chain[..n]), n, chain[n][..i], BlockCodes(chain, n)[..i]);
    OnlyNewerTransitive(StateAfter(chain[..h]), StateAfter(chain[..n]), SerialState(chain, n, i), h, n);
  }

  /** Along the chain a version determines the value: if a key has the same version
      in the state after h blocks and in any later serial state, it has the same value. */
  lemma VersionDeterminesValue(chain: Chain, h: nat, n: nat, i: nat, k: Key)
    requires h <= n < |chain| && i <= |chain[n]|
    requires VersionOf(StateAfter(chain[..h]), k) == VersionOf(SerialState(chain, n, i), k)
    ensures Lookup(StateAfter(chain[..h]), k) == Lookup(SerialState(chain, n, i), k)
  {
    SerialStateOnlyNewer(chain, h, n, i);
    ChainVersions(chain[..h]);
    var early, late := StateAfter(chain[..h]), SerialState(chain, n, i);
    assert KeptOrNewer(early, late, h, k);
  }

  // ---------- endorsement ----------

  predicate NsRecordedIn(st: State, n: NsRwSet) {
    && (forall r | r in n.kvReads :: VersionOf(st, Pub(n.ns, r.key)) == r.version)
    && (forall rq | rq in n.rangeQueries :: RangeCurrent(st, n.ns, rq))
    && (forall c | c in n.collHashed :: forall r | r in c.hashedReads ::
          VersionOf(st, Hashed(n.ns, c.coll, r.keyHash)) == r.version)
  }

  /** The read set was recorded in this state. */
  predicate RecordedIn(st: State, rw: TxRwSet) {
    forall n | n in rw :: NsRecordedIn(st, n)
  }

  ghost predicate NsSameView(a: State, b: State, n: NsRwSet) {
    && (forall r | r in n.kvReads :: Lookup(a, Pub(n.ns, r.key)) == Lookup(b, Pub(n.ns, r.key)))
    && (forall rq | rq in n.rangeQueries ::
          forall k | InRange(rq, k) :: Lookup(a, Pub(n.ns, k)) == Lookup(b, Pub(n.ns, k)))
    && (forall c | c in n.collHashed :: forall r | r in c.hashedReads ::
          Lookup(a, Hashed(n.ns, c.coll, r.keyHash)) == Lookup(b, Hashed(n.ns, c.coll, r.keyHash)))
  }

  /** Both states show the transaction the same values for every key it read and the
      same contents, phantoms included, for every range it scanned. */
  ghost predicate SameView(a: State, b: State, rw: TxRwSet) {
    forall n | n in rw :: NsSameView(a, b, n)
  }

  lemma RangeCurrentVersions(a: State, b: State, ns: string, rq: RangeQuery, k: string)
    requires RangeCurrent(a, ns, rq) && RangeCurrent(b, ns, rq) && InRange(rq, k)
    ensures VersionOf(a, Pub(ns, k)) == VersionOf(b, Pub(ns, k))
  {
    var key := Pub(ns, k);
    if key in a {
      assert key.key in rq.results;
    }
    if key in b {
      assert key.key in rq.results;
    }
  }

  /** What preceding valid transactions of the block wrote. */
  function WrittenSoFar(chain: Chain, n: nat, i: nat): Updates
    requires n < |chain| && i <= |chain[n]|
  {
    UpdatesOf(n, chain[n][..i], BlockCodes(chain, n)[..i])
  }

  predicate NsCurrent(db: State, ups: Updates, ns: NsRwSet) {
    && ReadsCurrent(db, ups, ns.ns, ns.kvReads)
    && RangesCurrent(db, ups, ns.ns, ns.rangeQueries)
    && HashedCurrent(db, ups, ns.ns, ns.collHashed)
  }

  lemma ValidIsCurrent(chain: Chain, n: nat, i: nat)
    requires n < |chain| && i < |chain[n]| && BlockCodes(chain, n)[i] == VALID
    ensures forall ns | ns in chain[n][i].rwset :: NsCurrent(StateAfter(chain[..n]), WrittenSoFar(chain, n, i), ns)
  {
    var db, txs := StateAfter(chain[..n]), chain[n];
    var codes := CodesOf(db, n, txs, true);
    var ups := UpdatesOf(n, txs[..i], codes[..i]);
    CodesPrefix(db, n, txs, true, i);
    CodesPrefix(db, n, txs, true, i + 1);
    assert txs[..i + 1][..i] == txs[..i];
    assert codes[i] == codes[..i + 1][i] == Verdict(db, ups, txs[i].rwset);
    VerdictIsValid(db, ups, txs[i].rwset);
  }

  lemma NsSees(chain: Chain, n: nat, i: nat, h: nat, ns: NsRwSet)
    requires h <= n < |chain| && i < |chain[n]|
    requires NsCurrent(StateAfter(chain[..n]), WrittenSoFar(chain, n, i), ns)
             && NsRecordedIn(StateAfter(chain[..h]), ns)
    ensures NsSameView(StateAfter(chain[..h]), SerialState(chain, n, i), ns)
            && NsRecordedIn(SerialState(chain, n, i), ns)
  {
    var early, late, ups := StateAfter(chain[..h]), SerialState(chain, n, i), WrittenSoFar(chain, n, i);
    SerialStateIsOverlay(chain, n, i);
    forall r | r in ns.kvReads
      ensures Lookup(early, Pub(ns.ns, r.key)) == Lookup(late, Pub(ns.ns, r.key))
              && VersionOf(late, Pub(ns.ns, r.key)) == r.version
    {
      PointRead(chain, n, i, h, ups, Pub(ns.ns, r.key), r.version);
    }
    forall rq, k | rq in ns.rangeQueries && InRange(rq, k)
      ensures Lookup(early, Pub(ns.ns, k)) == Lookup(late, Pub(ns.ns, k))
    {
      RangeCurrentVersions(early, late, ns.ns, rq, k);
      VersionDeterminesValue(chain, h, n, i, Pub(ns.ns, k));
    }
    forall c, r | c in ns.collHashed && r in c.hashedReads
      ensures Lookup(early, Hashed(ns.ns, c.coll, r.keyHash)) == Lookup(late, Hashed(ns.ns, c.coll, r.keyHash))
              && VersionOf(late, Hashed(ns.ns, c.coll, r.keyHash)) == r.version
    {
      PointRead(chain, n, i, h, ups, Hashed(ns.ns, c.coll, r.keyHash), r.version);
    }
  }

  /** A VALID transaction runs, in the serial order, on exactly the values it was
      endorsed on, however many blocks went by in between. */
  lemma {:induction false} ValidSeesEndorsedValues(chain: Chain, n: nat, i: nat, h: nat)
    requires h <= n < |chain| && i < |chain[n]|
    requires BlockCodes(chain, n)[i] == VALID
    requires RecordedIn(StateAfter(chain[..h]), chain[n][i].rwset)
    ensures SameView(StateAfter(chain[..h]), SerialState(chain, n, i), chain[n][i].rwset)
    ensures RecordedIn(SerialState(chain, n, i), chain[n][i].rwset)
  {
    ValidIsCurrent(chain, n, i);
    forall ns | ns in chain[n][i].rwset
      ensures NsSameView(StateAfter(chain[..h]), SerialState(chain, n, i), ns)
              && NsRecordedIn(SerialState(chain, n, i), ns)
    {
      NsSees(chain, n, i, h, ns);
    }
  }

  lemma PointRead(chain: Chain, n: nat, i: nat, h: nat, ups: Updates, k: Key, version: Option<Height>)
    requires h <= n < |chain| && i < |chain[n]|
    requires ups == UpdatesOf(n, chain[n][..i], BlockCodes(chain, n)[..i])
    requires ReadCurrent(StateAfter(chain[..n]), ups, k, version)
    requires VersionOf(StateAfter(chain[..h]), k) == version
    ensures Lookup(StateAfter(chain[..h]), k) == Lookup(SerialState(chain, n, i), k)
    ensures VersionOf(SerialState(chain, n, i), k) == version
  {
    SerialStateIsOverlay(chain, n, i);
    var late := SerialState(chain, n, i);
    assert Lookup(late, k) == Lookup(StateAfter(chain[..n]), k);
    VersionDeterminesValue(chain, h, n, i, k);
  }

  // ---------- serial re-execution ----------

  /** A chaincode invocation maps the state it runs on to a read-write set. */
  type Invocation = State -> TxRwSet

  /** It records what it reads, and its result depends on nothing else. */
  ghost predicate ReadsWhatItRecords(f: Invocation) {
    && (forall a :: RecordedIn(a, f(a)))
    && (forall a, b :: SameView(a, b, f(a)) ==> f(b) == f(a))
  }

  /** Where a transaction of the chain comes from: an invocation endorsed on the
      state after `height` blocks. */
  datatype Proposal = Proposal(invocation: Invocation, height: nat)

  ghost predicate Endorsed(chain: Chain, props: seq<seq<Proposal>>) {
    && |props| == |chain|
    && forall n | 0 <= n < |chain| ::
         && |props[n]| == |chain[n]|
         && forall i | 0 <= i < |chain[n]| ::
              && ReadsWhatItRecords(props[n][i].invocation)
              && props[n][i].height <= n
              && chain[n][i].rwset == props[n][i].invocation(StateAfter(chain[..props[n][i].height]))
  }

  /** Run the VALID invocations of the first i transactions of block n, one by one,
      each on the state its predecessors left; no recorded write set is used. */
  ghost function Rerun(st: State, chain: Chain, props: seq<seq<Proposal>>, n: nat, i: nat): State
    requires n < |chain| && i <= |chain[n]|
    requires |props| == |chain| && |props[n]| == |chain[n]|
  {
    if i == 0 then st
    else
      var before := Rerun(st, chain, props, n, i - 1);
      if BlockCodes(chain, n)[i - 1] == VALID then
        Execute(before, Writes(props[n][i - 1].invocation(before)), Height(n, chain[n][i - 1].indexInBlock))
      else before
  }

  ghost function RerunChain(chain: Chain, props: seq<seq<Proposal>>, n: nat): State
    requires n <= |chain| == |props|
    requires forall m | 0 <= m < |chain| :: |props[m]| == |chain[m]|
  {
    if n == 0 then map[] else Rerun(RerunChain(chain, props, n - 1), chain, props, n - 1, |chain[n - 1]|)
  }

  lemma SerialStep(chain: Chain, n: nat, i: nat)
    requires n < |chain| && i < |chain[n]|
    ensures SerialState(chain, n, i + 1) ==
            if BlockCodes(chain, n)[i] == VALID then
              Execute(SerialState(chain, n, i), Writes(chain[n][i].rwset), Height(n, chain[n][i].indexInBlock))
            else SerialState(chain, n, i)
  {
    assert chain[n][..i + 1][..i] == chain[n][..i];
    assert BlockCodes(chain, n)[..i + 1][..i] == BlockCodes(chain, n)[..i];
  }

  /** Invoked again at its serial position, a VALID transaction writes what it wrote
      when it was endorsed. */
  lemma {:induction false} InvocationRepeats(chain: Chain, props: seq<seq<Proposal>>, n: nat, i: nat)
    requires n < |chain| && i < |chain[n]| && Endorsed(chain, props)
    requires BlockCodes(chain, n)[i] == VALID
    ensures props[n][i].invocation(SerialState(chain, n, i)) == chain[n][i].rwset
  {
    var p := props[n][i];
    var early := StateAfter(chain[..p.height]);
    assert RecordedIn(early, p.invocation(early));
    ValidSeesEndorsedValues(chain, n, i, p.height);
    assert SameView(early, SerialState(chain, n, i), p.invocation(early));
  }

  lemma {:induction false} RerunBlock(chain: Chain, props: seq<seq<Proposal>>, n: nat, i: nat)
    requires n < |chain| && i <= |chain[n]| && Endorsed(chain, props)
    ensures Rerun(StateAfter(chain[..n]), chain, props, n, i) == SerialState(chain, n, i)
  {
    if i > 0 {
      RerunBlock(chain, props, n, i - 1);
      RerunStep(StateAfter(chain[..n]), chain, props, n, i - 1);
    } else {
      SerialStart(chain, n);
    }
  }

  lemma SerialStart(chain: Chain, n: nat)
    requires n < |chain|
    ensures SerialState(chain, n, 0) == StateAfter(chain[..n])
  {
    assert chain[n][..0] == [];
  }

  lemma RerunStep(st: State, chain: Chain, props: seq<seq<Proposal>>, n: nat, i: nat)
    requires n < |chain| && i < |chain[n]| && Endorsed(chain, props)
    requires Rerun(st, chain, props, n, i) == SerialState(chain, n, i)
    ensures Rerun(st, chain, props, n, i + 1) == SerialState(chain, n, i + 1)
  {
    SerialStep(chain, n, i);
    if BlockCodes(chain, n)[i] == VALID {
      InvocationRepeats(chain, props, n, i);
    }
  }

  /** Serializability: for every chain of endorsed transactions, the committed state is
      the result of re-executing the VALID invocations serially in (block, index) order. */
  lemma {:induction false} CommitIsSerializable(chain: Chain, props: seq<seq<Proposal>>, n: nat)
    requires n <= |chain| && Endorsed(chain, props)
    ensures StateAfter(chain[..n]) == RerunChain(chain, props, n)
  {
    RerunChainStart(chain, props);
    for i := 0 to n
      invariant StateAfter(chain[..i]) == RerunChain(chain, props, i)
    {
      RerunChainStep(chain, props, i);
    }
  }

  lemma RerunChainStart(chain: Chain, props: seq<seq<Proposal>>)
    requires Endorsed(chain, props)
    ensures StateAfter(chain[..0]) == RerunChain(chain, props, 0)
  {
    assert chain[..0] == [];
  }

  lemma {:induction false} RerunChainStep(chain: Chain, props: seq<seq<Proposal>>, n: nat)
    requires n < |chain| && Endorsed(chain, props)
    requires StateAfter(chain[..n]) == RerunChain(chain, props, n)
    ensures StateAfter(chain[..n + 1]) == RerunChain(chain, props, n + 1)
  {
    RerunBlock(chain, props, n, |chain[n]|);
    SerialStateAtEnd(chain, n);
  }
}
