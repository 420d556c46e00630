/** The serial commit path and the recovery that runs when a ledger is opened. The
    fields of the class are what is on disk; `writesLeft` says after how many disk
    writes the process dies, so a contract that holds for every value holds for every
    crash point. */
module Recovery {
  import opened Common
  import opened Mvcc

  /** What validating a block yields: the block with its filter written back, and the
      update batch; None if validation reports an error. */
  type Process<!Block> = (State, nat, Block, bool) -> Option<(Block, Updates)>

  /** Replaying the stored form of a block with MVCC off gives back block and batch,
      whatever the state. */
  ghost predicate ReplayLaw<Block(!new)>(p: Process<Block>) {
    forall db, db', n, b :: p(db, n, b, true).Some? ==>
      p(db', n, p(db, n, b, true).value.0, false) == p(db, n, b, true)
  }

  /** A stored block: replaying it cannot fail, changes nothing in it and depends on
      no state. */
  ghost predicate Replayable<Block(!new)>(p: Process<Block>, n: nat, b: Block) {
    && p(map[], n, b, false).Some?
    && p(map[], n, b, false).value.0 == b
    && forall db :: p(db, n, b, false) == p(map[], n, b, false)
  }

  ghost predicate ReplayableChain<Block(!new)>(p: Process<Block>, blocks: seq<Block>) {
    forall n | 0 <= n < |blocks| :: Replayable(p, n, blocks[n])
  }

  /** The fold of the stored chain. */
  ghost function StateOf<Block(!new)>(p: Process<Block>, blocks: seq<Block>): State
    requires ReplayableChain(p, blocks)
  {
    if blocks == [] then map[]
    else
      var n := |blocks| - 1;
      Overlay(StateOf(p, blocks[..n]), p(map[], n, blocks[n], false).value.1)
  }

  lemma StoredFormReplays<Block(!new)>(p: Process<Block>, db: State, n: nat, b: Block)
    requires ReplayLaw(p) && p(db, n, b, true).Some?
    ensures Replayable(p, n, p(db, n, b, true).value.0)
    ensures p(map[], n, p(db, n, b, true).value.0, false) == p(db, n, b, true)
  {
    var stored := p(db, n, b, true).value.0;
    forall db'
      ensures p(db', n, stored, false) == p(db, n, b, true)
    {
    }
  }

  lemma ChainGrows<Block(!new)>(p: Process<Block>, blocks: seq<Block>, b: Block)
    requires ReplayableChain(p, blocks) && Replayable(p, |blocks|, b)
    ensures ReplayableChain(p, blocks + [b])
    ensures StateOf(p, blocks + [b]) == Overlay(StateOf(p, blocks), p(map[], |blocks|, b, false).value.1)
    ensures (blocks + [b])[..|blocks|] == blocks
  {
    var all, n := blocks + [b], |blocks|;
    assert all[..n] == blocks && all[n] == b;
    ChainOfBoth(p, all, n);
    LastBlock(p, all);
  }

  lemma ChainOfBoth<Block(!new)>(p: Process<Block>, all: seq<Block>, n: nat)
    requires |all| == n + 1 && ReplayableChain(p, all[..n]) && Replayable(p, n, all[n])
    ensures ReplayableChain(p, all)
  {
    forall i | 0 <= i < |all|
      ensures Replayable(p, i, all[i])
    {
      if i < n {
        assert Replayable(p, i, all[..n][i]);
      }
    }
  }

  lemma LastBlock<Block(!new)>(p: Process<Block>, all: seq<Block>)
    requires ReplayableChain(p, all) && all != []
    ensures var n := |all| - 1; ReplayableChain(p, all[..n]) && p(map[], n, all[n], false).Some?
    ensures var n := |all| - 1; StateOf(p, all) == Overlay(StateOf(p, all[..n]), p(map[], n, all[n], false).value.1)
  {
    assert Replayable(p, |all| - 1, all[|all| - 1]);
  }

  function UpTo(n: nat): seq<nat> {
    seq(n, i => i)
  }

  datatype Outcome = Done | Crashed | Stuck | ValidationFailed | DatabaseAhead

  datatype Database = StateDb | HistoryDb

  /** Opening a ledger succeeds exactly when no database is ahead of a non-empty block store. */
  predicate Reopens(blocks: nat, state: nat, history: nat) {
    blocks == 0 || (state <= blocks && history <= blocks)
  }

  class KvLedger<Block(!new)> {
    const process: Process<Block>
    const historyEnabled: bool

    var blocks: seq<Block>          // block store
    var pvtHeight: nat              // private data store
    var db: State
    var stateHeight: nat            // savepoint block + 1, 0 without savepoint
    var history: seq<nat>           // blocks indexed by the history database
    var writesLeft: nat

    ghost var applied: seq<nat>     // every write to the state database, in time order

    ghost predicate Valid()
      reads this
    {
      && ReplayableChain(process, blocks)
      && (stateHeight <= |blocks| ==> db == StateOf(process, blocks[..stateHeight]))
      && applied == UpTo(stateHeight)
      && history == UpTo(|history|)
      && (!historyEnabled ==> history == [])
      && |blocks| <= pvtHeight
    }

    /** The serial path writes block store, state and history in this order. */
    ghost predicate InOrder()
      reads this
    {
      |history| <= stateHeight <= |blocks| <= pvtHeight <= |blocks| + 1
    }

    /** No database is ahead of the block store, which is at most a block behind the private data. */
    predicate Behind()
      reads this
    {
      stateHeight <= |blocks| && |history| <= |blocks| <= pvtHeight <= |blocks| + 1
    }

    /** Everything caught up: the next block can be committed. */
    predicate Synced()
      reads this
    {
      stateHeight == |blocks| && (historyEnabled ==> |history| == |blocks|)
    }

    constructor (process: Process<Block>, historyEnabled: bool, writesLeft: nat)
      ensures Valid() && InOrder() && Synced() && this.process == process && this.historyEnabled == historyEnabled
              && blocks == [] && pvtHeight == 0
    {
      this.process := process;
      this.historyEnabled := historyEnabled;
      this.writesLeft := writesLeft;
      blocks, pvtHeight, db, stateHeight, history := [], 0, map[], 0, [];
      applied := [];
    }

    // ---------- the four disk writes ----------

    method CommitPvtData(n: nat) returns (alive: bool)
      modifies `pvtHeight, `writesLeft
      ensures alive == (old(writesLeft) > 0)
      ensures writesLeft == if alive then old(writesLeft) - 1 else 0
      ensures pvtHeight == if alive then n + 1 else old(pvtHeight)
    {
      alive := writesLeft > 0;
      if alive {
        pvtHeight, writesLeft := n + 1, writesLeft - 1;
      }
    }

    method AddBlock(b: Block) returns (alive: bool)
      modifies `blocks, `writesLeft
      ensures alive == (old(writesLeft) > 0)
      ensures writesLeft == if alive then old(writesLeft) - 1 else 0
      ensures blocks == if alive then old(blocks) + [b] else old(blocks)
    {
      alive := writesLeft > 0;
      if alive {
        blocks, writesLeft := blocks + [b], writesLeft - 1;
      }
    }

    /** ApplyPrivacyAwareUpdates: batch and savepoint in one atomic write. */
    method ApplyUpdates(updates: Updates, n: nat) returns (alive: bool)
      modifies `db, `stateHeight, `applied, `writesLeft
      ensures alive == (old(writesLeft) > 0)
      ensures writesLeft == if alive then old(writesLeft) - 1 else 0
      ensures db == if alive then Overlay(old(db), updates) else old(db)
      ensures stateHeight == if alive then n + 1 else old(stateHeight)
      ensures applied == if alive then old(applied) + [n] else old(applied)
    {
      alive := writesLeft > 0;
      if alive {
        db, stateHeight, writesLeft := Overlay(db, updates), n + 1, writesLeft - 1;
        applied := applied + [n];
      }
    }

    method CommitHistory(n: nat) returns (alive: bool)
      modifies `history, `writesLeft
      ensures alive == (old(writesLeft) > 0)
      ensures writesLeft == if alive then old(writesLeft) - 1 else 0
      ensures history == if alive then old(history) + [n] else old(history)
    {
      alive := writesLeft > 0;
      if alive {
        history, writesLeft := history + [n], writesLeft - 1;
      }
    }

    // ---------- commit ----------

    /** commitToPvtAndBlockStore. `Stuck` stands for spinning forever in the height loop:
        nothing else moves the private data store. */
    method CommitToPvtAndBlockStore(stored: Block) returns (r: Outcome)
      requires Valid() && InOrder() && Replayable(process, |blocks|, stored)
      modifies `blocks, `pvtHeight, `writesLeft
      ensures Valid() && InOrder()
      ensures r == if old(pvtHeight) != |old(blocks)| then Stuck else if old(writesLeft) >= 2 then Done else Crashed
      ensures r == Stuck ==> blocks == old(blocks) && pvtHeight == old(pvtHeight)
      ensures r == Done ==>
                && blocks == old(blocks) + [stored] && pvtHeight == |blocks| && writesLeft == old(writesLeft) - 2
      ensures r == Crashed ==> blocks == old(blocks) && pvtHeight == |blocks| + old(writesLeft)
    {
      var n := |blocks|;
      if pvtHeight != n {
        return Stuck;
      }
      var alive := CommitPvtData(n);
      if !alive {
        return Crashed;
      }
      ChainGrows(process, blocks, stored);
      assert (blocks + [stored])[..stateHeight] == blocks[..stateHeight];
      alive := AddBlock(stored);
      return if alive then Done else Crashed;
    }

    /** txmgr.Commit followed by the history commit, for the last stored block. */
    method CommitToDatabases(updates: Updates) returns (r: Outcome)
      requires Valid() && InOrder() && |blocks| > 0 && stateHeight == |blocks| - 1
      requires historyEnabled ==> |history| == |blocks| - 1
      requires updates == process(map[], |blocks| - 1, blocks[|blocks| - 1], false).value.1
      modifies `db, `stateHeight, `applied, `history, `writesLeft
      ensures Valid() && InOrder()
      ensures r == if old(writesLeft) >= (if historyEnabled then 2 else 1) then Done else Crashed
      ensures r == Done ==> Synced()
    {
      var n := |blocks| - 1;
      assert blocks[..n + 1] == blocks;
      var alive := ApplyUpdates(updates, n);
      if alive && historyEnabled {
        alive := CommitHistory(n);
      }
      return if alive then Done else Crashed;
    }

    /** CommitLegacy, serial, for the block that follows the block store. */
    method CommitLegacy(b: Block) returns (r: Outcome)
      requires Valid() && ReplayLaw(process) && Synced() && pvtHeight <= |blocks| + 1
      modifies this
      ensures Valid() && InOrder()
      ensures var p := old(process(db, |blocks|, b, true));
              r == if p.None? then ValidationFailed
                   else if old(pvtHeight) != |old(blocks)| then Stuck
                   else if old(writesLeft) >= (if historyEnabled then 4 else 3) then Done
                   else Crashed
      ensures r == Done ==>
                && Synced() && pvtHeight == |blocks|
                && blocks == old(blocks) + [old(process(db, |blocks|, b, true)).value.0]
      ensures r == Crashed ==>
                blocks == old(blocks) || blocks == old(blocks) + [old(process(db, |blocks|, b, true)).value.0]
      ensures r == Crashed ==> pvtHeight == |blocks| + if old(writesLeft) == 1 then 1 else 0
      ensures r == Stuck || r == ValidationFailed ==> Synced() && blocks == old(blocks) && pvtHeight == old(pvtHeight)
    {
      var n := |blocks|;
      if n != 0 && n != stateHeight {    // the savepoint gate, open after recovery
        assert false;
      }
      var prepared := process(db, n, b, true);
      if prepared.None? {
        return ValidationFailed;
      }
      var (stored, updates) := prepared.value;
      StoredFormReplays(process, db, n, b);
      r := CommitToPvtAndBlockStore(stored);
      if r == Done {
        r := CommitToDatabases(updates);
      }
    }

    // ---------- recovery ----------

    function HeightOf(d: Database): nat
      reads this
    {
      if d == StateDb then stateHeight else |history|
    }

    /** ShouldRecover: whether the database lags, and the first block it misses. */
    method ShouldRecover(d: Database, last: nat) returns (lags: bool, first: nat)
      ensures first == HeightOf(d) && (lags <==> first != last + 1)
    {
      first := HeightOf(d);
      lags := first == 0 || first - 1 != last;
    }

    /** CommitLostBlock: replay block n into one database. */
    method CommitLostBlock(d: Database, n: nat) returns (alive: bool)
      requires Valid() && n < |blocks| && HeightOf(d) == n && (d == HistoryDb ==> historyEnabled)
      modifies `db, `stateHeight, `applied, `history, `writesLeft
      ensures Valid()
      ensures HeightOf(d) == if alive then n + 1 else n
      ensures d == StateDb ==> history == old(history)
      ensures d == HistoryDb ==> stateHeight == old(stateHeight) && db == old(db) && applied == old(applied)
      ensures alive == (old(writesLeft) > 0)
      ensures writesLeft == if alive then old(writesLeft) - 1 else 0
    {
      if d == StateDb {
        var (stored, updates) := process(db, n, blocks[n], false).value;
        assert Replayable(process, n, blocks[n]);
        assert blocks[..n + 1][..n] == blocks[..n];
        alive := ApplyUpdates(updates, n);
      } else {
        alive := CommitHistory(n);
      }
    }

    /** recommitLostBlocks with one database: replay blocks `first` to `last`. */
    method RecommitInto(d: Database, first: nat, last: int) returns (r: Outcome)
      requires Valid() && first <= last + 1 <= |blocks|
      requires HeightOf(d) == first && (d == HistoryDb ==> historyEnabled)
      modifies `db, `stateHeight, `applied, `history, `writesLeft
      ensures Valid() && first <= HeightOf(d) <= last + 1
      ensures d == StateDb ==> history == old(history)
      ensures d == HistoryDb ==> stateHeight == old(stateHeight) && db == old(db) && applied == old(applied)
      ensures r == if old(writesLeft) >= last + 1 - first then Done else Crashed
      ensures r == Done ==> HeightOf(d) == last + 1 && writesLeft == old(writesLeft) - (last + 1 - first)
    {
      for n := first to last + 1
        invariant Valid() && HeightOf(d) == n
        invariant d == StateDb ==> history == old(history)
        invariant d == HistoryDb ==> stateHeight == old(stateHeight) && db == old(db) && applied == old(applied)
        invariant writesLeft == old(writesLeft) - (n - first)
      {
        var alive := CommitLostBlock(d, n);
        if !alive {
          return Crashed;
        }
      }
      return Done;
    }

    /** recommitLostBlocks with both databases, in either order, block by block. */
    method RecommitIntoBoth(a: Database, b: Database, first: nat, last: int) returns (r: Outcome)
      requires Valid() && first <= last + 1 <= |blocks| && historyEnabled && a != b
      requires stateHeight == |history| == first
      modifies `db, `stateHeight, `applied, `history, `writesLeft
      ensures Valid() && first <= stateHeight <= last + 1 && first <= |history| <= last + 1
      ensures r == if old(writesLeft) >= 2 * (last + 1 - first) then Done else Crashed
      ensures r == Done ==> stateHeight == |history| == last + 1
    {
      for n := first to last + 1
        invariant Valid() && stateHeight == |history| == n
        invariant writesLeft == old(writesLeft) - 2 * (n - first)
      {
        var alive := CommitLostBlock(a, n);
        if !alive {
          return Crashed;
        }
        alive := CommitLostBlock(b, n);
        if !alive {
          return Crashed;
        }
      }
      return Done;
    }

    /** syncStateAndHistoryDBWithBlockstore. */
    method SyncDatabases() returns (r: Outcome)
      requires Valid()
      modifies `db, `stateHeight, `applied, `history, `writesLeft
      ensures Valid() && blocks == old(blocks) && pvtHeight == old(pvtHeight)
      ensures r == DatabaseAhead <==> !Reopens(|blocks|, old(stateHeight), |old(history)|)
      ensures r == DatabaseAhead || |blocks| == 0 ==>
                && db == old(db) && applied == old(applied)
                && stateHeight == old(stateHeight) && history == old(history)
      ensures r == Done && |blocks| > 0 ==>
                && Synced()
                && db == StateOf(process, blocks)
                && applied == UpTo(|blocks|)
                && (historyEnabled ==> history == UpTo(|blocks|))
      ensures r == Done || r == Crashed || r == DatabaseAhead
      ensures r == Crashed ==> old(stateHeight) <= stateHeight <= |blocks| && |old(history)| <= |history| <= |blocks|
      ensures r == Crashed ==> old(writesLeft) < 2 * |blocks| - old(stateHeight) - |old(history)|
    {
      if blocks == [] {
        return Done;
      }
      var last := |blocks| - 1;
      var lags0, first0 := ShouldRecover(StateDb, last);
      if first0 > last + 1 {
        return DatabaseAhead;
      }
      var recoverers: seq<(nat, Database)> := if lags0 then [(first0, StateDb)] else [];
      if historyEnabled {
        var lags1, first1 := ShouldRecover(HistoryDb, last);
        if first1 > last + 1 {
          return DatabaseAhead;
        }
        if lags1 {
          recoverers := recoverers + [(first1, HistoryDb)];
        }
      }
      assert blocks[..|blocks|] == blocks;
      if |recoverers| == 0 {
        return Done;
      }
      if |recoverers| == 1 {
        r := RecommitInto(recoverers[0].1, recoverers[0].0, last);
        return r;
      }
      if recoverers[0].0 > recoverers[1].0 {
        recoverers := [recoverers[1], recoverers[0]];
      }
      if recoverers[0].0 != recoverers[1].0 {
        r := RecommitInto(recoverers[0].1, recoverers[0].0, recoverers[1].0 - 1);
        if r != Done {
          return r;
        }
      }
      r := RecommitIntoBoth(recoverers[0].1, recoverers[1].1, recoverers[1].0, last);
    }
  }

  /** Crash after any number k of disk writes of a commit, then reopen: both databases
      equal the fold of the block store, every block has been written to the state exactly
      once and in order, and the peer can go on committing unless the crash fell between
      the private data write and the block write. */
  method CrashAndReopen<Block(!new)>(l: KvLedger<Block>, b: Block, k: nat)
    returns (committed: Outcome, reopened: Outcome)
    requires l.Valid() && ReplayLaw(l.process) && l.Synced() && l.pvtHeight == |l.blocks|
    requires l.process(l.db, |l.blocks|, b, true).Some?
    modifies l
    ensures committed == Done || committed == Crashed
    ensures k >= 4 ==> committed == Done
    ensures reopened == Done && l.Valid() && l.Synced()
    ensures l.blocks == old(l.blocks) || l.blocks == old(l.blocks) + [old(l.process(l.db, |l.blocks|, b, true)).value.0]
    ensures l.db == StateOf(l.process, l.blocks)
    ensures l.applied == UpTo(|l.blocks|)
    ensures l.historyEnabled ==> l.history == UpTo(|l.blocks|)
    ensures l.pvtHeight == |l.blocks| <==> k != 1
  {
    l.writesLeft := k;
    committed := l.CommitLegacy(b);
    l.writesLeft := 2 * |l.blocks|;
    reopened := l.SyncDatabases();
    assert l.blocks[..|l.blocks|] == l.blocks;
  }

  // ---------- any run of commits, crashes and reopenings ----------

  /** What happens to a ledger: a commit, or a restart of the process that opens it again;
      either dies once its writes are used up. */
  datatype Event<Block> = Commit(block: Block, writes: nat) | Restart(writes: nat)

  /** One event. Only an opened ledger commits; a commit that spins is ended by a restart. */
  method Step<Block(!new)>(l: KvLedger<Block>, open: bool, e: Event<Block>) returns (nowOpen: bool)
    requires l.Valid() && l.Behind() && ReplayLaw(l.process) && (open ==> l.Synced())
    modifies l
    ensures l.Valid() && l.Behind() && (nowOpen ==> l.Synced())
    ensures old(l.blocks) <= l.blocks && |l.blocks| <= |old(l.blocks)| + if open && e.Commit? then 1 else 0
    ensures e.Restart? && e.writes >= 2 * |l.blocks| ==> nowOpen
  {
    l.writesLeft := e.writes;
    var r := Crashed;
    match e {
      case Commit(b, _) =>
        if open {
          r := l.CommitLegacy(b);
        }
      case Restart(_) =>
        r := l.SyncDatabases();
    }
    nowOpen := r == Done || r == ValidationFailed;
  }

  /** Over any run of commits and restarts, dying anywhere, recovery included: the databases
      never get ahead of the block store, no stored block is lost, every block is applied to
      the state once and in order, and one more restart that is left to finish brings both
      databases up to the fold of the block store. */
  method EveryRunReopens<Block(!new)>(l: KvLedger<Block>, events: seq<Event<Block>>)
    requires l.Valid() && l.Behind() && l.Synced() && ReplayLaw(l.process)
    modifies l
    ensures l.Valid() && l.Synced() && old(l.blocks) <= l.blocks
    ensures l.db == StateOf(l.process, l.blocks)
    ensures l.applied == UpTo(|l.blocks|)
    ensures l.historyEnabled ==> l.history == UpTo(|l.blocks|)
  {
    var open := true;
    for i := 0 to |events|
      invariant l.Valid() && l.Behind() && (open ==> l.Synced())
      invariant old(l.blocks) <= l.blocks
    {
      open := Step(l, open, events[i]);
    }
    open := Step(l, open, Restart(2 * |l.blocks|));
    assert l.blocks[..|l.blocks|] == l.blocks;
  }
}

/** Recovery against the two commit modes and against MVCC. */
module RecoveryModes {
  import opened Common
  import opened Mvcc
  import Pipeline
  import R = Recovery
  import Replay

  /** A peer that dies anywhere in a run can be opened again in every case exactly when it
      commits serially. */
  lemma EveryCrashReopensIffSerial(c: Pipeline.Config)
    requires Pipeline.Guarded(c) && 1 <= c.base < c.total
    ensures (forall s :: Pipeline.Reachable(c, s) ==> R.Reopens(|s.store|, s.stateHeight, |s.history|)) <==> !c.parallel
  {
    if c.parallel {
      var steps := Pipeline.StateOutrunsStore(c, c.base + 1);
      var s := Pipeline.Exec(c, Pipeline.Init(c), steps).value;
      assert Pipeline.Reachable(c, s) && !R.Reopens(|s.store|, s.stateHeight, |s.history|);
    } else {
      forall s | Pipeline.Reachable(c, s)
        ensures R.Reopens(|s.store|, s.stateHeight, |s.history|)
      {
        Pipeline.EveryInterleavingKeepsStep(c, s);
      }
    }
  }

  /** A block as the ledger stores it: envelopes and transaction filter. */
  type FilteredBlock = b: (seq<Replay.Envelope>, seq<Replay.Flag>) | |b.0| == |b.1| witness ([], [])

  function MvccProcess(db: State, n: nat, b: FilteredBlock, doMvcc: bool): Option<(FilteredBlock, Updates)> {
    var r := Replay.Process(db, n, b.0, b.1, doMvcc);
    if r.None? then None else Some(((b.0, r.value.flags), r.value.batch.updates))
  }

  /** The passes around MVCC obey the law recovery rests on. */
  lemma {:induction false} MvccReplays()
    ensures R.ReplayLaw(MvccProcess)
  {
    forall db, db', n, b: FilteredBlock | MvccProcess(db, n, b, true).Some?
      ensures MvccProcess(db', n, MvccProcess(db, n, b, true).value.0, false) == MvccProcess(db, n, b, true)
    {
      Replay.ReplayEqualsOriginal(db, db', n, b.0, b.1);
    }
  }
}
