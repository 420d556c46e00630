/** The commit pipeline as a state machine. The main goroutine validates a block,
    then either writes ledger and state itself (serial) or spawns one goroutine for
    each (parallel) and goes on. One step is one lock-protected region, or one access to
    the variable err that the two goroutines of a block share. */
module Pipeline {
  import opened Common
  import opened Mvcc

  datatype Config = Config(
    total: nat,                       // number of blocks to commit
    software: (State, nat) -> Batch,  // software verdict on block n, given the state
    hardware: nat -> Batch,           // the accelerator's verdict on block n
    base: nat,                        // blocks already in every store at start
    pvtHeight: nat,                   // height of the private data store at start
    parallel: bool,                   // LedgerStateDBParallelCommit
    hwEnabled: bool,
    hwSwStateDb: bool,
    hwStartingBlock: nat)
  {
    predicate Valid() {
      base <= total && base <= pvtHeight
    }

    /** The gate in front of validation is skipped altogether. */
    predicate Bypassed() {
      hwEnabled && !hwSwStateDb
    }

    predicate WritesState(n: nat) {
      n < hwStartingBlock || !hwEnabled || hwSwStateDb
    }

    /** isPvtstoreAheadOfBlkstore, computed when the ledger is opened. */
    predicate PvtAhead() {
      pvtHeight > base
    }

    /** Reference: the state after committing the first n blocks one after the other. */
    ghost function Committed(n: nat): State
      decreases n, 0
    {
      if n == 0 then map[] else Overlay(Committed(n - 1), Reference(n - 1).updates)
    }

    /** Reference: block n validated against the state after its predecessors. */
    ghost function Reference(n: nat): Batch
      decreases n, 1
    {
      software(Committed(n), n)
    }

    ghost predicate HardwareFaithful() {
      hwEnabled ==> forall n | hwStartingBlock <= n < total :: hardware(n) == Reference(n)
    }
  }

  datatype Prepared = Prepared(num: nat, batch: Batch)

  datatype StoredBlock = StoredBlock(num: nat, codes: seq<Code>)

  /** Where main stands inside CommitLegacy for block `next`. */
  datatype Pc = AtGate | Validated | LedgerWritten | AtHistory

  datatype Peer = Peer(
    next: nat,
    pc: Pc,
    current: Option<Prepared>,        // txmgr.current
    db: State,
    stateHeight: nat,                 // savepoint block + 1, 0 if there is none
    store: seq<StoredBlock>,
    pvtHeight: nat,
    history: seq<nat>,
    ledgerJobs: map<nat, StoredBlock>,  // spawned goroutines that have not run yet
    stateJobs: set<nat>,
    failed: set<nat>,                 // blocks whose err holds an error
    checks: set<nat>,                 // state goroutines that have set err and not tested it
    panicked: bool)

  datatype Step =
    | Validate
    | Spawn
    | WriteLedger
    | WriteState
    | WriteHistory
    | LedgerJob(num: nat)
    | StateJob(num: nat)
    | CheckJob(num: nat)

  /** The block store holds the first blocks, each once, in order, with the filter
      that serial validation gives it. */
  ghost predicate IsStoredPrefix(c: Config, store: seq<StoredBlock>) {
    && |store| <= c.total
    && forall i | 0 <= i < |store| :: store[i] == Stored(c, i)
  }

  ghost function Stored(c: Config, n: nat): StoredBlock {
    StoredBlock(n, c.Reference(n).codes)
  }

  ghost function Init(c: Config): Peer
    requires c.Valid()
  {
    Peer(c.base, AtGate, None, c.Committed(c.base), c.base,
         seq(c.base, i requires 0 <= i < c.base => Stored(c, i)), c.pvtHeight, seq(c.base, i => i),
         map[], {}, {}, {}, false)
  }

  /** validateAndPrepareBatch of block n on the state `db`. */
  function Prepare(c: Config, db: State, n: nat): Batch
  {
    if n < c.hwStartingBlock || !c.hwEnabled then c.software(db, n) else c.hardware(n)
  }

  /** txmgr.Commit: write whatever `current` holds, then reset it. */
  function CommitState(c: Config, s: Peer): Peer {
    if s.current.None? then s.(panicked := true)
    else
      var p := s.current.value;
      if c.WritesState(p.num) then s.(db := Overlay(s.db, p.batch.updates), stateHeight := p.num + 1, current := None)
      else s.(current := None)
  }

  /** commitToPvtAndBlockStore, once its height test has passed; the block store refuses any
      block but the one whose number is its height. The outcome goes into err. */
  function AppendBlock(c: Config, s: Peer, b: StoredBlock): Peer {
    s.(store := if b.num == |s.store| then s.store + [b] else s.store,
       pvtHeight := if c.PvtAhead() then s.pvtHeight else b.num + 1,
       failed := if b.num == |s.store| then s.failed - {b.num} else s.failed + {b.num})
  }

  function PreparedBlock(s: Peer): StoredBlock {
    StoredBlock(s.next, if s.current.Some? then s.current.value.batch.codes else [])
  }

  /** One step; None if it is not enabled (a spinning goroutine, or no such one). */
  ghost function Do(c: Config, s: Peer, step: Step): Option<Peer>
    requires c.Valid()
  {
    if s.panicked then None
    else match step
      case Validate =>
        if s.pc != AtGate || s.next >= c.total then None
        else if s.next > 0 && s.stateHeight == 0 then Some(s.(panicked := true))     // nil savepoint
        else if s.next == 0 || s.stateHeight == s.next || c.Bypassed() then
          Some(s.(pc := Validated, current := Some(Prepared(s.next, Prepare(c, s.db, s.next)))))
        else None
      case Spawn =>
        if s.pc != Validated || !c.parallel then None
        else Some(s.(pc := AtHistory, ledgerJobs := s.ledgerJobs[s.next := PreparedBlock(s)],
                     stateJobs := s.stateJobs + {s.next}))
      case WriteLedger =>
        if s.pc != Validated || c.parallel || s.pvtHeight != s.next || |s.store| != s.next then None
        else Some(AppendBlock(c, s, PreparedBlock(s)).(pc := LedgerWritten))
      case WriteState =>
        if s.pc != LedgerWritten then None
        else Some(CommitState(c, s).(pc := AtHistory))
      case WriteHistory =>
        if s.pc != AtHistory then None
        else Some(s.(pc := AtGate, history := s.history + [s.next], next := s.next + 1))
      case LedgerJob(n) =>
        if n !in s.ledgerJobs || s.pvtHeight != n then None
        else Some(AppendBlock(c, s, s.ledgerJobs[n]).(ledgerJobs := s.ledgerJobs - {n}))
      case StateJob(n) =>
        if n !in s.stateJobs then None
        else Some(CommitState(c, s).(stateJobs := s.stateJobs - {n}, failed := s.failed - {n},
                                     checks := s.checks + {n}))
      case CheckJob(n) =>
        if n !in s.checks then None
        else Some(s.(checks := s.checks - {n}, panicked := n in s.failed))
  }

  /** A run is any sequence of enabled steps. */
  ghost function Exec(c: Config, s: Peer, steps: seq<Step>): Option<Peer>
    requires c.Valid()
  {
    if steps == [] then Some(s)
    else
      var s' := Exec(c, s, steps[..|steps| - 1]);
      if s'.None? then None else Do(c, s'.value, steps[|steps| - 1])
  }

  ghost predicate Reachable(c: Config, s: Peer)
    requires c.Valid()
  {
    exists steps :: Exec(c, Init(c), steps) == Some(s)
  }

  // ---------- the invariant ----------

  /** The gate is in force, and either the genesis block is in place or main commits
      blocks itself. */
  predicate Guarded(c: Config) {
    c.Valid() && !c.Bypassed() && (c.parallel ==> c.base >= 1)
  }

  /** And the accelerator judges as the software does. */
  ghost predicate Gated(c: Config) {
    Guarded(c) && c.HardwareFaithful()
  }

  /** A ledger goroutine passes its height test and is refused by the block store. */
  predicate Refuses(c: Config) {
    c.parallel && c.PvtAhead() && c.pvtHeight < c.total
  }

  predicate Holds(s: Peer, n: nat) {
    s.current.Some? && s.current.value.num == n
  }

  /** Blocks handed over for writing so far. */
  function Handed(s: Peer): nat {
    if s.pc == LedgerWritten || s.pc == AtHistory then s.next + 1 else s.next
  }

  predicate StateSide(c: Config, s: Peer) {
    match s.pc
    case AtGate =>
      || (s.stateJobs == {} && s.stateHeight == s.next && s.current == None)
      || (c.parallel && s.next > 1 && s.stateJobs == {s.next - 1} && s.stateHeight == s.next - 1
          && Holds(s, s.next - 1))
    case Validated =>
      s.stateJobs == {} && s.stateHeight == s.next && Holds(s, s.next)
    case LedgerWritten =>
      !c.parallel && s.stateJobs == {} && s.stateHeight == s.next && Holds(s, s.next)
    case AtHistory =>
      || (s.stateJobs == {} && s.stateHeight == s.next + 1 && s.current == None)
      || (c.parallel && s.stateJobs == {s.next} && s.stateHeight == s.next && Holds(s, s.next))
  }

  /** The stores: level with each other, or both as they were if the private data store is ahead. */
  predicate StoreHeights(c: Config, s: Peer) {
    if c.PvtAhead() then |s.store| == c.base && s.pvtHeight == c.pvtHeight else s.pvtHeight == |s.store|
  }

  predicate LedgerSide(c: Config, s: Peer) {
    && StoreHeights(c, s) && |s.store| <= Handed(s) <= c.total
    && (forall n | n in s.ledgerJobs :: |s.store| <= n < Handed(s) && s.ledgerJobs[n].num == n)
    && (!c.PvtAhead() ==> forall n | |s.store| <= n < Handed(s) :: n in s.ledgerJobs)
    && (!c.parallel ==> |s.store| == Handed(s))
  }

  /** err: only the block at which the ledger goroutine is refused ever holds an error. */
  predicate ErrSide(c: Config, s: Peer) {
    && (forall n | n in s.failed :: Refuses(c) && n == c.pvtHeight)
    && (!c.parallel ==> s.checks == {})
    && (s.panicked ==> Refuses(c))
  }

  /** Where everything stands. */
  predicate Control(c: Config, s: Peer) {
    && c.base <= s.next <= c.total && (s.pc != AtGate ==> s.next < c.total)
    && (s.next > 0 && c.parallel ==> s.stateHeight > 0)
    && s.stateHeight <= c.total
    && s.history == seq(s.next, i => i)
    && StateSide(c, s) && LedgerSide(c, s) && ErrSide(c, s)
  }

  /** And what it holds: the state and the filters of the serial commit. */
  ghost predicate Contents(c: Config, s: Peer)
    requires c.Valid()
  {
    && s.db == c.Committed(s.stateHeight)
    && (s.current.Some? ==> s.current.value.batch == c.Reference(s.current.value.num))
    && IsStoredPrefix(c, s.store)
    && (forall n | n in s.ledgerJobs :: s.ledgerJobs[n] == Stored(c, n))
  }

  lemma ValidateControl(c: Config, s: Peer)
    requires Guarded(c) && Control(c, s) && Do(c, s, Validate).Some?
    ensures Control(c, Do(c, s, Validate).value)
  {
  }

  lemma SpawnControl(c: Config, s: Peer)
    requires Guarded(c) && Control(c, s) && Do(c, s, Spawn).Some?
    ensures Control(c, Do(c, s, Spawn).value)
  {
  }

  lemma WriteLedgerControl(c: Config, s: Peer)
    requires Guarded(c) && Control(c, s) && Do(c, s, WriteLedger).Some?
    ensures Control(c, Do(c, s, WriteLedger).value)
  {
  }

  lemma WriteStateControl(c: Config, s: Peer)
    requires Guarded(c) && Control(c, s) && Do(c, s, WriteState).Some?
    ensures Control(c, Do(c, s, WriteState).value)
  {
    CommitAdvances(c, s, s.next);
  }

  lemma WriteHistoryControl(c: Config, s: Peer)
    requires Guarded(c) && Control(c, s) && Do(c, s, WriteHistory).Some?
    ensures Control(c, Do(c, s, WriteHistory).value)
  {
  }

  lemma LedgerJobControl(c: Config, s: Peer, n: nat)
    requires Guarded(c) && Control(c, s) && Do(c, s, LedgerJob(n)).Some?
    ensures Control(c, Do(c, s, LedgerJob(n)).value)
  {
  }

  lemma StateJobControl(c: Config, s: Peer, n: nat)
    requires Guarded(c) && Control(c, s) && Do(c, s, StateJob(n)).Some?
    ensures Control(c, Do(c, s, StateJob(n)).value)
  {
    OnlyJob(c, s, n);
    CommitAdvances(c, s, n);
    var s' := Do(c, s, StateJob(n)).value;
    assert s'.stateJobs == {};
    assert StateSide(c, s');
  }

  lemma CheckJobControl(c: Config, s: Peer, n: nat)
    requires Guarded(c) && Control(c, s) && Do(c, s, CheckJob(n)).Some?
    ensures Control(c, Do(c, s, CheckJob(n)).value)
  {
  }

  lemma CommitAdvances(c: Config, s: Peer, n: nat)
    requires c.Valid() && !c.Bypassed() && Holds(s, n)
    ensures CommitState(c, s)
            == s.(db := Overlay(s.db, s.current.value.batch.updates), stateHeight := n + 1, current := None)
  {
  }

  lemma OnlyJob(c: Config, s: Peer, n: nat)
    requires c.Valid() && Control(c, s) && n in s.stateJobs
    ensures s.stateJobs == {n} && s.stateJobs - {n} == {} && s.stateHeight == n && Holds(s, n)
    ensures c.parallel && ((s.pc == AtGate && s.next == n + 1 && s.next > 1) || (s.pc == AtHistory && s.next == n))
  {
  }

  /** Every step keeps the heights, the queues and the turns. */
  lemma {:induction false} StepKeepsControl(c: Config, s: Peer, step: Step)
    requires Guarded(c) && Control(c, s) && Do(c, s, step).Some?
    ensures Control(c, Do(c, s, step).value)
  {
    match step
    case Validate => ValidateControl(c, s);
    case Spawn => SpawnControl(c, s);
    case WriteLedger => WriteLedgerControl(c, s);
    case WriteState => WriteStateControl(c, s);
    case WriteHistory => WriteHistoryControl(c, s);
    case LedgerJob(n) => LedgerJobControl(c, s, n);
    case StateJob(n) => StateJobControl(c, s, n);
    case CheckJob(n) => CheckJobControl(c, s, n);
  }

  lemma PrepareIsMvcc(c: Config, n: nat)
    requires Gated(c) && n < c.total
    ensures Prepare(c, c.Committed(n), n) == c.Reference(n)
  {
  }

  lemma ValidateContents(c: Config, s: Peer)
    requires Gated(c) && Control(c, s) && Contents(c, s) && Do(c, s, Validate).Some?
    ensures Contents(c, Do(c, s, Validate).value)
  {
    PrepareIsMvcc(c, s.next);
  }

  lemma CommitContents(c: Config, s: Peer, n: nat)
    requires Guarded(c) && Contents(c, s) && Holds(s, n) && s.stateHeight == n
    ensures Contents(c, CommitState(c, s))
  {
    CommitAdvances(c, s, n);
    assert c.Committed(n + 1) == Overlay(c.Committed(n), c.Reference(n).updates);
  }

  /** Every step keeps what they hold. */
  lemma {:induction false} StepKeepsContents(c: Config, s: Peer, step: Step)
    requires Gated(c) && Control(c, s) && Contents(c, s) && Do(c, s, step).Some?
    ensures Contents(c, Do(c, s, step).value)
  {
    match step
    case Validate => ValidateContents(c, s);
    case WriteState => CommitContents(c, s, s.next);
    case StateJob(n) =>
      OnlyJob(c, s, n);
      CommitContents(c, s, n);
    case Spawn =>
    case WriteLedger =>
      assert PreparedBlock(s) == Stored(c, s.next);
    case WriteHistory =>
    case LedgerJob(_) =>
    case CheckJob(_) =>
  }

  lemma {:induction false} RunsKeepControl(c: Config, steps: seq<Step>)
    requires Guarded(c) && Exec(c, Init(c), steps).Some?
    ensures Control(c, Exec(c, Init(c), steps).value)
  {
    if steps != [] {
      RunsKeepControl(c, steps[..|steps| - 1]);
      StepKeepsControl(c, Exec(c, Init(c), steps[..|steps| - 1]).value, steps[|steps| - 1]);
    }
  }

  lemma {:induction false} RunsKeepContents(c: Config, steps: seq<Step>)
    requires Gated(c) && Exec(c, Init(c), steps).Some?
    ensures Contents(c, Exec(c, Init(c), steps).value)
  {
    if steps != [] {
      RunsKeepContents(c, steps[..|steps| - 1]);
      RunsKeepControl(c, steps[..|steps| - 1]);
      StepKeepsContents(c, Exec(c, Init(c), steps[..|steps| - 1]).value, steps[|steps| - 1]);
    }
  }

  // ---------- safety of every interleaving ----------

  /** In every reachable state of every interleaving, whatever the accelerator answers: nothing
      panics, unless a ledger goroutine can be refused; the block store is at most one ahead of
      the state; the history database holds the blocks main has finished, at most one more
      than the state. */
  lemma {:induction false} EveryInterleavingKeepsStep(c: Config, s: Peer)
    requires Guarded(c) && Reachable(c, s)
    ensures !Refuses(c) ==> !s.panicked
    ensures StoreHeights(c, s) && |s.store| <= s.stateHeight + 1
    ensures s.history == seq(s.next, i => i) && s.next <= s.stateHeight + 1
    ensures !c.parallel ==> s.stateHeight <= |s.store| && s.next <= s.stateHeight
  {
    var steps :| Exec(c, Init(c), steps) == Some(s);
    RunsKeepControl(c, steps);
  }

  /** And what is committed is right: the block store is a prefix of the chain, each block
      once and in order, with the filters of the serial commit; the state is that of the
      serial commit. */
  lemma {:induction false} EveryInterleavingIsSafe(c: Config, s: Peer)
    requires Gated(c) && Reachable(c, s)
    ensures !Refuses(c) ==> !s.panicked
    ensures IsStoredPrefix(c, s.store) && StoreHeights(c, s)
    ensures |s.store| <= s.stateHeight + 1
    ensures s.db == c.Committed(s.stateHeight)
    ensures s.history == seq(s.next, i => i) && s.next <= s.stateHeight + 1
    ensures !c.parallel ==> s.stateHeight <= |s.store| && s.next <= s.stateHeight
  {
    EveryInterleavingKeepsStep(c, s);
    var steps :| Exec(c, Init(c), steps) == Some(s);
    RunsKeepContents(c, steps);
  }

  /** Validation never overwrites a batch that is still to be written, and judges block
      n on the state after block n - 1. */
  lemma ValidateWaitsForCommit(c: Config, s: Peer)
    requires Gated(c) && Reachable(c, s) && Do(c, s, Validate).Some?
    ensures s.current == None && s.stateJobs == {}
    ensures s.db == c.Committed(s.next)
    ensures Do(c, s, Validate).value.current == Some(Prepared(s.next, c.Reference(s.next)))
  {
    var steps :| Exec(c, Init(c), steps) == Some(s);
    RunsKeepControl(c, steps);
    RunsKeepContents(c, steps);
    PrepareIsMvcc(c, s.next);
  }

  /** Each state goroutine writes the batch of its own block. */
  lemma StateJobWritesItsBlock(c: Config, s: Peer, n: nat)
    requires Gated(c) && Reachable(c, s) && n in s.stateJobs
    ensures s.current == Some(Prepared(n, c.Reference(n)))
  {
    var steps :| Exec(c, Init(c), steps) == Some(s);
    RunsKeepControl(c, steps);
    RunsKeepContents(c, steps);
    OnlyJob(c, s, n);
  }

  // ---------- liveness ----------

  ghost predicate Done(c: Config, s: Peer) {
    && s.next == s.stateHeight == |s.store| == |s.history| == c.total
    && s.pc == AtGate && s.stateJobs == {} && s.ledgerJobs == map[] && s.checks == {}
  }

  function Remaining(c: Config, s: Peer): int {
    8 * (c.total - s.next)
    - (match s.pc case AtGate => 0 case Validated => 1 case LedgerWritten => 2 case AtHistory => 5)
    + |s.ledgerJobs| + 2 * |s.stateJobs| + |s.checks|
  }

  lemma RemovingShrinks<K, V>(m: map<K, V>, k: K)
    requires k in m
    ensures |m - {k}| == |m| - 1
  {
    assert (m - {k}).Keys == m.Keys - {k};
  }

  lemma AddingGrows<K, V>(m: map<K, V>, k: K, v: V)
    ensures |m[k := v]| <= |m| + 1
  {
    assert m[k := v].Keys == m.Keys + {k};
  }

  /** Every step uses up some of the remaining work. */
  lemma {:induction false} StepShrinksRemaining(c: Config, s: Peer, step: Step)
    requires Guarded(c) && Control(c, s) && Do(c, s, step).Some?
    ensures 0 <= Remaining(c, Do(c, s, step).value) < Remaining(c, s)
  {
    StepKeepsControl(c, s, step);
    RemainingIsNat(c, Do(c, s, step).value);
    match step
    case Spawn => SpawnShrinks(c, s);
    case LedgerJob(n) => LedgerJobShrinks(c, s, n);
    case StateJob(n) => StateJobShrinks(c, s, n);
    case CheckJob(n) => CheckJobShrinks(c, s, n);
    case Validate => ValidateShrinks(c, s);
    case WriteLedger => WriteLedgerShrinks(c, s);
    case WriteState => WriteStateShrinks(c, s);
    case WriteHistory => WriteHistoryShrinks(c, s);
  }

  lemma ValidateShrinks(c: Config, s: Peer)
    requires Guarded(c) && Control(c, s) && Do(c, s, Validate).Some?
    ensures Remaining(c, Do(c, s, Validate).value) < Remaining(c, s)
  {
  }

  lemma WriteLedgerShrinks(c: Config, s: Peer)
    requires Guarded(c) && Control(c, s) && Do(c, s, WriteLedger).Some?
    ensures Remaining(c, Do(c, s, WriteLedger).value) < Remaining(c, s)
  {
  }

  lemma WriteStateShrinks(c: Config, s: Peer)
    requires Guarded(c) && Control(c, s) && Do(c, s, WriteState).Some?
    ensures Remaining(c, Do(c, s, WriteState).value) < Remaining(c, s)
  {
    CommitStateFrame(c, s);
  }

  lemma WriteHistoryShrinks(c: Config, s: Peer)
    requires c.Valid() && Do(c, s, WriteHistory).Some?
    ensures Remaining(c, Do(c, s, WriteHistory).value) < Remaining(c, s)
  {
  }

  lemma RemainingIsNat(c: Config, s: Peer)
    requires c.Valid() && Control(c, s)
    ensures 0 <= Remaining(c, s)
  {
  }

  lemma LedgerJobShrinks(c: Config, s: Peer, n: nat)
    requires c.Valid() && Do(c, s, LedgerJob(n)).Some?
    ensures Remaining(c, Do(c, s, LedgerJob(n)).value) < Remaining(c, s)
  {
    RemovingShrinks(s.ledgerJobs, n);
  }

  lemma StateJobShrinks(c: Config, s: Peer, n: nat)
    requires c.Valid() && Do(c, s, StateJob(n)).Some?
    ensures Remaining(c, Do(c, s, StateJob(n)).value) < Remaining(c, s)
  {
    StateJobFrame(c, s, n);
    TakeOut(s.stateJobs, n);
    PutIn(s.checks, n);
  }

  lemma StateJobFrame(c: Config, s: Peer, n: nat)
    requires c.Valid() && Do(c, s, StateJob(n)).Some?
    ensures var s' := Do(c, s, StateJob(n)).value;
            && n in s.stateJobs && s'.stateJobs == s.stateJobs - {n} && s'.checks == s.checks + {n}
            && s'.next == s.next && s'.pc == s.pc && s'.ledgerJobs == s.ledgerJobs
  {
    CommitStateFrame(c, s);
  }

  lemma TakeOut(s: set<nat>, n: nat)
    requires n in s
    ensures |s - {n}| == |s| - 1
  {
  }

  lemma PutIn(s: set<nat>, n: nat)
    ensures |s + {n}| <= |s| + 1
  {
  }

  lemma CheckJobShrinks(c: Config, s: Peer, n: nat)
    requires c.Valid() && Do(c, s, CheckJob(n)).Some?
    ensures Remaining(c, Do(c, s, CheckJob(n)).value) < Remaining(c, s)
  {
    TakeOut(s.checks, n);
  }

  lemma CommitStateFrame(c: Config, s: Peer)
    ensures var s' := CommitState(c, s);
            (s'.next, s'.pc, s'.stateJobs, s'.checks, s'.ledgerJobs, s'.store, s'.pvtHeight, s'.history)
            == (s.next, s.pc, s.stateJobs, s.checks, s.ledgerJobs, s.store, s.pvtHeight, s.history)
  {
  }

  lemma SpawnShrinks(c: Config, s: Peer)
    requires c.Valid() && Do(c, s, Spawn).Some?
    ensures Remaining(c, Do(c, s, Spawn).value) < Remaining(c, s)
  {
    AddingGrows(s.ledgerJobs, s.next, PreparedBlock(s));
    PutIn(s.stateJobs, s.next);
  }

  /** While work remains some goroutine can move. */
  lemma SomeStepEnabled(c: Config, s: Peer) returns (step: Step)
    requires Guarded(c) && !c.PvtAhead() && Control(c, s) && !Done(c, s)
    ensures Do(c, s, step).Some?
  {
    if s.stateJobs != {} {
      var n :| n in s.stateJobs;
      return StateJob(n);
    }
    if s.checks != {} {
      var n :| n in s.checks;
      return CheckJob(n);
    }
    if |s.store| < Handed(s) {
      return LedgerJob(|s.store|);
    }
    assert s.ledgerJobs == map[];
    match s.pc
    case AtGate =>
      return Validate;
    case Validated =>
      return if c.parallel then Spawn else WriteLedger;
    case LedgerWritten =>
      return WriteState;
    case AtHistory =>
      return WriteHistory;
  }

  lemma {:induction false} RunsAreShort(c: Config, steps: seq<Step>)
    requires Guarded(c) && Exec(c, Init(c), steps).Some?
    ensures 0 <= Remaining(c, Exec(c, Init(c), steps).value) <= 8 * (c.total - c.base) - |steps|
  {
    if steps != [] {
      RunsAreShort(c, steps[..|steps| - 1]);
      var s := Exec(c, Init(c), steps[..|steps| - 1]).value;
      RunsKeepControl(c, steps[..|steps| - 1]);
      StepShrinksRemaining(c, s, steps[|steps| - 1]);
    }
  }

  /** Under every scheduler the pipeline finishes: no run takes more than eight steps per
      block, and a run that cannot be continued has committed every block everywhere. */
  lemma {:induction false} EveryRunFinishes(c: Config, steps: seq<Step>)
    requires Gated(c) && !c.PvtAhead() && Exec(c, Init(c), steps).Some?
    ensures |steps| <= 8 * (c.total - c.base)
    ensures var s := Exec(c, Init(c), steps).value;
            if Done(c, s) then s.db == c.Committed(c.total)
            else exists step :: Exec(c, Init(c), steps + [step]).Some?
  {
    RunsAreShort(c, steps);
    RunsKeepControl(c, steps);
    RunsKeepContents(c, steps);
    var s := Exec(c, Init(c), steps).value;
    if !Done(c, s) {
      var step := SomeStepEnabled(c, s);
      ExecMore(c, Init(c), steps, step);
    }
  }

  // ---------- what breaks it ----------

  lemma ExecMore(c: Config, s: Peer, steps: seq<Step>, step: Step)
    requires c.Valid()
    ensures Exec(c, s, steps + [step]) == if Exec(c, s, steps).None? then None else Do(c, Exec(c, s, steps).value, step)
  {
    assert (steps + [step])[..|steps|] == steps;
  }

  /** With the gate bypassed main prepares block base + 1 over the pending batch of block
      base: one state goroutine then writes the wrong block and the other panics. */
  lemma BypassedGatePanics(c: Config)
    requires c.Valid() && c.parallel && c.Bypassed() && 1 <= c.base && c.base + 2 <= c.total
    ensures exists s :: Reachable(c, s) && s.panicked
  {
    var b := c.base;
    var s0 := Init(c);
    var steps := BothSpawned(c);
    ExecMore(c, s0, steps, StateJob(b));
    ExecMore(c, s0, steps + [StateJob(b)], StateJob(b + 1));
    var s := Exec(c, s0, steps + [StateJob(b)] + [StateJob(b + 1)]).value;
    assert Reachable(c, s) && s.panicked;
  }

  /** Blocks base and base + 1 are both handed over, and only the latter is pending. */
  lemma BothSpawned(c: Config) returns (steps: seq<Step>)
    requires c.Valid() && c.parallel && c.Bypassed() && 1 <= c.base && c.base + 2 <= c.total
    ensures Exec(c, Init(c), steps).Some?
    ensures var s := Exec(c, Init(c), steps).value;
            !s.panicked && c.base in s.stateJobs && c.base + 1 in s.stateJobs && s.current.Some?
  {
    var s0 := Init(c);
    steps := [Validate, Spawn, WriteHistory, Validate, Spawn];
    ExecMore(c, s0, [], Validate);
    ExecMore(c, s0, steps[..1], Spawn);
    ExecMore(c, s0, steps[..2], WriteHistory);
    ExecMore(c, s0, steps[..3], Validate);
    ExecMore(c, s0, steps[..4], Spawn);
    assert [] + [Validate] == steps[..1] && steps[..1] + [Spawn] == steps[..2];
    assert steps[..2] + [WriteHistory] == steps[..3];
    assert steps[..3] + [Validate] == steps[..4] && steps[..4] + [Spawn] == steps;
  }

  /** From an empty ledger, main reaches block 1 before any savepoint exists. */
  lemma NoGenesisPanics(c: Config)
    requires c.Valid() && c.parallel && c.base == 0 && 2 <= c.total
    ensures exists s :: Reachable(c, s) && s.panicked
  {
    var s0 := Init(c);
    var t := [Validate, Spawn, WriteHistory, Validate];
    ExecMore(c, s0, [], Validate);
    ExecMore(c, s0, t[..1], Spawn);
    ExecMore(c, s0, t[..2], WriteHistory);
    ExecMore(c, s0, t[..3], Validate);
    assert [] + [Validate] == t[..1] && t[..1] + [Spawn] == t[..2] && t[..2] + [WriteHistory] == t[..3]
           && t[..3] + [Validate] == t;
    var s := Exec(c, s0, t).value;
    assert Reachable(c, s) && s.panicked;
  }

  /** The next block's wait for the private data store can be satisfied exactly when that store
      is not ahead of the block store: only then does any run append a block. */
  lemma {:induction false} StoreGrowsIffPvtNotAhead(c: Config)
    requires c.Valid() && !c.Bypassed() && 1 <= c.base < c.total
    ensures (exists s :: Reachable(c, s) && |s.store| > c.base) <==> !c.PvtAhead()
  {
    if c.PvtAhead() {
      forall s | Reachable(c, s)
        ensures |s.store| == c.base
      {
        EveryInterleavingKeepsStep(c, s);
      }
    } else {
      var steps := FirstBlockStored(c);
      var s := Exec(c, Init(c), steps).value;
      assert Reachable(c, s) && |s.store| > c.base;
    }
  }

  /** The shortest run that appends a block. */
  lemma FirstBlockStored(c: Config) returns (steps: seq<Step>)
    requires c.Valid() && !c.Bypassed() && !c.PvtAhead() && 1 <= c.base < c.total
    ensures Exec(c, Init(c), steps).Some? && |Exec(c, Init(c), steps).value.store| > c.base
  {
    ExecMore(c, Init(c), [], Validate);
    assert [] + [Validate] == [Validate];
    if c.parallel {
      ExecMore(c, Init(c), [Validate], Spawn);
      ExecMore(c, Init(c), [Validate] + [Spawn], LedgerJob(c.base));
      steps := [Validate] + [Spawn] + [LedgerJob(c.base)];
    } else {
      ExecMore(c, Init(c), [Validate], WriteLedger);
      steps := [Validate] + [WriteLedger];
    }
  }

  /** The state can outrun the block store without bound: all remaining blocks can be in
      the state database while the block store has none of them. */
  lemma {:induction false} StateOutrunsStore(c: Config, n: nat) returns (steps: seq<Step>)
    requires Guarded(c) && c.parallel && c.base <= n <= c.total
    ensures Exec(c, Init(c), steps).Some?
    ensures StateAlone(c, Exec(c, Init(c), steps).value, n)
  {
    if n == c.base {
      return [];
    }
    var t := StateOutrunsStore(c, n - 1);
    RunsKeepControl(c, t);
    var s0 := Exec(c, Init(c), t).value;
    var s1 := StateOnlyStart(c, s0, n - 1);
    StateOnlyEnd(c, s0, s1, n - 1);
    var t1, t2, t3 := t + [Validate], t + [Validate] + [Spawn], t + [Validate] + [Spawn] + [StateJob(n - 1)];
    ExecMore(c, Init(c), t, Validate);
    ExecMore(c, Init(c), t1, Spawn);
    ExecMore(c, Init(c), t2, StateJob(n - 1));
    ExecMore(c, Init(c), t3, WriteHistory);
    steps := t3 + [WriteHistory];
  }

  /** n blocks in the state, no more in the stores than at the start. */
  predicate StateAlone(c: Config, s: Peer, n: nat) {
    && s.next == s.stateHeight == n && s.pc == AtGate && s.stateJobs == {} && !s.panicked
    && |s.store| == c.base && s.pvtHeight == c.pvtHeight
  }

  /** Block n committed to the state, its ledger goroutine not scheduled yet. */
  lemma StateOnlyStart(c: Config, s: Peer, n: nat) returns (s3: Peer)
    requires Guarded(c) && c.parallel && n < c.total && Control(c, s) && StateAlone(c, s, n)
    ensures Do(c, s, Validate).Some? && Do(c, Do(c, s, Validate).value, Spawn).Some?
    ensures Do(c, Do(c, Do(c, s, Validate).value, Spawn).value, StateJob(n)) == Some(s3)
    ensures Control(c, s3) && s3.next == n && s3.stateHeight == n + 1 && s3.pc == AtHistory
    ensures s3.stateJobs == {} && !s3.panicked && |s3.store| == c.base && s3.pvtHeight == c.pvtHeight
    ensures n in s3.ledgerJobs && n in s3.checks && n !in s3.failed
  {
    ValidateControl(c, s);
    var s1 := Do(c, s, Validate).value;
    SpawnControl(c, s1);
    var s2 := Do(c, s1, Spawn).value;
    OnlyJob(c, s2, n);
    StateJobControl(c, s2, n);
    CommitAdvances(c, s2, n);
    s3 := Do(c, s2, StateJob(n)).value;
  }

  lemma StateOnlyEnd(c: Config, s: Peer, s3: Peer, n: nat)
    requires Guarded(c) && c.parallel && n < c.total
    requires s3.next == n && s3.stateHeight == n + 1 && s3.pc == AtHistory
    requires s3.stateJobs == {} && !s3.panicked && |s3.store| == c.base && s3.pvtHeight == c.pvtHeight
    ensures Do(c, s3, WriteHistory).Some? && StateAlone(c, Do(c, s3, WriteHistory).value, n + 1)
  {
  }

  /** With the private data store ahead, the ledger goroutine of the block at its height is
      refused by the block store. If that error lands between the state goroutine's own
      setting of err and its test, the state goroutine panics. */
  lemma SharedErrPanics(c: Config)
    requires Guarded(c) && Refuses(c)
    ensures exists s :: Reachable(c, s) && s.panicked
  {
    var n := c.pvtHeight;
    var t := StateOutrunsStore(c, n);
    RunsKeepControl(c, t);
    var s0 := Exec(c, Init(c), t).value;
    var s3 := StateOnlyStart(c, s0, n);
    var t1, t2, t3 := t + [Validate], t + [Validate] + [Spawn], t + [Validate] + [Spawn] + [StateJob(n)];
    ExecMore(c, Init(c), t, Validate);
    ExecMore(c, Init(c), t1, Spawn);
    ExecMore(c, Init(c), t2, StateJob(n));
    ExecMore(c, Init(c), t3, LedgerJob(n));
    ExecMore(c, Init(c), t3 + [LedgerJob(n)], CheckJob(n));
    RefusedThenTested(c, s3, n);
    var s := Exec(c, Init(c), t3 + [LedgerJob(n)] + [CheckJob(n)]).value;
    assert Reachable(c, s) && s.panicked;
  }

  lemma RefusedThenTested(c: Config, s: Peer, n: nat)
    requires c.Valid() && Control(c, s) && n == c.pvtHeight > c.base && !s.panicked
    requires n in s.ledgerJobs && n in s.checks
    ensures Do(c, s, LedgerJob(n)).Some?
    ensures var s' := Do(c, s, LedgerJob(n)).value;
            Do(c, s', CheckJob(n)).Some? && Do(c, s', CheckJob(n)).value.panicked
  {
  }

  /** With at most one block to commit nothing can panic, gate or no gate. */
  predicate OneBlock(c: Config, s: Peer) {
    && !s.panicked && s.failed == {} && c.base <= s.next <= c.base + 1 && s.next <= c.total
    && (s.pc != AtGate ==> s.next == c.base < c.total)
    && (if c.PvtAhead() then |s.store| == c.base && s.pvtHeight > c.base else s.pvtHeight == |s.store|)
    && (forall n | n in s.ledgerJobs :: n == c.base && s.ledgerJobs[n].num == c.base)
    && (s.next == c.base && s.pc == AtGate ==> s.stateHeight == c.base)
    && (s.next == c.base && s.pc != AtHistory ==> s.stateJobs == {} && s.ledgerJobs == map[])
    && (s.pc == Validated || s.pc == LedgerWritten ==> s.current.Some?)
    && (s.stateJobs != {} ==> s.stateJobs == {c.base} && s.current.Some?)
  }

  lemma {:induction false} OneBlockIsCalm(c: Config, steps: seq<Step>)
    requires c.Valid() && c.total <= c.base + 1 && Exec(c, Init(c), steps).Some?
    ensures OneBlock(c, Exec(c, Init(c), steps).value)
  {
    if steps != [] {
      OneBlockIsCalm(c, steps[..|steps| - 1]);
      OneBlockStep(c, Exec(c, Init(c), steps[..|steps| - 1]).value, steps[|steps| - 1]);
    }
  }

  lemma OneBlockStep(c: Config, s: Peer, step: Step)
    requires c.Valid() && c.total <= c.base + 1 && OneBlock(c, s) && Do(c, s, step).Some?
    ensures OneBlock(c, Do(c, s, step).value)
  {
  }

  /** Parallel commit can panic exactly when there are two blocks to commit with the gate
      bypassed or the genesis block not in place, or when the private data store is ahead of
      the block store and its height is reached. */
  lemma {:induction false} PanicsIff(c: Config)
    requires c.Valid() && c.parallel
    ensures (exists s :: Reachable(c, s) && s.panicked)
            <==> c.base + 2 <= c.total && (c.Bypassed() || c.base == 0 || (c.PvtAhead() && c.pvtHeight < c.total))
  {
    if c.base + 2 > c.total {
      forall s | Reachable(c, s)
        ensures !s.panicked
      {
        var steps :| Exec(c, Init(c), steps) == Some(s);
        OneBlockIsCalm(c, steps);
      }
    } else if c.base == 0 {
      NoGenesisPanics(c);
    } else if c.Bypassed() {
      BypassedGatePanics(c);
    } else if Refuses(c) {
      SharedErrPanics(c);
    } else {
      forall s | Reachable(c, s)
        ensures !s.panicked
      {
        EveryInterleavingKeepsStep(c, s);
      }
    }
  }
}

/** The pipeline instantiated with MVCC: whatever the interleaving, the peer ends in the
    state of the serializable commit. */
module PipelineSerializability {
  import opened Common
  import opened Mvcc
  import opened Serializability
  import opened Pipeline

  ghost predicate RunsMvcc(c: Config, chain: Chain) {
    && c.total == |chain|
    && forall db, n | 0 <= n < |chain| :: c.software(db, n) == MvccBatch(db, n, chain[n], true)
  }

  lemma {:induction false} CommittedIsChainState(c: Config, chain: Chain, n: nat)
    requires RunsMvcc(c, chain) && n <= |chain|
    ensures c.Committed(n) == StateAfter(chain[..n])
  {
    if n == 0 {
      assert chain[..0] == [];
    } else {
      CommittedIsChainState(c, chain, n - 1);
      ReferenceIsMvcc(c, chain, n - 1);
      StateAfterNext(chain, n);
    }
  }

  lemma ReferenceIsMvcc(c: Config, chain: Chain, n: nat)
    requires RunsMvcc(c, chain) && n < |chain|
    ensures c.Reference(n) == MvccBatch(c.Committed(n), n, chain[n], true)
  {
  }

  lemma StateAfterNext(chain: Chain, n: nat)
    requires 0 < n <= |chain|
    ensures var before := StateAfter(chain[..n - 1]);
            StateAfter(chain[..n]) == Overlay(before, MvccBatch(before, n - 1, chain[n - 1], true).updates)
  {
    assert chain[..n][..n - 1] == chain[..n - 1];
  }

  /** A finished parallel run leaves the state that re-executing the VALID invocations one
      by one produces, and the filters that serial validation produces. */
  lemma ParallelCommitIsSerializable(c: Config, chain: Chain, props: seq<seq<Proposal>>, s: Peer)
    requires Gated(c) && RunsMvcc(c, chain) && Endorsed(chain, props)
    requires Reachable(c, s) && Done(c, s)
    ensures s.db == RerunChain(chain, props, |chain|)
    ensures forall n | 0 <= n < |chain| :: s.store[n].num == n && s.store[n].codes == BlockCodes(chain, n)
  {
    EveryInterleavingIsSafe(c, s);
    CommittedIsChainState(c, chain, |chain|);
    CommitIsSerializable(chain, props, |chain|);
    forall n | 0 <= n < |chain|
      ensures c.Reference(n).codes == BlockCodes(chain, n)
    {
      CommittedIsChainState(c, chain, n);
    }
  }
}
