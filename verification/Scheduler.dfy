/** The tx_vscc stage of the simulator: a bounded window of transactions whose endorsements are
    verified out of order and which retire in order (v2.2/scripts/fabric/fm_simulator.py). */
module Scheduler {

  datatype Tx = Tx(num: nat, numEnds: nat, endsIssued: nat, endsFinished: nat) {
    predicate Finished() {
      endsFinished == numEnds
    }
  }

  /** In-progress transactions in the order of insertion, outstanding futures with the number of
      endorsements each verifies, endorsement counts not yet issued, and the transactions retired. */
  datatype State = State(txs: seq<Tx>, fs: map<nat, nat>, fifo: seq<nat>, issued: nat, issuedEnds: bool,
                         retired: seq<nat>)

  // ---------- one iteration ----------

  function Leading(txs: seq<Tx>): (k: nat)
    ensures k <= |txs| && (forall i | 0 <= i < k :: txs[i].Finished()) && (k < |txs| ==> !txs[k].Finished())
  {
    if txs == [] || !txs[0].Finished() then 0 else 1 + Leading(txs[1..])
  }

  function Nums(txs: seq<Tx>): seq<nat> {
    seq(|txs|, i requires 0 <= i < |txs| => txs[i].num)
  }

  /** The first k of the transactions leave. */
  function Drop(s: State, txs: seq<Tx>, k: nat): State
    requires k <= |txs|
  {
    s.(txs := txs[k..], retired := s.retired + Nums(txs[..k]))
  }

  /** finish_tx: the finished transactions at the front leave. */
  function Retire(s: State): State {
    Drop(s, s.txs, Leading(s.txs))
  }

  function MarkTx(tx: Tx, fs: map<nat, nat>, done: set<nat>): Tx {
    if tx.num in done && tx.num in fs then tx.(endsFinished := tx.endsFinished + fs[tx.num]) else tx
  }

  function MarkAll(txs: seq<Tx>, fs: map<nat, nat>, done: set<nat>): (r: seq<Tx>)
    ensures |r| == |txs|
  {
    seq(|txs|, i requires 0 <= i < |txs| => MarkTx(txs[i], fs, done))
  }

  function Handled(s: State, done: set<nat>): State {
    Retire(s.(txs := MarkAll(s.txs, s.fs, done)))
  }

  /** The futures in `done` complete. */
  function Complete(s: State, done: set<nat>): State {
    Handled(s, done).(fs := s.fs - done)
  }

  function Issue(s: State): State
    requires s.fifo != []
  {
    var ends := s.fifo[0];
    var s1 := s.(fifo := s.fifo[1..], issued := s.issued + 1, issuedEnds := true);
    if ends > 0 then
      s1.(txs := s.txs + [Tx(s.issued, ends, ends, 0)], fs := s.fs[s.issued := ends])
    else
      Retire(s1.(txs := s.txs + [Tx(s.issued, 0, 0, 0)]))
  }

  predicate MustWait(s: State, threads: nat) {
    |s.fs| == threads || !s.issuedEnds
  }

  function AfterWait(s: State, threads: nat, done: set<nat>): State {
    if MustWait(s, threads) then Complete(s, done) else s
  }

  predicate CanIssue(s: State, threads: nat, numTxs: nat) {
    |s.txs| < threads && s.issued < numTxs && s.fifo != []
  }

  function Step(s: State, threads: nat, numTxs: nat, done: set<nat>): State {
    var s1 := AfterWait(s, threads, done).(issuedEnds := false);
    if CanIssue(s1, threads, numTxs) then Issue(s1) else s1
  }

  predicate Running(s: State, numTxs: nat) {
    s.issued < numTxs || s.txs != []
  }

  /** What futures.wait may return: at least one future, if there are any. */
  predicate MayComplete(s: State, done: set<nat>) {
    done <= s.fs.Keys && (s.fs != map[] ==> done != {})
  }

  // ---------- the window ----------

  function Range(n: nat): seq<nat> {
    seq(n, i => i)
  }

  predicate InProgress(tx: Tx, fs: map<nat, nat>, ends: seq<nat>) {
    && tx.num < |ends| && tx.numEnds == ends[tx.num] == tx.endsIssued
    && if tx.Finished() then tx.num !in fs else tx.endsFinished == 0 && tx.num in fs && fs[tx.num] == tx.numEnds
  }

  /** Transactions 0.. retired, in progress, and yet to come, in this order; every unfinished one
      has its future, and no future is left over. The queue goes on behind the block. */
  predicate InOrder(s: State, numTxs: nat, ends: seq<nat>) {
    && s.retired == Range(|s.retired|) && s.issued == |s.retired| + |s.txs| <= numTxs <= |ends|
    && s.fifo == ends[s.issued..]
    && (forall i | 0 <= i < |s.txs| :: s.txs[i].num == |s.retired| + i && InProgress(s.txs[i], s.fs, ends))
    && (forall t | t in s.fs :: |s.retired| <= t < s.issued)
  }

  /** The head is unfinished, and the window is at most as wide as there are threads. */
  predicate Window(s: State, threads: nat, numTxs: nat, ends: seq<nat>) {
    InOrder(s, numTxs, ends) && (s.txs != [] ==> !s.txs[0].Finished()) && |s.txs| <= threads
  }

  lemma FinishedHasNoFuture(s: State, numTxs: nat, ends: seq<nat>, t: nat)
    requires InOrder(s, numTxs, ends) && |s.retired| <= t < |s.retired| + Leading(s.txs)
    ensures t !in s.fs
  {
    assert s.txs[t - |s.retired|].Finished();
  }

  lemma RetireKeeps(s: State, numTxs: nat, ends: seq<nat>)
    requires InOrder(s, numTxs, ends)
    ensures InOrder(Retire(s), numTxs, ends) && (Retire(s).txs != [] ==> !Retire(s).txs[0].Finished())
    ensures |Retire(s).txs| <= |s.txs| && Retire(s).fs == s.fs && Retire(s).issued == s.issued
  {
    var k, r := Leading(s.txs), Retire(s);
    assert r.retired == Range(|r.retired|);
    forall t | t in s.fs
      ensures |r.retired| <= t
    {
      if t < |s.retired| + k {
        FinishedHasNoFuture(s, numTxs, ends, t);
      }
    }
  }

  lemma MarkKeeps(s: State, numTxs: nat, ends: seq<nat>, done: set<nat>)
    requires InOrder(s, numTxs, ends)
    ensures InOrder(s.(txs := MarkAll(s.txs, s.fs, done), fs := s.fs - done), numTxs, ends)
  {
    forall i | 0 <= i < |s.txs|
      ensures InProgress(MarkTx(s.txs[i], s.fs, done), s.fs - done, ends)
    {
    }
  }

  lemma CompleteKeeps(s: State, threads: nat, numTxs: nat, ends: seq<nat>, done: set<nat>)
    requires Window(s, threads, numTxs, ends)
    ensures Window(Complete(s, done), threads, numTxs, ends)
  {
    MarkKeeps(s, numTxs, ends, done);
    RetireKeeps(s.(txs := MarkAll(s.txs, s.fs, done), fs := s.fs - done), numTxs, ends);
  }

  lemma IssueKeeps(s: State, threads: nat, numTxs: nat, ends: seq<nat>)
    requires Window(s, threads, numTxs, ends) && CanIssue(s, threads, numTxs)
    ensures Window(Issue(s), threads, numTxs, ends)
  {
    var n := s.fifo[0];
    assert n == ends[s.issued];
    if n == 0 {
      var s1 := s.(fifo := s.fifo[1..], issued := s.issued + 1, issuedEnds := true,
                   txs := s.txs + [Tx(s.issued, 0, 0, 0)]);
      assert InOrder(s1, numTxs, ends);
      RetireKeeps(s1, numTxs, ends);
      if s.txs != [] {
        assert Leading(s1.txs) == 0;
      } else {
        assert s1.txs[0].Finished();
      }
    } else {
      assert InOrder(Issue(s), numTxs, ends);
    }
  }

  /** Every iteration keeps the window, whatever completes. */
  lemma StepKeepsWindow(s: State, threads: nat, numTxs: nat, ends: seq<nat>, done: set<nat>)
    requires Window(s, threads, numTxs, ends)
    ensures Window(Step(s, threads, numTxs, done), threads, numTxs, ends)
  {
    CompleteKeeps(s, threads, numTxs, ends, done);
    var s1 := AfterWait(s, threads, done).(issuedEnds := false);
    assert Window(s1, threads, numTxs, ends);
    if CanIssue(s1, threads, numTxs) {
      IssueKeeps(s1, threads, numTxs, ends);
    }
  }

  // ---------- termination ----------

  function Initial(ends: seq<nat>): State {
    State([], map[], ends, 0, true, [])
  }

  function Work(s: State, numTxs: nat): int {
    4 * (numTxs - s.issued) + 2 * |s.fs| + if s.issuedEnds then 1 else 0
  }

  lemma FewerFutures(fs: map<nat, nat>, done: set<nat>)
    requires done <= fs.Keys
    ensures |fs - done| == |fs| - |done|
  {
    assert (fs - done).Keys == fs.Keys - done;
    assert |(fs - done).Keys| == |fs - done| && |fs.Keys| == |fs|;
  }

  lemma OneMoreFuture(fs: map<nat, nat>, t: nat, n: nat)
    ensures |fs[t := n]| <= |fs| + 1
  {
    assert fs[t := n].Keys == fs.Keys + {t};
    assert |fs[t := n].Keys| == |fs[t := n]| && |fs.Keys| == |fs|;
  }

  lemma IssueShrinks(s: State, numTxs: nat)
    requires s.fifo != []
    ensures Work(Issue(s), numTxs) < Work(s, numTxs)
  {
    OneMoreFuture(s.fs, s.issued, s.fifo[0]);
  }

  lemma CompleteFrame(s: State, done: set<nat>)
    ensures var s' := Complete(s, done);
            && s'.fs == s.fs - done && s'.issued == s.issued && s'.fifo == s.fifo && s'.issuedEnds == s.issuedEnds
            && |s'.txs| <= |s.txs|
  {
  }

  /** Waiting uses up a future, or at least the note that something was issued. */
  lemma WaitShrinks(s: State, threads: nat, numTxs: nat, done: set<nat>)
    requires MayComplete(s, done) && (s.fs != map[] || s.issuedEnds)
    ensures Work(AfterWait(s, threads, done).(issuedEnds := false), numTxs) < Work(s, numTxs)
  {
    CompleteFrame(s, done);
    FewerFutures(s.fs, done);
    assert s.fs != map[] ==> |done| > 0;
  }

  lemma WithoutFutures(s: State, threads: nat, numTxs: nat, ends: seq<nat>)
    requires Window(s, threads, numTxs, ends) && s.fs == map[]
    ensures s.txs == []
  {
    assert s.txs != [] ==> InProgress(s.txs[0], s.fs, ends);
  }

  lemma NonNegativeWork(s: State, threads: nat, numTxs: nat, ends: seq<nat>)
    requires Window(s, threads, numTxs, ends)
    ensures 0 <= Work(s, numTxs)
  {
  }

  /** With a thread, every iteration gets closer to the end: a completion, an issue, or the decision to wait. */
  lemma StepShrinks(s: State, threads: nat, numTxs: nat, ends: seq<nat>, done: set<nat>)
    requires Window(s, threads, numTxs, ends) && threads >= 1 && Running(s, numTxs) && MayComplete(s, done)
    ensures 0 <= Work(Step(s, threads, numTxs, done), numTxs) < Work(s, numTxs)
  {
    StepKeepsWindow(s, threads, numTxs, ends, done);
    NonNegativeWork(Step(s, threads, numTxs, done), threads, numTxs, ends);
    StepWork(s, threads, numTxs, ends, done);
  }

  lemma StepWork(s: State, threads: nat, numTxs: nat, ends: seq<nat>, done: set<nat>)
    requires Window(s, threads, numTxs, ends) && threads >= 1 && Running(s, numTxs) && MayComplete(s, done)
    ensures Work(Step(s, threads, numTxs, done), numTxs) < Work(s, numTxs)
  {
    var s1 := AfterWait(s, threads, done).(issuedEnds := false);
    CompleteFrame(s, done);
    if s.fs == map[] && !s.issuedEnds {
      WithoutFutures(s, threads, numTxs, ends);
      assert CanIssue(s1, threads, numTxs);
      assert s1.fs == map[];
      IssueShrinks(s1, numTxs);
    } else {
      WaitShrinks(s, threads, numTxs, done);
      if CanIssue(s1, threads, numTxs) {
        IssueShrinks(s1, numTxs);
      }
    }
  }

  /** One turn from a state that still runs, whatever completes. */
  ghost predicate Turn(s: State, s': State, threads: nat, numTxs: nat) {
    Running(s, numTxs) && exists done :: MayComplete(s, done) && s' == Step(s, threads, numTxs, done)
  }

  /** A run over a block of numTxs transactions, with the queue `ends` at its start. */
  ghost predicate IsRun(run: seq<State>, threads: nat, numTxs: nat, ends: seq<nat>) {
    && run != [] && run[0] == Initial(ends)
    && forall i | 0 <= i < |run| - 1 :: Turn(run[i], run[i + 1], threads, numTxs)
  }

  lemma {:induction false} RunKeepsWindow(run: seq<State>, threads: nat, numTxs: nat, ends: seq<nat>, i: nat)
    requires IsRun(run, threads, numTxs, ends) && numTxs <= |ends| && i < |run|
    ensures Window(run[i], threads, numTxs, ends)
    ensures threads >= 1 ==> Work(run[i], numTxs) + i <= 4 * numTxs + 1
  {
    if i == 0 {
      assert ends[0..] == ends;
    } else {
      var k := i - 1;
      RunKeepsWindow(run, threads, numTxs, ends, k);
      assert Turn(run[k], run[k + 1], threads, numTxs);
      var done :| MayComplete(run[k], done) && run[i] == Step(run[k], threads, numTxs, done);
      StepKeepsWindow(run[k], threads, numTxs, ends, done);
      if threads >= 1 {
        StepShrinks(run[k], threads, numTxs, ends, done);
      }
    }
  }

  /** In any order of completion a run that has ended has retired every transaction of the block
      once, in order, and left the queue to the blocks behind it. */
  lemma {:induction false} EndedRunRetiresAll(run: seq<State>, threads: nat, numTxs: nat, ends: seq<nat>)
    requires IsRun(run, threads, numTxs, ends) && numTxs <= |ends| && !Running(run[|run| - 1], numTxs)
    ensures run[|run| - 1].retired == Range(numTxs) && run[|run| - 1].fifo == ends[numTxs..]
  {
    RunKeepsWindow(run, threads, numTxs, ends, |run| - 1);
  }

  ghost predicate BoundedBy(threads: nat, numTxs: nat, ends: seq<nat>, bound: nat) {
    forall run :: IsRun(run, threads, numTxs, ends) ==> |run| <= bound
  }

  /** The loop without threads: it looks again and again and never issues. */
  lemma IdleRun(numTxs: nat, ends: seq<nat>, length: nat)
    requires 0 < numTxs <= |ends|
    ensures exists run :: IsRun(run, 0, numTxs, ends) && |run| == length + 1
  {
    var s := Initial(ends);
    var idle := s.(issuedEnds := false);
    var run := seq(length + 1, i => if i == 0 then s else idle);
    forall i | 0 <= i < |run| - 1
      ensures Turn(run[i], run[i + 1], 0, numTxs)
    {
      var done: set<nat> := {};
      assert MayComplete(run[i], done);
      assert run[i].fs - done == map[];
      assert run[i + 1] == Step(run[i], 0, numTxs, done);
    }
    assert IsRun(run, 0, numTxs, ends);
  }

  lemma ShortRuns(threads: nat, numTxs: nat, ends: seq<nat>)
    requires numTxs <= |ends| && (threads >= 1 || numTxs == 0)
    ensures BoundedBy(threads, numTxs, ends, 4 * numTxs + 2)
  {
    forall run | IsRun(run, threads, numTxs, ends)
      ensures |run| <= 4 * numTxs + 2
    {
      if threads >= 1 {
        RunKeepsWindow(run, threads, numTxs, ends, |run| - 1);
      } else {
        assert |run| > 1 ==> Turn(run[0], run[0 + 1], threads, numTxs);
      }
    }
  }

  /** The stage ends, whatever the order of completion, iff there is a thread or nothing to do. */
  lemma EndsIff(threads: nat, numTxs: nat, ends: seq<nat>)
    requires numTxs <= |ends|
    ensures (exists bound :: BoundedBy(threads, numTxs, ends, bound)) <==> threads >= 1 || numTxs == 0
  {
    if threads >= 1 || numTxs == 0 {
      ShortRuns(threads, numTxs, ends);
    } else {
      forall bound: nat
        ensures !BoundedBy(threads, numTxs, ends, bound)
      {
        IdleRun(numTxs, ends, bound);
      }
    }
  }

  // ---------- the loop ----------

  class TxVscc {
    const vsccThreads: nat
    var txs: seq<Tx>
    var fs: map<nat, nat>
    var fifo: seq<nat>
    var txsIssued: nat
    var issuedEnds: bool
    ghost var retired: seq<nat>

    ghost function St(): State
      reads this
    {
      State(txs, fs, fifo, txsIssued, issuedEnds, retired)
    }

    constructor (threads: nat, txFifo: seq<nat>)
      ensures St() == Initial(txFifo) && vsccThreads == threads
    {
      vsccThreads, txs, fs, fifo, txsIssued, issuedEnds, retired := threads, [], map[], txFifo, 0, true, [];
    }

    /** finish_tx: collect the finished transactions at the front, then delete them. */
    method FinishTx()
      modifies this
      ensures St() == Retire(old(St()))
    {
      var finished := 0;
      ghost var all := txs;
      while finished < |txs| && txs[finished].Finished()
        invariant finished <= |txs| && Leading(txs) == finished + Leading(txs[finished..])
      {
        assert txs[finished..][1..] == txs[finished + 1..];
        finished := finished + 1;
      }
      for i := 0 to finished
        invariant txs == all[i..] && retired == old(retired) + Nums(all[..i])
        invariant (fs, fifo, txsIssued, issuedEnds) == old((fs, fifo, txsIssued, issuedEnds))
      {
        retired := retired + [txs[0].num];
        txs := txs[1..];
      }
    }

    /** issue_tx and issue_ends: all endorsements of the transaction go to one thread. */
    method IssueTx(txNum: nat)
      requires fifo != [] && txNum == txsIssued
      modifies this
      ensures St().(issued := old(txsIssued) + 1, issuedEnds := true) == Issue(old(St()))
              && txsIssued == old(txsIssued) && issuedEnds == old(issuedEnds)
    {
      var txEnds := fifo[0];
      fifo := fifo[1..];
      var tx := Tx(txNum, txEnds, 0, 0);
      if tx.endsIssued < txEnds {
        var numEnds := txEnds - tx.endsIssued;
        fs := fs[txNum := numEnds];
        txs := txs + [tx.(endsIssued := numEnds)];
      } else {
        txs := txs + [tx];
        FinishTx();
      }
    }

    method CountOne(txNum: nat, ghost s: State, ghost counted: set<nat>)
      requires St() == Handled(s, counted) && Counted(s) && txNum in s.fs && txNum !in counted
      modifies this
      ensures St() == Handled(s, counted + {txNum})
    {
      CompleteOne(s, counted, txNum);
      txs := MarkAll(txs, fs, {txNum});
      FinishTx();
    }

    /** The futures that completed, in any order: each is counted, and what is finished leaves. */
    method HandleCompleted(done: set<nat>, ghost s: State)
      requires done <= fs.Keys && s == St() && Counted(s)
      modifies this
      ensures St() == Handled(s, done)
    {
      var todo := done;
      NoneComplete(s);
      NothingTaken(done);
      while todo != {}
        invariant todo <= done <= s.fs.Keys
        invariant St() == Handled(s, done - todo)
        decreases |todo|
      {
        var txNum :| txNum in todo;
        CountOne(txNum, s, done - todo);
        TakeOne(done, todo, txNum);
        todo := todo - {txNum};
      }
      AllTaken(done, todo);
    }

    /** futures.wait when all threads are busy or nothing was issued: any of the futures complete. */
    method Wait() returns (ghost done: set<nat>)
      requires Counted(St())
      modifies this
      ensures MayComplete(old(St()), done) && St() == AfterWait(old(St()), vsccThreads, done)
    {
      done := fs.Keys;
      if |fs| == vsccThreads || !issuedEnds {
        var completed: set<nat> :| completed <= fs.Keys && (fs != map[] ==> completed != {});
        done := completed;
        HandleCompleted(completed, St());
        fs := fs - completed;
      }
    }

    /** One turn of the loop of tx_vscc_v1. */
    method Iteration(numTxs: nat, ghost ends: seq<nat>) returns (ghost done: set<nat>)
      requires Window(St(), vsccThreads, numTxs, ends)
      modifies this
      ensures MayComplete(old(St()), done) && St() == Step(old(St()), vsccThreads, numTxs, done)
    {
      ghost var s := St();
      done := Wait();
      CompleteKeeps(s, vsccThreads, numTxs, ends, done);
      issuedEnds := false;
      if |txs| < vsccThreads && txsIssued < numTxs {
        IssueTx(txsIssued);
        txsIssued := txsIssued + 1;
        issuedEnds := true;
      }
    }

    /** tx_vscc_v1: the queue holds the transactions of this block and of those behind it. */
    method Run(numTxs: nat)
      requires numTxs <= |fifo| && (vsccThreads >= 1 || numTxs == 0)
      modifies this
      ensures retired == Range(numTxs) && txs == [] && fs == map[] && fifo == old(fifo)[numTxs..]
    {
      ghost var ends := fifo;
      txs, fs, txsIssued, issuedEnds, retired := [], map[], 0, true, [];
      assert ends[0..] == ends;
      while txsIssued < numTxs || |txs| != 0
        invariant Window(St(), vsccThreads, numTxs, ends)
        decreases Work(St(), numTxs)
      {
        ghost var s := St();
        ghost var done := Iteration(numTxs, ends);
        StepKeepsWindow(s, vsccThreads, numTxs, ends, done);
        StepShrinks(s, vsccThreads, numTxs, ends, done);
      }
    }

    /** The loop of run_simulation: block after block from one queue. The transactions of the run,
        numbered through, retire each once and in order. */
    method RunSimulation(blocks: seq<nat>) returns (ghost all: seq<nat>)
      requires Total(blocks) <= |fifo| && vsccThreads >= 1
      modifies this
      ensures all == Range(Total(blocks)) && fifo == old(fifo)[Total(blocks)..]
    {
      all := [];
      assert blocks[..|blocks|] == blocks;
      for b := 0 to |blocks|
        invariant Total(blocks[..b]) <= |old(fifo)| && fifo == old(fifo)[Total(blocks[..b])..]
        invariant all == Range(Total(blocks[..b]))
      {
        TotalNext(blocks, b);
        ghost var start := |all|;
        Run(blocks[b]);
        all := all + Shifted(retired, start);
        RangeGrows(start, blocks[b]);
      }
    }
  }

  function Shifted(nums: seq<nat>, d: nat): seq<nat> {
    seq(|nums|, i requires 0 <= i < |nums| => d + nums[i])
  }

  lemma RangeGrows(m: nat, n: nat)
    ensures Range(m) + Shifted(Range(n), m) == Range(m + n)
  {
  }

  function Total(blocks: seq<nat>): nat {
    if blocks == [] then 0 else Total(blocks[..|blocks| - 1]) + blocks[|blocks| - 1]
  }

  lemma {:induction false} TotalNext(blocks: seq<nat>, b: nat)
    requires b < |blocks|
    ensures Total(blocks[..b + 1]) == Total(blocks[..b]) + blocks[b]
    ensures Total(blocks[..b + 1]) <= Total(blocks)
    decreases |blocks| - b
  {
    assert blocks[..b + 1][..b] == blocks[..b];
    if b + 1 < |blocks| {
      TotalNext(blocks, b + 1);
    } else {
      assert blocks[..b + 1] == blocks;
    }
  }

  lemma NothingTaken(done: set<nat>)
    ensures done - done == {}
  {
  }

  lemma TakeOne(done: set<nat>, todo: set<nat>, t: nat)
    requires t in todo && todo <= done
    ensures done - (todo - {t}) == done - todo + {t} && |todo - {t}| < |todo|
  {
  }

  lemma AllTaken(done: set<nat>, todo: set<nat>)
    requires todo == {}
    ensures done - todo == done
  {
  }

  /** The head is unfinished, and so is whatever has a future. */
  predicate Counted(s: State) {
    && (s.txs != [] ==> !s.txs[0].Finished())
    && forall i | 0 <= i < |s.txs| :: s.txs[i].num in s.fs ==> !s.txs[i].Finished()
  }

  lemma NoneComplete(s: State)
    requires Counted(s)
    ensures Handled(s, {}) == s
  {
    assert MarkAll(s.txs, s.fs, {}) == s.txs;
    assert s.retired + Nums(s.txs[..0]) == s.retired;
  }

  lemma {:induction false} LeadingSplit(txs: seq<Tx>, k: nat)
    requires k <= |txs| && forall i | 0 <= i < k :: txs[i].Finished()
    ensures Leading(txs) == k + Leading(txs[k..])
  {
    if k == 0 {
      assert txs[0..] == txs;
    } else {
      LeadingSplit(txs[1..], k - 1);
      assert txs[1..][k - 1..] == txs[k..];
    }
  }

  lemma NumsSplit(txs: seq<Tx>, k: nat, m: nat)
    requires k + m <= |txs|
    ensures Nums(txs[..k + m]) == Nums(txs[..k]) + Nums(txs[k..][..m])
  {
  }

  lemma LeadingOf(y: seq<Tx>, z: seq<Tx>)
    requires |y| == |z| && z[..Leading(y)] == y[..Leading(y)]
    ensures Leading(z) == Leading(y) + Leading(z[Leading(y)..])
  {
    var k := Leading(y);
    assert forall i | 0 <= i < k :: z[i] == z[..k][i] && y[..k][i] == y[i];
    LeadingSplit(z, k);
  }

  lemma DropTwice(s: State, y: seq<Tx>, z: seq<Tx>, k: nat, m: nat)
    requires |y| == |z| && k + m <= |z| && z[..k] == y[..k]
    ensures Drop(Drop(s, y, k), z[k..], m) == Drop(s, z, k + m)
  {
    NumsSplit(z, k, m);
    assert s.retired + (Nums(y[..k]) + Nums(z[k..][..m])) == s.retired + Nums(y[..k]) + Nums(z[k..][..m]);
    assert z[k..][m..] == z[k + m..];
  }

  lemma RetireTwice(s: State, y: seq<Tx>, z: seq<Tx>)
    requires |y| == |z| && z[..Leading(y)] == y[..Leading(y)]
    ensures Retire(Retire(s.(txs := y)).(txs := z[Leading(y)..])) == Retire(s.(txs := z))
  {
    var k, rest := Leading(y), z[Leading(y)..];
    LeadingOf(y, z);
    DropTwice(s, y, z, k, Leading(rest));
    RetireDrops(s, y);
    RetireDrops(Drop(s, y, k), rest);
    RetireDrops(s, z);
  }

  lemma RetireDrops(s: State, y: seq<Tx>)
    ensures Retire(s.(txs := y)) == Drop(s, y, Leading(y))
  {
  }

  lemma MarkOneMore(txs: seq<Tx>, fs: map<nat, nat>, done: set<nat>, t: nat)
    requires t !in done && (forall i | 0 <= i < |txs| :: txs[i].num in fs ==> !txs[i].Finished())
    ensures var y, z := MarkAll(txs, fs, done), MarkAll(txs, fs, done + {t});
            var k := Leading(y);
            t in fs ==> z[..k] == y[..k] && z[k..] == MarkAll(y[k..], fs, {t})
  {
  }

  /** Counting one more future and retiring again is counting all and retiring once. */
  lemma CompleteOne(s: State, done: set<nat>, t: nat)
    requires Counted(s) && t in s.fs && t !in done
    ensures var r := Handled(s, done);
            Retire(r.(txs := MarkAll(r.txs, s.fs, {t}))) == Handled(s, done + {t})
  {
    MarkOneMore(s.txs, s.fs, done, t);
    RetireTwice(s, MarkAll(s.txs, s.fs, done), MarkAll(s.txs, s.fs, done + {t}));
  }
}
