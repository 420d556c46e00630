/** Reading block results from the hardware while it may swap in the next one
    (v2.2/fabricmachine/api/api.go, v2.2/fabricmachine/api/regmap.go). */
module Handshake {
  import opened Wire
  import opened Layout

  // ---------- the card ----------

  /** The results to come, and the accesses at which the next one is ready to be loaded. */
  datatype Hardware = Hardware(first: nat, results: seq<Fields>, ready: nat -> bool)

  /** The registers, those read since the last load, the number of loads, and the number of accesses. */
  datatype Card = Card(regs: seq<word>, seen: set<nat>, loads: nat, clock: nat)

  /** Results of consecutive blocks; block 0 is valid. */
  predicate Consecutive(hw: Hardware) {
    forall j | 0 <= j < |hw.results| ::
      && Sized(hw.results[j]) && Value(hw.results[j].num) == hw.first + j
      && (hw.first + j == 0 ==> hw.results[j].valid)
  }

  predicate AllRead(seen: set<nat>) {
    forall i | 0 <= i < NUM_RES_REGS :: i in seen
  }

  function RegsOf(hw: Hardware, j: nat): (regs: seq<word>)
    requires Consecutive(hw) && j < |hw.results|
    ensures |regs| == NUM_RES_REGS
  {
    Words(Joined(hw.results[j]))
  }

  predicate Loads(c: Card, hw: Hardware) {
    AllRead(c.seen) && c.loads < |hw.results| && hw.ready(c.clock)
  }

  /** A load, if there is one, then the access to register i. */
  function Access(c: Card, hw: Hardware, i: nat): (c': Card)
    requires Consecutive(hw) && IsRegs(c.regs) && i < NUM_RES_REGS
    ensures IsRegs(c'.regs)
  {
    if Loads(c, hw) then Card(RegsOf(hw, c.loads), {i}, c.loads + 1, c.clock + 1)
    else Card(c.regs, c.seen + {i}, c.loads, c.clock + 1)
  }

  /** The card behind the memory map. */
  class Fpga {
    const hw: Hardware
    var card: Card

    ghost predicate Valid()
      reads this
    {
      Consecutive(hw) && IsRegs(card.regs)
    }

    method ReadAt(i: nat) returns (value: word)
      requires Valid() && i < NUM_RES_REGS
      modifies this
      ensures Valid() && card == Access(old(card), hw, i) && value == card.regs[i]
    {
      card := Access(card, hw, i);
      value := card.regs[i];
    }

    constructor (h: Hardware, c: Card)
      requires Consecutive(h) && IsRegs(c.regs)
      ensures Valid() && hw == h && card == c
    {
      hw, card := h, c;
    }
  }

  // ---------- readResRegs ----------

  /** The registers of [start, end) read from the most significant down: the card after it, and the words. */
  function Sweep(c: Card, hw: Hardware, start: nat, end: nat): (r: (Card, seq<word>))
    requires Consecutive(hw) && IsRegs(c.regs) && start <= end <= NUM_RES_REGS
    ensures IsRegs(r.0.regs) && |r.1| == end - start
    decreases end, c.clock
  {
    if start == end then (c, [])
    else
      var c1 := Access(c, hw, end - 1);
      var below := Sweep(c1, hw, start, end - 1);
      (below.0, below.1 + [c1.regs[end - 1]])
  }

  /** While a register stays unread nothing is loaded: the words are of one result. */
  lemma {:induction false} SweepQuiet(c: Card, hw: Hardware, start: nat, end: nat, k: nat)
    requires Consecutive(hw) && IsRegs(c.regs) && k <= start <= end <= NUM_RES_REGS && start < NUM_RES_REGS
             && k !in c.seen
    ensures var r := Sweep(c, hw, start, end);
            && r.1 == c.regs[start..end]
            && r.0.regs == c.regs && r.0.loads == c.loads && r.0.clock == c.clock + end - start
            && forall i :: i in r.0.seen <==> i in c.seen || start <= i < end
    decreases end
  {
    if start < end {
      var c1 := Access(c, hw, end - 1);
      if start < end - 1 {
        SweepQuiet(c1, hw, start, end - 1, k);
      }
      assert c.regs[start..end] == c.regs[start..end - 1] + [c.regs[end - 1]];
    }
  }

  // ---------- GetBlockData ----------

  datatype TxCode = VALID | MVCC_READ_CONFLICT

  datatype BlockData = BlockData(num: nat, numTxs: nat, valid: bool, txsVldFlags: seq<TxCode>, latency: int)

  /** Panicked: more transactions reported than there are flags. */
  datatype Outcome = Got(data: BlockData) | NotReady(num: nat) | Panicked

  function CodeOf(flag: bool): TxCode {
    if flag then VALID else MVCC_READ_CONFLICT
  }

  function DataOf(regs: seq<word>): Outcome
    requires IsRegs(regs)
  {
    var n := GetBlockNumTxs(regs);
    if n > BLOCK_MAX_TXS then Panicked
    else
      var codes := seq(n, i requires 0 <= i < n => CodeOf(TxFlag(regs, i)));
      Got(BlockData(GetBlockNum(regs), n, IsBlockValid(regs), codes, GetBlockLatency(regs)))
  }

  /** The registers show the expected block; block 0 must be valid. */
  predicate Shows(regs: seq<word>, blockNum: nat)
    requires IsRegs(regs)
  {
    GetBlockNum(regs) == blockNum && !(blockNum == 0 && !IsBlockValid(regs))
  }

  datatype Reading = Reading(card: Card, mem: seq<word>, got: bool)

  /** One look at the three registers on top. */
  function Poll(c: Card, hw: Hardware, mem: seq<word>): (r: (Card, seq<word>))
    requires Consecutive(hw) && IsRegs(c.regs) && IsRegs(mem)
    ensures IsRegs(r.0.regs) && IsRegs(r.1)
  {
    var top := Sweep(c, hw, NUM_RES_REGS - 3, NUM_RES_REGS);
    (top.0, mem[..NUM_RES_REGS - 3] + top.1)
  }

  /** A call that polls the three top registers at most `polls` times. */
  function Call(c: Card, hw: Hardware, mem: seq<word>, blockNum: nat, polls: nat): (r: Reading)
    requires Consecutive(hw) && IsRegs(c.regs) && IsRegs(mem)
    ensures IsRegs(r.card.regs) && IsRegs(r.mem)
    decreases polls
  {
    if polls == 0 then Reading(c, mem, false)
    else
      var (c1, mem1) := Poll(c, hw, mem);
      if !Shows(mem1, blockNum) then Call(c1, hw, mem1, blockNum, polls - 1)
      else
        var all := Sweep(c1, hw, 0, NUM_RES_REGS);
        Reading(all.0, all.1, true)
  }

  /** How often a call may poll: `limit` stands for the unbounded case. */
  function Polls(numTries: int, limit: nat): nat {
    if numTries == 0 then limit else if numTries < 0 then 1 else numTries
  }

  class FabricMachine {
    const pcie: Fpga
    const resRegs: array<word>

    ghost predicate Valid()
      reads this, pcie, resRegs
    {
      pcie.Valid() && resRegs.Length == NUM_RES_REGS
    }

    constructor (p: Fpga)
      requires p.Valid()
      ensures Valid() && pcie == p && fresh(resRegs)
    {
      pcie := p;
      resRegs := new word[NUM_RES_REGS];
    }

    /** readResRegs */
    method ReadResRegs(start: nat, end: nat)
      requires Valid() && start <= end <= NUM_RES_REGS
      modifies pcie, resRegs
      ensures Valid()
      ensures var r := Sweep(old(pcie.card), pcie.hw, start, end);
              pcie.card == r.0 && resRegs[..] == old(resRegs[..])[..start] + r.1 + old(resRegs[..])[end..]
    {
      var i: int := end - 1;
      while i >= start
        invariant start - 1 <= i < end && Valid()
        invariant var r, all := Sweep(pcie.card, pcie.hw, start, i + 1), Sweep(old(pcie.card), pcie.hw, start, end);
                  all.0 == r.0 && all.1 == r.1 + resRegs[i + 1..end]
        invariant resRegs[..start] == old(resRegs[..start]) && resRegs[end..] == old(resRegs[end..])
      {
        var value := pcie.ReadAt(i);
        resRegs[i] := value;
        i := i - 1;
      }
      assert resRegs[..] == resRegs[..start] + resRegs[start..end] + resRegs[end..];
    }

    /** FabricMachine.getBlockTxsVldFlags; more transactions than flags index out of range. */
    method GetBlockTxsVldFlags() returns (ok: bool, vldFlags: seq<TxCode>)
      requires Valid()
      ensures ok <==> GetBlockNumTxs(resRegs[..]) <= BLOCK_MAX_TXS
      ensures ok ==> |vldFlags| == GetBlockNumTxs(resRegs[..])
      ensures ok ==> forall i | 0 <= i < |vldFlags| :: vldFlags[i] == CodeOf(TxFlag(resRegs[..], i))
    {
      ghost var flags := FlagTable(resRegs[..]);
      var numTxs := GetBlockNumTxs(resRegs[..]);
      var fmVldFlags := GetTxsVldFlags(resRegs);
      ok, vldFlags := MarkConflicts(fmVldFlags, numTxs, flags);
    }

    /** Its loop. */
    method MarkConflicts(fmVldFlags: array<nat>, numTxs: nat, ghost flags: seq<bool>)
      returns (ok: bool, vldFlags: seq<TxCode>)
      requires fmVldFlags.Length == |flags| == BLOCK_MAX_TXS
      requires forall k | 0 <= k < BLOCK_MAX_TXS :: fmVldFlags[k] == Bit(flags[k])
      ensures ok <==> numTxs <= BLOCK_MAX_TXS
      ensures ok ==> |vldFlags| == numTxs && forall i | 0 <= i < numTxs :: vldFlags[i] == CodeOf(flags[i])
    {
      vldFlags := seq(numTxs, _ => VALID);
      for i := 0 to numTxs
        invariant |vldFlags| == numTxs && i <= BLOCK_MAX_TXS
        invariant forall k | 0 <= k < i :: vldFlags[k] == CodeOf(flags[k])
        invariant forall k | i <= k < numTxs :: vldFlags[k] == VALID
      {
        if i >= BLOCK_MAX_TXS {
          return false, [];
        }
        if fmVldFlags[i] == 0 {
          vldFlags := vldFlags[i := MVCC_READ_CONFLICT];
        }
      }
      ok := true;
    }

    /** All the registers read and decoded. */
    method ReadData() returns (r: Outcome)
      requires Valid()
      modifies pcie, resRegs
      ensures Valid()
      ensures var all := Sweep(old(pcie.card), pcie.hw, 0, NUM_RES_REGS);
              pcie.card == all.0 && resRegs[..] == all.1 && r == DataOf(all.1)
    {
      ReadResRegs(0, NUM_RES_REGS);
      ghost var all := Sweep(old(pcie.card), pcie.hw, 0, NUM_RES_REGS);
      assert resRegs[..] == all.1;
      var ok, flags := GetBlockTxsVldFlags();
      if !ok {
        return Panicked;
      }
      var regs := resRegs[..];
      assert flags == seq(GetBlockNumTxs(regs), i requires 0 <= i < GetBlockNumTxs(regs) => CodeOf(TxFlag(regs, i)));
      r := Got(BlockData(GetBlockNum(regs), GetBlockNumTxs(regs), IsBlockValid(regs), flags, GetBlockLatency(regs)));
    }

    method ReadTop()
      requires Valid()
      modifies pcie, resRegs
      ensures Valid() && (pcie.card, resRegs[..]) == Poll(old(pcie.card), pcie.hw, old(resRegs[..]))
    {
      ghost var mem := resRegs[..];
      ReadResRegs(NUM_RES_REGS - 3, NUM_RES_REGS);
      ghost var top := Sweep(old(pcie.card), pcie.hw, NUM_RES_REGS - 3, NUM_RES_REGS).1;
      assert resRegs[..] == mem[..NUM_RES_REGS - 3] + top;
    }

    /** GetBlockData. With numTries == 0 it polls until the block is there, so the hardware must
        bring it within some number of polls, `limit`. */
    method GetBlockData(blockNum: nat, numTries: int, ghost limit: nat) returns (r: Outcome)
      requires Valid()
      requires numTries == 0 ==> Call(pcie.card, pcie.hw, resRegs[..], blockNum, limit).got
      modifies pcie, resRegs
      ensures Valid()
      ensures var call := Call(old(pcie.card), pcie.hw, old(resRegs[..]), blockNum, Polls(numTries, limit));
              && pcie.card == call.card && resRegs[..] == call.mem
              && r == if call.got then DataOf(call.mem) else NotReady(GetBlockNum(call.mem))
    {
      ghost var polls := Polls(numTries, limit);
      ghost var call := Call(pcie.card, pcie.hw, resRegs[..], blockNum, polls);
      var iters := 0;
      while true
        invariant Valid() && 0 <= iters < polls
        invariant call == Call(pcie.card, pcie.hw, resRegs[..], blockNum, polls - iters)
        decreases polls - iters
      {
        ReadTop();
        iters := iters + 1;
        var bn := GetBlockNum(resRegs[..]);
        if bn != blockNum || (blockNum == 0 && !IsBlockValid(resRegs[..])) {
          if numTries == 0 || iters < numTries {
            continue;
          }
          return NotReady(bn);
        }
        r := ReadData();
        return;
      }
    }
  }

  // ---------- no torn read ----------

  /** Block n has not been loaded; the block before it has been read. */
  predicate Waiting(c: Card, hw: Hardware, n: nat) {
    IsRegs(c.regs) && AllRead(c.seen) && hw.first + c.loads == n && !Shows(c.regs, n)
  }

  /** Block n is in the registers, and its lower registers are unread. */
  predicate Unread(c: Card, hw: Hardware, n: nat)
    requires Consecutive(hw)
  {
    && hw.first + c.loads == n + 1 && 0 < c.loads <= |hw.results| && c.regs == RegsOf(hw, c.loads - 1)
    && LowerUnread(c.seen)
  }

  /** A caller asks for block n next. */
  predicate Ready(c: Card, hw: Hardware, n: nat)
    requires Consecutive(hw)
  {
    Waiting(c, hw, n) || Unread(c, hw, n)
  }

  lemma RegsShow(hw: Hardware, j: nat, n: nat)
    requires Consecutive(hw) && j < |hw.results|
    ensures Shows(RegsOf(hw, j), n) <==> n == hw.first + j
    ensures GetBlockNum(RegsOf(hw, j)) == hw.first + j
  {
    FieldsDecode(hw.results[j]);
  }

  /** Only the three registers on top tell which block it is. */
  lemma ShowsTop(a: seq<word>, b: seq<word>, n: nat)
    requires IsRegs(a) && IsRegs(b) && a[10..] == b[10..]
    ensures Shows(a, n) == Shows(b, n) && GetBlockNum(a) == GetBlockNum(b)
  {
    assert forall i | 0 <= i < 3 :: a[10 + i] == a[10..][i] && b[10 + i] == b[10..][i];
    assert a[10 + 0] == b[10 + 0] && a[10 + 1] == b[10 + 1] && a[10 + 2] == b[10 + 2];
  }

  lemma PollUnread(c: Card, hw: Hardware, mem: seq<word>, n: nat)
    requires Consecutive(hw) && Unread(c, hw, n) && IsRegs(mem)
    ensures var p := Poll(c, hw, mem); Shows(p.1, n) && Unread(p.0, hw, n)
  {
    SweepQuiet(c, hw, 10, 13, 0);
    RegsShow(hw, c.loads - 1, n);
    ShowsTop(Poll(c, hw, mem).1, c.regs, n);
  }

  predicate LowerUnread(seen: set<nat>) {
    forall i | 0 <= i < 10 :: i !in seen
  }

  /** A result is there to be loaded at one of the next n accesses. */
  predicate Comes(c: Card, hw: Hardware, n: nat) {
    c.loads < |hw.results| && exists t | c.clock <= t < c.clock + n :: hw.ready(t)
  }

  /** Reading a card that has been read: nothing comes, and it stays as it is. */
  lemma {:induction false} SweepRead(c: Card, hw: Hardware, start: nat, end: nat)
    requires Consecutive(hw) && IsRegs(c.regs) && AllRead(c.seen) && start <= end <= NUM_RES_REGS
    requires !Comes(c, hw, end - start)
    ensures var r := Sweep(c, hw, start, end);
            && r.0.regs == c.regs && r.0.loads == c.loads && r.0.clock == c.clock + end - start && AllRead(r.0.seen)
            && r.1 == c.regs[start..end]
    decreases end
  {
    if start < end {
      assert !Loads(c, hw);
      SweepRead(Access(c, hw, end - 1), hw, start, end - 1);
      assert c.regs[start..end] == c.regs[start..end - 1] + [c.regs[end - 1]];
    }
  }

  /** Or the next result comes, and its lower registers are unread. */
  lemma {:induction false} SweepLoads(c: Card, hw: Hardware, start: nat, end: nat)
    requires Consecutive(hw) && IsRegs(c.regs) && AllRead(c.seen) && 10 <= start <= end <= NUM_RES_REGS
    requires Comes(c, hw, end - start)
    ensures var r := Sweep(c, hw, start, end);
            r.0.regs == RegsOf(hw, c.loads) && r.0.loads == c.loads + 1 && LowerUnread(r.0.seen)
    decreases end
  {
    var c1 := Access(c, hw, end - 1);
    if hw.ready(c.clock) {
      assert LowerUnread(c1.seen);
      if start < end - 1 {
        SweepQuiet(c1, hw, start, end - 1, 0);
      }
    } else {
      SweepLoads(c1, hw, start, end - 1);
    }
  }

  /** Three accesses from a card that has been read. */
  lemma SweepTop(c: Card, hw: Hardware)
    requires Consecutive(hw) && IsRegs(c.regs) && AllRead(c.seen)
    ensures var r := Sweep(c, hw, 10, 13);
            if Comes(c, hw, 3) then
              r.0.regs == RegsOf(hw, c.loads) && r.0.loads == c.loads + 1 && LowerUnread(r.0.seen)
            else
              && r.0.regs == c.regs && r.0.loads == c.loads && r.0.clock == c.clock + 3 && AllRead(r.0.seen)
              && r.1 == c.regs[10..]
  {
    if Comes(c, hw, 3) {
      SweepLoads(c, hw, 10, 13);
    } else {
      SweepRead(c, hw, 10, 13);
    }
  }

  lemma PollWaiting(c: Card, hw: Hardware, mem: seq<word>, n: nat)
    requires Consecutive(hw) && Waiting(c, hw, n) && IsRegs(mem)
    ensures var p := Poll(c, hw, mem);
            if Comes(c, hw, 3) then Unread(p.0, hw, n)
            else Waiting(p.0, hw, n) && p.0.clock == c.clock + 3 && !Shows(p.1, n)
  {
    SweepTop(c, hw);
    var p := Poll(c, hw, mem);
    if p.0.loads == c.loads {
      ShowsTop(p.1, c.regs, n);
    }
  }

  lemma FullSweep(c: Card, hw: Hardware, n: nat)
    requires Consecutive(hw) && Unread(c, hw, n)
    ensures var r := Sweep(c, hw, 0, NUM_RES_REGS); r.1 == RegsOf(hw, n - hw.first) && Waiting(r.0, hw, n + 1)
  {
    SweepQuiet(c, hw, 0, NUM_RES_REGS, 0);
    RegsShow(hw, c.loads - 1, n + 1);
    assert c.regs[0..NUM_RES_REGS] == c.regs;
  }

  /** Wherever the load falls, a call returns the registers of the one block asked for and leaves
      the card ready for the next block; a call that gives up leaves it ready for the same block. */
  lemma {:induction false} CallNeverTears(c: Card, hw: Hardware, mem: seq<word>, n: nat, polls: nat)
    requires Consecutive(hw) && Ready(c, hw, n) && IsRegs(mem)
    ensures var r := Call(c, hw, mem, n, polls);
            if r.got then
              && hw.first <= n < hw.first + |hw.results|
              && r.mem == RegsOf(hw, n - hw.first) && Waiting(r.card, hw, n + 1)
            else Ready(r.card, hw, n)
    decreases polls
  {
    if polls > 0 {
      var p := Poll(c, hw, mem);
      if Unread(c, hw, n) {
        PollUnread(c, hw, mem, n);
      } else {
        PollWaiting(c, hw, mem, n);
      }
      if Shows(p.1, n) {
        FullSweep(p.0, hw, n);
      } else {
        CallNeverTears(p.0, hw, p.1, n, polls - 1);
      }
    }
  }

  /** Once the hardware has the block ready at access t, polling long enough returns it. */
  lemma {:induction false} CallEnds(c: Card, hw: Hardware, mem: seq<word>, n: nat, polls: nat, t: nat)
    requires Consecutive(hw) && Ready(c, hw, n) && IsRegs(mem) && n < hw.first + |hw.results|
    requires c.clock <= t && hw.ready(t) && polls >= t - c.clock + 2
    ensures Call(c, hw, mem, n, polls).got
    decreases polls
  {
    var p := Poll(c, hw, mem);
    if Unread(c, hw, n) {
      PollUnread(c, hw, mem, n);
    } else {
      PollWaiting(c, hw, mem, n);
      if Shows(p.1, n) {
      } else if Unread(p.0, hw, n) {
        PollUnread(p.0, hw, p.1, n);
      } else {
        CallEnds(p.0, hw, p.1, n, polls - 1, t);
      }
    }
  }

  lemma LatencyDecodes(hw: Hardware, j: nat)
    requires Consecutive(hw) && j < |hw.results|
    ensures GetBlockLatency(RegsOf(hw, j)) == 4 * Value(hw.results[j].latency)
            <==> Value(hw.results[j].latency) < TWO63 / 4
  {
    LatencyWords(hw.results[j]);
    LatencyOf(RegsOf(hw, j), Value(hw.results[j].latency));
  }

  /** A result decodes to its own fields, the latency as long as it fits. */
  lemma DataOfResult(hw: Hardware, j: nat)
    requires Consecutive(hw) && j < |hw.results|
    ensures var f, r := hw.results[j], DataOf(RegsOf(hw, j));
            if Value(f.numTxs) > BLOCK_MAX_TXS then r == Panicked
            else
              && r.Got? && r.data.num == hw.first + j && r.data.valid == f.valid && r.data.numTxs == Value(f.numTxs)
              && |r.data.txsVldFlags| == r.data.numTxs
              && (forall i | 0 <= i < |r.data.txsVldFlags| :: r.data.txsVldFlags[i] == CodeOf(f.flags[i]))
              && (r.data.latency == 4 * Value(f.latency) <==> Value(f.latency) < TWO63 / 4)
  {
    var f := hw.results[j];
    FieldsDecode(f);
    LatencyDecodes(hw, j);
    forall i | 0 <= i < BLOCK_MAX_TXS
      ensures TxFlag(RegsOf(hw, j), i) == f.flags[i]
    {
      FlagsRoundTrip(f, i);
    }
  }

  /** A caller that asks for the next block only after the one before: what its calls return. */
  function Delivered(c: Card, hw: Hardware, mem: seq<word>, n: nat, calls: seq<nat>): seq<seq<word>>
    requires Consecutive(hw) && IsRegs(c.regs) && IsRegs(mem)
    decreases |calls|
  {
    if calls == [] then []
    else
      var r := Call(c, hw, mem, n, calls[0]);
      if r.got then [r.mem] + Delivered(r.card, hw, r.mem, n + 1, calls[1..])
      else Delivered(r.card, hw, r.mem, n, calls[1..])
  }

  /** The registers of result j and those after it, one result each. */
  predicate InOrder(out: seq<seq<word>>, hw: Hardware, j: nat)
    requires Consecutive(hw)
  {
    out == [] || (j < |hw.results| && out[0] == RegsOf(hw, j) && InOrder(out[1..], hw, j + 1))
  }

  lemma InOrderNext(regs: seq<word>, rest: seq<seq<word>>, hw: Hardware, j: nat)
    requires Consecutive(hw) && InOrder(rest, hw, j + 1) && j < |hw.results| && regs == RegsOf(hw, j)
    ensures InOrder([regs] + rest, hw, j)
  {
    assert ([regs] + rest)[1..] == rest;
  }

  lemma {:induction false} InOrderAt(out: seq<seq<word>>, hw: Hardware, j: nat, k: nat)
    requires Consecutive(hw) && InOrder(out, hw, j) && k < |out|
    ensures j + k < |hw.results| && out[k] == RegsOf(hw, j + k)
  {
    if k > 0 {
      InOrderAt(out[1..], hw, j + 1, k - 1);
    }
  }

  /** The first of the calls, taken apart. */
  lemma DeliveredStep(c: Card, hw: Hardware, mem: seq<word>, n: nat, calls: seq<nat>, r: Reading)
    requires Consecutive(hw) && IsRegs(c.regs) && IsRegs(mem) && calls != [] && r == Call(c, hw, mem, n, calls[0])
    ensures IsRegs(r.card.regs) && IsRegs(r.mem)
    ensures Delivered(c, hw, mem, n, calls)
            == if r.got then [r.mem] + Delivered(r.card, hw, r.mem, n + 1, calls[1..])
               else Delivered(r.card, hw, r.mem, n, calls[1..])
  {
  }

  /** What the calls behind a first one deliver, together with that one's registers. */
  lemma {:induction false} DeliverNext(hw: Hardware, n: nat, rest: seq<nat>, r: Reading, out: seq<seq<word>>)
    requires Consecutive(hw) && IsRegs(r.card.regs) && IsRegs(r.mem)
    requires if r.got then
               && hw.first <= n < hw.first + |hw.results|
               && r.mem == RegsOf(hw, n - hw.first) && Waiting(r.card, hw, n + 1)
             else Ready(r.card, hw, n)
    requires out == if r.got then [r.mem] + Delivered(r.card, hw, r.mem, n + 1, rest)
                    else Delivered(r.card, hw, r.mem, n, rest)
    ensures hw.first <= n && InOrder(out, hw, n - hw.first)
    decreases |rest|, 2
  {
    if r.got {
      EachBlockOnceInOrder(r.card, hw, r.mem, n + 1, rest);
      InOrderNext(r.mem, Delivered(r.card, hw, r.mem, n + 1, rest), hw, n - hw.first);
    } else {
      EachBlockOnceInOrder(r.card, hw, r.mem, n, rest);
    }
  }

  /** Over any run of calls every block is delivered once, whole and in order. */
  lemma {:induction false} EachBlockOnceInOrder(c: Card, hw: Hardware, mem: seq<word>, n: nat, calls: seq<nat>)
    requires Consecutive(hw) && Ready(c, hw, n) && IsRegs(mem)
    ensures hw.first <= n && InOrder(Delivered(c, hw, mem, n, calls), hw, n - hw.first)
    decreases |calls|, 1
  {
    if calls != [] {
      var r := Call(c, hw, mem, n, calls[0]);
      CallNeverTears(c, hw, mem, n, calls[0]);
      DeliveredStep(c, hw, mem, n, calls, r);
      DeliverNext(hw, n, calls[1..], r, Delivered(c, hw, mem, n, calls));
    }
  }

  // ---------- what goes wrong otherwise ----------

  /** The registers of [start, end) read from the least significant up. */
  function SweepUp(c: Card, hw: Hardware, start: nat, end: nat): (r: (Card, seq<word>))
    requires Consecutive(hw) && IsRegs(c.regs) && start <= end <= NUM_RES_REGS
    ensures IsRegs(r.0.regs) && |r.1| == end - start
    decreases end - start, c.clock
  {
    if start == end then (c, [])
    else
      var c1 := Access(c, hw, start);
      var above := SweepUp(c1, hw, start + 1, end);
      (above.0, [c1.regs[start]] + above.1)
  }

  lemma {:induction false} SweepUpQuiet(c: Card, hw: Hardware, start: nat, end: nat, k: nat)
    requires Consecutive(hw) && IsRegs(c.regs) && start < end <= k + 1 <= NUM_RES_REGS && k !in c.seen
    ensures var r := SweepUp(c, hw, start, end);
            && r.1 == c.regs[start..end]
            && r.0.regs == c.regs && r.0.loads == c.loads && r.0.clock == c.clock + end - start
            && forall i :: i in r.0.seen <==> i in c.seen || start <= i < end
    decreases end - start
  {
    var c1 := Access(c, hw, start);
    if start + 1 < end {
      SweepUpQuiet(c1, hw, start + 1, end, k);
    }
    assert c.regs[start..end] == [c.regs[start]] + c.regs[start + 1..end];
  }

  lemma {:induction false} SweepUpSplit(c: Card, hw: Hardware, start: nat, mid: nat, end: nat)
    requires Consecutive(hw) && IsRegs(c.regs) && start <= mid <= end <= NUM_RES_REGS
    ensures var a := SweepUp(c, hw, start, mid);
            var b := SweepUp(a.0, hw, mid, end);
            SweepUp(c, hw, start, end) == (b.0, a.1 + b.1)
    decreases mid - start
  {
    if start < mid {
      var c1 := Access(c, hw, start);
      SweepUpSplit(c1, hw, start + 1, mid, end);
      var a := SweepUp(c1, hw, start + 1, mid);
      var b := SweepUp(a.0, hw, mid, end);
      assert [c1.regs[start]] + (a.1 + b.1) == [c1.regs[start]] + a.1 + b.1;
    } else {
      assert [] + SweepUp(c, hw, mid, end).1 == SweepUp(c, hw, mid, end).1;
    }
  }

  /** The two parts of the second upward pass: ten registers of one block, three of the next. */
  lemma UpperPart(c: Card, hw: Hardware)
    requires Consecutive(hw) && IsRegs(c.regs) && Loads(c, hw)
    ensures SweepUp(c, hw, 10, 13).1 == RegsOf(hw, c.loads)[10..]
  {
    var next := RegsOf(hw, c.loads);
    SweepUpQuiet(Access(c, hw, 10), hw, 11, 13, 12);
    assert [next[10]] + next[11..13] == next[10..];
  }

  lemma LowerPart(c: Card, hw: Hardware)
    requires Consecutive(hw) && IsRegs(c.regs) && forall i | 0 <= i < 13 :: i in c.seen <==> 10 <= i
    ensures var r := SweepUp(c, hw, 0, 10);
            && r.1 == c.regs[..10] && r.0.regs == c.regs && r.0.loads == c.loads && r.0.clock == c.clock + 10
            && AllRead(r.0.seen)
  {
    SweepUpQuiet(c, hw, 0, 10, 9);
    assert c.regs[0..10] == c.regs[..10];
  }

  /** Read upwards, the same protocol tears: once the look at the three registers on top has been
      followed by the ten below, all are read and the next block may be loaded before the rest. */
  lemma {:induction false} AscendingTears(c: Card, hw: Hardware, n: nat)
    requires Consecutive(hw) && Unread(c, hw, n) && (forall i | 10 <= i < 13 :: i !in c.seen)
    requires c.loads < |hw.results| && hw.ready(c.clock + 13)
    ensures var top := SweepUp(c, hw, 10, 13);
            var all := SweepUp(top.0, hw, 0, 13);
            && top.1 == RegsOf(hw, c.loads - 1)[10..]
            && all.1 == RegsOf(hw, c.loads - 1)[..10] + RegsOf(hw, c.loads)[10..]
            && GetBlockNum(all.1) == n + 1
  {
    FirstPassUp(c, hw);
    SecondPassUp(SweepUp(c, hw, 10, 13).0, hw);
    MixedNum(hw, c.loads);
  }

  lemma FirstPassUp(c: Card, hw: Hardware)
    requires Consecutive(hw) && IsRegs(c.regs) && LowerUnread(c.seen) && (forall i | 10 <= i < 13 :: i !in c.seen)
    ensures var r := SweepUp(c, hw, 10, 13);
            && r.1 == c.regs[10..] && r.0.regs == c.regs && r.0.loads == c.loads && r.0.clock == c.clock + 3
            && forall i | 0 <= i < 13 :: i in r.0.seen <==> 10 <= i
  {
    SweepUpQuiet(c, hw, 10, 13, 12);
    TopThenLower(c, SweepUp(c, hw, 10, 13).0);
    assert c.regs[10..13] == c.regs[10..];
  }

  /** After the three on top of a fresh card only the ten below are unread. */
  lemma TopThenLower(c: Card, c1: Card)
    requires LowerUnread(c.seen) && forall i | 10 <= i < 13 :: i !in c.seen
    requires forall i :: i in c1.seen <==> i in c.seen || 10 <= i < 13
    ensures forall i | 0 <= i < 13 :: i in c1.seen <==> 10 <= i
  {
  }

  lemma SecondPassUp(c: Card, hw: Hardware)
    requires Consecutive(hw) && IsRegs(c.regs) && (forall i | 0 <= i < 13 :: i in c.seen <==> 10 <= i)
    requires c.loads < |hw.results| && hw.ready(c.clock + 10)
    ensures SweepUp(c, hw, 0, 13).1 == c.regs[..10] + RegsOf(hw, c.loads)[10..]
  {
    LowerPart(c, hw);
    UpperPart(SweepUp(c, hw, 0, 10).0, hw);
    SweepUpSplit(c, hw, 0, 10, 13);
  }

  lemma MixedNum(hw: Hardware, j: nat)
    requires Consecutive(hw) && 0 < j < |hw.results|
    ensures GetBlockNum(RegsOf(hw, j - 1)[..10] + RegsOf(hw, j)[10..]) == hw.first + j
  {
    RegsShow(hw, j, hw.first + j);
    ShowsTop(RegsOf(hw, j - 1)[..10] + RegsOf(hw, j)[10..], RegsOf(hw, j), hw.first + j);
  }

  lemma {:induction false} SweepSplit(c: Card, hw: Hardware, start: nat, mid: nat, end: nat)
    requires Consecutive(hw) && IsRegs(c.regs) && start <= mid <= end <= NUM_RES_REGS
    ensures var a := Sweep(c, hw, mid, end);
            var b := Sweep(a.0, hw, start, mid);
            Sweep(c, hw, start, end) == (b.0, b.1 + a.1)
    decreases end - mid
  {
    if mid < end {
      var c1 := Access(c, hw, end - 1);
      SweepSplit(c1, hw, start, mid, end - 1);
      var a := Sweep(c1, hw, mid, end - 1);
      var b := Sweep(a.0, hw, start, mid);
      assert b.1 + a.1 + [c1.regs[end - 1]] == b.1 + (a.1 + [c1.regs[end - 1]]);
    } else {
      assert Sweep(c, hw, start, end).1 + [] == Sweep(c, hw, start, end).1;
    }
  }

  lemma LowerReload(c: Card, hw: Hardware)
    requires Consecutive(hw) && IsRegs(c.regs) && Loads(c, hw)
    ensures Sweep(c, hw, 0, 10).1 == RegsOf(hw, c.loads)[..10]
  {
    var next := RegsOf(hw, c.loads);
    SweepQuiet(Access(c, hw, 9), hw, 0, 9, 0);
    assert next[0..9] + [next[9]] == next[..10];
  }

  /** A block asked for again after it was read: the call succeeds, and a load after the three
      registers on top joins the number of block n with the flags of block n + 1. */
  lemma ReReadTears(c: Card, hw: Hardware, mem: seq<word>, n: nat, polls: nat)
    requires Consecutive(hw) && AllRead(c.seen) && IsRegs(mem) && 0 < c.loads < |hw.results|
             && hw.first + c.loads == n + 1
    requires c.regs == RegsOf(hw, c.loads - 1) && polls > 0
    requires (forall t | c.clock <= t < c.clock + 6 :: !hw.ready(t)) && hw.ready(c.clock + 6)
    ensures var r := Call(c, hw, mem, n, polls);
            && r.got && GetBlockNum(r.mem) == n
            && r.mem == RegsOf(hw, n + 1 - hw.first)[..10] + RegsOf(hw, n - hw.first)[10..]
  {
    SweepTop(c, hw);
    RegsShow(hw, c.loads - 1, n);
    var p := Poll(c, hw, mem);
    ShowsTop(p.1, c.regs, n);
    SweepSplit(p.0, hw, 0, 10, 13);
    SweepTop(p.0, hw);
    LowerReload(Sweep(p.0, hw, 10, 13).0, hw);
    ShowsTop(RegsOf(hw, c.loads)[..10] + c.regs[10..], c.regs, n);
  }
}
