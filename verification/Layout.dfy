/** The layout of a block result in the hardware's registers (v2.2/fabricmachine/api/regmap.go). */
module Layout {
  import opened Wire

  const WORD: int := 0x1_0000_0000

  type word = x: int | 0 <= x < WORD

  const BLOCK_MAX_TXS := 256
  /** 64 + 16 + 1 + 256 + 64 = 401 bits in registers of 32. */
  const NUM_RES_REGS := 13

  // ---------- bits, least significant first ----------

  function Bit(b: bool): nat {
    if b then 1 else 0
  }

  function Value(bits: seq<bool>): nat {
    if bits == [] then 0 else Bit(bits[0]) + 2 * Value(bits[1..])
  }

  function Pow2(n: nat): nat {
    if n == 0 then 1 else 2 * Pow2(n - 1)
  }

  function Bits(v: nat, n: nat): (r: seq<bool>)
    ensures |r| == n
    decreases n + v
  {
    if n == 0 then [] else [v % 2 == 1] + Bits(v / 2, n - 1)
  }

  lemma {:induction false} ValueBound(bits: seq<bool>)
    ensures Value(bits) < Pow2(|bits|)
  {
    if bits != [] {
      ValueBound(bits[1..]);
    }
  }

  lemma {:induction false} ValueConcat(a: seq<bool>, b: seq<bool>)
    ensures Value(a + b) == Value(a) + Pow2(|a|) * Value(b)
  {
    if a == [] {
      assert a + b == b;
    } else {
      ValueConcat(a[1..], b);
      assert (a + b)[1..] == a[1..] + b;
      Regroup(Pow2(|a| - 1), Value(b));
    }
  }

  lemma Regroup(p: nat, v: nat)
    ensures 2 * (p * v) == (2 * p) * v
  {
  }

  lemma {:induction false} ValueOfBits(v: nat, n: nat)
    requires v < Pow2(n)
    ensures Value(Bits(v, n)) == v
  {
    if n != 0 {
      ValueOfBits(v / 2, n - 1);
      assert Bits(v, n)[1..] == Bits(v / 2, n - 1);
    }
  }

  lemma Powers()
    ensures Pow2(1) == 2 && Pow2(15) == 0x8000 && Pow2(16) == 0x1_0000 && Pow2(17) == 0x2_0000
    ensures Pow2(32) == WORD && Pow2(64) == TWO64
  {
    assert Pow2(8) == 0x100;
    assert Pow2(15) == 0x8000;
    assert Pow2(24) == 0x100_0000;
    assert Pow2(32) == WORD;
    assert Pow2(40) == 0x100_0000_0000;
    assert Pow2(48) == 0x1_0000_0000_0000;
    assert Pow2(56) == 0x100_0000_0000_0000;
  }

  // ---------- the layout ----------

  /** What the hardware reports of a block. */
  datatype Result = Result(num: nat, numTxs: nat, valid: bool, flags: seq<bool>, latency: nat)

  predicate Fits(r: Result) {
    r.num < TWO64 && r.numTxs < 0x1_0000 && |r.flags| == BLOCK_MAX_TXS && r.latency < TWO64
  }

  /** The fields in the order of the registers, the 401 bits of a result below 15 bits of padding. */
  datatype Fields = Fields(latency: seq<bool>, flags: seq<bool>, valid: bool, numTxs: seq<bool>, num: seq<bool>,
                           pad: seq<bool>)

  predicate Sized(f: Fields) {
    |f.latency| == 64 && |f.flags| == BLOCK_MAX_TXS && |f.numTxs| == 16 && |f.num| == 64 && |f.pad| == 15
  }

  function Joined(f: Fields): (bits: seq<bool>)
    requires Sized(f)
    ensures |bits| == 32 * NUM_RES_REGS
  {
    f.latency + f.flags + [f.valid] + f.numTxs + f.num + f.pad
  }

  function FieldsOf(r: Result, pad: seq<bool>): (f: Fields)
    requires Fits(r) && |pad| == 15
    ensures Sized(f)
  {
    Fields(Bits(r.latency, 64), r.flags, r.valid, Bits(r.numTxs, 16), Bits(r.num, 64), pad)
  }

  function Registers(r: Result, pad: seq<bool>): (regs: seq<word>)
    requires Fits(r) && |pad| == 15
    ensures |regs| == NUM_RES_REGS
  {
    Words(Joined(FieldsOf(r, pad)))
  }

  function WordOf(bits: seq<bool>): word
    requires |bits| == 32
  {
    ValueBound(bits);
    Powers();
    Value(bits)
  }

  function Words(bits: seq<bool>): (regs: seq<word>)
    requires |bits| == 32 * NUM_RES_REGS
    ensures |regs| == NUM_RES_REGS
  {
    seq(NUM_RES_REGS, i requires 0 <= i < NUM_RES_REGS => WordOf(bits[32 * i..32 * i + 32]))
  }

  // ---------- the decoders ----------

  predicate IsRegs(regs: seq<word>) {
    |regs| == NUM_RES_REGS
  }

  /** getBlockNum: the shifts to the left lose what leaves 64 bits. */
  function GetBlockNum(regs: seq<word>): nat
    requires IsRegs(regs)
  {
    var num := regs[NUM_RES_REGS - 1];
    var num2 := num * WORD % TWO64 + regs[NUM_RES_REGS - 2];
    num2 * 0x8000 % TWO64 + regs[NUM_RES_REGS - 3] / 0x2_0000
  }

  function GetBlockNumTxs(regs: seq<word>): nat
    requires IsRegs(regs)
  {
    regs[NUM_RES_REGS - 3] % 0x2_0000 / 2
  }

  predicate IsBlockValid(regs: seq<word>)
    requires IsRegs(regs)
  {
    regs[NUM_RES_REGS - 3] % 2 == 1
  }

  /** getBlockLatency, in nanoseconds: both the conversion to time.Duration and the product wrap. */
  function GetBlockLatency(regs: seq<word>): int
    requires IsRegs(regs)
  {
    Wrap64(Wrap64(regs[1] * WORD + regs[0]) * 4)
  }

  // ---------- round trips ----------

  lemma SplitValue(bits: seq<bool>, k: nat)
    requires k <= |bits|
    ensures Value(bits) == Value(bits[..k]) + Pow2(k) * Value(bits[k..])
  {
    assert bits == bits[..k] + bits[k..];
    ValueConcat(bits[..k], bits[k..]);
  }

  lemma WordIs(f: Fields, i: nat, part: seq<bool>)
    requires Sized(f) && i < NUM_RES_REGS && part == Joined(f)[32 * i..32 * i + 32]
    ensures Words(Joined(f))[i] == Value(part)
  {
  }

  lemma FlagWord(f: Fields, i: nat)
    requires Sized(f) && i < 8
    ensures Words(Joined(f))[2 + i] == Value(f.flags[32 * i..32 * i + 32])
  {
    var bits := Joined(f);
    assert bits[64..320] == f.flags;
    assert bits[64 + 32 * i..64 + 32 * i + 32] == bits[64..320][32 * i..32 * i + 32];
    WordIs(f, 2 + i, f.flags[32 * i..32 * i + 32]);
  }

  lemma LatencyBits(f: Fields)
    requires Sized(f)
    ensures Joined(f)[0..32] == f.latency[..32] && Joined(f)[32..64] == f.latency[32..]
  {
    assert Joined(f)[..64] == f.latency;
    assert Joined(f)[0..32] == Joined(f)[..64][..32] && Joined(f)[32..64] == Joined(f)[..64][32..];
  }

  lemma LatencyWords(f: Fields)
    requires Sized(f)
    ensures var regs := Words(Joined(f)); regs[1] * WORD + regs[0] == Value(f.latency)
  {
    LatencyBits(f);
    WordIs(f, 0, f.latency[..32]);
    WordIs(f, 1, f.latency[32..]);
    SplitValue(f.latency, 32);
    Powers();
  }

  lemma NumWords(f: Fields)
    requires Sized(f)
    ensures var regs := Words(Joined(f));
            && regs[10] == Value([f.valid] + f.numTxs + f.num[..15])
            && regs[11] == Value(f.num[15..47]) && regs[12] == Value(f.num[47..] + f.pad)
  {
    assert Joined(f)[320..352] == [f.valid] + f.numTxs + f.num[..15];
    assert Joined(f)[352..384] == f.num[15..47];
    assert Joined(f)[384..416] == f.num[47..] + f.pad;
    WordIs(f, 10, [f.valid] + f.numTxs + f.num[..15]);
    WordIs(f, 11, f.num[15..47]);
    WordIs(f, 12, f.num[47..] + f.pad);
  }

  /** The three parts of the number. */
  lemma NumParts(num: seq<bool>)
    requires |num| == 64
    ensures Value(num) == Value(num[..15]) + 0x8000 * (Value(num[15..47]) + WORD * Value(num[47..]))
    ensures Value(num[..15]) < 0x8000 && Value(num[15..47]) < WORD && Value(num[47..]) < 0x2_0000
  {
    Powers();
    SplitThree(num, 15, 47);
    ValueBound(num[..15]);
    ValueBound(num[15..47]);
    ValueBound(num[47..]);
  }

  lemma SplitThree(bits: seq<bool>, i: nat, j: nat)
    requires i <= j <= |bits|
    ensures Value(bits) == Value(bits[..i]) + Pow2(i) * (Value(bits[i..j]) + Pow2(j - i) * Value(bits[j..]))
  {
    SplitValue(bits, i);
    SplitValue(bits[i..], j - i);
    assert bits[i..][..j - i] == bits[i..j] && bits[i..][j - i..] == bits[j..];
  }

  lemma LowWord(valid: bool, txs: seq<bool>, low: seq<bool>)
    requires |txs| == 16
    ensures Value([valid] + txs + low) == Bit(valid) + 2 * Value(txs) + 0x2_0000 * Value(low)
    ensures Value(txs) < 0x1_0000
  {
    Powers();
    ValueConcat([valid] + txs, low);
    ValueConcat([valid], txs);
    assert [valid][1..] == [];
    ValueBound(txs);
  }

  /** The top register holds 17 bits of the number below the padding; the shifts lose the padding. */
  lemma ShiftOut(high: nat, p: nat, mid: nat)
    requires high < 0x2_0000 && p < 0x8000 && mid < WORD
    ensures ((high + 0x2_0000 * p) * WORD % TWO64 + mid) * 0x8000 % TWO64 == 0x8000 * (mid + WORD * high)
  {
    var x := (high + 0x2_0000 * p) * WORD;
    assert x < TWO64;
    var y := (x + mid) * 0x8000;
    var small := (high * WORD + mid) * 0x8000;
    assert y == small + TWO64 * p;
    assert small < TWO64;
    assert y % TWO64 == small;
  }

  lemma LowParts(x: nat, bit: nat, txs: nat, low: nat)
    requires bit < 2 && txs < 0x1_0000 && x == bit + 2 * txs + 0x2_0000 * low
    ensures x / 0x2_0000 == low && x % 0x2_0000 / 2 == txs && x % 2 == bit
  {
  }

  lemma DecodeFrom(regs: seq<word>, high: nat, p: nat, mid: nat, low: nat, txs: nat, valid: bool)
    requires IsRegs(regs) && high < 0x2_0000 && p < 0x8000 && mid < WORD && low < 0x8000 && txs < 0x1_0000
    requires regs[12] == high + 0x2_0000 * p && regs[11] == mid && regs[10] == Bit(valid) + 2 * txs + 0x2_0000 * low
    ensures GetBlockNum(regs) == low + 0x8000 * (mid + WORD * high)
    ensures GetBlockNumTxs(regs) == txs && IsBlockValid(regs) == valid
  {
    ShiftOut(high, p, mid);
    LowParts(regs[10], Bit(valid), txs, low);
  }

  lemma TopWord(high: seq<bool>, pad: seq<bool>)
    requires |high| == 17 && |pad| == 15
    ensures Value(high + pad) == Value(high) + 0x2_0000 * Value(pad) && Value(pad) < 0x8000
  {
    Powers();
    ValueConcat(high, pad);
    ValueBound(pad);
  }

  lemma FieldsDecode(f: Fields)
    requires Sized(f)
    ensures var regs := Words(Joined(f));
            && GetBlockNum(regs) == Value(f.num) && GetBlockNumTxs(regs) == Value(f.numTxs)
            && IsBlockValid(regs) == f.valid
  {
    var regs, num := Words(Joined(f)), f.num;
    NumWords(f);
    NumParts(num);
    LowWord(f.valid, f.numTxs, num[..15]);
    TopWord(num[47..], f.pad);
    DecodeFrom(regs, Value(num[47..]), Value(f.pad), Value(num[15..47]), Value(num[..15]), Value(f.numTxs), f.valid);
  }

  /** The number, the count and the valid bit come back, whatever the padding holds. */
  lemma HeadRoundTrip(r: Result, pad: seq<bool>)
    requires Fits(r) && |pad| == 15
    ensures var regs := Registers(r, pad);
            GetBlockNum(regs) == r.num && GetBlockNumTxs(regs) == r.numTxs && IsBlockValid(regs) == r.valid
  {
    Powers();
    ValueOfBits(r.num, 64);
    ValueOfBits(r.numTxs, 16);
    FieldsDecode(FieldsOf(r, pad));
  }

  /** The latency comes back in nanoseconds exactly when it is below 2^61 clock periods. */
  lemma LatencyRoundTripIff(r: Result, pad: seq<bool>)
    requires Fits(r) && |pad| == 15
    ensures GetBlockLatency(Registers(r, pad)) == 4 * r.latency <==> r.latency < TWO63 / 4
  {
    Powers();
    ValueOfBits(r.latency, 64);
    LatencyWords(FieldsOf(r, pad));
    LatencyOf(Registers(r, pad), r.latency);
  }

  lemma LatencyOf(regs: seq<word>, x: nat)
    requires IsRegs(regs) && regs[1] * WORD + regs[0] == x < TWO64
    ensures GetBlockLatency(regs) == 4 * x <==> x < TWO63 / 4
  {
    Scaled(x);
  }

  lemma Scaled(x: nat)
    requires x < TWO64
    ensures Wrap64(Wrap64(x) * 4) == 4 * x <==> x < TWO63 / 4
  {
  }

  // ---------- getBlockTxsVldFlags ----------

  /** Flag k of the registers, from the least significant bit of register 2 up. */
  predicate TxFlag(regs: seq<word>, k: nat)
    requires IsRegs(regs) && k < BLOCK_MAX_TXS
  {
    Bits(regs[2 + k / 32], 32)[k % 32]
  }

  lemma {:induction false} BitsOfValue(bits: seq<bool>)
    ensures Bits(Value(bits), |bits|) == bits
  {
    if bits != [] {
      BitsOfValue(bits[1..]);
      LowBit(Value(bits), bits);
    }
  }

  /** The flags come back. */
  lemma FlagsRoundTrip(f: Fields, k: nat)
    requires Sized(f) && k < BLOCK_MAX_TXS
    ensures TxFlag(Words(Joined(f)), k) == f.flags[k]
  {
    FlagWord(f, k / 32);
    BitsOfValue(f.flags[32 * (k / 32)..32 * (k / 32) + 32]);
  }

  lemma LowBit(r: nat, bits: seq<bool>)
    requires bits != [] && r == Value(bits)
    ensures r % 2 == Bit(bits[0]) && r / 2 == Value(bits[1..])
  {
  }

  lemma WordBits(x: word)
    ensures Value(Bits(x, 32)) == x
  {
    Powers();
    ValueOfBits(x, 32);
  }

  lemma DropNext(bits: seq<bool>, j: nat)
    requires j < |bits|
    ensures bits[j..][1..] == bits[j + 1..] && bits[j..][0] == bits[j]
  {
  }

  /** One register unpacked: r shifted right at each step. */
  method UnpackRegister(resReg: word, vldFlags: array<nat>, base: nat, ghost bits: seq<bool>)
    requires base + 32 <= vldFlags.Length && |bits| == 32 && Value(bits) == resReg
    modifies vldFlags
    ensures forall l | 0 <= l < 32 :: vldFlags[base + l] == Bit(bits[l])
    ensures forall k | 0 <= k < vldFlags.Length && (k < base || base + 32 <= k) :: vldFlags[k] == old(vldFlags[k])
  {
    var x: nat := resReg;
    for j := 0 to 32
      invariant x == Value(bits[j..])
      invariant forall l | 0 <= l < j :: vldFlags[base + l] == Bit(bits[l])
      invariant forall k | 0 <= k < vldFlags.Length && (k < base || base + j <= k) :: vldFlags[k] == old(vldFlags[k])
    {
      DropNext(bits, j);
      x := UnpackBit(x, vldFlags, base + j, bits[j..]);
    }
  }

  method UnpackBit(x: nat, vldFlags: array<nat>, at: nat, ghost bits: seq<bool>) returns (shifted: nat)
    requires at < vldFlags.Length && bits != [] && x == Value(bits)
    modifies vldFlags
    ensures vldFlags[at] == Bit(bits[0]) && shifted == Value(bits[1..])
    ensures forall k | 0 <= k < vldFlags.Length && k != at :: vldFlags[k] == old(vldFlags[k])
  {
    LowBit(x, bits);
    if x % 2 == 1 {
      vldFlags[at] := 1;
    } else {
      vldFlags[at] := 0;
    }
    shifted := x / 2;
  }

  /** The flags in the order of the transactions, and register by register. */
  predicate AreFlags(regs: seq<word>, flags: seq<bool>)
    requires IsRegs(regs)
  {
    |flags| == BLOCK_MAX_TXS && forall i | 0 <= i < 8 :: flags[32 * i..32 * i + 32] == Bits(regs[2 + i], 32)
  }

  lemma FlagTable(regs: seq<word>) returns (flags: seq<bool>)
    requires IsRegs(regs)
    ensures AreFlags(regs, flags)
    ensures forall k | 0 <= k < BLOCK_MAX_TXS :: flags[k] == TxFlag(regs, k)
  {
    flags := seq(BLOCK_MAX_TXS, k requires 0 <= k < BLOCK_MAX_TXS => TxFlag(regs, k));
    forall i | 0 <= i < 8
      ensures flags[32 * i..32 * i + 32] == Bits(regs[2 + i], 32)
    {
      var part, bits := flags[32 * i..32 * i + 32], Bits(regs[2 + i], 32);
      forall l | 0 <= l < 32
        ensures part[l] == bits[l]
      {
        FlagOf(regs, i, l);
      }
    }
  }

  lemma FlagOf(regs: seq<word>, i: nat, l: nat)
    requires IsRegs(regs) && i < 8 && l < 32
    ensures TxFlag(regs, 32 * i + l) == Bits(regs[2 + i], 32)[l]
  {
    assert (32 * i + l) / 32 == i && (32 * i + l) % 32 == l;
  }

  /** getBlockTxsVldFlags: the eight registers of flags, a transaction each bit. */
  method GetTxsVldFlags(resRegs: array<word>) returns (vldFlags: array<nat>)
    requires IsRegs(resRegs[..])
    ensures fresh(vldFlags) && vldFlags.Length == BLOCK_MAX_TXS
    ensures forall k | 0 <= k < BLOCK_MAX_TXS :: vldFlags[k] == Bit(TxFlag(resRegs[..], k))
  {
    ghost var flags := FlagTable(resRegs[..]);
    vldFlags := UnpackAll(resRegs, flags);
  }

  /** Its loop over the registers. */
  method UnpackAll(resRegs: array<word>, ghost flags: seq<bool>) returns (vldFlags: array<nat>)
    requires IsRegs(resRegs[..]) && AreFlags(resRegs[..], flags)
    ensures fresh(vldFlags) && vldFlags.Length == BLOCK_MAX_TXS
    ensures forall k | 0 <= k < BLOCK_MAX_TXS :: vldFlags[k] == Bit(flags[k])
  {
    vldFlags := new nat[BLOCK_MAX_TXS];
    ghost var regs := resRegs[..];
    for i := 0 to 8
      invariant resRegs[..] == regs
      invariant forall k | 0 <= k < 32 * i :: vldFlags[k] == Bit(flags[k])
    {
      ghost var bits := flags[32 * i..32 * i + 32];
      WordBits(resRegs[2 + i]);
      assert bits == Bits(regs[2 + i], 32);
      UnpackRegister(resRegs[2 + i], vldFlags, 32 * i, bits);
      forall k | 32 * i <= k < 32 * i + 32
        ensures vldFlags[k] == Bit(flags[k])
      {
        assert vldFlags[32 * i + (k - 32 * i)] == Bit(bits[k - 32 * i]);
      }
    }
  }
}
