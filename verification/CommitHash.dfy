/** The commit hash that chains every block's flags and updates
    (v2.2/core/ledger/kvledger/kv_ledger.go). */
module CommitHash {
  import opened Common
  import opened Wire

  /** A block of the store: its validation flags, the bytes of its updates, and the commit hash in
      its metadata, if there is one. */
  datatype Stored = Stored(flags: Bytes, updates: Bytes, hash: Option<Bytes>)

  function OrNil(h: Option<Bytes>): Bytes {
    if h.Some? then h.value else []
  }

  /** What addBlockCommitHash hashes. */
  function Preimage(flags: Bytes, updates: Bytes, previous: Bytes): Bytes {
    Varint(|flags|) + flags + updates + previous
  }

  /** The length before the flags keeps them apart from the updates; nothing keeps the updates apart
      from the previous hash but its length. */
  lemma PreimageEqualIff(f: Bytes, u: Bytes, p: Bytes, f': Bytes, u': Bytes, p': Bytes)
    ensures Preimage(f, u, p) == Preimage(f', u', p') <==> f == f' && u + p == u' + p'
  {
    var rest, rest' := f + (u + p), f' + (u' + p');
    assert Preimage(f, u, p) == Varint(|f|) + rest && Preimage(f', u', p') == Varint(|f'|) + rest';
    if Preimage(f, u, p) == Preimage(f', u', p') {
      VarintPrefixFree(|f|, |f'|, rest, rest');
      assert rest[..|f|] == f && rest'[..|f'|] == f';
      assert rest[|f|..] == u + p && rest'[|f'|..] == u' + p';
    }
  }

  /** With previous hashes of one length the preimage is injective. */
  lemma PreimageInjective(f: Bytes, u: Bytes, p: Bytes, f': Bytes, u': Bytes, p': Bytes)
    requires |p| == |p'| && Preimage(f, u, p) == Preimage(f', u', p')
    ensures f == f' && u == u' && p == p'
  {
    PreimageEqualIff(f, u, p, f', u', p');
    assert |u| == |u'|;
    assert u == (u + p)[..|u|] && u' == (u' + p')[..|u'|];
    assert p == (u + p)[|u|..] && p' == (u' + p')[|u'|..];
  }

  /** A hash function with results of one length, such as SHA-256. */
  ghost predicate FixedLength(hash: Bytes -> Bytes) {
    forall x :: |hash(x)| == 32
  }

  // ---------- the chain of hashes ----------

  /** The commit hash after the first n blocks, of which `legacy` were stored without one. */
  function HashAt(hash: Bytes -> Bytes, blocks: seq<Stored>, legacy: nat, n: nat): Option<Bytes>
    requires n <= |blocks|
  {
    if n == 0 then None
    else
      var i, previous := n - 1, HashAt(hash, blocks, legacy, n - 1);
      if i >= legacy && (i == 1 || previous.Some?) then
        Some(hash(Preimage(blocks[i].flags, blocks[i].updates, OrNil(previous))))
      else None
  }

  /** A block carries a commit hash iff it comes after the genesis block on a chain that had at most
      that block before: a chain stored without hashes up to block 1 never gets any. */
  lemma {:induction false} HashPresentIff(hash: Bytes -> Bytes, blocks: seq<Stored>, legacy: nat, n: nat)
    requires n <= |blocks|
    ensures HashAt(hash, blocks, legacy, n).Some? <==> n >= 2 && legacy <= 1
  {
    if n > 0 {
      HashPresentIff(hash, blocks, legacy, n - 1);
    }
  }

  lemma {:induction false} HashPrefix(hash: Bytes -> Bytes, a: seq<Stored>, b: seq<Stored>, legacy: nat, n: nat)
    requires n <= |a| && n <= |b| && forall i | 0 <= i < n :: a[i].flags == b[i].flags && a[i].updates == b[i].updates
    ensures HashAt(hash, a, legacy, n) == HashAt(hash, b, legacy, n)
  {
    if n > 0 {
      HashPrefix(hash, a, b, legacy, n - 1);
    }
  }

  /** What is hashed for block i. */
  function PreimageAt(hash: Bytes -> Bytes, blocks: seq<Stored>, legacy: nat, i: nat): Bytes
    requires i < |blocks|
  {
    Preimage(blocks[i].flags, blocks[i].updates, OrNil(HashAt(hash, blocks, legacy, i)))
  }

  /** Block i of one chain and block j of another are a collision of the hash function. */
  predicate Collide(hash: Bytes -> Bytes, a: seq<Stored>, i: nat, b: seq<Stored>, j: nat, legacy: nat) {
    && i < |a| && j < |b| && PreimageAt(hash, a, legacy, i) != PreimageAt(hash, b, legacy, j)
    && hash(PreimageAt(hash, a, legacy, i)) == hash(PreimageAt(hash, b, legacy, j))
  }

  /** The first n blocks, the genesis block left out, have the same flags and updates. */
  predicate SameHistory(a: seq<Stored>, b: seq<Stored>, n: nat)
    requires n <= |a| && n <= |b|
  {
    forall i | 1 <= i < n :: a[i].flags == b[i].flags && a[i].updates == b[i].updates
  }

  /** Equal commit hashes at one height: the same flags and updates in every block from 1 on, or
      a block whose two preimages are different and have the same hash. */
  lemma {:induction false} EqualHashesEqualChains(hash: Bytes -> Bytes, a: seq<Stored>, b: seq<Stored>, legacy: nat,
                                                  n: nat)
    returns (i: nat)
    requires FixedLength(hash) && n <= |a| && n <= |b|
    requires HashAt(hash, a, legacy, n).Some? && HashAt(hash, a, legacy, n) == HashAt(hash, b, legacy, n)
    ensures SameHistory(a, b, n) || (1 <= i < n && Collide(hash, a, i, b, i, legacy))
  {
    HashPresentIff(hash, a, legacy, n);
    HashPresentIff(hash, a, legacy, n - 1);
    HashPresentIff(hash, b, legacy, n - 1);
    i := n - 1;
    var p, q := OrNil(HashAt(hash, a, legacy, i)), OrNil(HashAt(hash, b, legacy, i));
    if PreimageAt(hash, a, legacy, i) == PreimageAt(hash, b, legacy, i) {
      PreimageInjective(a[i].flags, a[i].updates, p, b[i].flags, b[i].updates, q);
      if i >= 2 {
        i := EqualHashesEqualChains(hash, a, b, legacy, i);
      }
    }
  }

  /** Without a collision between blocks of one height, equal hashes mean equal histories and the other way round. */
  lemma HashesEqualIff(hash: Bytes -> Bytes, a: seq<Stored>, b: seq<Stored>, legacy: nat, n: nat)
    requires FixedLength(hash) && legacy <= 1 && 2 <= n <= |a| && n <= |b|
    requires forall i | 1 <= i < n :: !Collide(hash, a, i, b, i, legacy)
    ensures HashAt(hash, a, legacy, n) == HashAt(hash, b, legacy, n) <==> SameHistory(a, b, n)
  {
    HashPresentIff(hash, a, legacy, n);
    if HashAt(hash, a, legacy, n) == HashAt(hash, b, legacy, n) {
      var i := EqualHashesEqualChains(hash, a, b, legacy, n);
    }
    if SameHistory(a, b, n) {
      SameHistorySameHash(hash, a, b, legacy, n);
    }
  }

  lemma {:induction false} SameHistorySameHash(hash: Bytes -> Bytes, a: seq<Stored>, b: seq<Stored>, legacy: nat,
                                               n: nat)
    requires n <= |a| && n <= |b| && SameHistory(a, b, n)
    ensures HashAt(hash, a, legacy, n) == HashAt(hash, b, legacy, n)
  {
    if n > 0 {
      SameHistorySameHash(hash, a, b, legacy, n - 1);
    }
  }

  /** Updates u are updates v with a hash behind them. */
  predicate Absorbs(u: Bytes, v: Bytes) {
    |u| == |v| + 32 && u[..|v|] == v
  }

  /** At different heights: equal hashes mean a collision, or the updates of block 1 of the shorter
      chain are those of a later block of the longer one with a hash behind them. */
  lemma {:induction false} EqualHashesOtherHeight(hash: Bytes -> Bytes, a: seq<Stored>, n: nat, b: seq<Stored>, m: nat,
                                                  legacy: nat)
    returns (i: nat, j: nat)
    requires FixedLength(hash) && legacy <= 1 && 2 <= n < m && n <= |a| && m <= |b|
    requires HashAt(hash, a, legacy, n) == HashAt(hash, b, legacy, m)
    ensures i < n && j < m
    ensures Collide(hash, a, i, b, j, legacy) || (i == 1 && Absorbs(a[1].updates, b[j].updates))
  {
    HashPresentIff(hash, a, legacy, n);
    HashPresentIff(hash, b, legacy, m);
    HashPresentIff(hash, a, legacy, n - 1);
    HashPresentIff(hash, b, legacy, m - 1);
    i, j := n - 1, m - 1;
    var p, q := OrNil(HashAt(hash, a, legacy, i)), OrNil(HashAt(hash, b, legacy, j));
    if PreimageAt(hash, a, legacy, i) == PreimageAt(hash, b, legacy, j) {
      if n > 2 {
        PreimageInjective(a[i].flags, a[i].updates, p, b[j].flags, b[j].updates, q);
        i, j := EqualHashesOtherHeight(hash, a, i, b, j, legacy);
      } else {
        PreimageEqualIff(a[1].flags, a[1].updates, p, b[j].flags, b[j].updates, q);
        assert a[1].updates + p == a[1].updates;
        assert (b[j].updates + q)[..|b[j].updates|] == b[j].updates;
      }
    }
  }

  lemma SamePreimage(hash: Bytes -> Bytes, a: seq<Stored>, i: nat, b: seq<Stored>, j: nat, legacy: nat)
    requires i < |a| && j < |b| && a[i] == b[j] && HashAt(hash, a, legacy, i) == HashAt(hash, b, legacy, j)
    ensures PreimageAt(hash, a, legacy, i) == PreimageAt(hash, b, legacy, j)
  {
  }

  lemma NextHashSame(hash: Bytes -> Bytes, a: seq<Stored>, i: nat, b: seq<Stored>, j: nat, legacy: nat)
    requires legacy <= 1 && 1 <= i < |a| && 1 <= j < |b|
    requires PreimageAt(hash, a, legacy, i) == PreimageAt(hash, b, legacy, j)
    ensures HashAt(hash, a, legacy, i + 1) == HashAt(hash, b, legacy, j + 1)
  {
    HashStep(hash, a, legacy, i + 1);
    HashStep(hash, b, legacy, j + 1);
  }

  lemma CutAbsorbs(hash: Bytes -> Bytes, a: seq<Stored>, legacy: nat, k: nat)
    requires legacy <= 1 && 2 <= k < |a| && FixedLength(hash)
    ensures Absorbs(CutAt(hash, a, legacy, k)[1].updates, a[k].updates)
  {
    HashPresentIff(hash, a, legacy, k);
  }

  /** And such updates do give equal hashes: a chain cut in front of block k, whose updates take up
      the hash that was cut off, ends with the hash of the whole chain. */
  lemma CutChainAgrees(hash: Bytes -> Bytes, a: seq<Stored>, legacy: nat, k: nat, n: nat)
    requires legacy <= 1 && 2 <= k < n <= |a|
    ensures HashAt(hash, CutAt(hash, a, legacy, k), legacy, n - k + 1) == HashAt(hash, a, legacy, n)
    ensures FixedLength(hash) ==> Absorbs(CutAt(hash, a, legacy, k)[1].updates, a[k].updates)
    decreases n
  {
    var b := CutAt(hash, a, legacy, k);
    if n == k + 1 {
      CutBlock(hash, a, legacy, k);
    } else {
      CutChainAgrees(hash, a, legacy, k, n - 1);
      SamePreimage(hash, b, n - k, a, n - 1, legacy);
    }
    NextHashSame(hash, b, n - k, a, n - 1, legacy);
    if FixedLength(hash) {
      CutAbsorbs(hash, a, legacy, k);
    }
  }

  lemma HashStep(hash: Bytes -> Bytes, blocks: seq<Stored>, legacy: nat, n: nat)
    requires legacy <= 1 && 2 <= n <= |blocks|
    ensures HashAt(hash, blocks, legacy, n) == Some(hash(PreimageAt(hash, blocks, legacy, n - 1)))
  {
    HashPresentIff(hash, blocks, legacy, n - 1);
  }

  /** The first block behind the cut has the preimage it had. */
  lemma CutBlock(hash: Bytes -> Bytes, a: seq<Stored>, legacy: nat, k: nat)
    requires legacy <= 1 && 2 <= k < |a|
    ensures PreimageAt(hash, CutAt(hash, a, legacy, k), legacy, 1) == PreimageAt(hash, a, legacy, k)
  {
    var b, h := CutAt(hash, a, legacy, k), OrNil(HashAt(hash, a, legacy, k));
    HashPresentIff(hash, b, legacy, 1);
    assert b[1] == Stored(a[k].flags, a[k].updates + h, None);
    PreimageEqualIff(a[k].flags, a[k].updates, h, b[1].flags, b[1].updates, []);
    assert b[1].updates + [] == a[k].updates + h;
  }

  function CutAt(hash: Bytes -> Bytes, a: seq<Stored>, legacy: nat, k: nat): seq<Stored>
    requires 2 <= k < |a|
  {
    [a[0], Stored(a[k].flags, a[k].updates + OrNil(HashAt(hash, a, legacy, k)), None)] + a[k + 1..]
  }

  // ---------- the ledger ----------

  class Ledger {
    const sha256: Bytes -> Bytes
    ghost const legacy: nat
    var blocks: seq<Stored>
    var commitHash: Option<Bytes>

    /** The hashes in the block store. */
    ghost predicate StoreValid()
      reads this
    {
      legacy <= |blocks| && forall i | 0 <= i < |blocks| :: blocks[i].hash == HashAt(sha256, blocks, legacy, i + 1)
    }

    ghost predicate Valid()
      reads this
    {
      StoreValid() && commitHash == HashAt(sha256, blocks, legacy, |blocks|)
    }

    /** A ledger whose blocks were all stored before there were commit hashes. */
    constructor (hash: Bytes -> Bytes, bare: seq<Stored>)
      requires forall b | b in bare :: b.hash == None
      ensures Valid() && blocks == bare && legacy == |bare| && sha256 == hash
    {
      sha256, legacy, blocks, commitHash := hash, |bare|, bare, None;
      new;
      forall i: nat | i <= |bare|
        ensures HashAt(hash, bare, |bare|, i) == None
      {
        NoHash(hash, bare, i);
      }
    }

    /** lastPersistedCommitHash; an empty slot in the metadata reads as no hash. */
    method LastPersistedCommitHash() returns (h: Option<Bytes>)
      requires StoreValid()
      ensures h == HashAt(sha256, blocks, legacy, |blocks|)
    {
      if |blocks| == 0 {
        return None;
      }
      h := blocks[|blocks| - 1].hash;
    }

    /** addBlockCommitHash */
    method AddBlockCommitHash(block: Stored) returns (stamped: Stored)
      modifies this`commitHash
      ensures commitHash == Some(sha256(Preimage(block.flags, block.updates, OrNil(old(commitHash)))))
      ensures stamped == block.(hash := commitHash)
    {
      var valueBytes := Varint(|block.flags|);
      valueBytes := valueBytes + block.flags;
      valueBytes := valueBytes + block.updates;
      valueBytes := valueBytes + OrNil(commitHash);
      commitHash := Some(sha256(valueBytes));
      stamped := block.(hash := commitHash);
    }

    /** The commit of the next block as far as the hash goes; `stored` says whether the block reaches
        the store. If it does not, the hash in memory is already that of the block. */
    method Commit(flags: Bytes, updates: Bytes, stored: bool)
      requires Valid()
      modifies this
      ensures StoreValid() && (stored ==> Valid())
      ensures |blocks| == |old(blocks)| + (if stored then 1 else 0) && blocks[..|old(blocks)|] == old(blocks)
      ensures stored ==> blocks[|old(blocks)|].flags == flags && blocks[|old(blocks)|].updates == updates
      ensures !stored && old(commitHash).Some? ==>
                commitHash == Some(sha256(Preimage(flags, updates, old(commitHash).value)))
    {
      var block := Stored(flags, updates, None);
      ghost var before := blocks;
      if |blocks| == 1 || commitHash != None {
        block := AddBlockCommitHash(block);
      }
      if stored {
        ghost var after := before + [block];
        forall i: nat | i <= |before|
          ensures HashAt(sha256, before, legacy, i) == HashAt(sha256, after, legacy, i)
        {
          HashPrefix(sha256, before, after, legacy, i);
        }
        HashPresentIff(sha256, before, legacy, |before|);
        blocks := blocks + [block];
      }
    }

    /** Reopening the ledger: whatever was in memory, the chain goes on from the store. */
    method Restart()
      requires StoreValid()
      modifies this`commitHash
      ensures Valid() && blocks == old(blocks)
    {
      commitHash := LastPersistedCommitHash();
    }
  }

  lemma {:induction false} NoHash(hash: Bytes -> Bytes, bare: seq<Stored>, n: nat)
    requires n <= |bare|
    ensures HashAt(hash, bare, |bare|, n) == None
  {
  }
}
