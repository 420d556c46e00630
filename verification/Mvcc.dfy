/** Read-write sets, versioned state and the reference definition of MVCC
    validation: what a block's validation codes and update batch must be. */
module Mvcc {
  import opened Common

  // ---------- versioned state ----------

  /** Position of a transaction in the chain; also the version of what it writes. */
  datatype Height = Height(block: nat, tx: nat) {
    predicate Less(other: Height) {
      block < other.block || (block == other.block && tx < other.tx)
    }
  }

  /** Public keys and hashed private keys live in disjoint name spaces. */
  datatype Key =
    | Pub(ns: string, key: string)
    | Hashed(ns: string, coll: string, keyHash: Bytes)

  datatype Versioned = Versioned(value: Bytes, version: Height)

  type State = map<Key, Versioned>

  /** A batch entry; value None is a delete, which still occupies its key. */
  datatype Update = Update(value: Option<Bytes>, version: Height)

  type Updates = map<Key, Update>

  function Lookup(st: State, k: Key): Option<Versioned> {
    if k in st then Some(st[k]) else None
  }

  function VersionOf(st: State, k: Key): Option<Height> {
    if k in st then Some(st[k].version) else None
  }

  /** The state after the batch has been written. */
  function Overlay(st: State, ups: Updates): (r: State)
    ensures forall k ::
              Lookup(r, k) ==
              if k in ups then
                (if ups[k].value.Some? then Some(Versioned(ups[k].value.value, ups[k].version)) else None)
              else Lookup(st, k)
  {
    map k | k in st.Keys + ups.Keys && (k in ups ==> ups[k].value.Some?) ::
      if k in ups then Versioned(ups[k].value.value, ups[k].version) else st[k]
  }

  // ---------- read-write sets ----------

  datatype KVRead = KVRead(key: string, version: Option<Height>)

  datatype KVReadHash = KVReadHash(keyHash: Bytes, version: Option<Height>)

  /** A recorded range scan: the bounds and the (key, version) pairs it returned. */
  datatype RangeQuery = RangeQuery(startKey: string, endKey: string, itrExhausted: bool, results: map<string, Height>)

  datatype CollHashedRwSet = CollHashedRwSet(coll: string, hashedReads: seq<KVReadHash>,
                                             hashedWrites: seq<(Bytes, Option<Bytes>)>)

  datatype NsRwSet = NsRwSet(
    ns: string,
    kvReads: seq<KVRead>,
    rangeQueries: seq<RangeQuery>,
    collHashed: seq<CollHashedRwSet>,
    kvWrites: seq<(string, Option<Bytes>)>)

  type TxRwSet = seq<NsRwSet>

  datatype Write = Write(key: Key, value: Option<Bytes>)

  predicate StrLess(a: string, b: string) {
    b != [] && (a == [] || a[0] < b[0] || (a[0] == b[0] && StrLess(a[1..], b[1..])))
  }

  predicate InRange(rq: RangeQuery, k: string) {
    !StrLess(k, rq.startKey) && (StrLess(k, rq.endKey) || (!rq.itrExhausted && k == rq.endKey))
  }

  function CollWrites(ns: string, c: CollHashedRwSet): seq<Write> {
    seq(|c.hashedWrites|, i requires 0 <= i < |c.hashedWrites| =>
      Write(Hashed(ns, c.coll, c.hashedWrites[i].0), c.hashedWrites[i].1))
  }

  function CollsWrites(ns: string, cs: seq<CollHashedRwSet>): seq<Write> {
    if cs == [] then [] else CollWrites(ns, cs[0]) + CollsWrites(ns, cs[1..])
  }

  function NsWrites(n: NsRwSet): seq<Write> {
    seq(|n.kvWrites|, i requires 0 <= i < |n.kvWrites| => Write(Pub(n.ns, n.kvWrites[i].0), n.kvWrites[i].1))
    + CollsWrites(n.ns, n.collHashed)
  }

  /** All writes of a transaction, in the order they are applied. */
  function Writes(rw: TxRwSet): seq<Write> {
    if rw == [] then [] else NsWrites(rw[0]) + Writes(rw[1..])
  }

  /** applyWriteSet: each write replaces whatever the batch held for its key. */
  function ApplyWrites(ups: Updates, ws: seq<Write>, h: Height): Updates
    decreases ws
  {
    if ws == [] then ups
    else ApplyWrites(ups[ws[0].key := Update(ws[0].value, h)], ws[1..], h)
  }

  lemma {:induction false} ApplyWritesKeys(ups: Updates, ws: seq<Write>, h: Height)
    ensures ApplyWrites(ups, ws, h).Keys == ups.Keys + set w | w in ws :: w.key
    decreases ws
  {
    if ws != [] {
      ApplyWritesKeys(ups[ws[0].key := Update(ws[0].value, h)], ws[1..], h);
      assert forall w :: w in ws <==> w == ws[0] || w in ws[1..];
    }
  }

  // ---------- the verdict on one transaction ----------

  datatype Code = VALID | MVCC_READ_CONFLICT | PHANTOM_READ_CONFLICT

  /** No preceding valid transaction of the block touched the key, and its
      committed version is the one that was read. */
  predicate ReadCurrent(st: State, ups: Updates, k: Key, version: Option<Height>) {
    k !in ups && VersionOf(st, k) == version
  }

  predicate ReadsCurrent(st: State, ups: Updates, ns: string, kvReads: seq<KVRead>) {
    forall r | r in kvReads :: ReadCurrent(st, ups, Pub(ns, r.key), r.version)
  }

  /** Scanning the range again over `view` returns exactly the recorded pairs. */
  predicate RangeCurrent(view: State, ns: string, rq: RangeQuery) {
    && (forall k | k in rq.results ::
          InRange(rq, k) && VersionOf(view, Pub(ns, k)) == Some(rq.results[k]))
    && (forall k | k in view ::
          k.Pub? && k.ns == ns && InRange(rq, k.key) ==> k.key in rq.results)
  }

  predicate RangesCurrent(st: State, ups: Updates, ns: string, rqs: seq<RangeQuery>) {
    forall rq | rq in rqs :: RangeCurrent(Overlay(st, ups), ns, rq)
  }

  predicate HashedCurrent(st: State, ups: Updates, ns: string, colls: seq<CollHashedRwSet>) {
    forall c | c in colls :: forall r | r in c.hashedReads ::
      ReadCurrent(st, ups, Hashed(ns, c.coll, r.keyHash), r.version)
  }

  function NsVerdict(st: State, ups: Updates, n: NsRwSet): Code {
    if !ReadsCurrent(st, ups, n.ns, n.kvReads) then MVCC_READ_CONFLICT
    else if !RangesCurrent(st, ups, n.ns, n.rangeQueries) then PHANTOM_READ_CONFLICT
    else if !HashedCurrent(st, ups, n.ns, n.collHashed) then MVCC_READ_CONFLICT
    else VALID
  }

  /** The code of the first name space that conflicts. */
  function Verdict(st: State, ups: Updates, rw: TxRwSet): Code {
    if rw == [] then VALID
    else if NsVerdict(st, ups, rw[0]) != VALID then NsVerdict(st, ups, rw[0])
    else Verdict(st, ups, rw[1..])
  }

  // ---------- the batch of one block ----------

  /** A parsed transaction: its place in the block and its read-write set. */
  datatype Tx = Tx(indexInBlock: nat, rwset: TxRwSet)

  datatype Batch = Batch(codes: seq<Code>, updates: Updates)

  function CodesOf(st: State, num: nat, txs: seq<Tx>, doMvcc: bool): (codes: seq<Code>)
    ensures |codes| == |txs|
  {
    if txs == [] then []
    else
      var prev := txs[..|txs| - 1];
      var code := if doMvcc then Verdict(st, UpdatesOf(num, prev, CodesOf(st, num, prev, doMvcc)), txs[|txs| - 1].rwset)
                  else VALID;
      CodesOf(st, num, prev, doMvcc) + [code]
  }

  /** The writes of the transactions marked VALID, in block order. */
  function UpdatesOf(num: nat, txs: seq<Tx>, codes: seq<Code>): Updates
    requires |codes| == |txs|
  {
    if txs == [] then map[]
    else
      var last := |txs| - 1;
      var before := UpdatesOf(num, txs[..last], codes[..last]);
      if codes[last] == VALID then ApplyWrites(before, Writes(txs[last].rwset), Height(num, txs[last].indexInBlock))
      else before
  }

  function MvccBatch(st: State, num: nat, txs: seq<Tx>, doMvcc: bool): Batch {
    var codes := CodesOf(st, num, txs, doMvcc);
    Batch(codes, UpdatesOf(num, txs, codes))
  }

  /** Codes and batch of a prefix are a prefix of the codes, and the batch so far. */
  lemma {:induction false} CodesPrefix(st: State, num: nat, txs: seq<Tx>, doMvcc: bool, i: nat)
    requires i <= |txs|
    ensures CodesOf(st, num, txs, doMvcc)[..i] == CodesOf(st, num, txs[..i], doMvcc)
  {
    if i == |txs| {
      assert txs[..i] == txs;
    } else {
      CodesPrefix(st, num, txs[..|txs| - 1], doMvcc, i);
      assert txs[..|txs| - 1][..i] == txs[..i];
    }
  }

  /** VALID means that every read, scan and hashed read is current. */
  lemma {:induction false} VerdictIsValid(st: State, ups: Updates, rw: TxRwSet)
    ensures Verdict(st, ups, rw) == VALID <==>
            forall n | n in rw ::
              && ReadsCurrent(st, ups, n.ns, n.kvReads)
              && RangesCurrent(st, ups, n.ns, n.rangeQueries)
              && HashedCurrent(st, ups, n.ns, n.collHashed)
  {
    if rw != [] {
      VerdictIsValid(st, ups, rw[1..]);
      assert forall n :: n in rw <==> n == rw[0] || n in rw[1..];
    }
  }
}
