/** A block cut into packets, and the block put together again from them. */
module BlockDeliver {
  import opened Common
  import opened Wire
  import WireOrder
  import opened CertificateCache
  import opened Packets
  import opened Annotations
  import opened TxPackets

  const ORDERER_CA := AnnotationInfo(0x80 + 0x40, [3, 1, 2, 1, 1])
  const ORDERER_SIG := AnnotationInfo(0x41, [3, 1, 2, 2])

  /** A serialized block: header, transactions, metadata, in field order. */
  datatype Block = Block(header: Field, txs: seq<Field>, metadata: Field)

  function BlockFields(b: Block): seq<Field> {
    [b.header, Message(2, b.txs), b.metadata]
  }

  predicate MetaShape(meta: seq<Field>) {
    && SmallNums(meta) && |Encode(meta)| < 0x1_0000
    && Walkable(meta, ORDERER_CA.path) && Walkable(meta, ORDERER_SIG.path)
  }

  /** Each transaction is one packet: a list of the one field. */
  predicate AreTxs(txs: seq<Field>, infos: seq<AnnotationInfo>) {
    IsTable(infos) && forall i | 0 <= i < |txs| :: TxShape([txs[i]], infos)
  }

  /** The field numbers of a block: header 1, data 2, metadata 3, each transaction 1. */
  predicate IsBlock(b: Block) {
    b.header.num == 1 && b.metadata.num == 3 && forall i | 0 <= i < |b.txs| :: b.txs[i].num == 1
  }

  predicate BlockShape(b: Block, infos: seq<AnnotationInfo>) {
    IsBlock(b) && AreTxs(b.txs, infos) && MetaShape([b.metadata])
  }

  // ---------- metadata packet ----------

  function MetaAnnotations(meta: seq<Field>, at: nat): seq<Annotation>
    requires MetaShape(meta)
  {
    [Entry(meta, ORDERER_CA, at), Entry(meta, ORDERER_SIG, at)]
  }

  /** The orderer's identity is annotated inside the packet. */
  predicate MetaSendable(meta: seq<Field>, at: nat)
    requires MetaShape(meta)
  {
    WellPlaced(MetaAnnotations(meta, at), 0, |Encode(meta)|)
  }

  lemma MetaNarrow(meta: seq<Field>, at: nat)
    requires MetaShape(meta)
    ensures Narrow(MetaAnnotations(meta, at))
    ensures MetaSendable(meta, at) ==> InPacket(MetaAnnotations(meta, at), |Encode(meta)|)
  {
    if MetaSendable(meta, at) {
      WellPlacedInside(MetaAnnotations(meta, at), 0, |Encode(meta)|);
    }
  }

  /** Signed metadata can be sent, whatever the order of its fields. */
  lemma SignedMetaSendable(meta: seq<Field>, at: nat)
    requires MetaShape(meta) && Resolves(meta, ORDERER_CA.path)
    ensures MetaSendable(meta, at)
  {
    var anns := MetaAnnotations(meta, at);
    EntryFits(meta, ORDERER_CA, at);
    NoLocators([anns[1]], anns[0].End(), |Encode(meta)|);
    assert anns[1..] == [anns[1]];
  }

  function MetaPacket(meta: seq<Field>, at: nat, m: Maps): Packet
    requires MetaShape(meta) && MetaSendable(meta, at)
  {
    MetaNarrow(meta, at);
    PacketOf(3, Encode(meta), MetaAnnotations(meta, at), m, 2)
  }

  /** generateBlockMetaAnnotation and SendBlockMeta */
  method SendBlockMeta(cache: Cache, data: Bytes, pos: nat, length: nat, ghost meta: seq<Field>)
    returns (p: Option<Packet>)
    requires |data| < TWO63 && MetaShape(meta) && At(Encode(meta), data, pos) && length == |Encode(meta)|
    ensures p.Some? <==> MetaSendable(meta, pos)
    ensures p.Some? ==> p.value == MetaPacket(meta, pos, cache.State())
  {
    var annotation := new Annotation[2](_ => Annotation(0, 0, 0));
    annotation[0] := AnnotatePath(data, pos, length, ORDERER_CA, meta);
    annotation[1] := AnnotatePath(data, pos, length, ORDERER_SIG, meta);
    assert annotation[..] == MetaAnnotations(meta, pos);
    MetaNarrow(meta, pos);
    var payload := AdjustDataBasedOnLocator(cache, data, pos, length, annotation);
    if payload.None? {
      return None;
    }
    p := Some(Packet(3, annotation[..], annotation.Length, payload.value));
  }

  /** The pointer to the orderer's signature leads to all of it, whatever the packet holds,
      exactly when the orderer's identity lies in front of it or is empty. */
  lemma {:induction false} MetaPointerLeadsIff(meta: seq<Field>, at: nat, m: Maps)
    requires MetaShape(meta) && Resolves(meta, ORDERER_CA.path) && Resolves(meta, ORDERER_SIG.path)
    requires LengthOf(meta, ORDERER_SIG.path) > 0
    ensures var anns := MetaAnnotations(meta, at);
            && MetaSendable(meta, at) && InPacket(anns, |Encode(meta)|) && anns[1].End() <= |Encode(meta)|
            && (AlwaysLeads(anns, |Encode(meta)|, m, 1)
                <==> || EndOf(meta, ORDERER_CA.path) <= PosOf(meta, ORDERER_SIG.path)
                     || LengthOf(meta, ORDERER_CA.path) == 0)
  {
    var anns := MetaAnnotations(meta, at);
    SignedMetaSendable(meta, at);
    MetaNarrow(meta, at);
    EntryFits(meta, ORDERER_CA, at);
    EntryFits(meta, ORDERER_SIG, at);
    PointerLeadsIff(anns, |Encode(meta)|, m, 1);
    OneLocator(anns[0], anns[1], anns[1].offset, anns[1].desc);
  }

  lemma OneLocator(a: Annotation, b: Annotation, x: nat, n: nat)
    requires a.Locator() && !b.Locator()
    ensures RemovedBytes([a, b][..1]) == a.desc
    ensures RemovedBelow([a, b], x) == if a.End() <= x then a.desc else 0
    ensures AllClear([a, b], x, n) <==> Clear(a, x, n)
  {
    assert [a, b][..1] == [a] && [a, b][1..] == [b] && [b][1..] == [];
    SingleRemoved(a);
    RemovedBelowFirst([a, b], x);
    RemovedBelowFirst([b], x);
    if Clear(a, x, n) {
      assert forall c | c in [a, b] :: c == a || c == b;
    } else {
      assert a in [a, b];
    }
  }

  /** Serialized in number order, the metadata packet's pointer has all of the signature. */
  lemma {:induction false} MetaPointerKeepsContent(meta: seq<Field>, at: nat, m: Maps)
    requires MetaShape(meta) && MetaSendable(meta, at) && WireOrder.Sorted(meta)
    requires Resolves(meta, ORDERER_CA.path) && Resolves(meta, ORDERER_SIG.path)
    ensures var p := MetaPacket(meta, at, m);
            && |p.annotations| == 2 && p.annotations[1].End() <= |p.payload|
            && p.payload[p.annotations[1].offset..p.annotations[1].End()]
               == Content(Descendant(meta, ORDERER_SIG.path).value)
  {
    var anns := MetaAnnotations(meta, at);
    MetaNarrow(meta, at);
    EntryFits(meta, ORDERER_CA, at);
    EntryFits(meta, ORDERER_SIG, at);
    Before(meta, ORDERER_CA.path, ORDERER_SIG.path, 3);
    ContentAt(meta, ORDERER_SIG.path);
    assert anns[..1] == [anns[0]] && anns[1..] == [anns[1]];
    SortedPointerContent(Encode(meta), anns, m, 1, Content(Descendant(meta, ORDERER_SIG.path).value));
  }

  // ---------- header packet ----------

  const BLOCK_HEADER := 0x10
  const TRANSACTIONS := 0x80 + 0x11
  const BLOCK_METADATA := 0x80 + 0x12
  const BLOCK_ID := 0x13

  /** Header packet: everything up to the first transaction. */
  function HeaderBytes(b: Block): Bytes {
    EncodeField(b.header) + Head(Message(2, b.txs))
  }

  /** Bytes from pos on that have their top bit set, counted no further than position 64. */
  function Continuing(data: Bytes, pos: nat): (n: nat)
    ensures n <= 64
    ensures n > 0 ==> pos + n <= 64
    decreases 64 - pos
  {
    if pos < 64 && pos < |data| && data[pos] >= 128 then 1 + Continuing(data, pos + 1) else 0
  }

  /** The entry for the block number: the varint behind the first byte of the header's content,
      or the first byte of the block if the header is empty. */
  function BlockIdEntry(header: Field, data: Bytes): Annotation {
    if Content(header) == [] then Annotation(BLOCK_ID, 0, 1 + Continuing(data, 0))
    else Annotation(BLOCK_ID, U16(|Head(header)| + 1), 1 + Continuing(data, |Head(header)| + 1))
  }

  /** generateBlockAnnotation: header, number of transactions, metadata, block number. */
  function HeaderAnnotations(b: Block, data: Bytes): seq<Annotation> {
    [Annotation(BLOCK_HEADER, 0, U16(|HeaderBytes(b)|)), Annotation(TRANSACTIONS, U16(|b.txs|), 0),
     Annotation(BLOCK_METADATA, 1, 0), BlockIdEntry(b.header, data)]
  }

  lemma ContinuingEnds(data: Bytes, pos: nat, stop: nat)
    requires pos <= stop < |data| && data[stop] < 128
    ensures pos + Continuing(data, pos) <= stop
    decreases 64 - pos
  {
    if pos < 64 && data[pos] >= 128 {
      ContinuingEnds(data, pos + 1, stop);
    }
  }

  /** The loop that measures the varint at pos. A byte without top bit ends it inside the data. */
  method MeasureVarint(data: Bytes, pos: nat, ghost stop: nat) returns (length: nat)
    requires pos <= stop < |data| && data[stop] < 128
    ensures length == 1 + Continuing(data, pos)
  {
    length := 1;
    var at := pos;
    ContinuingEnds(data, pos, stop);
    while at < 64
      invariant pos <= at <= stop && length == 1 + at - pos
      invariant Continuing(data, pos) == at - pos + Continuing(data, at)
      decreases 64 - at
    {
      if data[at] < 128 {
        break;
      }
      ContinuingEnds(data, at, stop);
      at := at + 1;
      length := length + 1;
    }
  }

  /** The header, looked up by its number from the front of the block; only as many bytes are
      searched as the header's content has. */
  method FindHeader(data: Bytes, ghost b: Block) returns (pos: int)
    requires |data| < TWO63 && data == Encode(BlockFields(b)) && IsBlock(b) && SmallNum(b.header)
    ensures pos == if Content(b.header) == [] then -1 else |Head(b.header)|
  {
    BlockPositions(b, data);
    var field, size, length: int;
    field, size, pos := ReadField(data, 0, b.header);
    if size == 0 {
      return -1;
    }
    field, length, pos := ReadField(data, 0, b.header);
  }

  /** The varint at pos, if the header holds something, or the first byte of the block, ends
      inside the data. */
  lemma VarintEnds(b: Block, data: Bytes) returns (stop: nat)
    requires data == Encode(BlockFields(b)) && b.header.num == 1
    ensures stop < |data| && data[stop] < 128
    ensures if Content(b.header) == [] then stop == 0 else |Head(b.header)| + 1 <= stop
  {
    if Content(b.header) == [] {
      HeaderTag(b, data);
      stop := 0;
    } else {
      DataTag(b, data);
      stop := |EncodeField(b.header)|;
    }
  }

  /** The block-number case. */
  method AnnotateBlockId(data: Bytes, ghost b: Block) returns (a: Annotation)
    requires |data| < TWO63 && data == Encode(BlockFields(b)) && IsBlock(b) && SmallNum(b.header)
    ensures a == BlockIdEntry(b.header, data)
  {
    var pos := FindHeader(data, b);
    pos := pos + 1;
    ghost var stop := VarintEnds(b, data);
    var length := MeasureVarint(data, pos, stop);
    a := Annotation(BLOCK_ID, U16(pos), U16(length));
    SmallU16(length);
  }

  // ---------- all packets of a block ----------

  /** Where transaction n starts. */
  function TxStart(txs: seq<Field>, from: nat, n: nat): nat
    requires n <= |txs|
  {
    from + |Encode(txs[..n])|
  }

  predicate AllSendable(txs: seq<Field>, infos: seq<AnnotationInfo>, from: nat)
    requires AreTxs(txs, infos)
  {
    forall i | 0 <= i < |txs| :: Sendable([txs[i]], infos, TxStart(txs, from, i))
  }

  /** No packet of the block makes its sender panic. */
  predicate BlockSendable(b: Block, infos: seq<AnnotationInfo>)
    requires BlockShape(b, infos)
  {
    && AllSendable(b.txs, infos, |HeaderBytes(b)|)
    && MetaSendable([b.metadata], TxStart(b.txs, |HeaderBytes(b)|, |b.txs|))
  }

  function TxPacketsOf(txs: seq<Field>, infos: seq<AnnotationInfo>, from: nat, m: Maps): (r: seq<Packet>)
    requires AreTxs(txs, infos) && AllSendable(txs, infos, from)
    ensures |r| == |txs|
  {
    seq(|txs|, i requires 0 <= i < |txs| => TxPacket([txs[i]], infos, TxStart(txs, from, i), m))
  }

  function HeaderPacket(b: Block): Packet {
    Packet(1, HeaderAnnotations(b, Encode(BlockFields(b))), 4, HeaderBytes(b))
  }

  function BlockPackets(b: Block, infos: seq<AnnotationInfo>, m: Maps): seq<Packet>
    requires BlockShape(b, infos) && BlockSendable(b, infos)
  {
    var from := |HeaderBytes(b)|;
    [HeaderPacket(b)] + TxPacketsOf(b.txs, infos, from, m)
    + [MetaPacket([b.metadata], TxStart(b.txs, from, |b.txs|), m)]
  }

  lemma BlockParts(b: Block)
    ensures Encode(BlockFields(b)) == HeaderBytes(b) + Encode(b.txs) + EncodeField(b.metadata)
  {
    var fields := BlockFields(b);
    assert fields[1..] == [Message(2, b.txs), b.metadata] && fields[1..][1..] == [b.metadata];
    EncodeOne(b.metadata);
    assert EncodeField(Message(2, b.txs)) == Head(Message(2, b.txs)) + Encode(b.txs);
    assert Encode(fields) == EncodeField(b.header) + (EncodeField(Message(2, b.txs)) + EncodeField(b.metadata));
  }

  lemma FourParts(h: Bytes, d: Bytes, t: Bytes, m: Bytes, data: Bytes)
    requires data == h + d + t + m
    ensures At(h, data, 0) && At(h + d, data, 0) && At(d + t, data, |h|) && At(t, data, |h + d|)
            && At(m, data, |h + d + t|)
  {
    assert data[..|h|] == h && data[..|h + d|] == h + d;
    assert data[|h|..|h + d + t|] == d + t;
    assert data[|h + d|..|h + d + t|] == t;
    assert data[|h + d + t|..] == m;
  }

  /** Where SendBlock finds the parts of the block. */
  lemma BlockPositions(b: Block, data: Bytes)
    requires data == Encode(BlockFields(b))
    ensures var dataField := Message(2, b.txs);
            var p1 := |EncodeField(b.header)|;
            var p2 := p1 + |Head(dataField)|;
            && At(EncodeField(b.header), data, 0) && At(EncodeField(dataField), data, p1)
            && At(HeaderBytes(b), data, 0) && |HeaderBytes(b)| == p2
            && At(Encode(b.txs), data, p2) && Content(dataField) == Encode(b.txs)
            && At(EncodeField(b.metadata), data, p2 + |Encode(b.txs)|)
            && p2 + |Encode(b.txs)| + |EncodeField(b.metadata)| == |data|
  {
    BlockParts(b);
    var dataField := Message(2, b.txs);
    assert EncodeField(dataField) == Head(dataField) + Encode(b.txs);
    FourParts(EncodeField(b.header), Head(dataField), Encode(b.txs), EncodeField(b.metadata), data);
  }

  lemma DataTag(b: Block, data: Bytes)
    requires data == Encode(BlockFields(b))
    ensures |EncodeField(b.header)| < |data| && data[|EncodeField(b.header)|] == 18
  {
    BlockPositions(b, data);
    var dataField := Message(2, b.txs);
    VarintSize(18);
    HeadNotEmpty(dataField);
    FirstOf(dataField, 18, data, |EncodeField(b.header)|);
  }

  lemma FirstOf(f: Field, tag: nat, data: Bytes, pos: nat)
    requires tag == 8 * f.num + WireType(f) < 128 && At(EncodeField(f), data, pos)
    ensures pos < |data| && data[pos] == tag as byte
  {
    VarintSize(tag);
    assert EncodeField(f)[0] == tag as byte;
    assert data[pos] == data[pos..pos + |EncodeField(f)|][0];
  }

  lemma HeaderTag(b: Block, data: Bytes)
    requires data == Encode(BlockFields(b)) && b.header.num == 1
    ensures 0 < |data| && data[0] < 128
  {
    BlockPositions(b, data);
    FirstOf(b.header, 8 + WireType(b.header), data, 0);
  }

  // ---------- SendBlock ----------

  /** Starts of the transactions in the block. */
  function Starts(txs: seq<Field>, from: nat, n: nat): seq<nat>
    requires n <= |txs|
  {
    seq(n, i requires 0 <= i < n => TxStart(txs, from, i))
  }

  function Lengths(txs: seq<Field>, n: nat): seq<nat>
    requires n <= |txs|
  {
    seq(n, i requires 0 <= i < n => |EncodeField(txs[i])|)
  }

  lemma StartsGrow(txs: seq<Field>, from: nat, n: nat)
    requires n < |txs|
    ensures Starts(txs, from, n + 1) == Starts(txs, from, n) + [TxStart(txs, from, n)]
    ensures Lengths(txs, n + 1) == Lengths(txs, n) + [|EncodeField(txs[n])|]
  {
  }

  /** Transaction n of the block: where it is, and whether it is the last. */
  lemma TxAt(txs: seq<Field>, n: nat, data: Bytes, start: nat)
    requires n < |txs| && At(Encode(txs), data, start)
    ensures At(EncodeField(txs[n]), data, start + |Encode(txs[..n])|)
    ensures |Encode(txs[..n + 1])| == |Encode(txs[..n])| + |Head(txs[n])| + |Content(txs[n])|
    ensures |EncodeField(txs[n])| == |Head(txs[n])| + |Content(txs[n])|
    ensures |Encode(txs[..n + 1])| < |Encode(txs)| <==> n + 1 < |txs|
  {
    FieldAt(txs, n, data, start);
    EncodeUpTo(txs, n);
    MoreToCome(txs, n + 1);
  }

  function DropLast<T>(s: seq<T>): seq<T> {
    if s == [] then [] else s[..|s| - 1]
  }

  /** The first n transactions have been found, and pos is where they end. */
  predicate FoundUpTo(txs: seq<Field>, start: nat, end: nat, positions: seq<nat>, lengths: seq<nat>, pos: int, n: nat) {
    && n <= |txs| && pos == start + |Encode(txs[..n])| && (pos < end <==> n < |txs|)
    && positions == Starts(txs, start, n) && lengths == Lengths(txs, n)
  }

  lemma FoundNext(txs: seq<Field>, start: nat, end: nat, positions: seq<nat>, lengths: seq<nat>, pos: nat, n: nat,
                  data: Bytes)
    requires FoundUpTo(txs, start, end, positions, lengths, pos, n) && pos < end == start + |Encode(txs)|
    requires At(Encode(txs), data, start)
    ensures At(EncodeField(txs[n]), data, pos)
    ensures var size := |Head(txs[n])| + |Content(txs[n])|;
            FoundUpTo(txs, start, end, positions + [pos], lengths + [size], pos + size, n + 1)
  {
    TxAt(txs, n, data, start);
    StartsGrow(txs, start, n);
  }

  /** The loop of SendBlock over the transactions. A field of another number drops the last
      start, as in the source. */
  method FindTransactions(data: Bytes, start: nat, end: nat, ghost txs: seq<Field>)
    returns (positions: seq<nat>, lengths: seq<nat>, pos: nat)
    requires |data| < TWO63 && At(Encode(txs), data, start) && end == start + |Encode(txs)|
    requires forall i | 0 <= i < |txs| :: txs[i].num == 1
    ensures positions == Starts(txs, start, |txs|) && lengths == Lengths(txs, |txs|) && pos == end
  {
    pos, positions, lengths := start, [], [];
    ghost var n: nat := 0;
    assert txs[..0] == [];
    MoreToCome(txs, 0);
    while pos < end
      invariant FoundUpTo(txs, start, end, positions, lengths, pos, n)
      decreases |txs| - n
    {
      FoundNext(txs, start, end, positions, lengths, pos, n, data);
      positions := positions + [pos];
      var field, length: int;
      field, length, pos := ReadField(data, pos, txs[n]);
      if field != 1 {
        positions := DropLast(positions);
      }
      pos := pos + length;
      lengths := lengths + [pos - positions[|positions| - 1]];
      n := n + 1;
    }
    assert txs[..n] == txs;
  }

  /** Packet n, if every packet can be sent. */
  predicate IsNth(p: Packet, txs: seq<Field>, infos: seq<AnnotationInfo>, from: nat, m: Maps, n: nat)
    requires AreTxs(txs, infos) && n < |txs|
  {
    AllSendable(txs, infos, from) ==> p == TxPacketsOf(txs, infos, from, m)[n]
  }

  method SendNth(cache: Cache, data: Bytes, position: nat, length: nat, infos: seq<AnnotationInfo>,
                 ghost txs: seq<Field>, ghost from: nat, ghost n: nat)
    returns (p: Option<Packet>)
    requires |data| < TWO63 && At(Encode(txs), data, from) && AreTxs(txs, infos) && n < |txs|
    requires position == TxStart(txs, from, n) && length == |EncodeField(txs[n])|
    ensures p.Some? <==> Sendable([txs[n]], infos, TxStart(txs, from, n))
    ensures p.Some? ==> IsNth(p.value, txs, infos, from, cache.State(), n)
  {
    FieldAt(txs, n, data, from);
    EncodeOne(txs[n]);
    p := SendTransaction(cache, data, position, length, infos, [txs[n]]);
  }

  /** The first n packets, if every packet can be sent. */
  predicate SentUpTo(packets: seq<Packet>, txs: seq<Field>, infos: seq<AnnotationInfo>, from: nat, m: Maps, n: nat)
    requires AreTxs(txs, infos) && n <= |txs|
  {
    && |packets| == n && (forall i | 0 <= i < n :: Sendable([txs[i]], infos, TxStart(txs, from, i)))
    && (AllSendable(txs, infos, from) ==> packets == TxPacketsOf(txs, infos, from, m)[..n])
  }

  lemma SentNext(packets: seq<Packet>, p: Packet, txs: seq<Field>, infos: seq<AnnotationInfo>, from: nat, m: Maps,
                 n: nat)
    requires AreTxs(txs, infos) && n < |txs| && SentUpTo(packets, txs, infos, from, m, n)
    requires Sendable([txs[n]], infos, TxStart(txs, from, n)) && IsNth(p, txs, infos, from, m, n)
    ensures SentUpTo(packets + [p], txs, infos, from, m, n + 1)
  {
    if AllSendable(txs, infos, from) {
      TakeNext(TxPacketsOf(txs, infos, from, m), n);
    }
  }

  lemma TakeNext(s: seq<Packet>, i: nat)
    requires i < |s|
    ensures s[..i + 1] == s[..i] + [s[i]]
  {
  }

  method SendTransactions(cache: Cache, data: Bytes, positions: seq<nat>, lengths: seq<nat>, infos: seq<AnnotationInfo>,
                          ghost txs: seq<Field>, ghost from: nat)
    returns (packets: Option<seq<Packet>>)
    requires |data| < TWO63 && At(Encode(txs), data, from) && AreTxs(txs, infos)
    requires positions == Starts(txs, from, |txs|) && lengths == Lengths(txs, |txs|)
    ensures packets.Some? <==> AllSendable(txs, infos, from)
    ensures packets.Some? ==> packets.value == TxPacketsOf(txs, infos, from, cache.State())
  {
    var sent: seq<Packet> := [];
    for i := 0 to |positions|
      invariant SentUpTo(sent, txs, infos, from, cache.State(), i)
    {
      var p := SendNth(cache, data, positions[i], lengths[i], infos, txs, from, i);
      if p.None? {
        return None;
      }
      SentNext(sent, p.value, txs, infos, from, cache.State(), i);
      sent := sent + [p.value];
    }
    packets := Some(sent);
  }

  /** The bounds SendBlock computes: end of the header packet, transactions, metadata. */
  method FindParts(data: Bytes, ghost b: Block)
    returns (headerLen: nat, positions: seq<nat>, lengths: seq<nat>, metaPos: nat, metaLen: nat)
    requires |data| < TWO63 && data == Encode(BlockFields(b)) && IsBlock(b)
    ensures headerLen == |HeaderBytes(b)| <= |data| && data[..headerLen] == HeaderBytes(b)
    ensures At(Encode(b.txs), data, headerLen)
    ensures positions == Starts(b.txs, headerLen, |b.txs|) && lengths == Lengths(b.txs, |b.txs|)
    ensures metaPos == headerLen + |Encode(b.txs)| && At(EncodeField(b.metadata), data, metaPos)
    ensures metaLen == |EncodeField(b.metadata)|
  {
    BlockPositions(b, data);
    var field, length: int;
    var pos: nat;
    field, length, pos := ReadField(data, 0, b.header);
    pos := pos + length;
    field, length, pos := ReadField(data, pos, Message(2, b.txs));
    headerLen, metaPos := pos, pos + length;
    positions, lengths, pos := FindTransactions(data, pos, metaPos, b.txs);
    field, length, pos := ReadField(data, pos, b.metadata);
    metaLen := pos + length - metaPos;
  }

  /** SendBlockHeader */
  method SendBlockHeader(data: Bytes, pos: nat, length: nat, transactionLen: seq<nat>, ghost b: Block)
    returns (p: Packet)
    requires |data| < TWO63 && data == Encode(BlockFields(b)) && IsBlock(b) && SmallNum(b.header)
    requires pos == 0 && length == |HeaderBytes(b)| <= |data| && data[..length] == HeaderBytes(b)
             && |transactionLen| == |b.txs|
    ensures p == HeaderPacket(b)
  {
    var id := AnnotateBlockId(data, b);
    var annotation := [Annotation(BLOCK_HEADER, U16(pos), U16(length)),
                       Annotation(TRANSACTIONS, U16(|transactionLen|), 0),
                       Annotation(BLOCK_METADATA, 1, 0), id];
    p := Packet(1, annotation, |annotation|, data[pos..pos + length]);
  }

  /** SendBlock: header, transactions, metadata, in this order. None stands for a panic on the
      way. */
  method SendBlock(cache: Cache, data: Bytes, infos: seq<AnnotationInfo>, ghost b: Block)
    returns (packets: Option<seq<Packet>>)
    requires |data| < TWO63 && BlockShape(b, infos) && data == Encode(BlockFields(b))
    ensures packets.Some? <==> BlockSendable(b, infos)
    ensures packets.Some? ==> packets.value == BlockPackets(b, infos, cache.State())
  {
    var headerLen, positions, lengths, metaPos, metaLen := FindParts(data, b);
    var header := SendBlockHeader(data, 0, headerLen, lengths, b);
    var txPackets := SendTransactions(cache, data, positions, lengths, infos, b.txs, headerLen);
    if txPackets.None? {
      return None;
    }
    var metaPacket := SendMetaPart(cache, data, metaPos, metaLen, b);
    if metaPacket.None? {
      return None;
    }
    packets := Some([header] + txPackets.value + [metaPacket.value]);
  }

  method SendMetaPart(cache: Cache, data: Bytes, pos: nat, length: nat, ghost b: Block) returns (p: Option<Packet>)
    requires |data| < TWO63 && MetaShape([b.metadata]) && At(EncodeField(b.metadata), data, pos)
    requires pos == |HeaderBytes(b)| + |Encode(b.txs)| && length == |EncodeField(b.metadata)|
    ensures var at := TxStart(b.txs, |HeaderBytes(b)|, |b.txs|);
            && (p.Some? <==> MetaSendable([b.metadata], at))
            && (p.Some? ==> p.value == MetaPacket([b.metadata], at, cache.State()))
  {
    EncodeOne(b.metadata);
    assert b.txs[..|b.txs|] == b.txs;
    p := SendBlockMeta(cache, data, pos, length, [b.metadata]);
  }

  /** A block can be sent if its transactions are in number order, with endorsements, creator
      and action header, and its metadata is signed. */
  lemma SortedBlockSendable(b: Block, infos: seq<AnnotationInfo>)
    requires BlockShape(b, infos) && Resolves([b.metadata], ORDERER_CA.path)
    requires forall i | 0 <= i < |b.txs| ::
               var tx := [b.txs[i]];
               && WireOrder.Sorted(tx) && Resolves(tx, ENDORSER_PATH)
               && Resolves(tx, infos[2].path) && Resolves(tx, infos[4].path)
    ensures BlockSendable(b, infos)
  {
    forall i | 0 <= i < |b.txs|
      ensures Sendable([b.txs[i]], infos, TxStart(b.txs, |HeaderBytes(b)|, i))
    {
      SortedSendable([b.txs[i]], infos, TxStart(b.txs, |HeaderBytes(b)|, i));
    }
    SignedMetaSendable([b.metadata], TxStart(b.txs, |HeaderBytes(b)|, |b.txs|));
  }

  // ---------- the block at the receiver ----------

  function Received(p: Packet, m: Maps): Option<Bytes> {
    if p.msgType == 1 then Some(p.payload) else Rebuild(p.payload, p.annotations, m, 0)
  }

  /** The received packets joined. */
  function Joined(packets: seq<Packet>, m: Maps): Option<Bytes> {
    if packets == [] then Some([])
    else
      var before, last := Joined(packets[..|packets| - 1], m), Received(packets[|packets| - 1], m);
      if before.None? || last.None? then None else Some(before.value + last.value)
  }

  /** Every identity that is annotated in the transaction is in the cache. */
  predicate TxCached(tx: Field, infos: seq<AnnotationInfo>, at: nat, m: Maps)
    requires TxShape([tx], infos) && Sendable([tx], infos, at)
  {
    SendableInPacket([tx], infos, at);
    AllCached(Encode([tx]), TxAnnotations([tx], infos, at), m)
  }

  predicate MetaCached(meta: Field, at: nat, m: Maps)
    requires MetaShape([meta]) && MetaSendable([meta], at)
  {
    MetaNarrow([meta], at);
    AllCached(Encode([meta]), MetaAnnotations([meta], at), m)
  }

  predicate BlockCached(b: Block, infos: seq<AnnotationInfo>, m: Maps)
    requires BlockShape(b, infos) && BlockSendable(b, infos)
  {
    && AllTrue(CachedFlags(b.txs, infos, |HeaderBytes(b)|, m))
    && MetaCached(b.metadata, TxStart(b.txs, |HeaderBytes(b)|, |b.txs|), m)
  }

  /** Every identity annotated in the transaction is sent under an id of its own. */
  predicate TxIdsPass(tx: Field, infos: seq<AnnotationInfo>, at: nat, m: Maps)
    requires TxShape([tx], infos) && Sendable([tx], infos, at)
  {
    SendableInPacket([tx], infos, at);
    IdsPass(Encode([tx]), TxAnnotations([tx], infos, at), m)
  }

  predicate MetaIdsPass(meta: Field, at: nat, m: Maps)
    requires MetaShape([meta]) && MetaSendable([meta], at)
  {
    MetaNarrow([meta], at);
    IdsPass(Encode([meta]), MetaAnnotations([meta], at), m)
  }

  predicate AllIdsPass(txs: seq<Field>, infos: seq<AnnotationInfo>, from: nat, m: Maps)
    requires AreTxs(txs, infos) && AllSendable(txs, infos, from)
  {
    forall i | 0 <= i < |txs| :: TxIdsPass(txs[i], infos, TxStart(txs, from, i), m)
  }

  predicate BlockIdsPass(b: Block, infos: seq<AnnotationInfo>, m: Maps)
    requires BlockShape(b, infos) && BlockSendable(b, infos)
  {
    && AllIdsPass(b.txs, infos, |HeaderBytes(b)|, m)
    && MetaIdsPass(b.metadata, TxStart(b.txs, |HeaderBytes(b)|, |b.txs|), m)
  }

  /** As every identity is if the ids of the whole cache fit. */
  lemma FittingBlockIdsPass(b: Block, infos: seq<AnnotationInfo>, m: Maps)
    requires BlockShape(b, infos) && BlockSendable(b, infos) && m.Consistent() && IdsFit(m)
    ensures BlockIdsPass(b, infos, m)
  {
    var from := |HeaderBytes(b)|;
    forall i | 0 <= i < |b.txs|
      ensures TxIdsPass(b.txs[i], infos, TxStart(b.txs, from, i), m)
    {
      SendableInPacket([b.txs[i]], infos, TxStart(b.txs, from, i));
      FittingIdsPass(Encode([b.txs[i]]), TxAnnotations([b.txs[i]], infos, TxStart(b.txs, from, i)), m);
    }
    var meta, at := [b.metadata], TxStart(b.txs, from, |b.txs|);
    MetaNarrow(meta, at);
    FittingIdsPass(Encode(meta), MetaAnnotations(meta, at), m);
  }

  lemma TxReceived(tx: Field, infos: seq<AnnotationInfo>, at: nat, m: Maps)
    requires TxShape([tx], infos) && Sendable([tx], infos, at) && m.Consistent() && TxIdsPass(tx, infos, at, m)
    ensures var r := Received(TxPacket([tx], infos, at, m), m);
            && r.Some? && |r.value| <= |EncodeField(tx)|
            && (r.value == EncodeField(tx) <==> TxCached(tx, infos, at, m))
  {
    SendableInPacket([tx], infos, at);
    PacketRoundTripIffCached(Encode([tx]), TxAnnotations([tx], infos, at), m);
    EncodeOne(tx);
  }

  lemma MetaReceived(meta: Field, at: nat, m: Maps)
    requires MetaShape([meta]) && MetaSendable([meta], at) && m.Consistent() && MetaIdsPass(meta, at, m)
    ensures var r := Received(MetaPacket([meta], at, m), m);
            && r.Some? && |r.value| <= |EncodeField(meta)|
            && (r.value == EncodeField(meta) <==> MetaCached(meta, at, m))
  {
    MetaNarrow([meta], at);
    PacketRoundTripIffCached(Encode([meta]), MetaAnnotations([meta], at), m);
    EncodeOne(meta);
  }

  /** Two parts, neither longer than it should be: the whole is right iff both parts are. */
  lemma PartsExact(a: Bytes, a': Bytes, b: Bytes, b': Bytes)
    requires |a| <= |a'| && |b| <= |b'|
    ensures |a + b| <= |a' + b'|
    ensures a + b == a' + b' <==> a == a' && b == b'
  {
    if a + b == a' + b' {
      assert |a| == |a'|;
      assert a == (a + b)[..|a|] && a' == (a' + b')[..|a'|];
      assert b == (a + b)[|a|..] && b' == (a' + b')[|a'|..];
    }
  }

  lemma JoinedPush(packets: seq<Packet>, p: Packet, m: Maps)
    requires Joined(packets, m).Some? && Received(p, m).Some?
    ensures Joined(packets + [p], m) == Some(Joined(packets, m).value + Received(p, m).value)
  {
    assert (packets + [p])[..|packets|] == packets;
  }

  /** Joined so far, the packets give `whole` iff `good`, and never more bytes. */
  predicate JoinsTo(packets: seq<Packet>, m: Maps, whole: Bytes, good: bool) {
    var r := Joined(packets, m);
    r.Some? && |r.value| <= |whole| && (r.value == whole <==> good)
  }

  lemma JoinNext(packets: seq<Packet>, p: Packet, m: Maps, whole: Bytes, good: bool, part: Bytes, goodPart: bool)
    requires JoinsTo(packets, m, whole, good)
    requires Received(p, m).Some? && |Received(p, m).value| <= |part| && (Received(p, m).value == part <==> goodPart)
    ensures JoinsTo(packets + [p], m, whole + part, good && goodPart)
  {
    JoinedPush(packets, p, m);
    PartsExact(Joined(packets, m).value, whole, Received(p, m).value, part);
  }

  function CachedFlags(txs: seq<Field>, infos: seq<AnnotationInfo>, from: nat, m: Maps): seq<bool>
    requires AreTxs(txs, infos) && AllSendable(txs, infos, from)
  {
    seq(|txs|, i requires 0 <= i < |txs| => TxCached(txs[i], infos, TxStart(txs, from, i), m))
  }

  function Flat(parts: seq<Bytes>): Bytes {
    if parts == [] then [] else Flat(parts[..|parts| - 1]) + parts[|parts| - 1]
  }

  predicate AllTrue(flags: seq<bool>) {
    forall i | 0 <= i < |flags| :: flags[i]
  }

  /** Packet i gives part i iff good[i], and never more bytes. */
  predicate EachReceived(packets: seq<Packet>, parts: seq<Bytes>, good: seq<bool>, m: Maps) {
    && |packets| == |parts| == |good|
    && forall i | 0 <= i < |packets| :: var r := Received(packets[i], m);
         r.Some? && |r.value| <= |parts[i]| && (r.value == parts[i] <==> good[i])
  }

  lemma LastTrue(flags: seq<bool>)
    requires flags != []
    ensures AllTrue(flags) <==> AllTrue(flags[..|flags| - 1]) && flags[|flags| - 1]
  {
    assert forall i | 0 <= i < |flags| - 1 :: flags[..|flags| - 1][i] == flags[i];
  }

  lemma ReceivedPrefix(packets: seq<Packet>, parts: seq<Bytes>, good: seq<bool>, m: Maps, n: nat)
    requires EachReceived(packets, parts, good, m) && n <= |packets|
    ensures EachReceived(packets[..n], parts[..n], good[..n], m)
  {
  }

  lemma {:induction false} PacketsJoin(first: Packet, packets: seq<Packet>, parts: seq<Bytes>, good: seq<bool>, m: Maps)
    requires EachReceived(packets, parts, good, m) && first.msgType == 1
    ensures JoinsTo([first] + packets, m, first.payload + Flat(parts), AllTrue(good))
  {
    var head, h := [first], first.payload;
    if packets == [] {
      assert head[..0] == [] && head + [] == head;
      assert [] + h == h && h + [] == h;
    } else {
      var n := |packets| - 1;
      ReceivedPrefix(packets, parts, good, m, n);
      PacketsJoin(first, packets[..n], parts[..n], good[..n], m);
      JoinNext(head + packets[..n], packets[n], m, h + Flat(parts[..n]), AllTrue(good[..n]), parts[n], good[n]);
      assert head + packets == head + packets[..n] + [packets[n]];
      assert h + Flat(parts) == h + Flat(parts[..n]) + parts[n];
      LastTrue(good);
    }
  }

  function Encodings(txs: seq<Field>): seq<Bytes> {
    seq(|txs|, i requires 0 <= i < |txs| => EncodeField(txs[i]))
  }

  lemma {:induction false} EncodeFlat(txs: seq<Field>)
    ensures Encode(txs) == Flat(Encodings(txs))
  {
    if txs != [] {
      var n := |txs| - 1;
      EncodeFlat(txs[..n]);
      assert Encodings(txs)[..n] == Encodings(txs[..n]);
      assert txs == txs[..n] + [txs[n]];
      EncodeConcat(txs[..n], [txs[n]]);
      EncodeOne(txs[n]);
    }
  }

  lemma TxsReceived(txs: seq<Field>, infos: seq<AnnotationInfo>, from: nat, m: Maps)
    requires AreTxs(txs, infos) && AllSendable(txs, infos, from) && m.Consistent() && AllIdsPass(txs, infos, from, m)
    ensures EachReceived(TxPacketsOf(txs, infos, from, m), Encodings(txs), CachedFlags(txs, infos, from, m), m)
  {
    var packets, parts, good := TxPacketsOf(txs, infos, from, m), Encodings(txs), CachedFlags(txs, infos, from, m);
    forall i | 0 <= i < |txs|
      ensures var r := Received(packets[i], m); r.Some? && |r.value| <= |parts[i]| && (r.value == parts[i] <==> good[i])
    {
      TxReceived(txs[i], infos, TxStart(txs, from, i), m);
    }
  }

  /** Round trip of a block that can be sent: the packets, with every cached identity put back,
      join to the serialized block byte for byte, exactly when every annotated identity was
      cached. */
  lemma {:induction false} BlockRoundTripIffCached(b: Block, infos: seq<AnnotationInfo>, m: Maps)
    requires BlockShape(b, infos) && BlockSendable(b, infos) && m.Consistent() && BlockIdsPass(b, infos, m)
    ensures Joined(BlockPackets(b, infos, m), m) == Some(Encode(BlockFields(b))) <==> BlockCached(b, infos, m)
  {
    var h, from := HeaderBytes(b), |HeaderBytes(b)|;
    var txs, good := TxPacketsOf(b.txs, infos, from, m), CachedFlags(b.txs, infos, from, m);
    var metaPos := TxStart(b.txs, from, |b.txs|);
    TxsReceived(b.txs, infos, from, m);
    PacketsJoin(HeaderPacket(b), txs, Encodings(b.txs), good, m);
    EncodeFlat(b.txs);
    MetaReceived(b.metadata, metaPos, m);
    JoinNext([HeaderPacket(b)] + txs, MetaPacket([b.metadata], metaPos, m), m, h + Encode(b.txs),
      AllTrue(good), EncodeField(b.metadata), MetaCached(b.metadata, metaPos, m));
    BlockParts(b);
  }

  // ---------- the block number ----------

  lemma {:induction false} ContinuingVarint(v: nat, data: Bytes, pos: nat)
    requires At(Varint(v), data, pos) && pos + |Varint(v)| <= 64
    ensures Continuing(data, pos) == |Varint(v)| - 1
    decreases v
  {
    assert data[pos] == data[pos..pos + |Varint(v)|][0];
    if v >= 128 {
      assert Varint(v)[1..] == Varint(v / 128);
      assert data[pos + 1..pos + 1 + |Varint(v / 128)|] == data[pos..pos + |Varint(v)|][1..];
      ContinuingVarint(v / 128, data, pos + 1);
    }
  }

  lemma {:induction false} VarintBytes(v: nat, n: nat)
    requires v < Pow128(n) && n > 0
    ensures |Varint(v)| <= n
    decreases n
  {
    if v >= 128 {
      VarintBytes(v / 128, n - 1);
    }
  }

  lemma SmallVarint(v: nat)
    requires v < TWO64
    ensures |Varint(v)| <= 10
  {
    assert Pow128(10) == 64 * TWO64;
    VarintBytes(v, 10);
  }

  lemma ContentInBlock(b: Block, data: Bytes)
    requires data == Encode(BlockFields(b)) && b.header.Message?
    ensures At(Encode(b.header.fields), data, |Head(b.header)|)
  {
    BlockPositions(b, data);
    AtSplit(Head(b.header), Content(b.header), data, 0);
  }

  lemma HeadIsShort(f: Field)
    requires f.num < 16 && |Content(f)| < TWO64
    ensures |Head(f)| <= 11
  {
    HeadLength(f);
    VarintSize(8 * f.num + WireType(f));
    SmallVarint(|Content(f)|);
  }

  lemma SecondBehindTag(f: Field, data: Bytes, start: nat)
    requires f.num < 16 && At(EncodeField(f), data, start)
    ensures At(Varint(Second(f)), data, start + 1)
  {
    FieldAts(data, start, f);
    VarintSize(8 * f.num + WireType(f));
  }

  /** What the header's content starts with. */
  lemma HeaderStart(b: Block, data: Bytes)
    requires data == Encode(BlockFields(b)) && b.header.Message? && b.header.fields != [] && b.header.fields[0].num < 16
    ensures Content(b.header) != []
    ensures At(Varint(Second(b.header.fields[0])), data, |Head(b.header)| + 1)
  {
    ContentInBlock(b, data);
    FirstInside(b.header.fields, data, |Head(b.header)|);
  }

  lemma FirstInside(fields: seq<Field>, data: Bytes, pos: nat)
    requires fields != [] && fields[0].num < 16 && At(Encode(fields), data, pos)
    ensures Encode(fields) != [] && At(Varint(Second(fields[0])), data, pos + 1)
  {
    SplitFirst(fields, fields[0].num, data, pos);
    HeadNotEmpty(fields[0]);
    SecondBehindTag(fields[0], data, pos);
  }

  /** The block-number entry delimits the second varint of the header's first field. That is
      the block number if the header starts with it. Protobuf leaves a number 0 out: the header
      of block 0 starts with a hash, and the entry delimits the length of that hash. */
  lemma BlockIdHoldsSecond(b: Block, data: Bytes)
    requires data == Encode(BlockFields(b)) && |data| < TWO63 && IsBlock(b)
    requires b.header.Message? && b.header.fields != []
    requires var f := b.header.fields[0]; f.num < 16 && Second(f) < TWO64
    ensures var a := BlockIdEntry(b.header, data);
            a.End() <= |data| && data[a.offset..a.End()] == Varint(Second(b.header.fields[0]))
  {
    var start := |Head(b.header)|;
    HeaderStart(b, data);
    HeadIsShort(b.header);
    SmallVarint(Second(b.header.fields[0]));
    ContinuingVarint(Second(b.header.fields[0]), data, start + 1);
    SmallU16(start + 1);
  }
}
