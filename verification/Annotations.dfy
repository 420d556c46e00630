/** The annotation list of a transaction packet: where the table's paths lead, one
    locator per endorser, and what happens beyond eight endorsers. */
module Annotations {
  import opened Common
  import opened Wire
  import opened WireOrder
  import opened Packets

  const MAX_ENDORSER_NUM := 8

  const TX_START := 0x20
  const CHAINCODE_NAME := 0x23
  const CREATER_CA := 0x80 + 0x24
  const TX_ACTION := 0x25
  const TX_CA := 0x80 + 0x26
  const ENDORSER_ACTION := 0x29
  const RW_SET := 0x2a
  const ENDORSER := 0x2b
  const ENDORSER_CA := 0x80 + 0x2c
  const TX_SIG := 0x2e

  const SIGNATURE_PATH: seq<nat> := [1, 2]
  const ENDORSER_PATH: seq<nat> := [1, 1, 2, 1, 2, 2, 2]
  const ACTION_PATH: seq<nat> := [1, 1, 2, 1, 2, 2]

  datatype AnnotationInfo = AnnotationInfo(annotationType: nat, path: seq<nat>)

  /** blockTransactionAnnotationInfoList */
  const INFO_LIST: seq<AnnotationInfo> := [
    AnnotationInfo(TX_START, SIGNATURE_PATH),
    AnnotationInfo(CHAINCODE_NAME, [1, 1, 1, 1, 7, 2, 2]),
    AnnotationInfo(CREATER_CA, [1, 1, 1, 2, 1]),
    AnnotationInfo(TX_ACTION, [1, 1, 2, 1]),
    AnnotationInfo(TX_CA, [1, 1, 2, 1, 1, 1]),
    AnnotationInfo(ENDORSER_ACTION, [1, 1, 2, 1, 2, 1]),
    AnnotationInfo(RW_SET, [1, 1, 2, 1, 2, 2, 1, 2, 1]),
    AnnotationInfo(ENDORSER, ENDORSER_PATH),
    AnnotationInfo(ENDORSER_CA, ENDORSER_PATH),
    AnnotationInfo(TX_SIG, SIGNATURE_PATH)]

  const ANNOTATION_NUMBER := 17

  // ---------- the shape of a transaction ----------

  /** An endorsement is a message of two fields, identity and signature in either order. */
  predicate IsEndorsement(f: Field) {
    && SmallNum(f) && f.Message? && |f.fields| == 2
    && SmallNum(f.fields[0]) && SmallNum(f.fields[1])
  }

  /** What is taken for the identity: the content of the first field. */
  function IdentityOf(f: Field): Bytes {
    if IsEndorsement(f) then Content(f.fields[0]) else []
  }

  /** Offset of the identity in the endorsement, tags included. */
  function IdentityOffset(f: Field): nat {
    |Head(f)| + if IsEndorsement(f) then |Head(f.fields[0])| else 0
  }

  /** The path goes through messages as far as it goes. */
  predicate Walkable(tx: seq<Field>, path: seq<nat>) {
    path != [] && Typed(tx, path)
  }

  predicate Resolves(tx: seq<Field>, path: seq<nat>) {
    Walkable(tx, path) && Descendant(tx, path).Some?
  }

  lemma ResolvesUp(fields: seq<Field>, path: seq<nat>)
    requires |path| > 1 && Find(fields, path[0]).Some? && Find(fields, path[0]).value.1.Message?
    requires Resolves(Find(fields, path[0]).value.1.fields, path[1..])
    ensures var r := Find(fields, path[0]).value;
            && Resolves(fields, path)
            && Locate(fields, path) == Some(r.0 + Locate(r.1.fields, path[1..]).value)
            && Descendant(fields, path) == Descendant(r.1.fields, path[1..])
  {
    assert Walkable(fields, path);
    assert Descendant(fields, path) == Descendant(Find(fields, path[0]).value.1.fields, path[1..]);
  }

  lemma ResolvesOne(fields: seq<Field>, num: nat)
    requires Find(fields, num).Some?
    ensures var r := Find(fields, num).value;
            Resolves(fields, [num]) && Locate(fields, [num]) == Some(r.0) && Descendant(fields, [num]) == Some(r.1)
  {
  }

  lemma LocateJoinOne(fields: seq<Field>, num: nat, q: seq<nat>)
    requires q != [] && Resolves(fields, [num] + q)
    ensures Resolves(fields, [num]) && Descendant(fields, [num]).value.Message?
    ensures var inner := Descendant(fields, [num]).value.fields;
            && Resolves(inner, q)
            && Locate(fields, [num] + q) == Some(Locate(fields, [num]).value + Locate(inner, q).value)
            && Descendant(fields, [num] + q) == Descendant(inner, q)
  {
    assert ([num] + q)[1..] == q;
    LocateDown(fields, [num] + q);
    ResolvesOne(fields, num);
  }

  /** A path in two parts leads to where the second part leads from the end of the first. */
  lemma {:induction false} LocateJoin(fields: seq<Field>, p: seq<nat>, q: seq<nat>)
    requires p != [] && q != [] && Resolves(fields, p + q)
    ensures Resolves(fields, p) && Descendant(fields, p).value.Message?
    ensures var inner := Descendant(fields, p).value.fields;
            && Resolves(inner, q)
            && Locate(fields, p + q) == Some(Locate(fields, p).value + Locate(inner, q).value)
            && Descendant(fields, p + q) == Descendant(inner, q)
    decreases |p|
  {
    if |p| == 1 {
      assert p == [p[0]];
      LocateJoinOne(fields, p[0], q);
    } else {
      assert (p + q)[1..] == p[1..] + q;
      LocateDown(fields, p + q);
      LocateJoin(Find(fields, p[0]).value.1.fields, p[1..], q);
      ResolvesUp(fields, p);
    }
  }

  /** Fields of the endorsed action in front of the endorsements. */
  function Leading(fields: seq<Field>): (n: nat)
    ensures n <= |fields| && (n < |fields| ==> fields[n].num == 2)
    ensures forall j | 0 <= j < n :: fields[j].num != 2
  {
    if fields == [] || fields[0].num == 2 then 0 else 1 + Leading(fields[1..])
  }

  /** Where there is an endorsement there is an endorsed action. */
  lemma ActionResolves(tx: seq<Field>)
    requires Resolves(tx, ENDORSER_PATH)
    ensures Resolves(tx, ACTION_PATH) && Descendant(tx, ACTION_PATH).value.Message?
  {
    assert ACTION_PATH + [2] == ENDORSER_PATH;
    LocateJoin(tx, ACTION_PATH, [2]);
  }

  function Action(tx: seq<Field>): seq<Field>
    requires Resolves(tx, ENDORSER_PATH)
  {
    ActionResolves(tx);
    Descendant(tx, ACTION_PATH).value.fields
  }

  function Endorsements(tx: seq<Field>): seq<Field>
    requires Resolves(tx, ENDORSER_PATH)
  {
    Action(tx)[Leading(Action(tx))..]
  }

  /** A transaction of less than 2^16 bytes, its fields in any order, in which everything from
      the first endorsement of the action on is an endorsement. */
  predicate TxShape(tx: seq<Field>, infos: seq<AnnotationInfo>) {
    && SmallNums(tx) && |Encode(tx)| < 0x1_0000
    && |infos| == 10 && (forall t | 0 <= t < |infos| :: Walkable(tx, infos[t].path))
    && Walkable(tx, ENDORSER_PATH) && Walkable(tx, ACTION_PATH)
    && (Resolves(tx, ENDORSER_PATH) ==> forall e | e in Endorsements(tx) :: IsEndorsement(e))
  }

  /** An endorser transaction with its fields in number order, in which the paths of the table
      all lead somewhere. */
  predicate TxTree(tx: seq<Field>, infos: seq<AnnotationInfo>) {
    && TxShape(tx, infos) && Sorted(tx)
    && (forall t | 0 <= t < |infos| :: Resolves(tx, infos[t].path)) && Resolves(tx, ENDORSER_PATH)
  }

  // ---------- the annotation list it should get ----------

  function PosOf(tx: seq<Field>, path: seq<nat>): nat
    requires Resolves(tx, path)
  {
    Locate(tx, path).value
  }

  function LengthOf(tx: seq<Field>, path: seq<nat>): nat
    requires Resolves(tx, path)
  {
    |Content(Descendant(tx, path).value)|
  }

  /** The annotation of a path, for a packet at position `at`. A path that leads nowhere is
      reported as position -1. */
  function Entry(tx: seq<Field>, info: AnnotationInfo, at: nat): Annotation
    requires Walkable(tx, info.path)
  {
    if Descendant(tx, info.path).None? then Annotation(info.annotationType, U16(-1 - at), 0)
    else Annotation(info.annotationType, U16(PosOf(tx, info.path)), U16(LengthOf(tx, info.path)))
  }

  /** Where endorsement j starts, tag included. */
  function EndorsementPos(tx: seq<Field>, j: nat): nat
    requires Resolves(tx, ENDORSER_PATH) && j <= |Endorsements(tx)|
  {
    ActionResolves(tx);
    PosOf(tx, ACTION_PATH) + |Encode(Action(tx)[..Leading(Action(tx))])| + |Encode(Endorsements(tx)[..j])|
  }

  /** Locator of endorsement j, the endorsements starting `offset` bytes into the packet. */
  function EndorserSlot(ends: seq<Field>, offset: nat, j: nat): Annotation {
    if j < |ends| then
      Annotation(ENDORSER_CA, U16(offset + |Encode(ends[..j])| + IdentityOffset(ends[j])), U16(|IdentityOf(ends[j])|))
    else Annotation(0, 0, 0)
  }

  /** The eight endorser slots. */
  function EndorserSlots(ends: seq<Field>, offset: nat): (r: seq<Annotation>)
    ensures |r| == MAX_ENDORSER_NUM
  {
    seq(MAX_ENDORSER_NUM, j requires 0 <= j < MAX_ENDORSER_NUM => EndorserSlot(ends, offset, j))
  }

  lemma SlotAt(ends: seq<Field>, offset: nat, j: nat)
    requires j < MAX_ENDORSER_NUM
    ensures EndorserSlots(ends, offset)[j] ==
            if j < |ends| then
              var at := offset + |Encode(ends[..j])| + IdentityOffset(ends[j]);
              Annotation(ENDORSER_CA, U16(at), U16(|IdentityOf(ends[j])|))
            else Annotation(0, 0, 0)
  {
  }

  /** The entries of the table in front of the endorsers. */
  function FrontEntries(tx: seq<Field>, infos: seq<AnnotationInfo>, at: nat): (r: seq<Annotation>)
    requires |infos| == 10 && forall t | 0 <= t < |infos| :: Walkable(tx, infos[t].path)
    ensures |r| == 7
  {
    seq(7, t requires 0 <= t < 7 => Entry(tx, infos[t], at))
  }

  /** The entry that announces the endorsers carries their count, up to eight of them.
      Beyond that the count is written one entry too far to the front. */
  function EndorserEntries(rwSet: Annotation, endorser: Annotation, count: nat): seq<Annotation> {
    if count <= MAX_ENDORSER_NUM then [rwSet, endorser.(desc := count)]
    else [rwSet.(desc := MAX_ENDORSER_NUM + 1), endorser]
  }

  /** The ENDORSER entry before the count is patched in: three bytes before the content of
      the first endorsement. */
  function EndorserHead(tx: seq<Field>): Annotation
    requires Resolves(tx, ENDORSER_PATH)
  {
    Annotation(ENDORSER, U16(PosOf(tx, ENDORSER_PATH) - 3), U16(LengthOf(tx, ENDORSER_PATH)))
  }

  /** The finished list, for a transaction at position `at`. */
  function TxAnnotations(tx: seq<Field>, infos: seq<AnnotationInfo>, at: nat): (r: seq<Annotation>)
    requires TxShape(tx, infos) && Resolves(tx, ENDORSER_PATH)
    ensures |r| == ANNOTATION_NUMBER
  {
    var front := FrontEntries(tx, infos, at);
    front[..6] + EndorserEntries(front[6], EndorserHead(tx), |Endorsements(tx)|)
    + EndorserSlots(Endorsements(tx), EndorsementPos(tx, 0)) + [Entry(tx, infos[9], at)]
  }

  // ---------- positions of the endorsements ----------

  lemma FindPast(fields: seq<Field>, num: nat)
    requires fields != [] && fields[0].num != num
    ensures Find(fields, num) == Shift(|EncodeField(fields[0])|, Find(fields[1..], num))
  {
  }

  lemma EncodePast(fields: seq<Field>, n: nat)
    requires n < |fields|
    ensures |Encode(fields[..n + 1])| == |EncodeField(fields[0])| + |Encode(fields[1..][..n])|
  {
    assert fields[..n + 1][0] == fields[0] && fields[..n + 1][1..] == fields[1..][..n];
  }

  lemma FindHere(fields: seq<Field>, k: nat, num: nat)
    requires k < |fields| && fields[k].num == num
    ensures Find(fields[k..], num) == Some((|Head(fields[k])|, fields[k]))
  {
  }

  lemma ShiftSome(d: nat, h: nat, f: Field)
    ensures Shift(d, Some((h, f))) == Some((d + h, f))
  {
  }

  lemma FindSkipsOne(fields: seq<Field>, k: nat, num: nat, found: Option<(nat, Field)>)
    requires 0 < k <= |fields| && fields[0].num != num
    requires Find(fields[1..], num) == Shift(|Encode(fields[1..][..k - 1])|, found)
    ensures Find(fields, num) == Shift(|Encode(fields[..k])|, found)
  {
    FindPast(fields, num);
    EncodePast(fields, k - 1);
    ShiftTwice(|EncodeField(fields[0])|, |Encode(fields[1..][..k - 1])|, found);
  }

  lemma {:induction false} FindSkips(fields: seq<Field>, k: nat, num: nat)
    requires k <= |fields| && forall j | 0 <= j < k :: fields[j].num != num
    ensures Find(fields, num) == Shift(|Encode(fields[..k])|, Find(fields[k..], num))
  {
    if k == 0 {
      assert fields[0..] == fields && fields[..0] == [];
    } else {
      FindSkips(fields[1..], k - 1, num);
      assert fields[1..][k - 1..] == fields[k..];
      FindSkipsOne(fields, k, num, Find(fields[k..], num));
    }
  }

  lemma FindFirstAt(fields: seq<Field>, k: nat, num: nat)
    requires k < |fields| && fields[k].num == num && forall j | 0 <= j < k :: fields[j].num != num
    ensures Find(fields, num) == Some((|Encode(fields[..k])| + |Head(fields[k])|, fields[k]))
  {
    FindSkips(fields, k, num);
    FindHere(fields, k, num);
    ShiftSome(|Encode(fields[..k])|, |Head(fields[k])|, fields[k]);
  }

  /** The last step of the path to the endorser. */
  lemma EndorserIsFound(tx: seq<Field>)
    requires Resolves(tx, ENDORSER_PATH)
    ensures Resolves(tx, ACTION_PATH) && Find(Action(tx), 2).Some?
    ensures Locate(tx, ENDORSER_PATH) == Some(PosOf(tx, ACTION_PATH) + Find(Action(tx), 2).value.0)
    ensures Descendant(tx, ENDORSER_PATH) == Some(Find(Action(tx), 2).value.1)
  {
    assert ACTION_PATH + [2] == ENDORSER_PATH;
    LocateJoin(tx, ACTION_PATH, [2]);
    ResolvedOne(Action(tx), 2);
  }

  lemma ResolvedOne(fields: seq<Field>, num: nat)
    requires Resolves(fields, [num])
    ensures Find(fields, num).Some?
    ensures Locate(fields, [num]) == Some(Find(fields, num).value.0)
    ensures Descendant(fields, [num]) == Some(Find(fields, num).value.1)
  {
  }

  /** The path to the endorser leads to the first endorsement of the action. */
  lemma FirstEndorser(tx: seq<Field>)
    requires Resolves(tx, ENDORSER_PATH)
    ensures Endorsements(tx) != []
    ensures PosOf(tx, ENDORSER_PATH) == EndorsementPos(tx, 0) + |Head(Endorsements(tx)[0])|
    ensures Descendant(tx, ENDORSER_PATH) == Some(Endorsements(tx)[0])
  {
    EndorserIsFound(tx);
    assert Leading(Action(tx)) < |Action(tx)|;
    FindFirstAt(Action(tx), Leading(Action(tx)), 2);
    assert Endorsements(tx)[..0] == [];
  }

  // ---------- walking over the endorsements ----------

  lemma EncodeUpTo(fields: seq<Field>, j: nat)
    requires j < |fields|
    ensures |Encode(fields[..j + 1])| == |Encode(fields[..j])| + |EncodeField(fields[j])|
  {
    assert fields[..j + 1] == fields[..j] + [fields[j]];
    EncodeConcat(fields[..j], [fields[j]]);
    EncodeOne(fields[j]);
  }

  lemma EncodeOne(f: Field)
    ensures Encode([f]) == EncodeField(f)
  {
    assert [f][1..] == [];
  }

  lemma FieldAt(fields: seq<Field>, j: nat, data: Bytes, base: nat)
    requires j < |fields| && At(Encode(fields), data, base)
    ensures At(EncodeField(fields[j]), data, base + |Encode(fields[..j])|)
  {
    EncodeSuffix(fields, j, data, base);
    SplitFirst(fields[j..], 0, data, base + |Encode(fields[..j])|);
  }

  lemma PairContent(f: Field, a: Field, b: Field)
    requires f.Message? && f.fields == [a, b]
    ensures Content(f) == EncodeField(a) + EncodeField(b)
  {
    assert [a, b][1..] == [b];
    EncodeOne(b);
  }

  /** An endorsement that starts at p: where its two fields start and where it ends. */
  lemma EndorsementParts(f: Field, data: Bytes, p: nat)
    requires IsEndorsement(f) && At(EncodeField(f), data, p)
    ensures At(EncodeField(f.fields[0]), data, p + |Head(f)|)
    ensures At(EncodeField(f.fields[1]), data, p + IdentityOffset(f) + |IdentityOf(f)|)
    ensures IdentityOffset(f) + |IdentityOf(f)| + |EncodeField(f.fields[1])| == |EncodeField(f)|
  {
    PairContent(f, f.fields[0], f.fields[1]);
    AtSplit(Head(f), Content(f), data, p);
    AtSplit(EncodeField(f.fields[0]), EncodeField(f.fields[1]), data, p + |Head(f)|);
  }

  /** Steps over one endorsement, from its content on: where its identity lies, how long it
      is, and where the next endorsement starts. */
  method ReadEndorsement(data: Bytes, content: nat, ghost e: Field, ghost p: nat)
    returns (idPos: nat, idLength: int, next: nat)
    requires |data| < TWO63 && IsEndorsement(e) && At(EncodeField(e), data, p) && content == p + |Head(e)|
    ensures idPos == p + IdentityOffset(e) && idLength == |IdentityOf(e)| && next == p + |EncodeField(e)|
  {
    EndorsementParts(e, data, p);
    var length: int;
    idPos, idLength := ReadContent(data, content, e.fields[0]);
    next, length := ReadContent(data, idPos + idLength, e.fields[1]);
    next := next + length;
  }

  /** Reads a head and keeps the range of the content. */
  method ReadContent(data: Bytes, start: nat, ghost f: Field) returns (pos: nat, length: int)
    requires |data| < TWO63 && SmallNum(f) && At(EncodeField(f), data, start)
    ensures pos == start + |Head(f)| && length == |Content(f)|
  {
    var field: int;
    field, length, pos := ReadField(data, start, f);
  }

  /** Endorsement j of a run of endorsements, and whether it is the last. */
  lemma EndorsementAt(ends: seq<Field>, j: nat, data: Bytes, base: nat)
    requires j < |ends| && At(Encode(ends), data, base) && forall e | e in ends :: IsEndorsement(e)
    ensures IsEndorsement(ends[j]) && At(EncodeField(ends[j]), data, base + |Encode(ends[..j])|)
    ensures |Encode(ends[..j + 1])| == |Encode(ends[..j])| + |EncodeField(ends[j])|
    ensures |Encode(ends[..j + 1])| < |Encode(ends)| <==> j + 1 < |ends|
  {
    assert ends[j] in ends;
    FieldAt(ends, j, data, base);
    EncodeUpTo(ends, j);
    MoreToCome(ends, j + 1);
  }

  predicate EndorserRun(data: Bytes, transactionPos: nat, first: nat, endorserEnd: nat, ends: seq<Field>, base: nat) {
    && |data| < TWO63 && ends != [] && (forall e | e in ends :: IsEndorsement(e))
    && At(Encode(ends), data, base) && transactionPos <= base
    && first == base + |Head(ends[0])| && endorserEnd == base + |Encode(ends)|
  }

  function Min(a: nat, b: nat): nat {
    if a < b then a else b
  }

  /** The locator of endorsement j, and where the next endorsement starts. */
  method LocateOne(data: Bytes, transactionPos: nat, pos: nat, ghost ends: seq<Field>, ghost base: nat, ghost j: nat)
    returns (a: Annotation, next: nat)
    requires |data| < TWO63 && j < |ends| && (forall e | e in ends :: IsEndorsement(e)) && At(Encode(ends), data, base)
             && transactionPos <= base
    requires pos == base + |Encode(ends[..j])| + |Head(ends[j])|
    ensures a == EndorserSlot(ends, base - transactionPos, j)
    ensures next == base + |Encode(ends[..j + 1])| && (next < base + |Encode(ends)| <==> j + 1 < |ends|)
  {
    EndorsementAt(ends, j, data, base);
    var idPos, length;
    idPos, length, next := ReadEndorsement(data, pos, ends[j], base + |Encode(ends[..j])|);
    a := Annotation(ENDORSER_CA, U16(idPos - transactionPos), U16(length));
  }

  /** Reads the tag and length of endorsement j. */
  method EnterEndorsement(data: Bytes, next: nat, ghost ends: seq<Field>, ghost base: nat, ghost j: nat)
    returns (pos: nat)
    requires |data| < TWO63 && j < |ends| && (forall e | e in ends :: IsEndorsement(e)) && At(Encode(ends), data, base)
    requires next == base + |Encode(ends[..j])|
    ensures pos == next + |Head(ends[j])|
  {
    EndorsementAt(ends, j, data, base);
    var field, length: int;
    field, length, pos := ReadField(data, next, ends[j]);
  }

  /** The first k endorser slots are in the list, the rest of it as before. */
  predicate SlotsFilled(before: seq<Annotation>, now: seq<Annotation>, slots: seq<Annotation>, k: nat) {
    && |before| == |now| == ANNOTATION_NUMBER && k <= |slots| == MAX_ENDORSER_NUM
    && now[8..8 + k] == slots[..k] && now[..8] == before[..8] && now[16] == before[16]
  }

  lemma FillNext(before: seq<Annotation>, now: seq<Annotation>, slots: seq<Annotation>, k: nat)
    requires SlotsFilled(before, now, slots, k) && k < MAX_ENDORSER_NUM
    ensures SlotsFilled(before, now[8 + k := slots[k]], slots, k + 1)
  {
    var next := now[8 + k := slots[k]];
    assert next[8..8 + (k + 1)] == now[8..8 + k] + [slots[k]] && slots[..k + 1] == slots[..k] + [slots[k]];
    assert next[..8] == now[..8];
  }

  /** First loop of the ENDORSER_CA case: a locator per endorser, up to eight. Returns the
      loop counter after its final increment, 9 if endorsers were left over. */
  method LocateEndorsers(data: Bytes, transactionPos: nat, first: nat, endorserEnd: nat, ret: array<Annotation>,
                         ghost ends: seq<Field>, ghost base: nat) returns (j: nat)
    requires ret.Length == ANNOTATION_NUMBER && EndorserRun(data, transactionPos, first, endorserEnd, ends, base)
    modifies ret
    ensures j == Min(|ends|, MAX_ENDORSER_NUM + 1)
    ensures ret[8..8 + Min(|ends|, MAX_ENDORSER_NUM)]
            == EndorserSlots(ends, base - transactionPos)[..Min(|ends|, MAX_ENDORSER_NUM)]
    ensures ret[..8] == old(ret[..8]) && ret[16] == old(ret[16])
  {
    ghost var slots := EndorserSlots(ends, base - transactionPos);
    ghost var before := ret[..];
    ghost var filled: nat := 0;
    var pos: nat := first;
    j := 0;
    assert ends[..0] == [];
    while j < MAX_ENDORSER_NUM
      invariant filled == j <= MAX_ENDORSER_NUM && j < |ends|
      invariant pos == base + |Encode(ends[..j])| + |Head(ends[j])|
      invariant SlotsFilled(before, ret[..], slots, filled)
    {
      var next;
      ghost var now := ret[..];
      ret[8 + j], next := LocateOne(data, transactionPos, pos, ends, base, j);
      SlotAt(ends, base - transactionPos, j);
      FillNext(before, now, slots, j);
      assert ret[..] == now[8 + j := slots[j]];
      filled := filled + 1;
      if next >= endorserEnd {
        break;
      }
      pos := EnterEndorsement(data, next, ends, base, j + 1);
      j := j + 1;
    }
    assert filled == Min(|ends|, MAX_ENDORSER_NUM);
    j := j + 1;
    assert ret[8..8 + filled] == ret[..][8..8 + filled] && ret[..8] == ret[..][..8];
  }

  /** The ENDORSER_CA case of generateTransactionAnnotation: fills the slots 8 to 15 of the
      list and patches the count into the entry j + 1 places back. */
  method AnnotateEndorsers(data: Bytes, transactionPos: nat, first: nat, endorserEnd: nat, ret: array<Annotation>,
                           ghost ends: seq<Field>, ghost base: nat)
    requires ret.Length == ANNOTATION_NUMBER && EndorserRun(data, transactionPos, first, endorserEnd, ends, base)
    modifies ret
    ensures ret[8..16] == EndorserSlots(ends, base - transactionPos)
    ensures ret[..6] == old(ret[..6]) && ret[16] == old(ret[16])
    ensures ret[6..8] == EndorserEntries(old(ret[6]), old(ret[7]), |ends|)
  {
    ghost var slots := EndorserSlots(ends, base - transactionPos);
    ghost var front := ret[..8];
    var j := LocateEndorsers(data, transactionPos, first, endorserEnd, ret, ends, base);
    assert forall s | 0 <= s < 8 :: ret[..8][s] == front[s];
    var i := if j <= MAX_ENDORSER_NUM then 8 + j else 16;
    ret[i - j - 1] := ret[i - j - 1].(desc := U16(j));
    ghost var patched := ret[..8];
    while j < MAX_ENDORSER_NUM
      invariant (|ends| <= j <= MAX_ENDORSER_NUM && i == 8 + j) || (j == MAX_ENDORSER_NUM + 1 && i == 16)
      invariant ret[8..i] == slots[..i - 8]
      invariant ret[..8] == patched && ret[16] == old(ret[16])
    {
      SlotAt(ends, base - transactionPos, j);
      ret[i] := Annotation(0, 0, 0);
      assert ret[8..i + 1] == ret[8..i] + [slots[j]];
      i := i + 1;
      j := j + 1;
    }
    assert forall s | 0 <= s < 8 :: ret[s] == patched[s];
  }

  /** The walk is over when all bytes of the endorsements are used up. */
  lemma MoreToCome(fields: seq<Field>, j: nat)
    requires j <= |fields|
    ensures |Encode(fields[..j])| < |Encode(fields)| <==> j < |fields|
    ensures |Encode(fields[..j])| <= |Encode(fields)|
  {
    assert fields == fields[..j] + fields[j..];
    EncodeConcat(fields[..j], fields[j..]);
    if j < |fields| {
      HeadNotEmpty(fields[j]);
      assert fields[j..][0] == fields[j];
      assert |Encode(fields[j..])| >= |EncodeField(fields[j])|;
    }
  }

  // ---------- the whole list ----------

  /** The default case: the annotation of a path. */
  method AnnotatePath(data: Bytes, transactionPos: nat, transactionLen: nat, info: AnnotationInfo, ghost tx: seq<Field>)
    returns (a: Annotation)
    requires |data| < TWO63 && SmallNums(tx) && At(Encode(tx), data, transactionPos) && transactionLen == |Encode(tx)|
    requires Walkable(tx, info.path)
    ensures a == Entry(tx, info, transactionPos)
  {
    var pos, length := ProtoGetFieldPos(data, transactionPos, transactionLen, info.path, tx);
    return Annotation(info.annotationType, U16(pos - transactionPos), U16(length));
  }

  lemma EncodeSuffix(fields: seq<Field>, n: nat, data: Bytes, pos: nat)
    requires n <= |fields| && At(Encode(fields), data, pos)
    ensures At(Encode(fields[n..]), data, pos + |Encode(fields[..n])|)
    ensures |Encode(fields[..n])| + |Encode(fields[n..])| == |Encode(fields)|
  {
    assert fields == fields[..n] + fields[n..];
    EncodeConcat(fields[..n], fields[n..]);
    AtSplit(Encode(fields[..n]), Encode(fields[n..]), data, pos);
  }

  /** The endorsements, where the walk finds them. */
  lemma EndorsementsAt(tx: seq<Field>, data: Bytes, pos: nat)
    requires Resolves(tx, ENDORSER_PATH) && At(Encode(tx), data, pos)
    ensures Resolves(tx, ACTION_PATH)
    ensures At(Encode(Endorsements(tx)), data, pos + EndorsementPos(tx, 0))
    ensures EndorsementPos(tx, 0) + |Encode(Endorsements(tx))| == PosOf(tx, ACTION_PATH) + LengthOf(tx, ACTION_PATH)
  {
    ActionResolves(tx);
    LocateAt(tx, ACTION_PATH, data, pos);
    EncodeSuffix(Action(tx), Leading(Action(tx)), data, pos + PosOf(tx, ACTION_PATH));
    assert Endorsements(tx)[..0] == [];
  }

  lemma Assemble(list: seq<Annotation>, a: seq<Annotation>, b: seq<Annotation>, c: seq<Annotation>, last: Annotation)
    requires |list| == ANNOTATION_NUMBER && |a| == 6 && |b| == 2 && |c| == 8
    requires list[..6] == a && list[6..8] == b && list[8..16] == c && list[16] == last
    ensures list == a + b + c + [last]
  {
    assert list == list[..6] + list[6..8] + list[8..16] + [list[16]];
  }

  /** The entries of the table in front of the endorsers, all default cases. */
  method AnnotateFront(data: Bytes, transactionPos: nat, transactionLen: nat, infos: seq<AnnotationInfo>,
                       ret: array<Annotation>, ghost tx: seq<Field>)
    requires |data| < TWO63 && SmallNums(tx) && At(Encode(tx), data, transactionPos) && transactionLen == |Encode(tx)|
    requires |infos| == 10 && (forall t | 0 <= t < |infos| :: Walkable(tx, infos[t].path))
             && ret.Length == ANNOTATION_NUMBER
    modifies ret
    ensures ret[..6] == FrontEntries(tx, infos, transactionPos)[..6]
            && ret[6] == FrontEntries(tx, infos, transactionPos)[6]
  {
    ghost var front := FrontEntries(tx, infos, transactionPos);
    for t := 0 to 7
      invariant ret[..t] == front[..t]
    {
      ret[t] := AnnotatePath(data, transactionPos, transactionLen, infos[t], tx);
      assert ret[..t + 1] == ret[..t] + [front[t]];
    }
    assert ret[..7] == front;
    assert ret[..6] == ret[..7][..6] && ret[6] == ret[..7][6];
  }

  /** The ENDORSER case: end of the endorsed action, and the first endorsement; -1 if there
      is none. */
  method AnnotateEndorserHead(data: Bytes, transactionPos: nat, transactionLen: nat, ghost tx: seq<Field>)
    returns (a: Annotation, first: int, endorserEnd: int)
    requires |data| < TWO63 && SmallNums(tx) && At(Encode(tx), data, transactionPos) && transactionLen == |Encode(tx)|
    requires Walkable(tx, ENDORSER_PATH) && Walkable(tx, ACTION_PATH)
    ensures !Resolves(tx, ENDORSER_PATH) ==> first == -1
    ensures Resolves(tx, ENDORSER_PATH) ==>
              && a == EndorserHead(tx) && first == transactionPos + PosOf(tx, ENDORSER_PATH)
              && Resolves(tx, ACTION_PATH)
              && endorserEnd == transactionPos + PosOf(tx, ACTION_PATH) + LengthOf(tx, ACTION_PATH)
  {
    if Resolves(tx, ENDORSER_PATH) {
      ActionResolves(tx);
    }
    var pos, length := ProtoGetFieldPos(data, transactionPos, transactionLen, ACTION_PATH, tx);
    endorserEnd := pos + length;
    pos, length := ProtoGetFieldPos(data, transactionPos, transactionLen, ENDORSER_PATH, tx);
    a := Annotation(ENDORSER, U16(pos - transactionPos - 3), U16(length));
    first := pos;
  }

  /** The cases ENDORSER and ENDORSER_CA. Without an endorsement the second reads in front of
      the data. */
  method AnnotateEndorserCases(data: Bytes, transactionPos: nat, transactionLen: nat, ret: array<Annotation>,
                               ghost tx: seq<Field>)
    returns (found: bool)
    requires |data| < TWO63 && SmallNums(tx) && At(Encode(tx), data, transactionPos) && transactionLen == |Encode(tx)|
    requires Walkable(tx, ENDORSER_PATH) && Walkable(tx, ACTION_PATH) && ret.Length == ANNOTATION_NUMBER
    requires Resolves(tx, ENDORSER_PATH) ==> forall e | e in Endorsements(tx) :: IsEndorsement(e)
    modifies ret
    ensures found <==> Resolves(tx, ENDORSER_PATH)
    ensures ret[..6] == old(ret[..6])
    ensures found ==> ret[6..8] == EndorserEntries(old(ret[6]), EndorserHead(tx), |Endorsements(tx)|)
    ensures found ==> ret[8..16] == EndorserSlots(Endorsements(tx), EndorsementPos(tx, 0))
  {
    var head, first, endorserEnd := AnnotateEndorserHead(data, transactionPos, transactionLen, tx);
    ret[7] := head;
    if first < 0 {
      return false;
    }
    EndorsersFollow(tx, data, transactionPos);
    AnnotateEndorsers(data, transactionPos, first, endorserEnd, ret, Endorsements(tx),
                      transactionPos + EndorsementPos(tx, 0));
    return true;
  }

  lemma EndorsersFollow(tx: seq<Field>, data: Bytes, pos: nat)
    requires |data| < TWO63 && Resolves(tx, ENDORSER_PATH) && At(Encode(tx), data, pos)
    requires forall e | e in Endorsements(tx) :: IsEndorsement(e)
    ensures Resolves(tx, ACTION_PATH)
    ensures EndorserRun(data, pos, pos + PosOf(tx, ENDORSER_PATH),
                        pos + PosOf(tx, ACTION_PATH) + LengthOf(tx, ACTION_PATH),
                        Endorsements(tx), pos + EndorsementPos(tx, 0))
  {
    FirstEndorser(tx);
    EndorsementsAt(tx, data, pos);
  }

  /** generateTransactionAnnotation: the table is gone through in order; its entries 7 and 8,
      the endorsers, have cases of their own. It gets through exactly when there is an
      endorsement. */
  method GenerateTransactionAnnotation(data: Bytes, transactionPos: nat, transactionLen: nat,
                                       infos: seq<AnnotationInfo>, ghost tx: seq<Field>)
    returns (ret: Option<array<Annotation>>)
    requires |data| < TWO63 && TxShape(tx, infos) && At(Encode(tx), data, transactionPos)
             && transactionLen == |Encode(tx)|
    ensures ret.Some? <==> Resolves(tx, ENDORSER_PATH)
    ensures ret.Some? ==> fresh(ret.value) && ret.value[..] == TxAnnotations(tx, infos, transactionPos)
  {
    var list := new Annotation[ANNOTATION_NUMBER](_ => Annotation(0, 0, 0));
    AnnotateFront(data, transactionPos, transactionLen, infos, list, tx);
    var found := AnnotateEndorserCases(data, transactionPos, transactionLen, list, tx);
    if !found {
      return None;
    }
    list[16] := AnnotatePath(data, transactionPos, transactionLen, infos[9], tx);
    ghost var front := FrontEntries(tx, infos, transactionPos);
    Assemble(list[..], front[..6], EndorserEntries(front[6], EndorserHead(tx), |Endorsements(tx)|),
             EndorserSlots(Endorsements(tx), EndorsementPos(tx, 0)), list[16]);
    return Some(list);
  }
}
