/** A transaction packet: the generated annotations are in packet order, so stripping and
    rebuilding are inverse, and where each pointer leads. */
module TxPackets {
  import opened Common
  import opened Wire
  import opened WireOrder
  import opened CertificateCache
  import opened Packets
  import opened Annotations

  // ---------- order of the annotated positions ----------

  function EndOf(tx: seq<Field>, path: seq<nat>): nat
    requires Resolves(tx, path)
  {
    PosOf(tx, path) + LengthOf(tx, path)
  }

  lemma Before(tx: seq<Field>, p: seq<nat>, q: seq<nat>, i: nat)
    requires Sorted(tx) && Resolves(tx, p) && Resolves(tx, q) && PartsAt(p, q, i)
    ensures EndOf(tx, p) < PosOf(tx, q)
  {
    LocateBefore(tx, p, q, i);
  }

  lemma Deeper(tx: seq<Field>, p: seq<nat>, q: seq<nat>)
    requires Resolves(tx, p) && Resolves(tx, q) && |p| < |q| && q[..|p|] == p
    ensures PosOf(tx, p) + |q| - |p| <= PosOf(tx, q)
  {
    LocateDeeper(tx, p, q);
  }

  /** The paths of the table. */
  predicate IsTable(infos: seq<AnnotationInfo>) {
    && |infos| == 10
    && infos[0].path == infos[9].path == [1, 2]
    && infos[1].path == [1, 1, 1, 1, 7, 2, 2] && infos[2].path == [1, 1, 1, 2, 1]
    && infos[3].path == [1, 1, 2, 1] && infos[4].path == [1, 1, 2, 1, 1, 1]
    && infos[5].path == [1, 1, 2, 1, 2, 1] && infos[6].path == [1, 1, 2, 1, 2, 2, 1, 2, 1]
    && infos[7].path == infos[8].path == ENDORSER_PATH
    && (forall t | 0 <= t < 10 :: infos[t].annotationType >= 0x80 <==> t == 2 || t == 4 || t == 8)
    && (forall t | 0 <= t < 10 :: infos[t].annotationType != 0)
  }

  lemma TheTableIsTable()
    ensures IsTable(INFO_LIST)
  {
  }

  lemma HeaderOrder(tx: seq<Field>, infos: seq<AnnotationInfo>)
    requires TxTree(tx, infos) && IsTable(infos)
    ensures EndOf(tx, infos[1].path) < PosOf(tx, infos[2].path)
    ensures EndOf(tx, infos[2].path) < PosOf(tx, infos[3].path) < PosOf(tx, infos[4].path)
    ensures EndOf(tx, infos[4].path) < PosOf(tx, infos[5].path)
  {
    Before(tx, infos[1].path, infos[2].path, 3);
    Before(tx, infos[2].path, infos[3].path, 2);
    Deeper(tx, infos[3].path, infos[4].path);
    Before(tx, infos[4].path, infos[5].path, 4);
  }

  lemma ActionOrder(tx: seq<Field>, infos: seq<AnnotationInfo>)
    requires TxTree(tx, infos) && IsTable(infos)
    ensures Resolves(tx, ACTION_PATH) && Endorsements(tx) != []
    ensures EndOf(tx, infos[4].path) + 4 <= PosOf(tx, infos[6].path)
    ensures EndOf(tx, infos[5].path) < EndorsementPos(tx, 0)
    ensures EndOf(tx, infos[6].path) < PosOf(tx, ENDORSER_PATH)
    ensures PosOf(tx, ENDORSER_PATH) == EndorsementPos(tx, 0) + |Head(Endorsements(tx)[0])|
    ensures EndOf(tx, ACTION_PATH) < PosOf(tx, infos[9].path) && EndOf(tx, infos[9].path) <= |Encode(tx)|
  {
    FirstEndorser(tx);
    ActionResolves(tx);
    Before(tx, infos[4].path, ACTION_PATH, 4);
    Deeper(tx, ACTION_PATH, infos[6].path);
    Before(tx, infos[5].path, ACTION_PATH, 5);
    Before(tx, infos[6].path, ENDORSER_PATH, 6);
    Before(tx, ACTION_PATH, infos[9].path, 1);
  }

  lemma IdentityInside(f: Field)
    requires IsEndorsement(f)
    ensures |Head(f)| <= IdentityOffset(f) && IdentityOffset(f) + |IdentityOf(f)| <= |EncodeField(f)|
  {
    PairContent(f, f.fields[0], f.fields[1]);
  }

  // ---------- the locators are in packet order ----------

  lemma {:induction false} WellPlacedEarlier(anns: seq<Annotation>, from: nat, mid: nat, size: nat)
    requires WellPlaced(anns, mid, size) && from <= mid
    ensures WellPlaced(anns, from, size)
    decreases |anns|
  {
    if anns != [] && !anns[0].Locator() {
      WellPlacedEarlier(anns[1..], from, mid, size);
    }
  }

  lemma {:induction false} NoLocators(anns: seq<Annotation>, from: nat, size: nat)
    requires from <= size && forall a | a in anns :: !a.Locator()
    ensures WellPlaced(anns, from, size)
    decreases |anns|
  {
    if anns != [] {
      assert anns[0] in anns;
      NoLocators(anns[1..], from, size);
    }
  }

  lemma SmallU16(x: nat)
    requires x < 0x1_0000
    ensures U16(x) == x
  {
  }

  /** Where the locator of endorsement j lies. */
  lemma SlotRange(ends: seq<Field>, offset: nat, j: nat, size: nat)
    requires (forall e | e in ends :: IsEndorsement(e)) && j < |ends| && j < MAX_ENDORSER_NUM
    requires offset + |Encode(ends)| <= size < 0x1_0000
    ensures var a := EndorserSlots(ends, offset)[j];
            && a.Locator() && a.desc == |IdentityOf(ends[j])|
            && a.offset == offset + |Encode(ends[..j])| + IdentityOffset(ends[j])
            && a.End() <= offset + |Encode(ends[..j + 1])| <= size
  {
    assert ends[j] in ends;
    SlotAt(ends, offset, j);
    EncodeUpTo(ends, j);
    MoreToCome(ends, j + 1);
    IdentityInside(ends[j]);
    SmallU16(offset + |Encode(ends[..j])| + IdentityOffset(ends[j]));
    SmallU16(|IdentityOf(ends[j])|);
  }

  /** End of the last locator of the list. */
  function Reached(anns: seq<Annotation>, from: nat): nat
    decreases |anns|
  {
    if anns == [] then from else Reached(anns[1..], if anns[0].Locator() then anns[0].End() else from)
  }

  lemma PlacedStep(anns: seq<Annotation>, t: nat, from: nat, size: nat)
    requires t < |anns|
    ensures Reached(anns[t..], from) == Reached(anns[t + 1..], if anns[t].Locator() then anns[t].End() else from)
    ensures WellPlaced(anns[t..], from, size) <==>
              if anns[t].Locator() then
                from <= anns[t].offset && anns[t].End() <= size && WellPlaced(anns[t + 1..], anns[t].End(), size)
              else WellPlaced(anns[t + 1..], from, size)
  {
    assert anns[t..][1..] == anns[t + 1..];
  }

  /** A locator between `from` and `next`, in front of placed ones. */
  lemma PlaceLocator(anns: seq<Annotation>, t: nat, from: nat, next: nat, size: nat)
    requires t < |anns| && anns[t].Locator() && from <= anns[t].offset && anns[t].End() <= next <= size
    requires WellPlaced(anns[t + 1..], next, size)
    ensures WellPlaced(anns[t..], from, size)
  {
    PlacedStep(anns, t, from, size);
    WellPlacedEarlier(anns[t + 1..], anns[t].End(), next, size);
  }

  lemma PlacePointer(anns: seq<Annotation>, t: nat, from: nat, size: nat)
    requires t < |anns| && !anns[t].Locator() && WellPlaced(anns[t + 1..], from, size)
    ensures WellPlaced(anns[t..], from, size)
  {
    PlacedStep(anns, t, from, size);
  }

  /** A used slot in front of placed ones. */
  lemma SlotPlaced(ends: seq<Field>, offset: nat, j: nat, size: nat)
    requires (forall e | e in ends :: IsEndorsement(e)) && j < MAX_ENDORSER_NUM && j < |ends|
    requires offset + |Encode(ends)| <= size < 0x1_0000
    requires WellPlaced(EndorserSlots(ends, offset)[j + 1..], offset + |Encode(ends[..j + 1])|, size)
    ensures WellPlaced(EndorserSlots(ends, offset)[j..], offset + |Encode(ends[..j])|, size)
  {
    SlotRange(ends, offset, j, size);
    PlaceLocator(EndorserSlots(ends, offset), j, offset + |Encode(ends[..j])|, offset + |Encode(ends[..j + 1])|, size);
  }

  /** Slots j to 8, with the endorsements that are left. */
  lemma {:induction false} SlotsPlaced(ends: seq<Field>, offset: nat, j: nat, size: nat)
    requires (forall e | e in ends :: IsEndorsement(e)) && j <= MAX_ENDORSER_NUM
    requires offset + |Encode(ends)| <= size < 0x1_0000
    ensures WellPlaced(EndorserSlots(ends, offset)[j..], offset + |Encode(ends[..Min(j, |ends|)])|, size)
    decreases MAX_ENDORSER_NUM - j
  {
    if j == MAX_ENDORSER_NUM {
      MoreToCome(ends, Min(j, |ends|));
    } else if j < |ends| {
      SlotsPlaced(ends, offset, j + 1, size);
      SlotPlaced(ends, offset, j, size);
    } else {
      SlotsPlaced(ends, offset, j + 1, size);
      SlotAt(ends, offset, j);
      PlacePointer(EndorserSlots(ends, offset), j, offset + |Encode(ends[..|ends|])|, size);
    }
  }

  lemma Inside(tx: seq<Field>, path: seq<nat>)
    requires Resolves(tx, path)
    ensures EndOf(tx, path) <= |Encode(tx)|
  {
  }

  lemma EntryFits(tx: seq<Field>, info: AnnotationInfo, at: nat)
    requires Resolves(tx, info.path) && |Encode(tx)| < 0x1_0000
    ensures Entry(tx, info, at) == Annotation(info.annotationType, PosOf(tx, info.path), LengthOf(tx, info.path))
    ensures Entry(tx, info, at).End() == EndOf(tx, info.path) <= |Encode(tx)|
  {
    Inside(tx, info.path);
    SmallU16(PosOf(tx, info.path));
    SmallU16(LengthOf(tx, info.path));
  }

  lemma {:induction false} WellPlacedSplit(a: seq<Annotation>, b: seq<Annotation>, from: nat, size: nat)
    ensures WellPlaced(a + b, from, size) <==> WellPlaced(a, from, size) && WellPlaced(b, Reached(a, from), size)
    decreases |a|
  {
    if a == [] {
      assert a + b == b;
      if WellPlaced(b, from, size) {
        WellPlacedAbove(b, from, size);
      }
    } else {
      assert (a + b)[1..] == a[1..] + b;
      WellPlacedSplit(a[1..], b, if a[0].Locator() then a[0].End() else from, size);
    }
  }

  lemma {:induction false} NothingReached(anns: seq<Annotation>, from: nat)
    requires forall a | a in anns :: !a.Locator()
    ensures Reached(anns, from) == from
    decreases |anns|
  {
    if anns != [] {
      assert anns[0] in anns;
      NothingReached(anns[1..], from);
    }
  }

  /** Two locators in front, at positions 2 and 4. */
  lemma FrontPlacedIff(front: seq<Annotation>, size: nat)
    requires |front| == 6 && forall t | 0 <= t < 6 :: front[t].Locator() <==> t == 2 || t == 4
    ensures Reached(front, 0) == front[4].End()
    ensures WellPlaced(front, 0, size) <==> front[2].End() <= front[4].offset && front[4].End() <= size
  {
    PlacedStep(front, 5, front[4].End(), size);
    PlacedStep(front, 4, front[2].End(), size);
    PlacedStep(front, 3, front[2].End(), size);
    PlacedStep(front, 2, 0, size);
    PlacedStep(front, 1, 0, size);
    PlacedStep(front, 0, 0, size);
    assert front[0..] == front;
  }

  /** Where the identity of the first endorsement starts. */
  function FirstIdentity(tx: seq<Field>): nat
    requires Resolves(tx, ENDORSER_PATH)
  {
    FirstEndorser(tx);
    EndorsementPos(tx, 0) + IdentityOffset(Endorsements(tx)[0])
  }

  lemma SlotsPlacedIff(ends: seq<Field>, offset: nat, from: nat, size: nat)
    requires ends != [] && (forall e | e in ends :: IsEndorsement(e)) && offset + |Encode(ends)| <= size < 0x1_0000
    ensures WellPlaced(EndorserSlots(ends, offset), from, size) <==> from <= offset + IdentityOffset(ends[0])
  {
    var slots := EndorserSlots(ends, offset);
    SlotRange(ends, offset, 0, size);
    SlotsPlaced(ends, offset, 1, size);
    assert ends[..0] == [];
    WellPlacedEarlier(slots[1..], slots[0].End(), offset + |Encode(ends[..1])|, size);
  }

  /** Front and slots, with pointers between them and behind them. */
  lemma PlacedPartsIff(a: seq<Annotation>, b: seq<Annotation>, c: seq<Annotation>, last: Annotation, size: nat)
    requires (forall x | x in b :: !x.Locator()) && !last.Locator()
    ensures WellPlaced(a + b + c + [last], 0, size)
            <==> WellPlaced(a, 0, size) && WellPlaced(c, Reached(a, 0), size)
  {
    var r, r' := Reached(a, 0), Reached(c, Reached(a, 0));
    assert a + b + c + [last] == a + (b + (c + [last]));
    WellPlacedSplit(a, b + (c + [last]), 0, size);
    WellPlacedSplit(b, c + [last], r, size);
    NothingReached(b, r);
    WellPlacedSplit(c, [last], r, size);
    if WellPlaced(c, r, size) {
      ReachedInside(c, r, size);
      WellPlacedAbove(c, r, size);
      NoLocators(b, r, size);
      NoLocators([last], r', size);
    }
  }

  lemma {:induction false} ReachedInside(anns: seq<Annotation>, from: nat, size: nat)
    requires WellPlaced(anns, from, size)
    ensures Reached(anns, from) <= size
    decreases |anns|
  {
    if anns != [] {
      ReachedInside(anns[1..], if anns[0].Locator() then anns[0].End() else from, size);
    }
  }

  /** The locators of a generated list are disjoint and in packet order exactly when the
      creator's annotation ends in front of the action's, and that one in front of the
      identity of the first endorsement. */
  lemma {:induction false} GeneratedWellPlacedIff(tx: seq<Field>, infos: seq<AnnotationInfo>, at: nat)
    requires TxShape(tx, infos) && IsTable(infos) && Resolves(tx, ENDORSER_PATH)
    ensures WellPlaced(TxAnnotations(tx, infos, at), 0, |Encode(tx)|)
            <==> Entry(tx, infos[2], at).End() <= Entry(tx, infos[4], at).offset
                 && Entry(tx, infos[4], at).End() <= FirstIdentity(tx)
  {
    var front, ends, p0 := FrontEntries(tx, infos, at), Endorsements(tx), EndorsementPos(tx, 0);
    FirstEndorser(tx);
    EndorsementsInside(tx);
    EntryTypes(tx, infos, at);
    PlacedPartsIff(front[..6], EndorserEntries(front[6], EndorserHead(tx), |ends|), EndorserSlots(ends, p0),
                   Entry(tx, infos[9], at), |Encode(tx)|);
    FrontPlacedIff(front[..6], |Encode(tx)|);
    SlotsPlacedIff(ends, p0, front[4].End(), |Encode(tx)|);
    FirstIdentityInside(tx);
  }

  lemma EntryTypes(tx: seq<Field>, infos: seq<AnnotationInfo>, at: nat)
    requires TxShape(tx, infos) && IsTable(infos)
    ensures var front := FrontEntries(tx, infos, at);
            && (forall t | 0 <= t < 6 :: front[..6][t] == Entry(tx, infos[t], at))
            && (forall t | 0 <= t < 6 :: front[..6][t].Locator() <==> t == 2 || t == 4)
            && !front[6].Locator() && !Entry(tx, infos[9], at).Locator()
  {
  }

  lemma FirstIdentityInside(tx: seq<Field>)
    requires Resolves(tx, ENDORSER_PATH) && forall e | e in Endorsements(tx) :: IsEndorsement(e)
    ensures FirstIdentity(tx) <= |Encode(tx)|
  {
    var ends := Endorsements(tx);
    FirstEndorser(tx);
    EndorsementsInside(tx);
    assert ends[0] in ends && ends[..0] == [];
    IdentityInside(ends[0]);
    EncodeUpTo(ends, 0);
    MoreToCome(ends, 1);
  }

  lemma EndorsementsInside(tx: seq<Field>)
    requires Resolves(tx, ENDORSER_PATH)
    ensures Resolves(tx, ACTION_PATH)
    ensures EndorsementPos(tx, 0) + |Encode(Endorsements(tx))| == EndOf(tx, ACTION_PATH) <= |Encode(tx)|
  {
    assert At(Encode(tx), Encode(tx), 0);
    EndorsementsAt(tx, Encode(tx), 0);
  }

  // ---------- sending ----------

  datatype Packet = Packet(msgType: nat, annotations: seq<Annotation>, activeSize: int, payload: Bytes)

  lemma NarrowEntries(tx: seq<Field>, infos: seq<AnnotationInfo>, at: nat)
    requires TxShape(tx, infos) && Resolves(tx, ENDORSER_PATH)
    ensures Narrow(TxAnnotations(tx, infos, at))
  {
    var front := FrontEntries(tx, infos, at);
    assert Narrow(front[..6]);
    assert Narrow(EndorserEntries(front[6], EndorserHead(tx), |Endorsements(tx)|));
    assert Narrow(EndorserSlots(Endorsements(tx), EndorsementPos(tx, 0)));
  }

  function ActiveCount(anns: seq<Annotation>): nat {
    if anns == [] then 0 else ActiveCount(anns[..|anns| - 1]) + if anns[|anns| - 1].Active() then 1 else 0
  }

  /** getAnnotationActiveSize: counts the unused slots down, then adds the length. */
  method GetAnnotationActiveSize(annotation: array<Annotation>) returns (ret: int)
    ensures ret == ActiveCount(annotation[..])
  {
    ret := 0;
    for i := 0 to annotation.Length
      invariant ret == ActiveCount(annotation[..i]) - i
    {
      assert annotation[..i + 1][..i] == annotation[..i];
      if annotation[i].dataType == 0 {
        ret := ret - 1;
      }
    }
    assert annotation[..annotation.Length] == annotation[..];
    ret := ret + annotation.Length;
  }

  lemma {:induction false} ActiveConcat(a: seq<Annotation>, b: seq<Annotation>)
    ensures ActiveCount(a + b) == ActiveCount(a) + ActiveCount(b)
  {
    if b == [] {
      assert a + b == a;
    } else {
      ActiveConcat(a, b[..|b| - 1]);
      assert (a + b)[..|a + b| - 1] == a + b[..|b| - 1];
    }
  }

  lemma {:induction false} AllActive(anns: seq<Annotation>)
    requires forall a | a in anns :: a.Active()
    ensures ActiveCount(anns) == |anns|
  {
    if anns != [] {
      AllActive(anns[..|anns| - 1]);
      assert anns[|anns| - 1] in anns;
    }
  }

  lemma {:induction false} ActiveSlots(ends: seq<Field>, offset: nat, j: nat)
    requires j <= MAX_ENDORSER_NUM
    ensures ActiveCount(EndorserSlots(ends, offset)[..j]) == Min(j, |ends|)
  {
    if j > 0 {
      var slots := EndorserSlots(ends, offset);
      ActiveSlots(ends, offset, j - 1);
      SlotAt(ends, offset, j - 1);
      assert slots[..j][..j - 1] == slots[..j - 1];
    }
  }

  /** Nine fixed entries, and one per endorser up to eight, are sent. */
  lemma ActiveSizeIsNinePlusEndorsers(tx: seq<Field>, infos: seq<AnnotationInfo>, at: nat)
    requires TxShape(tx, infos) && IsTable(infos) && Resolves(tx, ENDORSER_PATH)
    ensures ActiveCount(TxAnnotations(tx, infos, at)) == 9 + Min(|Endorsements(tx)|, MAX_ENDORSER_NUM)
  {
    var front := FrontEntries(tx, infos, at);
    var middle := EndorserEntries(front[6], EndorserHead(tx), |Endorsements(tx)|);
    var slots := EndorserSlots(Endorsements(tx), EndorsementPos(tx, 0));
    var last := [Entry(tx, infos[9], at)];
    assert forall t | 0 <= t < 7 :: front[t].dataType == infos[t].annotationType;
    AllActive(front[..6]);
    AllActive(middle);
    AllActive(last);
    ActiveSlots(Endorsements(tx), EndorsementPos(tx, 0), MAX_ENDORSER_NUM);
    assert slots[..MAX_ENDORSER_NUM] == slots;
    ActiveConcat(front[..6], middle);
    ActiveConcat(front[..6] + middle, slots);
    ActiveConcat(front[..6] + middle + slots, last);
  }

  /** Up to eight endorsements the ENDORSER entry holds their count. Beyond, the count that
      is written is nine, and it replaces the length of the read-write set. */
  lemma EndorserCount(tx: seq<Field>, infos: seq<AnnotationInfo>, at: nat)
    requires TxShape(tx, infos) && Resolves(tx, ENDORSER_PATH)
    ensures var anns, k := TxAnnotations(tx, infos, at), |Endorsements(tx)|;
            if k <= MAX_ENDORSER_NUM then anns[6] == Entry(tx, infos[6], at) && anns[7] == EndorserHead(tx).(desc := k)
            else anns[6] == Entry(tx, infos[6], at).(desc := 9) && anns[7] == EndorserHead(tx)
  {
    var front := FrontEntries(tx, infos, at);
    assert front[6] == Entry(tx, infos[6], at);
    var middle := TxAnnotations(tx, infos, at)[6..8];
    assert middle == EndorserEntries(front[6], EndorserHead(tx), |Endorsements(tx)|);
    assert TxAnnotations(tx, infos, at)[6] == middle[0] && TxAnnotations(tx, infos, at)[7] == middle[1];
  }

  /** The endorser entry points at the tag of the first endorsement exactly if that
      endorsement takes two length bytes. */
  lemma EndorserEntryHitsTagIff(tx: seq<Field>, infos: seq<AnnotationInfo>)
    requires TxShape(tx, infos) && Resolves(tx, ENDORSER_PATH)
    ensures EndorserHead(tx).offset == EndorsementPos(tx, 0) <==> 128 <= LengthOf(tx, ENDORSER_PATH) < 16384
  {
    FirstEndorser(tx);
    var e := Endorsements(tx)[0];
    LocateDepth(tx, ENDORSER_PATH);
    Inside(tx, ENDORSER_PATH);
    SmallU16(PosOf(tx, ENDORSER_PATH) - 3);
    assert e in Endorsements(tx);
    HeadLength(e);
    VarintSize(18);
    VarintSize(|Content(e)|);
    LongVarint(|Content(e)|);
  }

  lemma LongVarint(n: nat)
    ensures |Varint(n)| == 2 <==> 128 <= n < 16384
  {
    VarintSize(n);
  }

  /** Region and annotations, stripped and corrected. */
  function PacketOf(msgType: nat, region: Bytes, anns: seq<Annotation>, m: Maps, size: nat): Packet
    requires InPacket(anns, |region|) && WellPlaced(anns, 0, |region|)
  {
    Packet(msgType, Corrected(region, anns, m), size, Strip(region, anns, 0))
  }

  /** There is an endorsement, and the locators lie in the order in which they are listed. */
  predicate Sendable(tx: seq<Field>, infos: seq<AnnotationInfo>, at: nat)
    requires TxShape(tx, infos)
  {
    Resolves(tx, ENDORSER_PATH) && WellPlaced(TxAnnotations(tx, infos, at), 0, |Encode(tx)|)
  }

  lemma SendableInPacket(tx: seq<Field>, infos: seq<AnnotationInfo>, at: nat)
    requires TxShape(tx, infos) && Sendable(tx, infos, at)
    ensures InPacket(TxAnnotations(tx, infos, at), |Encode(tx)|)
  {
    NarrowEntries(tx, infos, at);
    WellPlacedInside(TxAnnotations(tx, infos, at), 0, |Encode(tx)|);
  }

  /** With the fields in number order a transaction can be sent if its locators' paths lead
      somewhere. */
  lemma SortedSendable(tx: seq<Field>, infos: seq<AnnotationInfo>, at: nat)
    requires TxShape(tx, infos) && IsTable(infos) && Sorted(tx)
    requires Resolves(tx, ENDORSER_PATH) && Resolves(tx, infos[2].path) && Resolves(tx, infos[4].path)
    ensures Sendable(tx, infos, at)
  {
    Before(tx, infos[2].path, infos[4].path, 2);
    Before(tx, infos[4].path, ENDORSER_PATH, 4);
    EntryFits(tx, infos[2], at);
    EntryFits(tx, infos[4], at);
    FirstEndorser(tx);
    assert Endorsements(tx)[0] in Endorsements(tx);
    IdentityInside(Endorsements(tx)[0]);
    GeneratedWellPlacedIff(tx, infos, at);
  }

  /** The packet a transaction is sent as. */
  function TxPacket(tx: seq<Field>, infos: seq<AnnotationInfo>, at: nat, m: Maps): Packet
    requires TxShape(tx, infos) && Sendable(tx, infos, at)
  {
    SendableInPacket(tx, infos, at);
    PacketOf(2, Encode(tx), TxAnnotations(tx, infos, at), m, ActiveCount(TxAnnotations(tx, infos, at)))
  }

  /** Adjusts the annotations and sends what is active of them. */
  method SendActive(cache: Cache, data: Bytes, pos: nat, length: nat, annotation: array<Annotation>,
                    ghost region: Bytes)
    returns (p: Option<Packet>)
    requires length == |region| < 0x1_0000 && At(region, data, pos) && Narrow(annotation[..])
    modifies annotation
    ensures p.Some? <==> WellPlaced(old(annotation[..]), 0, length)
    ensures p.Some? ==>
              && InPacket(old(annotation[..]), length)
              && p.value == PacketOf(2, region, old(annotation[..]), cache.State(), ActiveCount(old(annotation[..])))
  {
    ghost var anns := annotation[..];
    var payload := AdjustDataBasedOnLocator(cache, data, pos, length, annotation);
    if payload.None? {
      return None;
    }
    var activeSize := GetAnnotationActiveSize(annotation);
    AllCorrectedActive(region, anns, cache.State());
    p := Some(Packet(2, annotation[..], activeSize, payload.value));
  }

  /** SendTransaction. None stands for the panic that ends it. */
  method SendTransaction(cache: Cache, data: Bytes, pos: nat, length: nat, infos: seq<AnnotationInfo>,
                         ghost tx: seq<Field>)
    returns (p: Option<Packet>)
    requires |data| < TWO63 && TxShape(tx, infos) && At(Encode(tx), data, pos) && length == |Encode(tx)|
    ensures p.Some? <==> Sendable(tx, infos, pos)
    ensures p.Some? ==> p.value == TxPacket(tx, infos, pos, cache.State())
  {
    var annotation := GenerateTransactionAnnotation(data, pos, length, infos, tx);
    if annotation.None? {
      return None;
    }
    NarrowEntries(tx, infos, pos);
    p := SendActive(cache, data, pos, length, annotation.value, Encode(tx));
  }

  lemma AllCorrectedActive(region: Bytes, anns: seq<Annotation>, m: Maps)
    requires InPacket(anns, |region|)
    ensures ActiveCount(Corrected(region, anns, m)) == ActiveCount(anns)
  {
    CorrectedActive(region, anns, m, |anns|);
    assert anns[..|anns|] == anns && Corrected(region, anns, m)[..|anns|] == Corrected(region, anns, m);
  }

  lemma {:induction false} CorrectedActive(region: Bytes, anns: seq<Annotation>, m: Maps, n: nat)
    requires InPacket(anns, |region|) && n <= |anns|
    ensures ActiveCount(Corrected(region, anns, m)[..n]) == ActiveCount(anns[..n])
  {
    if n > 0 {
      var c := Corrected(region, anns, m);
      CorrectedActive(region, anns, m, n - 1);
      assert c[..n][..n - 1] == c[..n - 1] && anns[..n][..n - 1] == anns[..n - 1];
      assert c[n - 1] == CorrectedAt(region, anns, m, n - 1);
    }
  }

  // ---------- where the pointers lead ----------

  lemma ListAt(tx: seq<Field>, infos: seq<AnnotationInfo>, at: nat)
    requires TxShape(tx, infos) && Resolves(tx, ENDORSER_PATH)
    ensures var anns := TxAnnotations(tx, infos, at);
            && anns[..6] == FrontEntries(tx, infos, at)[..6]
            && anns[8..16] == EndorserSlots(Endorsements(tx), EndorsementPos(tx, 0))
            && anns[16] == Entry(tx, infos[9], at)
  {
  }

  /** End of the endorsed action. */
  function ActionEnd(tx: seq<Field>): nat
    requires Resolves(tx, ENDORSER_PATH)
  {
    ActionResolves(tx);
    EndOf(tx, ACTION_PATH)
  }

  /** Where a locator of the list can lie. */
  predicate InRow(tx: seq<Field>, infos: seq<AnnotationInfo>, i: nat, a: Annotation)
    requires TxTree(tx, infos)
  {
    || (i == 2 && a.offset == PosOf(tx, infos[2].path) && a.End() == EndOf(tx, infos[2].path))
    || (i == 4 && a.offset == PosOf(tx, infos[4].path) && a.End() == EndOf(tx, infos[4].path))
    || (8 <= i < 16 && PosOf(tx, ENDORSER_PATH) <= a.offset && a.End() <= ActionEnd(tx))
  }

  lemma LocatorInRow(tx: seq<Field>, infos: seq<AnnotationInfo>, at: nat, i: nat)
    requires TxTree(tx, infos) && IsTable(infos) && i < ANNOTATION_NUMBER && TxAnnotations(tx, infos, at)[i].Locator()
    ensures InRow(tx, infos, i, TxAnnotations(tx, infos, at)[i])
  {
    ListAt(tx, infos, at);
    if i < 6 {
      FrontInRow(tx, infos, at, i);
    } else if i < 8 {
      EndorserCount(tx, infos, at);
    } else if i < 16 {
      SlotInRow(tx, infos, i - 8);
      assert TxAnnotations(tx, infos, at)[i] == TxAnnotations(tx, infos, at)[8..16][i - 8];
    }
  }

  lemma FrontInRow(tx: seq<Field>, infos: seq<AnnotationInfo>, at: nat, i: nat)
    requires TxTree(tx, infos) && IsTable(infos) && i < 6
    ensures TxAnnotations(tx, infos, at)[i] == Entry(tx, infos[i], at)
    ensures infos[i].annotationType >= 0x80 ==> InRow(tx, infos, i, Entry(tx, infos[i], at))
  {
    ListAt(tx, infos, at);
    assert TxAnnotations(tx, infos, at)[i] == TxAnnotations(tx, infos, at)[..6][i] == FrontEntries(tx, infos, at)[i];
    EntryFits(tx, infos[i], at);
  }

  lemma SlotInRow(tx: seq<Field>, infos: seq<AnnotationInfo>, j: nat)
    requires TxTree(tx, infos) && j < MAX_ENDORSER_NUM
    requires EndorserSlots(Endorsements(tx), EndorsementPos(tx, 0))[j].Locator()
    ensures var a := EndorserSlots(Endorsements(tx), EndorsementPos(tx, 0))[j];
            PosOf(tx, ENDORSER_PATH) <= a.offset && a.End() <= ActionEnd(tx)
  {
    var ends, p0 := Endorsements(tx), EndorsementPos(tx, 0);
    SlotAt(ends, p0, j);
    EndorsementsInside(tx);
    FirstEndorser(tx);
    SlotRange(ends, p0, j, |Encode(tx)|);
    MoreToCome(ends, j + 1);
    if j == 0 {
      assert ends[0] in ends && ends[..0] == [];
      IdentityInside(ends[0]);
    } else {
      EncodeUpTo(ends, 0);
      assert ends[..0] == [] && ends[..1] == ends[..j][..1];
      MoreToCome(ends[..j], 1);
    }
  }

  /** The pointer entries, TX_START left out. */
  predicate IsPointer(s: nat) {
    IsContentPointer(s) || s == 3 || s == 7
  }

  /** The pointers whose range holds no locator. */
  predicate IsContentPointer(s: nat) {
    s == 1 || s == 5 || s == 6 || s == 16
  }

  /** Path of a pointer. */
  function PointerPath(infos: seq<AnnotationInfo>, s: nat): seq<nat>
    requires |infos| == 10 && IsPointer(s)
  {
    infos[if s == 16 then 9 else s].path
  }

  /** Offset of the pointer entry s. */
  function PointerPos(tx: seq<Field>, infos: seq<AnnotationInfo>, s: nat): int
    requires TxTree(tx, infos) && IsPointer(s)
  {
    PosOf(tx, PointerPath(infos, s)) - if s == 7 then 3 else 0
  }

  /** The pointers that are default cases of the table. */
  lemma EntryAt(tx: seq<Field>, infos: seq<AnnotationInfo>, at: nat, s: nat)
    requires TxShape(tx, infos) && Resolves(tx, ENDORSER_PATH)
    requires IsPointer(s) && s != 7 && (s == 6 ==> |Endorsements(tx)| <= MAX_ENDORSER_NUM)
    ensures TxAnnotations(tx, infos, at)[s] == Entry(tx, infos[if s == 16 then 9 else s], at)
  {
    var anns, front := TxAnnotations(tx, infos, at), FrontEntries(tx, infos, at);
    ListAt(tx, infos, at);
    if s < 6 {
      assert anns[s] == anns[..6][s] == front[s];
    } else if s == 6 {
      EndorserCount(tx, infos, at);
    }
  }

  lemma ContentOffset(tx: seq<Field>, infos: seq<AnnotationInfo>, at: nat, s: nat)
    requires TxTree(tx, infos) && IsTable(infos)
    requires IsPointer(s) && s != 7 && (s == 6 ==> |Endorsements(tx)| <= MAX_ENDORSER_NUM)
    ensures var a := TxAnnotations(tx, infos, at)[s];
            && a.Active() && !a.Locator() && a.offset == PointerPos(tx, infos, s)
            && a.End() == EndOf(tx, PointerPath(infos, s)) <= |Encode(tx)|
  {
    EntryAt(tx, infos, at, s);
    EntryFits(tx, infos[if s == 16 then 9 else s], at);
  }

  lemma PointerOffset(tx: seq<Field>, infos: seq<AnnotationInfo>, at: nat, s: nat)
    requires TxTree(tx, infos) && IsTable(infos) && IsPointer(s)
    ensures var a := TxAnnotations(tx, infos, at)[s]; a.Active() && !a.Locator() && a.offset == PointerPos(tx, infos, s)
  {
    if s == 6 {
      EndorserCount(tx, infos, at);
      EntryFits(tx, infos[6], at);
    } else if s == 7 {
      EndorserCount(tx, infos, at);
      LocateDepth(tx, ENDORSER_PATH);
      Inside(tx, ENDORSER_PATH);
      SmallU16(PosOf(tx, ENDORSER_PATH) - 3);
    } else {
      ContentOffset(tx, infos, at, s);
    }
  }

  /** The positions of a transaction packet from left to right. */
  lemma Row(tx: seq<Field>, infos: seq<AnnotationInfo>)
    requires TxTree(tx, infos) && IsTable(infos)
    ensures EndOf(tx, infos[1].path) < PosOf(tx, infos[2].path)
    ensures EndOf(tx, infos[2].path) <= PosOf(tx, infos[3].path) < PosOf(tx, infos[4].path)
    ensures EndOf(tx, infos[4].path) <= PosOf(tx, infos[5].path) && EndOf(tx, infos[5].path) < PosOf(tx, ENDORSER_PATH)
    ensures EndOf(tx, infos[4].path) <= PosOf(tx, infos[6].path) && EndOf(tx, infos[6].path) < PosOf(tx, ENDORSER_PATH)
    ensures EndOf(tx, infos[4].path) <= PosOf(tx, ENDORSER_PATH) - 3
    ensures PosOf(tx, ENDORSER_PATH) <= ActionEnd(tx) <= PosOf(tx, infos[9].path)
  {
    HeaderOrder(tx, infos);
    ActionOrder(tx, infos);
    EndorsementsInside(tx);
    var ends := Endorsements(tx);
    assert ends[..0] == [];
    EncodeUpTo(ends, 0);
    MoreToCome(ends, 1);
  }

  lemma RowOrder(tx: seq<Field>, infos: seq<AnnotationInfo>, s: nat, i: nat, a: Annotation)
    requires TxTree(tx, infos) && IsTable(infos) && IsPointer(s) && InRow(tx, infos, i, a)
    ensures i < s ==> a.End() <= PointerPos(tx, infos, s)
    ensures i >= s ==> PointerPos(tx, infos, s) < a.offset
    ensures i >= s && IsContentPointer(s) ==> EndOf(tx, PointerPath(infos, s)) <= a.offset
  {
    Row(tx, infos);
  }

  /** Every pointer but the first is listed between the locators it lies between. */
  lemma PointerBetween(tx: seq<Field>, infos: seq<AnnotationInfo>, at: nat, s: nat)
    requires TxTree(tx, infos) && IsTable(infos) && IsPointer(s)
    ensures var anns := TxAnnotations(tx, infos, at);
            && AllBelow(anns[..s], anns[s].offset) && AllAbove(anns[s..], anns[s].offset + 1)
            && (IsContentPointer(s) ==> AllAbove(anns[s..], EndOf(tx, PointerPath(infos, s))))
  {
    var anns := TxAnnotations(tx, infos, at);
    PointerOffset(tx, infos, at, s);
    forall i | 0 <= i < ANNOTATION_NUMBER && anns[i].Locator()
      ensures i < s ==> anns[i].End() <= anns[s].offset
      ensures i >= s ==> anns[s].offset < anns[i].offset
      ensures i >= s && IsContentPointer(s) ==> EndOf(tx, PointerPath(infos, s)) <= anns[i].offset
    {
      LocatorInRow(tx, infos, at, i);
      RowOrder(tx, infos, s, i, anns[i]);
    }
  }

  lemma ContentAt(tx: seq<Field>, path: seq<nat>)
    requires Resolves(tx, path)
    ensures EndOf(tx, path) <= |Encode(tx)|
    ensures Encode(tx)[PosOf(tx, path)..EndOf(tx, path)] == Content(Descendant(tx, path).value)
  {
    assert At(Encode(tx), Encode(tx), 0);
    LocateAt(tx, path, Encode(tx), 0);
  }

  lemma ContentPointer(tx: seq<Field>, infos: seq<AnnotationInfo>, at: nat, s: nat)
    requires TxTree(tx, infos) && IsTable(infos) && IsContentPointer(s)
    requires s == 6 ==> |Endorsements(tx)| <= MAX_ENDORSER_NUM
    ensures var anns := TxAnnotations(tx, infos, at);
            && anns[s].Active() && !anns[s].Locator() && anns[s].End() <= |Encode(tx)|
            && AllBelow(anns[..s], anns[s].offset) && AllAbove(anns[s..], anns[s].End())
            && Encode(tx)[anns[s].offset..anns[s].End()] == Content(Descendant(tx, PointerPath(infos, s)).value)
  {
    ContentOffset(tx, infos, at, s);
    PointerBetween(tx, infos, at, s);
    ContentAt(tx, PointerPath(infos, s));
  }

  /** In a sent transaction the pointers to the chaincode name, the endorser action, the
      read-write set (with up to eight endorsements) and the signature have in the payload
      all of what they point at. */
  lemma {:induction false} PointersKeepContent(tx: seq<Field>, infos: seq<AnnotationInfo>, at: nat, m: Maps, s: nat)
    requires TxTree(tx, infos) && IsTable(infos) && Sendable(tx, infos, at) && IsContentPointer(s)
    requires s == 6 ==> |Endorsements(tx)| <= MAX_ENDORSER_NUM
    ensures var p := TxPacket(tx, infos, at, m);
            && |p.annotations| == ANNOTATION_NUMBER && p.annotations[s].End() <= |p.payload|
            && p.payload[p.annotations[s].offset..p.annotations[s].End()]
               == Content(Descendant(tx, PointerPath(infos, s)).value)
  {
    SendableInPacket(tx, infos, at);
    ContentPointer(tx, infos, at, s);
    SortedPointerContent(Encode(tx), TxAnnotations(tx, infos, at), m, s,
                         Content(Descendant(tx, PointerPath(infos, s)).value));
  }

  /** In a sent transaction every pointer except TX_START leads to the byte it led to in the
      original packet. */
  lemma {:induction false} PointersKeepAddressing(tx: seq<Field>, infos: seq<AnnotationInfo>, at: nat, m: Maps, s: nat)
    requires TxTree(tx, infos) && IsTable(infos) && Sendable(tx, infos, at) && IsPointer(s)
    requires TxAnnotations(tx, infos, at)[s].offset < |Encode(tx)|
    ensures var p := TxPacket(tx, infos, at, m);
            && |p.annotations| == ANNOTATION_NUMBER && p.annotations[s].offset < |p.payload|
            && p.payload[p.annotations[s].offset] == Encode(tx)[TxAnnotations(tx, infos, at)[s].offset]
  {
    SendableInPacket(tx, infos, at);
    PointerOffset(tx, infos, at, s);
    PointerBetween(tx, infos, at, s);
    SortedPointerByte(Encode(tx), TxAnnotations(tx, infos, at), m, s);
  }

  // ---------- the length of TX_ACTION ----------

  /** A longer path leads into the content of the shorter. */
  lemma Within(tx: seq<Field>, p: seq<nat>, q: seq<nat>)
    requires p != [] && q != [] && Resolves(tx, p + q)
    ensures Resolves(tx, p) && PosOf(tx, p) <= PosOf(tx, p + q) && EndOf(tx, p + q) <= EndOf(tx, p)
  {
    LocateJoin(tx, p, q);
    Inside(Descendant(tx, p).value.fields, q);
  }

  lemma LocatorsInAction(tx: seq<Field>, infos: seq<AnnotationInfo>, at: nat)
    requires TxTree(tx, infos) && IsTable(infos)
    ensures AllBelow(TxAnnotations(tx, infos, at), EndOf(tx, infos[3].path))
    ensures PosOf(tx, infos[3].path) < EndOf(tx, infos[3].path)
  {
    var anns, action := TxAnnotations(tx, infos, at), infos[3].path;
    assert action + [1, 1] == infos[4].path && action + [2, 2] == ACTION_PATH;
    ActionResolves(tx);
    Within(tx, action, [1, 1]);
    Within(tx, action, [2, 2]);
    Row(tx, infos);
    forall i | 0 <= i < ANNOTATION_NUMBER && anns[i].Locator()
      ensures anns[i].End() <= EndOf(tx, action)
    {
      LocatorInRow(tx, infos, at, i);
    }
  }

  /** The locators behind TX_ACTION in the list all lie in its range, and the others in front. */
  lemma ActionHoldsLocators(tx: seq<Field>, infos: seq<AnnotationInfo>, at: nat)
    requires TxTree(tx, infos) && IsTable(infos)
    ensures var anns := TxAnnotations(tx, infos, at);
            && Encloses(anns, 3) && anns[3].offset == PosOf(tx, infos[3].path)
            && 0 < anns[3].desc == LengthOf(tx, infos[3].path) && anns[3].End() <= |Encode(tx)|
  {
    LocatorsInAction(tx, infos, at);
    ContentOffset(tx, infos, at, 3);
    PointerBetween(tx, infos, at, 3);
  }

  /** TX_ACTION keeps its length although locators lie in its range: what followed the action
      starts, in the payload, before the end of the pointer's range, by all that these
      locators remove. */
  lemma {:induction false} TxActionOvershoots(tx: seq<Field>, infos: seq<AnnotationInfo>, at: nat, m: Maps)
    requires TxTree(tx, infos) && IsTable(infos) && Sendable(tx, infos, at)
    ensures var p, inside := TxPacket(tx, infos, at, m), RemovedBytes(TxAnnotations(tx, infos, at)[3..]);
            && |p.annotations| == ANNOTATION_NUMBER && p.annotations[3].desc == LengthOf(tx, infos[3].path)
            && 0 <= p.annotations[3].End() - inside <= |p.payload|
            && p.payload[p.annotations[3].End() - inside..] == Encode(tx)[EndOf(tx, infos[3].path)..]
  {
    SendableInPacket(tx, infos, at);
    ActionHoldsLocators(tx, infos, at);
    EnclosingPointerOvershoots(Encode(tx), TxAnnotations(tx, infos, at), m, 3);
  }

  /** So TX_ACTION leads to all of the action, whatever the packet holds, only where the
      locators in it are empty. */
  lemma {:induction false} TxActionLeadsIff(tx: seq<Field>, infos: seq<AnnotationInfo>, at: nat, m: Maps)
    requires TxTree(tx, infos) && IsTable(infos) && Sendable(tx, infos, at)
    ensures var anns := TxAnnotations(tx, infos, at);
            && InPacket(anns, |Encode(tx)|) && anns[3].End() <= |Encode(tx)|
            && (AlwaysLeads(anns, |Encode(tx)|, m, 3) <==> RemovedBytes(anns[3..]) == 0)
  {
    SendableInPacket(tx, infos, at);
    ActionHoldsLocators(tx, infos, at);
    EnclosingPointerLeadsIff(TxAnnotations(tx, infos, at), |Encode(tx)|, m, 3);
  }

  /** TX_START has the signature's path but comes first in the list: its offset is left as it
      was, off by all bytes that were removed. */
  lemma {:induction false} TxStartMissesByRemoved(tx: seq<Field>, infos: seq<AnnotationInfo>, at: nat, m: Maps)
    requires TxTree(tx, infos) && IsTable(infos) && Sendable(tx, infos, at)
    ensures var p, anns := TxPacket(tx, infos, at, m), TxAnnotations(tx, infos, at);
            && |p.annotations| == ANNOTATION_NUMBER && anns[0].offset == anns[16].offset
            && p.annotations[0].offset == p.annotations[16].offset + RemovedBytes(anns)
  {
    var anns, region := TxAnnotations(tx, infos, at), Encode(tx);
    SendableInPacket(tx, infos, at);
    FrontInRow(tx, infos, at, 0);
    EntryFits(tx, infos[0], at);
    PointerOffset(tx, infos, at, 16);
    PointerBetween(tx, infos, at, 16);
    Inside(tx, infos[9].path);
    SortedPointerCorrected(region, anns, m, 16);
    assert anns[..0] == [] && anns == anns[..16] + [anns[16]];
    RemovedSplit(anns[..16], [anns[16]]);
    SingleRemoved(anns[16]);
    CorrectedPointer(region, anns, m, 0);
    SmallU16(anns[0].offset);
  }
}
