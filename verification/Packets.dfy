/** Cutting cached identities out of a packet, and putting them back. */
module Packets {
  import opened Common
  import opened CertificateCache

  /** uint16 conversion */
  function U16(x: int): nat {
    x % 0x1_0000
  }

  datatype Annotation = Annotation(dataType: nat, offset: nat, desc: nat) {
    /** Type 0 marks an unused slot. */
    predicate Active() {
      dataType != 0
    }

    predicate Locator() {
      dataType >= 0x80
    }

    /** First byte after the annotated data. */
    function End(): nat {
      offset + desc
    }
  }

  const LOCATOR := 0x80

  /** Locators in packet order, disjoint and inside the packet. */
  predicate WellPlaced(anns: seq<Annotation>, from: nat, size: nat) {
    if anns == [] then from <= size
    else if anns[0].Locator() then
      from <= anns[0].offset && anns[0].End() <= size && WellPlaced(anns[1..], anns[0].End(), size)
    else WellPlaced(anns[1..], from, size)
  }

  function Slice(region: Bytes, a: Annotation): Bytes
    requires a.End() <= |region|
  {
    region[a.offset..a.End()]
  }

  /** What is left of the packet from `from` on. */
  function Strip(region: Bytes, anns: seq<Annotation>, from: nat): Bytes
    requires WellPlaced(anns, from, |region|)
  {
    if anns == [] then region[from..]
    else if anns[0].Locator() then region[from..anns[0].offset] + Strip(region, anns[1..], anns[0].End())
    else Strip(region, anns[1..], from)
  }

  /** Bytes the locators of the list remove. */
  function RemovedBytes(anns: seq<Annotation>): nat {
    if anns == [] then 0
    else RemovedBytes(anns[..|anns| - 1]) + if anns[|anns| - 1].Locator() then anns[|anns| - 1].desc else 0
  }

  /** Offsets and lengths are 16 bits wide. */
  predicate Narrow(anns: seq<Annotation>) {
    forall a | a in anns :: a.offset < 0x1_0000 && a.desc < 0x1_0000
  }

  predicate InPacket(anns: seq<Annotation>, size: nat) {
    Narrow(anns) && forall a | a in anns :: a.Locator() ==> a.End() <= size
  }

  lemma {:induction false} WellPlacedAbove(anns: seq<Annotation>, from: nat, size: nat)
    requires WellPlaced(anns, from, size)
    ensures from <= size && AllAbove(anns, from)
    decreases |anns|
  {
    if anns != [] {
      WellPlacedAbove(anns[1..], if anns[0].Locator() then anns[0].End() else from, size);
      assert forall a | a in anns :: a == anns[0] || a in anns[1..];
    }
  }

  lemma {:induction false} WellPlacedInside(anns: seq<Annotation>, from: nat, size: nat)
    requires WellPlaced(anns, from, size) && Narrow(anns)
    ensures InPacket(anns, size)
    decreases |anns|
  {
    if anns != [] {
      WellPlacedInside(anns[1..], if anns[0].Locator() then anns[0].End() else from, size);
      assert forall a | a in anns :: a == anns[0] || a in anns[1..];
      if anns[0].Locator() {
        WellPlacedAbove(anns[1..], anns[0].End(), size);
      }
    }
  }

  /** All locators of the list lie at x or behind it. */
  predicate AllAbove(anns: seq<Annotation>, x: nat) {
    forall a | a in anns :: a.Locator() ==> x <= a.offset
  }

  /** One annotation after the pass: its offset moved down by what was removed so far; a
      locator carries the identity's id instead of its length. */
  function Adjusted(region: Bytes, a: Annotation, m: Maps, removed: nat): Annotation
    requires a.Locator() ==> a.End() <= |region|
  {
    if !a.Active() then a
    else if a.Locator() then Annotation(a.dataType, U16(a.offset - removed), U16(m.IdOf(Slice(region, a))))
    else Annotation(a.dataType, U16(a.offset - removed), a.desc)
  }

  /** Annotation j after the pass: what was removed is what the entries before it removed. */
  function CorrectedAt(region: Bytes, anns: seq<Annotation>, m: Maps, j: nat): Annotation
    requires j < |anns| && InPacket(anns, |region|)
  {
    assert anns[j] in anns;
    Adjusted(region, anns[j], m, RemovedBytes(anns[..j]))
  }

  function Corrected(region: Bytes, anns: seq<Annotation>, m: Maps): (r: seq<Annotation>)
    requires InPacket(anns, |region|)
    ensures |r| == |anns| && forall j | 0 <= j < |anns| :: r[j] == CorrectedAt(region, anns, m, j)
  {
    seq(|anns|, j requires 0 <= j < |anns| => CorrectedAt(region, anns, m, j))
  }

  lemma RemovedStep(anns: seq<Annotation>, i: nat)
    requires i < |anns|
    ensures RemovedBytes(anns[..i + 1]) == RemovedBytes(anns[..i]) + if anns[i].Locator() then anns[i].desc else 0
  {
    assert anns[..i + 1][..i] == anns[..i];
  }

  /** Stripped so far: `payload`; the copy goes on at `from`, with annotation i. */
  predicate Stripping(region: Bytes, anns: seq<Annotation>, i: nat, from: nat, payload: Bytes) {
    && i <= |anns| && WellPlaced(anns, 0, |region|) && WellPlaced(anns[i..], from, |region|)
    && from <= |region|
    && Strip(region, anns, 0) == payload + Strip(region, anns[i..], from)
  }

  lemma StripNext(region: Bytes, anns: seq<Annotation>, i: nat, from: nat, payload: Bytes)
    requires Stripping(region, anns, i, from, payload) && i < |anns|
    ensures var a := anns[i];
            if a.Locator() then
              && from <= a.offset && a.End() <= |region|
              && Stripping(region, anns, i + 1, a.End(), payload + region[from..a.offset])
            else Stripping(region, anns, i + 1, from, payload)
  {
    var a := anns[i];
    assert anns[i..][1..] == anns[i + 1..];
    if a.Locator() {
      assert payload + (region[from..a.offset] + Strip(region, anns[i + 1..], a.End()))
          == (payload + region[from..a.offset]) + Strip(region, anns[i + 1..], a.End());
    }
  }

  /** Payload copied for a prefix of the list, and where the copy goes on. */
  function Copied(region: Bytes, anns: seq<Annotation>): (Bytes, nat) {
    if anns == [] then ([], 0)
    else
      var r := Copied(region, anns[..|anns| - 1]);
      var a := anns[|anns| - 1];
      if a.Locator() && r.1 <= a.offset && a.End() <= |region| then (r.0 + region[r.1..a.offset], a.End()) else r
  }

  lemma {:induction false} CopiedStrips(region: Bytes, anns: seq<Annotation>, i: nat)
    requires WellPlaced(anns, 0, |region|) && i <= |anns|
    ensures var r := Copied(region, anns[..i]); Stripping(region, anns, i, r.1, r.0)
    decreases i
  {
    if i == 0 {
      assert anns[0..] == anns && anns[..0] == [];
      assert [] + Strip(region, anns, 0) == Strip(region, anns, 0);
    } else {
      CopiedStrips(region, anns, i - 1);
      var r := Copied(region, anns[..i - 1]);
      StripNext(region, anns, i - 1, r.1, r.0);
      assert anns[..i][..i - 1] == anns[..i - 1];
    }
  }

  lemma CopiedNext(region: Bytes, anns: seq<Annotation>, i: nat)
    requires WellPlaced(anns, 0, |region|) && i < |anns|
    ensures var r, a := Copied(region, anns[..i]), anns[i];
            && r.1 <= |region|
            && (a.Locator() ==> r.1 <= a.offset && a.End() <= |region|)
            && Copied(region, anns[..i + 1]) == if a.Locator() then (r.0 + region[r.1..a.offset], a.End()) else r
  {
    CopiedStrips(region, anns, i);
    var r := Copied(region, anns[..i]);
    StripNext(region, anns, i, r.1, r.0);
    assert anns[..i + 1][..i] == anns[..i];
  }

  lemma CopiedAll(region: Bytes, anns: seq<Annotation>)
    requires WellPlaced(anns, 0, |region|)
    ensures var r := Copied(region, anns); r.1 <= |region| && r.0 + region[r.1..] == Strip(region, anns, 0)
  {
    CopiedStrips(region, anns, |anns|);
    assert anns[..|anns|] == anns;
  }

  lemma SubSlice(data: Bytes, pos: nat, length: nat, a: nat, b: nat)
    requires pos + length <= |data| && a <= b <= length
    ensures data[pos..pos + length][a..b] == data[pos + a..pos + b]
  {
    var r := data[pos..pos + length];
    assert forall k | a <= k < b :: r[k] == data[pos + k];
    assert r[a..b] == data[pos + a..pos + b];
  }

  /** The copy stands before annotation i with `copied` so far and goes on at `from`. */
  predicate Copying(region: Bytes, anns: seq<Annotation>, i: nat, from: nat, copied: Bytes) {
    && i <= |anns|
    && (WellPlaced(anns, 0, |region|) <==> WellPlaced(anns[i..], from, |region|))
    && (WellPlaced(anns, 0, |region|) ==> (copied, from) == Copied(region, anns[..i]))
  }

  lemma CopyingStarts(region: Bytes, anns: seq<Annotation>)
    ensures Copying(region, anns, 0, 0, [])
  {
    assert anns[0..] == anns && anns[..0] == [];
  }

  lemma CopyingSkips(region: Bytes, anns: seq<Annotation>, i: nat, from: nat, copied: Bytes)
    requires Copying(region, anns, i, from, copied) && i < |anns| && !anns[i].Locator()
    ensures Copying(region, anns, i + 1, from, copied)
  {
    assert anns[i..][1..] == anns[i + 1..];
    if WellPlaced(anns, 0, |region|) {
      CopiedNext(region, anns, i);
    }
  }

  lemma CopyingCuts(region: Bytes, anns: seq<Annotation>, i: nat, from: nat, copied: Bytes, next: Bytes)
    requires Copying(region, anns, i, from, copied) && i < |anns| && anns[i].Locator() && from <= anns[i].offset
    requires anns[i].End() <= |region| ==> next == copied + region[from..anns[i].offset]
    ensures Copying(region, anns, i + 1, anns[i].End(), next)
  {
    assert anns[i..][1..] == anns[i + 1..];
    if WellPlaced(anns, 0, |region|) {
      CopiedNext(region, anns, i);
    } else if WellPlaced(anns[i + 1..], anns[i].End(), |region|) {
      WellPlacedAbove(anns[i + 1..], anns[i].End(), |region|);
    }
  }

  lemma CopyingFails(region: Bytes, anns: seq<Annotation>, i: nat, from: nat, copied: Bytes)
    requires Copying(region, anns, i, from, copied) && i < |anns| && anns[i].Locator()
    requires anns[i].offset < from || |region| < anns[i].End()
    ensures !WellPlaced(anns, 0, |region|)
  {
  }

  lemma CopyingEnds(region: Bytes, anns: seq<Annotation>, from: nat, copied: Bytes)
    requires Copying(region, anns, |anns|, from, copied)
    ensures WellPlaced(anns, 0, |region|) <==> from <= |region|
    ensures from <= |region| ==> WellPlaced(anns, 0, |region|) && copied + region[from..] == Strip(region, anns, 0)
  {
    assert anns[|anns|..] == [] && anns[..|anns|] == anns;
    if WellPlaced(anns, 0, |region|) {
      CopiedAll(region, anns);
    }
  }

  /** The correction of a single entry inside adjustDataBasedOnLocator. None stands for the
      panic of a slice expression; the end of a locator's slice is computed in 16 bits. */
  method AdjustEntry(cache: Cache, data: Bytes, pos: nat, length: nat, a: Annotation, removedBytes: nat)
    returns (r: Option<Annotation>)
    requires pos + length <= |data| && length < 0x1_0000 && a.offset < 0x1_0000 && a.desc < 0x1_0000
    ensures r.None? ==> a.Locator() && length < a.End()
    ensures r.Some? && a.Locator() ==> pos + a.End() <= |data|
    ensures r.Some? && (a.Locator() ==> a.End() <= length) ==>
              r.value == Adjusted(data[pos..pos + length], a, cache.State(), removedBytes)
  {
    if !a.Active() {
      return Some(a);
    }
    var offset := U16(a.offset - removedBytes);
    if a.Locator() {
      var from, to := pos + a.offset, pos + U16(a.offset + a.desc);
      if !(from <= to <= |data|) {
        return None;
      }
      if a.End() <= length {
        SubSlice(data, pos, length, a.offset, a.End());
      }
      var id := cache.State().IdOf(data[from..to]);
      return Some(Annotation(a.dataType, offset, U16(id)));
    }
    return Some(a.(offset := offset));
  }

  /** Copies what lies in front of a locator and goes on behind it; None if the locator starts
      before the place that has been reached. */
  method CopyUpTo(data: Bytes, pos: nat, length: nat, a: Annotation, start: nat, copied: Bytes,
                  ghost anns: seq<Annotation>, ghost i: nat, ghost from: nat)
    returns (payload: Option<Bytes>, next: nat, ghost reached: nat)
    requires pos + length <= |data| && i < |anns| && a == anns[i] && (a.Locator() ==> pos + a.End() <= |data|)
    requires start == pos + from && Copying(data[pos..pos + length], anns, i, from, copied)
    ensures next == pos + reached
    ensures payload.Some? ==> Copying(data[pos..pos + length], anns, i + 1, reached, payload.value)
    ensures payload.None? ==> !WellPlaced(anns, 0, length)
  {
    ghost var region := data[pos..pos + length];
    payload, next, reached := Some(copied), start, from;
    if !a.Locator() {
      CopyingSkips(region, anns, i, from, copied);
      return;
    }
    var end := pos + a.offset;
    if start > end {
      CopyingFails(region, anns, i, from, copied);
      return None, next, reached;
    }
    if a.End() <= length {
      SubSlice(data, pos, length, from, a.offset);
    }
    payload := Some(copied + data[start..end]);
    reached := a.End();
    next := end + a.desc;
    CopyingCuts(region, anns, i, from, copied, payload.value);
  }

  /** What the loop has done to the entries before i, if it comes to its end. */
  predicate AdjustedUpTo(region: Bytes, anns: seq<Annotation>, m: Maps, i: nat, now: seq<Annotation>) {
    && |now| == |anns| && i <= |anns| && now[i..] == anns[i..]
    && (InPacket(anns, |region|) ==> now[..i] == Corrected(region, anns, m)[..i])
  }

  lemma AdjustedNext(region: Bytes, anns: seq<Annotation>, m: Maps, i: nat, now: seq<Annotation>, a: Annotation)
    requires AdjustedUpTo(region, anns, m, i, now) && i < |anns|
    requires InPacket(anns, |region|) ==> a == CorrectedAt(region, anns, m, i)
    ensures AdjustedUpTo(region, anns, m, i + 1, now[i := a])
  {
    var next := now[i := a];
    assert next[i + 1..] == now[i..][1..] == anns[i..][1..] == anns[i + 1..];
    if InPacket(anns, |region|) {
      assert next[..i + 1] == now[..i] + [a];
      assert Corrected(region, anns, m)[..i + 1] == Corrected(region, anns, m)[..i] + [a];
    }
  }

  /** One turn of the loop, up to the store. */
  method CorrectNext(cache: Cache, data: Bytes, pos: nat, length: nat, a: Annotation, removedBytes: nat,
                     ghost anns: seq<Annotation>, ghost i: nat)
    returns (r: Option<Annotation>)
    requires pos + length <= |data| && length < 0x1_0000 && Narrow(anns) && i < |anns| && a == anns[i]
    requires removedBytes == RemovedBytes(anns[..i])
    ensures r.None? ==> !WellPlaced(anns, 0, length)
    ensures r.Some? && a.Locator() ==> pos + a.End() <= |data|
    ensures r.Some? && InPacket(anns, length) ==>
              r.value == CorrectedAt(data[pos..pos + length], anns, cache.State(), i)
  {
    assert a in anns;
    r := AdjustEntry(cache, data, pos, length, a, removedBytes);
    if r.None? && WellPlaced(anns, 0, length) {
      WellPlacedInside(anns, 0, length);
    }
  }

  /** adjustDataBasedOnLocator on a packet of less than 2^16 bytes. It gets through, without a
      slice out of bounds, exactly when the locators are disjoint, in packet order and inside
      the packet. */
  method AdjustDataBasedOnLocator(cache: Cache, data: Bytes, pos: nat, length: nat, annotation: array<Annotation>)
    returns (payload: Option<Bytes>)
    requires pos + length <= |data| && length < 0x1_0000 && Narrow(annotation[..])
    modifies annotation
    ensures payload.Some? <==> WellPlaced(old(annotation[..]), 0, length)
    ensures payload.Some? ==>
              var region, anns := data[pos..pos + length], old(annotation[..]);
              && InPacket(anns, length) && payload.value == Strip(region, anns, 0)
              && annotation[..] == Corrected(region, anns, cache.State())
  {
    ghost var region := data[pos..pos + length];
    ghost var anns := annotation[..];
    ghost var m := cache.State();
    var start, removedBytes := pos, 0;
    var copied: Bytes := [];
    ghost var from: nat := 0;
    CopyingStarts(region, anns);
    for i := 0 to annotation.Length
      invariant start == pos + from && Copying(region, anns, i, from, copied)
      invariant removedBytes == RemovedBytes(anns[..i])
      invariant AdjustedUpTo(region, anns, m, i, annotation[..])
      invariant cache.State() == m
    {
      ghost var now := annotation[..];
      var a := annotation[i];
      assert a == now[i..][0] == anns[i];
      RemovedStep(anns, i);
      var corrected := CorrectNext(cache, data, pos, length, a, removedBytes, anns, i);
      if corrected.None? {
        return None;
      }
      annotation[i] := corrected.value;
      AdjustedNext(region, anns, m, i, now, corrected.value);
      assert annotation[..] == now[i := corrected.value];
      var more;
      more, start, from := CopyUpTo(data, pos, length, a, start, copied, anns, i, from);
      if more.None? {
        return None;
      }
      copied := more.value;
      if a.Locator() {
        removedBytes := removedBytes + a.desc;
      }
    }
    CopyingEnds(region, anns, from, copied);
    if start > pos + length {
      return None;
    }
    SubSlice(data, pos, length, from, length);
    WellPlacedInside(anns, 0, length);
    assert annotation[..] == annotation[..][..|anns|];
    assert Corrected(region, anns, m) == Corrected(region, anns, m)[..|anns|];
    return Some(if start != pos + length then copied + data[start..pos + length] else copied);
  }

  // ---------- the receiver ----------

  /** Put the identities back: at each locator, insert what its id names. */
  function Rebuild(payload: Bytes, anns: seq<Annotation>, m: Maps, from: nat): Option<Bytes> {
    if anns == [] then (if from <= |payload| then Some(payload[from..]) else None)
    else if anns[0].Locator() then
      if from <= anns[0].offset <= |payload| then
        var rest := Rebuild(payload, anns[1..], m, anns[0].offset);
        if rest.None? then None else Some(payload[from..anns[0].offset] + m.ById(anns[0].desc) + rest.value)
      else None
    else Rebuild(payload, anns[1..], m, from)
  }

  /** What the receiver puts in for an identity. */
  function ComesBackAs(m: Maps, identity: Bytes): Bytes {
    m.ById(U16(m.IdOf(identity)))
  }

  /** The packet with every annotated identity replaced by what its id names. */
  function Restored(region: Bytes, anns: seq<Annotation>, m: Maps, from: nat): Bytes
    requires WellPlaced(anns, from, |region|)
  {
    if anns == [] then region[from..]
    else if anns[0].Locator() then
      region[from..anns[0].offset] + ComesBackAs(m, Slice(region, anns[0]))
      + Restored(region, anns[1..], m, anns[0].End())
    else Restored(region, anns[1..], m, from)
  }

  /** At a locator the receiver copies up to the corrected offset and inserts the identity. */
  lemma RebuildLocator(region: Bytes, payload: Bytes, c: seq<Annotation>, m: Maps, a: Annotation, from: nat, pre: Bytes,
                       tail: Bytes)
    requires a.Locator() && from <= a.offset && a.End() <= |region| && c != [] && c[0].Locator()
    requires payload == pre + region[from..a.offset] + tail && c[0].offset == |pre| + a.offset - from
    requires Rebuild(payload, c[1..], m, c[0].offset).Some?
    ensures Rebuild(payload, c, m, |pre|)
            == Some(region[from..a.offset] + m.ById(c[0].desc) + Rebuild(payload, c[1..], m, c[0].offset).value)
  {
    assert payload[|pre|..c[0].offset] == region[from..a.offset];
  }

  lemma RebuildPointer(payload: Bytes, c: seq<Annotation>, m: Maps, from: nat)
    requires c != [] && !c[0].Locator()
    ensures Rebuild(payload, c, m, from) == Rebuild(payload, c[1..], m, from)
  {
  }

  lemma RestoredFirst(region: Bytes, anns: seq<Annotation>, m: Maps, from: nat)
    requires WellPlaced(anns, from, |region|) && anns != []
    ensures var a, rest := anns[0], anns[1..];
            if a.Locator() then
              && from <= a.offset && a.End() <= |region| && WellPlaced(rest, a.End(), |region|)
              && Restored(region, anns, m, from)
                 == region[from..a.offset] + ComesBackAs(m, Slice(region, a)) + Restored(region, rest, m, a.End())
            else WellPlaced(rest, from, |region|) && Restored(region, anns, m, from) == Restored(region, rest, m, from)
  {
  }

  /** Behind the last annotation the rest of the payload is the rest of the packet. */
  lemma RebuildEnd(region: Bytes, anns: seq<Annotation>, m: Maps, from: nat, pre: Bytes)
    requires Stripping(region, anns, |anns|, from, pre)
    ensures Rebuild(Strip(region, anns, 0), [], m, |pre|) == Some(region[from..])
  {
    var payload := Strip(region, anns, 0);
    assert anns[|anns|..] == [];
    assert payload == pre + region[from..];
    assert payload[|pre|..] == region[from..];
  }

  /** Rebuilding from annotation i on, when `pre` has been copied and `from` reached. */
  lemma {:induction false} RebuildFrom(region: Bytes, anns: seq<Annotation>, m: Maps, i: nat, from: nat, pre: Bytes)
    requires InPacket(anns, |region|) && |region| < 0x1_0000
    requires Stripping(region, anns, i, from, pre) && |pre| + RemovedBytes(anns[..i]) == from
    ensures Rebuild(Strip(region, anns, 0), Corrected(region, anns, m)[i..], m, |pre|)
            == Some(Restored(region, anns[i..], m, from))
    decreases |anns| - i
  {
    var payload, c := Strip(region, anns, 0), Corrected(region, anns, m);
    if i == |anns| {
      RebuildEnd(region, anns, m, from, pre);
      assert c[i..] == [] && anns[i..] == [];
    } else {
      var a := anns[i];
      assert c[i..][1..] == c[i + 1..] && anns[i..][1..] == anns[i + 1..];
      assert c[i] == CorrectedAt(region, anns, m, i);
      StripNext(region, anns, i, from, pre);
      RestoredFirst(region, anns[i..], m, from);
      RemovedStep(anns, i);
      if a.Locator() {
        var pre' := pre + region[from..a.offset];
        RebuildFrom(region, anns, m, i + 1, a.End(), pre');
        assert a.offset - RemovedBytes(anns[..i]) == |pre'|;
        RebuildLocator(region, payload, c[i..], m, a, from, pre, Strip(region, anns[i + 1..], a.End()));
      } else {
        RebuildFrom(region, anns, m, i + 1, from, pre);
        RebuildPointer(payload, c[i..], m, |pre|);
      }
    }
  }

  /** Every annotated identity is in the cache (an empty one needs no entry). */
  predicate AllCached(region: Bytes, anns: seq<Annotation>, m: Maps)
    requires InPacket(anns, |region|)
  {
    forall a | a in anns :: a.Locator() ==> Slice(region, a) in m.byData || Slice(region, a) == []
  }

  /** The identity is sent under an id of its own: one of 16 bits, or, if it is not cached, the
      pattern for "not cached", which then names nothing. */
  predicate IdPasses(m: Maps, identity: Bytes) {
    if identity in m.byData then 0 <= m.IdOf(identity) < 0x1_0000 else 0xFFFF !in m.byId
  }

  predicate IdsPass(region: Bytes, anns: seq<Annotation>, m: Maps)
    requires InPacket(anns, |region|)
  {
    forall a | a in anns :: a.Locator() ==> IdPasses(m, Slice(region, a))
  }

  /** Ids fit the annotation's 16 bits and stay clear of the pattern for "not cached". */
  predicate IdsFit(m: Maps) {
    forall i | i in m.byId :: 0 <= i < 0xFFFF
  }

  /** Then every identity passes. */
  lemma FittingIdsPass(region: Bytes, anns: seq<Annotation>, m: Maps)
    requires InPacket(anns, |region|) && m.Consistent() && IdsFit(m)
    ensures IdsPass(region, anns, m)
  {
    forall a | a in anns && a.Locator()
      ensures IdPasses(m, Slice(region, a))
    {
      if Slice(region, a) in m.byData {
        assert m.byData[Slice(region, a)].id in m.byId;
      }
    }
  }

  /** What the id of an identity names at the receiver. */
  lemma IdRoundTrip(m: Maps, identity: Bytes)
    requires m.Consistent() && IdPasses(m, identity)
    ensures ComesBackAs(m, identity) == if identity in m.byData then identity else []
  {
    assert U16(-1) == 0xFFFF;
  }

  /** Of a cache whose maps are mutually inverse a cached identity comes back exactly if its id
      has 16 bits. */
  lemma ComesBackIff(m: Maps, identity: Bytes)
    requires m.Bijective() && identity in m.byData
    ensures ComesBackAs(m, identity) == identity <==> 0 <= m.IdOf(identity) < 0x1_0000
  {
    var sent := U16(m.IdOf(identity));
    assert m.byId[m.IdOf(identity)].identity == identity != [];
    if sent in m.byId && m.byId[sent].identity == identity {
      assert m.byData[identity].id == sent;
    }
  }

  lemma {:induction false} RestoredIff(region: Bytes, anns: seq<Annotation>, m: Maps, from: nat)
    requires InPacket(anns, |region|) && WellPlaced(anns, from, |region|) && from <= |region|
    requires m.Consistent() && IdsPass(region, anns, m)
    ensures |Restored(region, anns, m, from)| <= |region| - from
    ensures Restored(region, anns, m, from) == region[from..] <==> AllCached(region, anns, m)
  {
    if anns != [] {
      var a, rest := anns[0], anns[1..];
      assert forall b :: b in anns <==> b == a || b in rest;
      if a.Locator() {
        var identity, tail := Slice(region, a), Restored(region, rest, m, a.End());
        RestoredIff(region, rest, m, a.End());
        IdRoundTrip(m, identity);
        var named := ComesBackAs(m, identity);
        assert region[from..] == region[from..a.offset] + identity + region[a.End()..];
        if named == identity && Restored(region, anns, m, from) == region[from..] {
          assert tail == region[from..][a.End() - from..];
        }
      } else {
        RestoredIff(region, rest, m, from);
      }
    }
  }

  /** What the receiver rebuilds: the packet with every identity replaced by what its id names. */
  lemma RebuildsRestored(region: Bytes, anns: seq<Annotation>, m: Maps)
    requires |region| < 0x1_0000 && InPacket(anns, |region|) && WellPlaced(anns, 0, |region|)
    ensures Rebuild(Strip(region, anns, 0), Corrected(region, anns, m), m, 0) == Some(Restored(region, anns, m, 0))
  {
    var c := Corrected(region, anns, m);
    assert anns[0..] == anns && c[0..] == c && region[0..] == region && anns[..0] == [];
    assert [] + Strip(region, anns, 0) == Strip(region, anns, 0);
    RebuildFrom(region, anns, m, 0, 0, []);
  }

  /** Round trip of one packet: what the receiver rebuilds from the stripped payload and the
      corrected annotations is never longer than the original packet, and it is the original
      packet exactly when every identity was cached. */
  lemma PacketRoundTripIffCached(region: Bytes, anns: seq<Annotation>, m: Maps)
    requires |region| < 0x1_0000 && InPacket(anns, |region|) && WellPlaced(anns, 0, |region|)
    requires m.Consistent() && IdsPass(region, anns, m)
    ensures var r := Rebuild(Strip(region, anns, 0), Corrected(region, anns, m), m, 0);
            r.Some? && |r.value| <= |region| && (r.value == region <==> AllCached(region, anns, m))
  {
    RebuildsRestored(region, anns, m);
    RestoredIff(region, anns, m, 0);
    assert region[0..] == region;
  }

  // ---------- identities sent under the id of another ----------

  /** Every annotated identity is cached, and the 16 bits that are sent of its id are in use. */
  predicate AllNamed(region: Bytes, anns: seq<Annotation>, m: Maps)
    requires InPacket(anns, |region|)
  {
    forall a | a in anns :: a.Locator() ==>
      var identity := Slice(region, a);
      identity in m.byData && U16(m.IdOf(identity)) in m.byId
  }

  predicate AllNarrow(region: Bytes, anns: seq<Annotation>, m: Maps)
    requires InPacket(anns, |region|)
  {
    forall a | a in anns :: a.Locator() ==> 0 <= m.IdOf(Slice(region, a)) < 0x1_0000
  }

  /** The sizes of names and certificates up to which their lengths are written in full. */
  predicate Sized(m: Maps) {
    forall i | i in m.byId :: |m.byId[i].name| < 256 && |m.byId[i].ca| < 0x8000
  }

  lemma NamedApart(m: Maps, identity: Bytes, x: Bytes, y: Bytes)
    requires m.Consistent() && Sized(m) && identity in m.byData && U16(m.IdOf(identity)) in m.byId
    requires ComesBackAs(m, identity) + x == identity + y
    ensures ComesBackAs(m, identity) == identity && x == y
  {
    var a, b := m.byId[U16(m.IdOf(identity))], m.byId[m.byData[identity].id];
    IdentitiesApart(a.name, a.ca, b.name, b.ca, x, y);
  }

  lemma CutKept(kept: Bytes, x: Bytes, y: Bytes)
    requires kept + x == kept + y
    ensures x == y
  {
    assert x == (kept + x)[|kept|..] && y == (kept + y)[|kept|..];
  }

  lemma {:induction false} RestoredIffNarrow(region: Bytes, anns: seq<Annotation>, m: Maps, from: nat)
    requires InPacket(anns, |region|) && WellPlaced(anns, from, |region|) && from <= |region|
    requires m.Bijective() && Sized(m) && AllNamed(region, anns, m)
    ensures Restored(region, anns, m, from) == region[from..] <==> AllNarrow(region, anns, m)
  {
    if anns != [] {
      var a, rest := anns[0], anns[1..];
      assert forall b :: b in anns <==> b == a || b in rest;
      if a.Locator() {
        RestoredIffNarrow(region, rest, m, a.End());
        RestoredIffFirst(region, a, rest, m, from);
      } else {
        RestoredIffNarrow(region, rest, m, from);
      }
    }
  }

  lemma RestoredIffFirst(region: Bytes, a: Annotation, rest: seq<Annotation>, m: Maps, from: nat)
    requires a.Locator() && from <= a.offset && a.End() <= |region| && WellPlaced(rest, a.End(), |region|)
    requires m.Bijective() && Sized(m) && Slice(region, a) in m.byData && U16(m.IdOf(Slice(region, a))) in m.byId
    ensures region[from..a.offset] + ComesBackAs(m, Slice(region, a)) + Restored(region, rest, m, a.End())
            == region[from..]
            <==> 0 <= m.IdOf(Slice(region, a)) < 0x1_0000 && Restored(region, rest, m, a.End()) == region[a.End()..]
  {
    var kept, identity, tail := region[from..a.offset], Slice(region, a), Restored(region, rest, m, a.End());
    var named := ComesBackAs(m, identity);
    ComesBackIff(m, identity);
    assert region[from..] == kept + (identity + region[a.End()..]);
    assert kept + named + tail == kept + (named + tail);
    if kept + named + tail == region[from..] {
      CutKept(kept, named + tail, identity + region[a.End()..]);
      NamedApart(m, identity, tail, region[a.End()..]);
    }
  }

  /** Where every identity is cached and the 16 bits sent of its id name one, the packet comes
      back exactly when no id is wider: an identity under a wider id comes back as another. */
  lemma PacketRoundTripIffNarrow(region: Bytes, anns: seq<Annotation>, m: Maps)
    requires |region| < 0x1_0000 && InPacket(anns, |region|) && WellPlaced(anns, 0, |region|)
    requires m.Bijective() && Sized(m) && AllNamed(region, anns, m)
    ensures AllCached(region, anns, m)
    ensures Rebuild(Strip(region, anns, 0), Corrected(region, anns, m), m, 0) == Some(region)
            <==> AllNarrow(region, anns, m)
  {
    RebuildsRestored(region, anns, m);
    RestoredIffNarrow(region, anns, m, 0);
    assert region[0..] == region;
  }

  // ---------- pointers ----------

  /** Bytes removed from in front of offset x. */
  function RemovedBelow(anns: seq<Annotation>, x: nat): nat {
    if anns == [] then 0
    else RemovedBelow(anns[..|anns| - 1], x)
         + if anns[|anns| - 1].Locator() && anns[|anns| - 1].End() <= x then anns[|anns| - 1].desc else 0
  }

  lemma {:induction false} RemovedBelowSplit(a: seq<Annotation>, b: seq<Annotation>, x: nat)
    ensures RemovedBelow(a + b, x) == RemovedBelow(a, x) + RemovedBelow(b, x)
  {
    if b == [] {
      assert a + b == a;
    } else {
      RemovedBelowSplit(a, b[..|b| - 1], x);
      assert (a + b)[..|a + b| - 1] == a + b[..|b| - 1];
    }
  }

  /** All locators of the list lie before x. */
  predicate AllBelow(anns: seq<Annotation>, x: nat) {
    forall a | a in anns :: a.Locator() ==> a.End() <= x
  }

  lemma {:induction false} RemovedBelowAll(anns: seq<Annotation>, x: nat)
    ensures AllBelow(anns, x) ==> RemovedBelow(anns, x) == RemovedBytes(anns)
    ensures AllAbove(anns, x) ==> RemovedBelow(anns, x) == 0
  {
    if anns != [] {
      RemovedBelowAll(anns[..|anns| - 1], x);
      assert forall a | a in anns[..|anns| - 1] :: a in anns;
      assert anns[|anns| - 1] in anns;
    }
  }

  /** The annotation removes no byte of the range of n bytes at x. */
  predicate Clear(a: Annotation, x: nat, n: nat) {
    a.Locator() ==> a.desc == 0 || a.End() <= x || x + n <= a.offset
  }

  predicate AllClear(anns: seq<Annotation>, x: nat, n: nat) {
    forall a | a in anns :: Clear(a, x, n)
  }

  lemma RemovedBelowFirst(anns: seq<Annotation>, x: nat)
    requires anns != []
    ensures RemovedBelow(anns, x)
            == RemovedBelow(anns[1..], x) + if anns[0].Locator() && anns[0].End() <= x then anns[0].desc else 0
  {
    var first := [anns[0]];
    assert anns == first + anns[1..];
    RemovedBelowSplit(first, anns[1..], x);
    assert first[..0] == [];
    assert RemovedBelow(first, x)
        == RemovedBelow(first[..0], x) + if first[0].Locator() && first[0].End() <= x then first[0].desc else 0;
  }

  /** The payload has the range of n bytes at x of the packet at offset y. */
  predicate FoundIn(region: Bytes, payload: Bytes, y: int, x: nat, n: nat)
    requires x + n <= |region|
  {
    0 <= y && y + n <= |payload| && payload[y..y + n] == region[x..x + n]
  }

  predicate FoundAt(region: Bytes, anns: seq<Annotation>, y: int, x: nat, n: nat)
    requires WellPlaced(anns, 0, |region|) && x + n <= |region|
  {
    FoundIn(region, Strip(region, anns, 0), y, x, n)
  }

  lemma FoundBehind(region: Bytes, pre: Bytes, tail: Bytes, y: int, x: nat, n: nat)
    requires x + n <= |region| && FoundIn(region, tail, y, x, n)
    ensures FoundIn(region, pre + tail, |pre| + y, x, n)
  {
    assert (pre + tail)[|pre| + y..|pre| + y + n] == tail[y..y + n];
  }

  lemma FoundBefore(region: Bytes, from: nat, to: nat, tail: Bytes, x: nat, n: nat)
    requires from <= x && x + n <= to <= |region|
    ensures FoundIn(region, region[from..to] + tail, x - from, x, n)
  {
    var pre := region[from..to];
    assert (pre + tail)[x - from..x - from + n] == pre[x - from..x - from + n];
    SubSlice(region, from, to - from, x - from, x - from + n);
  }

  lemma FoundInRest(region: Bytes, from: nat, x: nat, n: nat)
    requires from <= x && x + n <= |region|
    ensures FoundIn(region, region[from..], x - from, x, n)
  {
    FoundBefore(region, from, |region|, [], x, n);
    assert region[from..|region|] + [] == region[from..];
  }

  lemma FoundAcross(region: Bytes, from: nat, mid: nat, tail: Bytes, x: nat, n: nat)
    requires from <= x <= mid <= x + n <= |region| && FoundIn(region, tail, 0, mid, x + n - mid)
    ensures FoundIn(region, region[from..mid] + tail, x - from, x, n)
  {
    var pre := region[from..mid];
    assert (pre + tail)[x - from..x - from + n] == pre[x - from..] + tail[..x + n - mid];
    assert region[x..x + n] == region[x..mid] + region[mid..x + n];
    assert pre[x - from..] == region[x..mid];
  }

  lemma NothingBelow(anns: seq<Annotation>, from: nat, x: nat, size: nat)
    requires WellPlaced(anns, from, size) && x <= from
    ensures RemovedBelow(anns, x) == 0
  {
    WellPlacedAbove(anns, from, size);
    assert AllAbove(anns, x);
    RemovedBelowAll(anns, x);
  }

  /** A range of which nothing is removed is found in the payload, all of it, at its offset
      less what was removed in front of it. */
  lemma {:induction false} RangeMoves(region: Bytes, anns: seq<Annotation>, from: nat, x: nat, n: nat)
    requires WellPlaced(anns, from, |region|) && from <= x && x + n <= |region| && AllClear(anns, x, n)
    ensures FoundIn(region, Strip(region, anns, from), x - from - RemovedBelow(anns, x), x, n)
    decreases |anns|, 1
  {
    if anns == [] {
      FoundInRest(region, from, x, n);
    } else {
      var a, rest := anns[0], anns[1..];
      RemovedBelowFirst(anns, x);
      ClearTail(anns, x, n);
      StripFirst(region, anns, from);
      if a.Locator() {
        RangeAroundLocator(region, rest, from, a, x, n);
      } else {
        RangeMoves(region, rest, from, x, n);
      }
    }
  }

  lemma {:induction false} RangeAroundLocator(region: Bytes, rest: seq<Annotation>, from: nat, a: Annotation, x: nat,
                                              n: nat)
    requires WellPlaced(rest, a.End(), |region|) && from <= a.offset && a.End() <= |region|
    requires from <= x && x + n <= |region| && a.Locator() && Clear(a, x, n) && AllClear(rest, x, n)
    ensures FoundIn(region, region[from..a.offset] + Strip(region, rest, a.End()),
                    x - from - (RemovedBelow(rest, x) + if a.End() <= x then a.desc else 0), x, n)
    decreases |rest|, 4
  {
    if a.End() <= x {
      RangeBehind(region, rest, from, a, x, n);
    } else {
      RangeInFront(region, rest, from, a, x, n);
    }
  }

  lemma ClearTail(anns: seq<Annotation>, x: nat, n: nat)
    requires AllClear(anns, x, n) && anns != []
    ensures Clear(anns[0], x, n) && AllClear(anns[1..], x, n)
  {
  }

  lemma ClearPart(anns: seq<Annotation>, x: nat, n: nat, mid: nat)
    requires AllClear(anns, x, n) && x <= mid <= x + n
    ensures AllClear(anns, mid, x + n - mid)
  {
    forall a | a in anns
      ensures Clear(a, mid, x + n - mid)
    {
      assert Clear(a, x, n);
    }
  }

  /** What is left, one annotation taken off. */
  lemma StripFirst(region: Bytes, anns: seq<Annotation>, from: nat)
    requires WellPlaced(anns, from, |region|) && anns != []
    ensures var a, rest := anns[0], anns[1..];
            if a.Locator() then
              && from <= a.offset && a.End() <= |region| && WellPlaced(rest, a.End(), |region|)
              && Strip(region, anns, from) == region[from..a.offset] + Strip(region, rest, a.End())
            else WellPlaced(rest, from, |region|) && Strip(region, anns, from) == Strip(region, rest, from)
  {
  }

  lemma {:induction false} RangeBehind(region: Bytes, rest: seq<Annotation>, from: nat, a: Annotation, x: nat, n: nat)
    requires WellPlaced(rest, a.End(), |region|) && from <= a.offset && a.End() <= x && x + n <= |region|
    requires AllClear(rest, x, n) && a.End() <= |region|
    ensures FoundIn(region, region[from..a.offset] + Strip(region, rest, a.End()),
                    x - from - (RemovedBelow(rest, x) + a.desc), x, n)
    decreases |rest|, 3
  {
    RangeMoves(region, rest, a.End(), x, n);
    FoundBehind(region, region[from..a.offset], Strip(region, rest, a.End()),
                x - a.End() - RemovedBelow(rest, x), x, n);
  }

  /** A range that starts in front of the end of the first locator, and may hold the place of
      an empty one. */
  lemma {:induction false} RangeInFront(region: Bytes, rest: seq<Annotation>, from: nat, a: Annotation, x: nat, n: nat)
    requires WellPlaced(rest, a.End(), |region|) && from <= x < a.End() <= |region| && x + n <= |region|
             && from <= a.offset
    requires a.Locator() && Clear(a, x, n) && AllClear(rest, x, n)
    ensures RemovedBelow(rest, x) == 0
    ensures FoundIn(region, region[from..a.offset] + Strip(region, rest, a.End()), x - from, x, n)
    decreases |rest|, 3
  {
    NothingBelow(rest, a.End(), x, |region|);
    if x + n <= a.offset {
      FoundBefore(region, from, a.offset, Strip(region, rest, a.End()), x, n);
    } else {
      RangeAcross(region, rest, from, a.offset, x, n);
    }
  }

  lemma {:induction false} RangeAcross(region: Bytes, rest: seq<Annotation>, from: nat, mid: nat, x: nat, n: nat)
    requires WellPlaced(rest, mid, |region|) && from <= x <= mid <= x + n <= |region| && AllClear(rest, x, n)
    ensures FoundIn(region, region[from..mid] + Strip(region, rest, mid), x - from, x, n)
    decreases |rest|, 2
  {
    NothingBelow(rest, mid, mid, |region|);
    ClearPart(rest, x, n, mid);
    RangeMoves(region, rest, mid, mid, x + n - mid);
    FoundAcross(region, from, mid, Strip(region, rest, mid), x, n);
  }

  /** No locator covers the byte at k. */
  predicate Uncovered(anns: seq<Annotation>, k: nat) {
    forall a | a in anns :: a.Locator() ==> !(a.offset <= k < a.End())
  }

  /** All zero but the byte at k. */
  function Marked(size: nat, k: nat): (r: Bytes)
    ensures |r| == size
  {
    seq(size, i => if i == k then 1 else 0)
  }

  /** A mark shows up in the payload nowhere but where its byte moves to, and not at all
      if that byte is removed. */
  lemma {:induction false} MarkShows(size: nat, k: nat, anns: seq<Annotation>, from: nat, y: nat)
    requires WellPlaced(anns, from, size) && y < |Strip(Marked(size, k), anns, from)|
    requires Strip(Marked(size, k), anns, from)[y] != 0
    ensures from <= k && Uncovered(anns, k) && y == k - from - RemovedBelow(anns, k)
    decreases |anns|
  {
    var region := Marked(size, k);
    if anns == [] {
      assert region[from..][y] == region[from + y];
    } else {
      var a, rest := anns[0], anns[1..];
      RemovedBelowFirst(anns, k);
      assert forall b | b in anns :: b == a || b in rest;
      if !a.Locator() {
        MarkShows(size, k, rest, from, y);
      } else if y < a.offset - from {
        assert region[from..a.offset][y] == region[from + y];
        WellPlacedAbove(rest, a.End(), size);
        RemovedBelowAll(rest, k);
      } else {
        MarkShows(size, k, rest, a.End(), y - (a.offset - from));
      }
    }
  }

  /** The range of n bytes at x is found at offset y of the payload whatever the packet holds. */
  ghost predicate AlwaysFoundAt(anns: seq<Annotation>, size: nat, y: int, x: nat, n: nat)
    requires WellPlaced(anns, 0, size) && x + n <= size
  {
    forall region: Bytes | |region| == size :: FoundAt(region, anns, y, x, n)
  }

  lemma FoundMark(anns: seq<Annotation>, size: nat, y: int, x: nat, n: nat, k: nat)
    requires WellPlaced(anns, 0, size) && x + n <= size && AlwaysFoundAt(anns, size, y, x, n) && x <= k < x + n
    ensures Uncovered(anns, k) && y + k - x == k - RemovedBelow(anns, k)
  {
    var region := Marked(size, k);
    assert FoundAt(region, anns, y, x, n);
    var payload := Strip(region, anns, 0);
    assert payload[y..y + n][k - x] == region[x..x + n][k - x] == 1;
    MarkShows(size, k, anns, 0, y + k - x);
  }

  lemma {:induction false} ClearIsFound(anns: seq<Annotation>, size: nat, x: nat, n: nat)
    requires WellPlaced(anns, 0, size) && x + n <= size && AllClear(anns, x, n)
    ensures AlwaysFoundAt(anns, size, x - RemovedBelow(anns, x), x, n)
  {
    forall region: Bytes | |region| == size
      ensures FoundAt(region, anns, x - RemovedBelow(anns, x), x, n)
    {
      RangeMoves(region, anns, 0, x, n);
    }
  }

  lemma FoundIsClear(anns: seq<Annotation>, size: nat, y: int, x: nat, n: nat, a: Annotation)
    requires WellPlaced(anns, 0, size) && n > 0 && x + n <= size && AlwaysFoundAt(anns, size, y, x, n) && a in anns
    ensures Clear(a, x, n)
  {
    if !Clear(a, x, n) {
      FoundMark(anns, size, y, x, n, if a.offset < x then x else a.offset);
    }
  }

  /** A range is found at some fixed offset of the payload, whatever the packet holds, exactly
      when no locator removes a byte of it, and that offset is less by what was removed
      in front of it. */
  lemma {:induction false} RangeFoundIff(anns: seq<Annotation>, size: nat, y: int, x: nat, n: nat)
    requires WellPlaced(anns, 0, size) && n > 0 && x + n <= size
    ensures AlwaysFoundAt(anns, size, y, x, n) <==> AllClear(anns, x, n) && y == x - RemovedBelow(anns, x)
  {
    if AllClear(anns, x, n) {
      ClearIsFound(anns, size, x, n);
    }
    if AlwaysFoundAt(anns, size, y, x, n) {
      FoundMark(anns, size, y, x, n, x);
      forall a | a in anns
        ensures Clear(a, x, n)
      {
        FoundIsClear(anns, size, y, x, n, a);
      }
    }
  }

  /** The corrected pointer j has, in the payload, all bytes the original had in the packet. */
  predicate Leads(region: Bytes, anns: seq<Annotation>, m: Maps, j: nat)
    requires InPacket(anns, |region|) && WellPlaced(anns, 0, |region|) && j < |anns| && anns[j].End() <= |region|
  {
    var a, c := anns[j], Corrected(region, anns, m)[j];
    c.desc == a.desc && FoundAt(region, anns, c.offset, a.offset, a.desc)
  }

  ghost predicate AlwaysLeads(anns: seq<Annotation>, size: nat, m: Maps, j: nat)
    requires InPacket(anns, size) && WellPlaced(anns, 0, size) && j < |anns| && anns[j].End() <= size
  {
    forall region: Bytes | |region| == size :: Leads(region, anns, m, j)
  }

  lemma CorrectedPointer(region: Bytes, anns: seq<Annotation>, m: Maps, j: nat)
    requires InPacket(anns, |region|) && j < |anns| && anns[j].Active() && !anns[j].Locator()
    ensures Corrected(region, anns, m)[j].offset == U16(anns[j].offset - RemovedBytes(anns[..j]))
    ensures Corrected(region, anns, m)[j].desc == anns[j].desc
  {
    assert Corrected(region, anns, m)[j] == CorrectedAt(region, anns, m, j);
  }

  lemma LeadsIffFound(region: Bytes, anns: seq<Annotation>, m: Maps, j: nat)
    requires InPacket(anns, |region|) && WellPlaced(anns, 0, |region|) && j < |anns| && anns[j].End() <= |region|
    requires anns[j].Active() && !anns[j].Locator()
    ensures Leads(region, anns, m, j)
            <==> FoundAt(region, anns, U16(anns[j].offset - RemovedBytes(anns[..j])), anns[j].offset, anns[j].desc)
  {
    CorrectedPointer(region, anns, m, j);
  }

  /** Disjoint locators in front of x remove at most x bytes. */
  lemma {:induction false} RemovedBelowAtMost(anns: seq<Annotation>, from: nat, x: nat, size: nat)
    requires WellPlaced(anns, from, size) && from <= x
    ensures from + RemovedBelow(anns, x) <= x
    decreases |anns|
  {
    if anns != [] {
      var a, rest := anns[0], anns[1..];
      RemovedBelowFirst(anns, x);
      if !a.Locator() {
        RemovedBelowAtMost(rest, from, x, size);
      } else if a.End() <= x {
        RemovedBelowAtMost(rest, a.End(), x, size);
      } else {
        WellPlacedAbove(rest, a.End(), size);
        RemovedBelowAll(rest, x);
      }
    }
  }

  lemma CorrectionExact(anns: seq<Annotation>, size: nat, x: nat, j: nat)
    requires size < 0x1_0000 && InPacket(anns, size) && WellPlaced(anns, 0, size) && j <= |anns| && x <= size
    ensures U16(x - RemovedBytes(anns[..j])) == x - RemovedBelow(anns, x)
            <==> RemovedBytes(anns[..j]) == RemovedBelow(anns, x)
  {
    assert anns[..j] + anns[j..] == anns;
    assert forall a | a in anns[..j] :: a in anns;
    RemovedAtMost(anns[..j], anns[j..], 0, size, size);
    RemovedBelowAtMost(anns, 0, x, size);
  }

  /** A pointer leads to all of its range, whatever the packet holds, exactly when no locator
      removes a byte of the range and the locators listed in front of the pointer remove as
      much as those placed in front of the range. */
  lemma {:induction false} PointerLeadsIff(anns: seq<Annotation>, size: nat, m: Maps, j: nat)
    requires size < 0x1_0000 && InPacket(anns, size) && WellPlaced(anns, 0, size) && j < |anns|
    requires anns[j].Active() && !anns[j].Locator() && anns[j].desc > 0 && anns[j].End() <= size
    ensures AlwaysLeads(anns, size, m, j)
            <==> AllClear(anns, anns[j].offset, anns[j].desc)
                 && RemovedBytes(anns[..j]) == RemovedBelow(anns, anns[j].offset)
  {
    var x, n := anns[j].offset, anns[j].desc;
    var y := U16(x - RemovedBytes(anns[..j]));
    forall region: Bytes | |region| == size
      ensures Leads(region, anns, m, j) <==> FoundAt(region, anns, y, x, n)
    {
      LeadsIffFound(region, anns, m, j);
    }
    assert AlwaysLeads(anns, size, m, j) <==> AlwaysFoundAt(anns, size, y, x, n);
    RangeFoundIff(anns, size, y, x, n);
    CorrectionExact(anns, size, x, j);
  }

  /** Listed behind the locators placed in front of it, and in front of the others, a pointer
      is corrected by what is removed in front of it. */
  lemma {:induction false} SortedPointerAddresses(anns: seq<Annotation>, size: nat, x: nat, j: nat)
    requires size < 0x1_0000 && InPacket(anns, size) && WellPlaced(anns, 0, size)
    requires j < |anns| && x <= size && AllBelow(anns[..j], x) && AllAbove(anns[j..], x)
    ensures U16(x - RemovedBytes(anns[..j])) == x - RemovedBelow(anns, x)
    ensures RemovedBytes(anns[..j]) == RemovedBelow(anns, x)
  {
    assert anns[..j] + anns[j..] == anns;
    RemovedBelowSplit(anns[..j], anns[j..], x);
    RemovedBelowAll(anns[..j], x);
    RemovedBelowAll(anns[j..], x);
    CorrectionExact(anns, size, x, j);
  }

  /** Listed behind the locators placed in front of it, and in front of those placed behind
      its range, a pointer leads to all of its range. */
  lemma {:induction false} SortedPointerLeads(region: Bytes, anns: seq<Annotation>, m: Maps, j: nat)
    requires |region| < 0x1_0000 && InPacket(anns, |region|) && WellPlaced(anns, 0, |region|)
    requires j < |anns| && anns[j].Active() && !anns[j].Locator() && anns[j].End() <= |region|
    requires AllBelow(anns[..j], anns[j].offset) && AllAbove(anns[j..], anns[j].End())
    ensures Leads(region, anns, m, j)
  {
    var x, n := anns[j].offset, anns[j].desc;
    assert AllAbove(anns[j..], x);
    SortedPointerAddresses(anns, |region|, x, j);
    assert forall a | a in anns :: a in anns[..j] || a in anns[j..];
    RangeMoves(region, anns, 0, x, n);
    LeadsIffFound(region, anns, m, j);
  }

  /** What such a pointer has in the payload. */
  lemma SortedPointerContent(region: Bytes, anns: seq<Annotation>, m: Maps, j: nat, content: Bytes)
    requires |region| < 0x1_0000 && InPacket(anns, |region|) && WellPlaced(anns, 0, |region|)
    requires j < |anns| && anns[j].Active() && !anns[j].Locator() && anns[j].End() <= |region|
    requires AllBelow(anns[..j], anns[j].offset) && AllAbove(anns[j..], anns[j].End())
    requires region[anns[j].offset..anns[j].End()] == content
    ensures var c, payload := Corrected(region, anns, m)[j], Strip(region, anns, 0);
            c.End() <= |payload| && payload[c.offset..c.End()] == content
  {
    SortedPointerLeads(region, anns, m, j);
  }

  /** The correction of such a pointer. */
  lemma SortedPointerCorrected(region: Bytes, anns: seq<Annotation>, m: Maps, j: nat)
    requires |region| < 0x1_0000 && InPacket(anns, |region|) && WellPlaced(anns, 0, |region|)
    requires j < |anns| && anns[j].Active() && !anns[j].Locator() && anns[j].offset <= |region|
    requires AllBelow(anns[..j], anns[j].offset) && AllAbove(anns[j..], anns[j].offset)
    ensures Corrected(region, anns, m)[j].desc == anns[j].desc
    ensures Corrected(region, anns, m)[j].offset == anns[j].offset - RemovedBelow(anns, anns[j].offset)
    ensures RemovedBytes(anns[..j]) == RemovedBelow(anns, anns[j].offset)
  {
    SortedPointerAddresses(anns, |region|, anns[j].offset, j);
    CorrectedPointer(region, anns, m, j);
  }

  /** The byte such a pointer leads to. */
  lemma SortedPointerByte(region: Bytes, anns: seq<Annotation>, m: Maps, j: nat)
    requires |region| < 0x1_0000 && InPacket(anns, |region|) && WellPlaced(anns, 0, |region|)
    requires j < |anns| && anns[j].Active() && !anns[j].Locator() && anns[j].offset < |region|
    requires AllBelow(anns[..j], anns[j].offset) && AllAbove(anns[j..], anns[j].offset + 1)
    ensures var c, payload := Corrected(region, anns, m)[j], Strip(region, anns, 0);
            c.offset < |payload| && payload[c.offset] == region[anns[j].offset]
  {
    var x := anns[j].offset;
    SortedPointerCorrected(region, anns, m, j);
    assert forall a | a in anns :: a in anns[..j] || a in anns[j..];
    assert AllClear(anns, x, 1);
    RangeMoves(region, anns, 0, x, 1);
    FirstByte(region, Strip(region, anns, 0), x - RemovedBelow(anns, x), x);
  }

  lemma FirstByte(region: Bytes, payload: Bytes, y: int, x: nat)
    requires x < |region| && FoundIn(region, payload, y, x, 1)
    ensures 0 <= y < |payload| && payload[y] == region[x]
  {
    assert payload[y] == payload[y..y + 1][0] && region[x] == region[x..x + 1][0];
  }

  // ---------- a pointer whose range holds locators ----------

  /** The locators listed behind pointer j lie in its range, and the others in front of it. */
  predicate Encloses(anns: seq<Annotation>, j: nat)
    requires j < |anns|
  {
    && anns[j].Active() && !anns[j].Locator()
    && AllBelow(anns, anns[j].End()) && AllBelow(anns[..j], anns[j].offset) && AllAbove(anns[j..], anns[j].offset)
  }

  /** Such a pointer keeps its length: what followed its range starts, in the payload, before
      the end of the corrected range, by all that the locators in it remove. */
  lemma {:induction false} EnclosingPointerOvershoots(region: Bytes, anns: seq<Annotation>, m: Maps, j: nat)
    requires |region| < 0x1_0000 && InPacket(anns, |region|) && WellPlaced(anns, 0, |region|)
    requires j < |anns| && Encloses(anns, j) && anns[j].End() <= |region|
    ensures var c, payload, inside := Corrected(region, anns, m)[j], Strip(region, anns, 0), RemovedBytes(anns[j..]);
            && c.desc == anns[j].desc && 0 <= c.End() - inside <= |payload|
            && payload[c.End() - inside..] == region[anns[j].End()..]
  {
    var e := anns[j].End();
    SortedPointerCorrected(region, anns, m, j);
    RemovedBelowAll(anns, e);
    RemovedSplit(anns[..j], anns[j..]);
    assert anns[..j] + anns[j..] == anns;
    RangeMoves(region, anns, 0, e, |region| - e);
    StripLength(region, anns, 0);
    RestFound(region, Strip(region, anns, 0), e - RemovedBytes(anns), e);
  }

  lemma RestFound(region: Bytes, payload: Bytes, y: int, x: nat)
    requires x <= |region| && FoundIn(region, payload, y, x, |region| - x) && |payload| == y + |region| - x
    ensures 0 <= y <= |payload| && payload[y..] == region[x..]
  {
  }

  lemma {:induction false} StripLength(region: Bytes, anns: seq<Annotation>, from: nat)
    requires WellPlaced(anns, from, |region|)
    ensures |Strip(region, anns, from)| + RemovedBytes(anns) == |region| - from
    decreases |anns|
  {
    if anns != [] {
      StripLength(region, anns[1..], if anns[0].Locator() then anns[0].End() else from);
      RemovedSplit([anns[0]], anns[1..]);
      SingleRemoved(anns[0]);
      assert [anns[0]] + anns[1..] == anns;
    }
  }

  lemma SingleRemoved(a: Annotation)
    ensures RemovedBytes([a]) == if a.Locator() then a.desc else 0
  {
    assert [a][..0] == [];
  }

  lemma {:induction false} NothingRemovedIff(anns: seq<Annotation>)
    ensures RemovedBytes(anns) == 0 <==> forall a | a in anns :: a.Locator() ==> a.desc == 0
  {
    if anns != [] {
      NothingRemovedIff(anns[..|anns| - 1]);
      assert forall a :: a in anns <==> a in anns[..|anns| - 1] || a == anns[|anns| - 1];
    }
  }

  /** So it leads to all of its range, whatever the packet holds, only where the locators in
      it are empty. */
  lemma {:induction false} EnclosingPointerLeadsIff(anns: seq<Annotation>, size: nat, m: Maps, j: nat)
    requires size < 0x1_0000 && InPacket(anns, size) && WellPlaced(anns, 0, size)
    requires j < |anns| && Encloses(anns, j) && anns[j].desc > 0 && anns[j].End() <= size
    ensures AlwaysLeads(anns, size, m, j) <==> RemovedBytes(anns[j..]) == 0
  {
    PointerLeadsIff(anns, size, m, j);
    SortedPointerAddresses(anns, size, anns[j].offset, j);
    NothingRemovedIff(anns[j..]);
    ClearIffEmpty(anns, j, anns[j].offset, anns[j].desc);
  }

  /** No byte of a range is removed exactly when the locators in it are empty. */
  lemma ClearIffEmpty(anns: seq<Annotation>, j: nat, x: nat, n: nat)
    requires n > 0 && j <= |anns| && AllBelow(anns, x + n) && AllBelow(anns[..j], x) && AllAbove(anns[j..], x)
    ensures AllClear(anns, x, n) <==> forall a | a in anns[j..] :: a.Locator() ==> a.desc == 0
  {
    if forall a | a in anns[j..] :: a.Locator() ==> a.desc == 0 {
      forall a | a in anns
        ensures Clear(a, x, n)
      {
        assert a in anns[..j] || a in anns[j..];
      }
    }
    if AllClear(anns, x, n) {
      forall a | a in anns[j..]
        ensures a.Locator() ==> a.desc == 0
      {
        assert a in anns;
        assert Clear(a, x, n);
      }
    }
  }

  // ---------- sums over the list ----------

  lemma {:induction false} RemovedAtMost(a: seq<Annotation>, b: seq<Annotation>, from: nat, x: nat, size: nat)
    requires WellPlaced(a + b, from, size) && AllBelow(a, x) && from <= x
    ensures from + RemovedBytes(a) <= x
  {
    if a != [] {
      assert (a + b)[1..] == a[1..] + b;
      assert a[0] in a && forall c | c in a[1..] :: c in a;
      RemovedAtMost(a[1..], b, if a[0].Locator() then a[0].End() else from, x, size);
      RemovedSplit(a[..1], a[1..]);
      assert a[..1] + a[1..] == a;
      assert RemovedBytes(a[..1]) == RemovedBytes([]) + (if a[0].Locator() then a[0].desc else 0) by {
        assert a[..1][..0] == [];
      }
    }
  }

  lemma {:induction false} RemovedSplit(a: seq<Annotation>, b: seq<Annotation>)
    ensures RemovedBytes(a + b) == RemovedBytes(a) + RemovedBytes(b)
  {
    if b == [] {
      assert a + b == a;
    } else {
      RemovedSplit(a, b[..|b| - 1]);
      assert (a + b)[..|a + b| - 1] == a + b[..|b| - 1];
    }
  }
}
