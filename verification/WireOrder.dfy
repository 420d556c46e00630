/** Paths and positions: in a message serialized in field-number order, which is what
    proto.Marshal produces, the lexicographic order of paths is the order of positions. */
module WireOrder {
  import opened Common
  import opened Wire

  predicate Sorted(fields: seq<Field>)
    decreases fields
  {
    && (forall i, j | 0 <= i < j < |fields| :: fields[i].num <= fields[j].num)
    && (forall f | f in fields :: f.Message? ==> Sorted(f.fields))
  }

  /** The paths part at step i, p to the smaller field number. */
  predicate PartsAt(p: seq<nat>, q: seq<nat>, i: nat) {
    i < |p| && i < |q| && (forall k | 0 <= k < i :: p[k] == q[k]) && p[i] < q[i]
  }

  lemma {:induction false} FindOrder(fields: seq<Field>, a: nat, b: nat)
    requires Sorted(fields) && a < b && Find(fields, a).Some? && Find(fields, b).Some?
    ensures var ra, rb := Find(fields, a).value, Find(fields, b).value;
            ra.0 + |Content(ra.1)| + |Head(rb.1)| <= rb.0
  {
    assert fields[0].num <= a by {
      var f := Find(fields, a).value.1;
      var i :| 0 <= i < |fields| && fields[i] == f;
    }
    var rest := fields[1..];
    assert forall f | f in rest :: f in fields;
    if fields[0].num == a {
      FindOffset(rest, b);
    } else {
      FindOrder(rest, a, b);
    }
  }

  lemma {:induction false} FindOffset(fields: seq<Field>, num: nat)
    requires Find(fields, num).Some?
    ensures Find(fields, num).value.0 >= |Head(Find(fields, num).value.1)|
  {
    if fields[0].num != num {
      FindOffset(fields[1..], num);
    }
  }

  lemma LocateDown(fields: seq<Field>, path: seq<nat>)
    requires |path| > 1 && Typed(fields, path) && Locate(fields, path).Some?
    ensures Find(fields, path[0]).Some?
    ensures var r := Find(fields, path[0]).value;
            && r.1.Message? && Typed(r.1.fields, path[1..]) && Locate(r.1.fields, path[1..]).Some?
            && Locate(fields, path).value == r.0 + Locate(r.1.fields, path[1..]).value
            && Descendant(fields, path) == Descendant(r.1.fields, path[1..])
  {
  }

  /** The position of a path lies inside the content of its first step. */
  lemma LocateInside(fields: seq<Field>, path: seq<nat>)
    requires path != [] && Typed(fields, path) && Locate(fields, path).Some?
    ensures Find(fields, path[0]).Some?
    ensures var r := Find(fields, path[0]).value;
            && r.0 <= Locate(fields, path).value
            && Locate(fields, path).value + |Content(Descendant(fields, path).value)| <= r.0 + |Content(r.1)|
            && (|path| > 1 ==> r.1.Message?)
  {
  }

  /** Content on the smaller path ends before content on the larger. */
  lemma {:induction false} LocateBefore(fields: seq<Field>, p: seq<nat>, q: seq<nat>, i: nat)
    requires Sorted(fields) && Typed(fields, p) && Typed(fields, q) && PartsAt(p, q, i)
    requires Locate(fields, p).Some? && Locate(fields, q).Some?
    ensures Locate(fields, p).value + |Content(Descendant(fields, p).value)| < Locate(fields, q).value
    decreases i
  {
    LocateInside(fields, p);
    LocateInside(fields, q);
    if i == 0 {
      FindOrder(fields, p[0], q[0]);
      HeadNotEmpty(Find(fields, q[0]).value.1);
    } else {
      LocateDown(fields, p);
      LocateDown(fields, q);
      var r := Find(fields, p[0]).value;
      assert r.1 in fields;
      LocateBefore(r.1.fields, p[1..], q[1..], i - 1);
    }
  }

  lemma {:induction false} LocateDepth(fields: seq<Field>, path: seq<nat>)
    requires path != [] && Typed(fields, path) && Locate(fields, path).Some?
    ensures |path| <= Locate(fields, path).value
    decreases |path|
  {
    FindOffset(fields, path[0]);
    HeadNotEmpty(Find(fields, path[0]).value.1);
    if |path| > 1 {
      LocateDown(fields, path);
      LocateDepth(Find(fields, path[0]).value.1.fields, path[1..]);
    }
  }

  /** A longer path leads further into the content, a byte or more per step. */
  lemma {:induction false} LocateDeeper(fields: seq<Field>, p: seq<nat>, q: seq<nat>)
    requires p != [] && |p| < |q| && q[..|p|] == p && Typed(fields, p) && Typed(fields, q)
    requires Locate(fields, p).Some? && Locate(fields, q).Some?
    ensures Locate(fields, p).value + |q| - |p| <= Locate(fields, q).value
    decreases |p|
  {
    LocateDown(fields, q);
    var r := Find(fields, q[0]).value;
    assert p[0] == q[0];
    if |p| == 1 {
      LocateDepth(r.1.fields, q[1..]);
    } else {
      LocateDown(fields, p);
      LocateDeeper(r.1.fields, p[1..], q[1..]);
    }
  }
}
