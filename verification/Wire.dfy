/** The protobuf walker: varints, field heads, and lookup of a nested field by the
    path of its field numbers, for messages made of varint and length-delimited fields
    (Protocol Buffers Encoding, "Base 128 Varints" and "Message Structure"). */
module Wire {
  import opened Common

  const TWO63: int := 0x8000_0000_0000_0000
  const TWO64: int := 0x1_0000_0000_0000_0000

  /** Two's complement truncation to Go's 64-bit int. */
  function Wrap64(x: int): int {
    (x + TWO63) % TWO64 - TWO63
  }

  lemma WrapAdd(a: int, b: int)
    ensures Wrap64(Wrap64(a) + b) == Wrap64(a + b)
  {
    var q := (a + TWO63) / TWO64;
    assert Wrap64(a) == a - TWO64 * q;
    assert (a + b + TWO63 - TWO64 * q) % TWO64 == (a + b + TWO63) % TWO64;
  }

  lemma WrapSmall(x: int)
    requires 0 <= x < TWO63
    ensures Wrap64(x) == x
  {
  }

  // ---------- varints ----------

  function Varint(v: nat): (r: Bytes)
    ensures |r| >= 1
  {
    if v < 128 then [v as byte] else [(v % 128 + 128) as byte] + Varint(v / 128)
  }

  predicate Terminated(data: Bytes) {
    exists k | 0 <= k < |data| :: data[k] < 128
  }

  /** Value and length of the varint at the start of the data. */
  function ReadVarint(data: Bytes): (nat, nat)
    requires Terminated(data)
  {
    if data[0] < 128 then (data[0] as nat, 1)
    else
      assert Terminated(data[1..]) by {
        var k :| 0 <= k < |data| && data[k] < 128;
        assert data[1..][k - 1] == data[k];
      }
      var r := ReadVarint(data[1..]);
      (data[0] as nat - 128 + 128 * r.0, 1 + r.1)
  }

  function Pow128(n: nat): nat {
    if n == 0 then 1 else 128 * Pow128(n - 1)
  }

  predicate At(part: Bytes, data: Bytes, pos: nat) {
    pos + |part| <= |data| && data[pos..pos + |part|] == part
  }

  lemma {:induction false} ReadWrittenVarint(v: nat, rest: Bytes)
    ensures Terminated(Varint(v) + rest)
    ensures ReadVarint(Varint(v) + rest) == (v, |Varint(v)|)
  {
    var data := Varint(v) + rest;
    if v < 128 {
      assert data[0] == v as byte;
    } else {
      ReadWrittenVarint(v / 128, rest);
      assert data[1..] == Varint(v / 128) + rest;
      var k :| 0 <= k < |data[1..]| && data[1..][k] < 128;
      assert data[k + 1] < 128;
    }
  }

  lemma VarintAt(v: nat, data: Bytes, pos: nat)
    requires At(Varint(v), data, pos)
    ensures Terminated(data[pos..]) && ReadVarint(data[pos..]) == (v, |Varint(v)|)
  {
    ReadWrittenVarint(v, data[pos + |Varint(v)|..]);
    assert data[pos..] == Varint(v) + data[pos + |Varint(v)|..];
  }

  /** The encoding is prefix-free: what follows a varint is determined. */
  lemma VarintPrefixFree(a: nat, b: nat, x: Bytes, y: Bytes)
    requires Varint(a) + x == Varint(b) + y
    ensures a == b && x == y
  {
    ReadWrittenVarint(a, x);
    ReadWrittenVarint(b, y);
    assert x == (Varint(a) + x)[|Varint(a)|..];
    assert y == (Varint(b) + y)[|Varint(b)|..];
  }

  /** Sets the top bit of the low seven: (x & 0x7F) | 0x80. */
  function Continued(x: nat): byte {
    (x % 128 + 128) as byte
  }

  lemma VarintSize(n: nat)
    ensures n < 128 ==> Varint(n) == [n as byte]
    ensures 128 <= n < 16384 ==> Varint(n) == [Continued(n), (n / 128) as byte]
    ensures n >= 128 ==> |Varint(n)| >= 2 && Varint(n)[0] == Continued(n)
    ensures n >= 16384 ==> |Varint(n)| >= 3
  {
    if n >= 128 {
      assert Varint(n) == [Continued(n)] + Varint(n / 128);
      if n < 16384 {
        assert Varint(n / 128) == [(n / 128) as byte];
      } else {
        assert Varint(n / 128) == [Continued(n / 128)] + Varint(n / 128 / 128);
      }
    }
  }

  /** Seven bits of payload, shifted to their place. */
  function Shifted(b: nat, off: nat): nat {
    b * Pow128(off)
  }

  /** After `off` continuation bytes the value is `acc` plus what is still to be read. */
  predicate Partial(data: Bytes, off: nat, acc: nat) {
    && off < |data| && Terminated(data) && Terminated(data[off..])
    && ReadVarint(data).0 == acc + Shifted(ReadVarint(data[off..]).0, off)
    && ReadVarint(data).1 == off + ReadVarint(data[off..]).1
  }

  lemma ShiftedSum(b: nat, hi: nat, off: nat)
    ensures Shifted(b + 128 * hi, off) == Shifted(b, off) + Shifted(hi, off + 1)
  {
    var p := Pow128(off);
    assert (b + 128 * hi) * p == b * p + (128 * hi) * p;
    assert (128 * hi) * p == hi * (128 * p);
  }

  lemma ReadTail(data: Bytes)
    requires Terminated(data) && data[0] >= 128
    ensures Terminated(data[1..])
    ensures ReadVarint(data) == (data[0] as nat - 128 + 128 * ReadVarint(data[1..]).0, 1 + ReadVarint(data[1..]).1)
  {
  }

  lemma PartialStep(data: Bytes, off: nat, acc: nat)
    requires Partial(data, off, acc) && data[off] >= 128
    ensures Partial(data, off + 1, acc + Shifted(data[off] as nat - 128, off))
  {
    var rest := data[off..];
    ReadTail(rest);
    assert rest[1..] == data[off + 1..];
    ShiftedSum(data[off] as nat - 128, ReadVarint(rest[1..]).0, off);
  }

  /** getVarint, for any data with a terminating byte; larger values wrap around. */
  method GetVarint(data: Bytes, start: nat) returns (val: int, off: nat)
    requires start <= |data| && Terminated(data[start..])
    ensures val == Wrap64(ReadVarint(data[start..]).0) && off == ReadVarint(data[start..]).1
    ensures start + off <= |data|
  {
    var pos := start;
    val, off := 0, 0;
    ghost var input := data[start..];
    ghost var acc: nat := 0;
    assert input[0..] == input;
    while data[pos] >= 128
      invariant pos == start + off < |data|
      invariant Partial(input, off, acc) && val == Wrap64(acc)
      decreases |data| - pos
    {
      var bits := Shifted(data[pos] as nat - 128, off);
      PartialStep(input, off, acc);
      WrapAdd(acc, bits);
      val := Wrap64(val + bits);
      acc := acc + bits;
      pos := pos + 1;
      off := off + 1;
    }
    WrapAdd(acc, Shifted(data[pos] as nat, off));
    val := Wrap64(val + Shifted(data[pos] as nat, off));
    off := off + 1;
  }

  // ---------- messages ----------

  datatype Field =
    | Number(num: nat, value: nat)
    | Blob(num: nat, payload: Bytes)
    | Message(num: nat, fields: seq<Field>)

  function WireType(f: Field): nat {
    if f.Number? then 0 else 2
  }

  function Content(f: Field): Bytes
    decreases f, 0
  {
    match f
    case Number(_, value) => Varint(value)
    case Blob(_, payload) => payload
    case Message(_, fields) => Encode(fields)
  }

  /** Tag, and the length for a length-delimited field. */
  function Head(f: Field): Bytes
    decreases f, 1
  {
    Varint(8 * f.num + WireType(f)) + if f.Number? then [] else Varint(|Content(f)|)
  }

  function EncodeField(f: Field): (r: Bytes)
    ensures |r| == |Head(f)| + |Content(f)|
    decreases f, 2
  {
    Head(f) + Content(f)
  }

  function Encode(fields: seq<Field>): Bytes
    decreases fields, 0
  {
    if fields == [] then [] else EncodeField(fields[0]) + Encode(fields[1..])
  }

  lemma {:induction false} EncodeConcat(a: seq<Field>, b: seq<Field>)
    ensures Encode(a + b) == Encode(a) + Encode(b)
  {
    if a == [] {
      assert a + b == b;
    } else {
      EncodeConcat(a[1..], b);
      assert (a + b)[1..] == a[1..] + b && (a + b)[0] == a[0];
      AppendAssociates(EncodeField(a[0]), Encode(a[1..]), Encode(b));
    }
  }

  lemma AppendAssociates(a: Bytes, b: Bytes, c: Bytes)
    ensures a + (b + c) == a + b + c
  {
  }

  lemma AtSplit(a: Bytes, b: Bytes, data: Bytes, pos: nat)
    ensures At(a + b, data, pos) <==> At(a, data, pos) && At(b, data, pos + |a|)
  {
    if At(a + b, data, pos) {
      assert data[pos..pos + |a|] == (data[pos..pos + |a + b|])[..|a|];
      assert data[pos + |a|..pos + |a| + |b|] == (data[pos..pos + |a + b|])[|a|..];
    }
    if At(a, data, pos) && At(b, data, pos + |a|) {
      assert data[pos..pos + |a + b|] == data[pos..pos + |a|] + data[pos + |a|..pos + |a| + |b|];
    }
  }

  /** Field numbers fit a tag, so that no tag wraps. */
  predicate SmallNum(f: Field) {
    1 <= f.num < 0x2000_0000
  }

  /** The varint of v is read at pos. */
  predicate Reads(data: Bytes, pos: nat, v: nat) {
    pos <= |data| && Terminated(data[pos..]) && ReadVarint(data[pos..]) == (v, |Varint(v)|)
  }

  lemma VarintReads(data: Bytes, pos: nat, v: nat)
    requires At(Varint(v), data, pos)
    ensures Reads(data, pos, v)
  {
    VarintAt(v, data, pos);
  }

  /** The second varint of a field: its value, or the length of its content. */
  function Second(f: Field): nat {
    if f.Number? then f.value else |Content(f)|
  }

  lemma FieldAts(data: Bytes, start: nat, f: Field)
    requires At(EncodeField(f), data, start)
    ensures var tag := Varint(8 * f.num + WireType(f));
            && At(tag, data, start) && At(Varint(Second(f)), data, start + |tag|)
            && At(Content(f), data, start + |Head(f)|)
  {
    var tag := Varint(8 * f.num + WireType(f));
    AtSplit(Head(f), Content(f), data, start);
    if f.Number? {
      assert Head(f) == tag && Content(f) == Varint(f.value);
    } else {
      assert Head(f) == tag + Varint(|Content(f)|);
      AtSplit(tag, Varint(|Content(f)|), data, start);
    }
  }

  /** The two varints at the front of a field, and its content. */
  lemma FieldParts(data: Bytes, start: nat, f: Field)
    requires At(EncodeField(f), data, start)
    ensures var tag := 8 * f.num + WireType(f);
            && Reads(data, start, tag) && Reads(data, start + |Varint(tag)|, Second(f))
            && At(Content(f), data, start + |Head(f)|)
  {
    FieldAts(data, start, f);
    VarintReads(data, start, 8 * f.num + WireType(f));
    VarintReads(data, start + |Varint(8 * f.num + WireType(f))|, Second(f));
  }

  /** Both varints of a field head are there to be read. */
  predicate HasHead(data: Bytes, start: nat) {
    && start <= |data| && Terminated(data[start..])
    && start + ReadVarint(data[start..]).1 <= |data|
    && Terminated(data[start + ReadVarint(data[start..]).1..])
  }

  /** Field number, content length and content position read from any head. */
  function DecodedHead(data: Bytes, start: nat): (int, int, int)
    requires HasHead(data, start)
  {
    var tag := ReadVarint(data[start..]);
    var second := ReadVarint(data[start + tag.1..]);
    if Wrap64(tag.0) % 8 != 0 then (Wrap64(tag.0) / 8, Wrap64(second.0), start + tag.1 + second.1)
    else (Wrap64(tag.0) / 8, second.1, start + tag.1)
  }

  /** protoGetFieldLength */
  method ProtoGetFieldLength(data: Bytes, start: nat) returns (field: int, length: int, pos: nat)
    requires HasHead(data, start)
    ensures (field, length, pos as int) == DecodedHead(data, start)
  {
    var off: nat;
    field, off := GetVarint(data, start);
    var fieldType := field % 8;
    field := field / 8;
    pos := start + off;
    length, off := GetVarint(data, pos);
    if fieldType != 0 {
      pos := pos + off;
    } else {
      length := off;
    }
  }

  lemma HeadDecodes(data: Bytes, start: nat, num: nat, wireType: nat, second: nat)
    requires HasHead(data, start) && num < 0x2000_0000 && wireType < 8 && second < TWO63
    requires ReadVarint(data[start..]).0 == 8 * num + wireType
    requires wireType != 0 ==> ReadVarint(data[start + ReadVarint(data[start..]).1..]).0 == second
    ensures var l1 := ReadVarint(data[start..]).1;
            var l2 := ReadVarint(data[start + l1..]).1;
            DecodedHead(data, start) == if wireType != 0 then (num, second, start + l1 + l2) else (num, l2, start + l1)
  {
    TagParts(num, wireType);
    WrapSmall(second);
  }

  lemma TagParts(num: nat, wireType: nat)
    requires num < 0x2000_0000 && wireType < 8
    ensures Wrap64(8 * num + wireType) / 8 == num && Wrap64(8 * num + wireType) % 8 == wireType
  {
    WrapSmall(8 * num + wireType);
  }

  lemma HeadLength(f: Field)
    ensures |Head(f)| == |Varint(8 * f.num + WireType(f))| + (if f.Number? then 0 else |Varint(|Content(f)|)|)
    ensures f.Number? ==> |Content(f)| == |Varint(f.value)|
  {
  }

  /** A head whose two varints are known. */
  lemma HeadRead(data: Bytes, start: nat, num: nat, wireType: nat, second: nat)
    requires num < 0x2000_0000 && wireType < 8 && (wireType != 0 ==> second < TWO63)
    requires Reads(data, start, 8 * num + wireType)
    requires Reads(data, start + |Varint(8 * num + wireType)|, second)
    ensures HasHead(data, start)
    ensures var at := start + |Varint(8 * num + wireType)|;
            DecodedHead(data, start)
            == if wireType != 0 then (num, second, at + |Varint(second)|) else (num, |Varint(second)|, at)
  {
    HeadDecodes(data, start, num, wireType, if wireType == 0 then 0 else second);
  }

  lemma EncodedHead(data: Bytes, start: nat, f: Field)
    requires |data| < TWO63 && SmallNum(f) && At(EncodeField(f), data, start)
    ensures HasHead(data, start)
    ensures var at := start + |Varint(8 * f.num + WireType(f))|;
            DecodedHead(data, start)
            == if WireType(f) != 0 then (f.num, Second(f), at + |Varint(Second(f))|)
               else (f.num, |Varint(Second(f))|, at)
  {
    FieldParts(data, start, f);
    HeadRead(data, start, f.num, WireType(f), Second(f));
  }

  /** On an encoded field it yields the number, and the range of the content. */
  lemma FieldHead(data: Bytes, start: nat, f: Field)
    requires |data| < TWO63 && SmallNum(f) && At(EncodeField(f), data, start)
    ensures HasHead(data, start)
    ensures DecodedHead(data, start) == (f.num as int, |Content(f)| as int, (start + |Head(f)|) as int)
    ensures At(Content(f), data, start + |Head(f)|)
  {
    EncodedHead(data, start, f);
    FieldAts(data, start, f);
    HeadLength(f);
  }

  /** protoGetFieldLength at a place where the field f is encoded. */
  method ReadField(data: Bytes, start: nat, ghost f: Field) returns (field: int, length: int, pos: nat)
    requires |data| < TWO63 && SmallNum(f) && At(EncodeField(f), data, start)
    ensures field == f.num && length == |Content(f)| && pos == start + |Head(f)|
    ensures At(Content(f), data, pos)
  {
    FieldHead(data, start, f);
    field, length, pos := ProtoGetFieldLength(data, start);
  }

  // ---------- lookup by path ----------

  /** First field with the number, with the offset of its content; None if there is none. */
  function Find(fields: seq<Field>, num: nat): (r: Option<(nat, Field)>)
    ensures r.Some? ==> r.value.1 in fields && r.value.1.num == num
  {
    if fields == [] then None
    else if fields[0].num == num then Some((|Head(fields[0])|, fields[0]))
    else
      var r := Find(fields[1..], num);
      if r.None? then None else Some((|EncodeField(fields[0])| + r.value.0, r.value.1))
  }

  lemma {:induction false} FindInside(fields: seq<Field>, num: nat)
    requires Find(fields, num).Some?
    ensures Find(fields, num).value.0 + |Content(Find(fields, num).value.1)| <= |Encode(fields)|
  {
    if fields[0].num != num {
      FindInside(fields[1..], num);
    }
  }

  /** Nothing is found exactly when no field has the number; what is found is the first that has it. */
  lemma {:induction false} FindsFirst(fields: seq<Field>, num: nat)
    ensures Find(fields, num).None? <==> forall f | f in fields :: f.num != num
    ensures Find(fields, num).Some? ==>
              exists k | 0 <= k < |fields| ::
                fields[k] == Find(fields, num).value.1 && forall j | 0 <= j < k :: fields[j].num != num
  {
    if fields != [] && fields[0].num != num {
      var rest := fields[1..];
      FindsFirst(rest, num);
      assert forall f :: f in fields <==> f == fields[0] || f in rest;
      if Find(rest, num).Some? {
        var k :| 0 <= k < |rest| && rest[k] == Find(rest, num).value.1 && forall j | 0 <= j < k :: rest[j].num != num;
        assert forall j | 0 <= j < k + 1 :: fields[j] == if j == 0 then fields[0] else rest[j - 1];
        assert fields[k + 1] == Find(fields, num).value.1;
      }
    }
  }

  /** The schema promises that a path only goes through messages. */
  predicate Typed(fields: seq<Field>, path: seq<nat>)
    decreases fields
  {
    |path| <= 1 ||
    var r := Find(fields, path[0]);
    r.None? || (r.value.1.Message? && Typed(r.value.1.fields, path[1..]))
  }

  predicate SmallNums(fields: seq<Field>)
    decreases fields
  {
    forall f | f in fields :: SmallNum(f) && (f.Message? ==> SmallNums(f.fields))
  }

  /** The first-match descendant on a path, in the tree alone. */
  function Descendant(fields: seq<Field>, path: seq<nat>): Option<Field>
    requires path != [] && Typed(fields, path)
    decreases fields
  {
    if Find(fields, path[0]).None? then None
    else
      var f := Find(fields, path[0]).value.1;
      if |path| == 1 then Some(f) else Descendant(f.fields, path[1..])
  }

  /** Offset of that descendant's content in the encoding. */
  function Locate(fields: seq<Field>, path: seq<nat>): (r: Option<nat>)
    requires path != [] && Typed(fields, path)
    ensures r.Some? <==> Descendant(fields, path).Some?
    ensures r.Some? ==> r.value + |Content(Descendant(fields, path).value)| <= |Encode(fields)|
    decreases fields
  {
    var r := Find(fields, path[0]);
    if r.None? then None
    else
    FindInside(fields, path[0]);
    if |path| == 1 then Some(r.value.0)
    else
      var inner := Locate(r.value.1.fields, path[1..]);
      if inner.None? then None else Some(r.value.0 + inner.value)
  }

  lemma {:induction false} FindAt(fields: seq<Field>, num: nat, data: Bytes, pos: nat)
    requires At(Encode(fields), data, pos) && Find(fields, num).Some?
    ensures At(Content(Find(fields, num).value.1), data, pos + Find(fields, num).value.0)
  {
    AtSplit(EncodeField(fields[0]), Encode(fields[1..]), data, pos);
    if fields[0].num == num {
      AtSplit(Head(fields[0]), Content(fields[0]), data, pos);
    } else {
      FindAt(fields[1..], num, data, pos + |EncodeField(fields[0])|);
    }
  }

  /** The located range holds exactly the content of the descendant. */
  lemma {:induction false} LocateAt(fields: seq<Field>, path: seq<nat>, data: Bytes, pos: nat)
    requires path != [] && Typed(fields, path) && At(Encode(fields), data, pos) && Locate(fields, path).Some?
    ensures At(Content(Descendant(fields, path).value), data, pos + Locate(fields, path).value)
    decreases path
  {
    FindAt(fields, path[0], data, pos);
    if |path| > 1 {
      var r := Find(fields, path[0]).value;
      LocateAt(r.1.fields, path[1..], data, pos + r.0);
    }
  }

  function Shift(d: nat, r: Option<(nat, Field)>): Option<(nat, Field)> {
    if r.None? then None else Some((d + r.value.0, r.value.1))
  }

  /** The search for what is to be `found` stands before the fields `rest`. */
  predicate Searching(found: Option<(nat, Field)>, rest: seq<Field>, target: nat, data: Bytes, start: nat, pos: nat,
                      end: nat) {
    && start <= pos <= end && SmallNums(rest)
    && At(Encode(rest), data, pos) && pos + |Encode(rest)| == end
    && found == Shift(pos - start, Find(rest, target))
  }

  lemma SmallNumsTail(fields: seq<Field>)
    requires SmallNums(fields) && fields != []
    ensures SmallNum(fields[0]) && SmallNums(fields[1..])
  {
    assert forall f :: f in fields[1..] ==> f in fields;
  }

  lemma SplitFirst(fields: seq<Field>, num: nat, data: Bytes, pos: nat)
    requires At(Encode(fields), data, pos) && fields != []
    ensures At(EncodeField(fields[0]), data, pos)
    ensures At(Encode(fields[1..]), data, pos + |EncodeField(fields[0])|)
    ensures |Encode(fields)| == |EncodeField(fields[0])| + |Encode(fields[1..])|
    ensures fields[0].num == num ==> Find(fields, num) == Some((|Head(fields[0])|, fields[0]))
    ensures fields[0].num != num ==> Find(fields, num) == Shift(|EncodeField(fields[0])|, Find(fields[1..], num))
  {
    AtSplit(EncodeField(fields[0]), Encode(fields[1..]), data, pos);
  }

  lemma HeadNotEmpty(f: Field)
    ensures |Head(f)| > 0
  {
  }

  /** Position and length as the source reports them: -1 and 0 if nothing was found. */
  predicate Reports(found: Option<(nat, Field)>, start: nat, pos: int, length: int) {
    if found.None? then pos == -1 && length == 0
    else pos == start + found.value.0 && length == |Content(found.value.1)|
  }

  lemma SearchStart(fields: seq<Field>, target: nat, data: Bytes, start: nat)
    requires SmallNums(fields) && At(Encode(fields), data, start)
    ensures Searching(Find(fields, target), fields, target, data, start, start, start + |Encode(fields)|)
  {
  }

  lemma SearchHit(found: Option<(nat, Field)>, rest: seq<Field>, target: nat, data: Bytes, start: nat, pos: nat,
                  end: nat)
    requires Searching(found, rest, target, data, start, pos, end) && rest != [] && rest[0].num == target
    ensures found == Some((pos - start + |Head(rest[0])|, rest[0]))
  {
    SplitFirst(rest, target, data, pos);
  }

  lemma ShiftTwice(d: nat, e: nat, r: Option<(nat, Field)>)
    ensures Shift(d, Shift(e, r)) == Shift(d + e, r)
  {
  }

  lemma SearchMiss(found: Option<(nat, Field)>, rest: seq<Field>, target: nat, data: Bytes, start: nat, pos: nat,
                   end: nat)
    requires Searching(found, rest, target, data, start, pos, end) && rest != [] && rest[0].num != target
    ensures Searching(found, rest[1..], target, data, start, pos + |EncodeField(rest[0])|, end)
  {
    SplitFirst(rest, target, data, pos);
    SmallNumsTail(rest);
    ShiftTwice(pos - start, |EncodeField(rest[0])|, Find(rest[1..], target));
  }

  lemma SearchEnd(found: Option<(nat, Field)>, rest: seq<Field>, target: nat, data: Bytes, start: nat, pos: nat,
                  end: nat)
    requires Searching(found, rest, target, data, start, pos, end)
    ensures pos < end <==> rest != []
    ensures pos == end ==> found.None?
  {
    if rest != [] {
      SplitFirst(rest, target, data, pos);
      HeadNotEmpty(rest[0]);
    }
  }

  /** The next field, read: either the one looked for, or the search goes on behind it. */
  method SearchNext(data: Bytes, at: nat, target: nat, ghost found: Option<(nat, Field)>, ghost rest: seq<Field>,
                    ghost start: nat, ghost end: nat)
    returns (field: int, length: int, pos: nat)
    requires |data| < TWO63 && at < end && Searching(found, rest, target, data, start, at, end)
    ensures rest != [] && field == rest[0].num && length >= 0 && at < pos
    ensures field == target ==> found.Some? && Reports(found, start, pos, length)
    ensures field != target ==> Searching(found, rest[1..], target, data, start, pos + length, end)
  {
    SearchEnd(found, rest, target, data, start, at, end);
    SplitFirst(rest, target, data, at);
    SmallNumsTail(rest);
    HeadNotEmpty(rest[0]);
    field, length, pos := ReadField(data, at, rest[0]);
    if field == target {
      SearchHit(found, rest, target, data, start, at, end);
    } else {
      SearchMiss(found, rest, target, data, start, at, end);
    }
  }

  /** protoSearchFieldPos on the encoding of `fields`. */
  method ProtoSearchFieldPos(data: Bytes, start: nat, size: nat, target: nat, ghost fields: seq<Field>)
    returns (pos: int, length: int)
    requires |data| < TWO63 && SmallNums(fields) && size == |Encode(fields)| && At(Encode(fields), data, start)
    ensures Reports(Find(fields, target), start, pos, length)
  {
    pos := start;
    var end := start + size;
    ghost var rest, found := fields, Find(fields, target);
    SearchStart(fields, target, data, start);
    while pos < end
      invariant pos >= 0 && Searching(found, rest, target, data, start, pos, end)
      decreases end - pos
    {
      var field: int;
      field, length, pos := SearchNext(data, pos, target, found, rest, start, end);
      if field == target {
        return;
      }
      pos := pos + length;
      rest := rest[1..];
    }
    SearchEnd(found, rest, target, data, start, pos, end);
    return -1, 0;
  }

  function Plus(d: nat, r: Option<nat>): Option<nat> {
    if r.None? then None else Some(d + r.value)
  }

  /** The walk to field `goal` at offset `offset` has reached the message `inner` at pos; `rest`
      of the path is to go. */
  predicate Walking(goal: Option<Field>, offset: Option<nat>, inner: seq<Field>, rest: seq<nat>, data: Bytes,
                    start: nat, pos: nat) {
    && rest != [] && Typed(inner, rest)
    && start <= pos && At(Encode(inner), data, pos) && SmallNums(inner)
    && goal == Descendant(inner, rest) && offset == Plus(pos - start, Locate(inner, rest))
  }

  lemma WalkEnds(goal: Option<Field>, offset: Option<nat>, inner: seq<Field>, rest: seq<nat>, data: Bytes, start: nat,
                 pos: nat)
    requires Walking(goal, offset, inner, rest, data, start, pos)
    ensures var r := Find(inner, rest[0]);
            && (r.None? ==> goal.None?)
            && (r.Some? && |rest| == 1 ==> goal == Some(r.value.1) && offset == Some(pos - start + r.value.0))
  {
  }

  /** One step down the path, in the tree alone. */
  lemma DownStep(inner: seq<Field>, rest: seq<nat>)
    requires |rest| > 1 && Typed(inner, rest) && SmallNums(inner) && Find(inner, rest[0]).Some?
    ensures var r := Find(inner, rest[0]).value;
            && r.1.Message? && Content(r.1) == Encode(r.1.fields)
            && SmallNums(r.1.fields) && Typed(r.1.fields, rest[1..])
            && Descendant(inner, rest) == Descendant(r.1.fields, rest[1..])
            && Locate(inner, rest) == Plus(r.0, Locate(r.1.fields, rest[1..]))
  {
  }

  lemma PlusTwice(d: nat, e: nat, r: Option<nat>)
    ensures Plus(d, Plus(e, r)) == Plus(d + e, r)
  {
  }

  lemma WalkDown(goal: Option<Field>, offset: Option<nat>, inner: seq<Field>, rest: seq<nat>, data: Bytes, start: nat,
                 pos: nat)
    requires Walking(goal, offset, inner, rest, data, start, pos) && |rest| > 1 && Find(inner, rest[0]).Some?
    ensures var r := Find(inner, rest[0]).value;
            && r.1.Message? && Walking(goal, offset, r.1.fields, rest[1..], data, start, pos + r.0)
  {
    var r := Find(inner, rest[0]).value;
    FindAt(inner, rest[0], data, pos);
    DownStep(inner, rest);
    PlusTwice(pos - start, r.0, Locate(r.1.fields, rest[1..]));
  }

  function Sub(f: Field): seq<Field> {
    if f.Message? then f.fields else []
  }

  /** State of the loop: still walking, or arrived at the goal. */
  predicate Progress(goal: Option<Field>, offset: Option<nat>, inner: seq<Field>, rest: seq<nat>, data: Bytes,
                     start: nat, pos: int, length: int) {
    if rest != [] then pos >= 0 && length == |Encode(inner)| && Walking(goal, offset, inner, rest, data, start, pos)
    else goal.Some? && length == |Content(goal.value)| && offset == Some(pos - start)
  }

  lemma WalkStep(goal: Option<Field>, offset: Option<nat>, inner: seq<Field>, rest: seq<nat>, data: Bytes, start: nat,
                 pos: nat)
    requires Walking(goal, offset, inner, rest, data, start, pos) && Find(inner, rest[0]).Some?
    ensures var r := Find(inner, rest[0]).value;
            Progress(goal, offset, Sub(r.1), rest[1..], data, start, pos + r.0, |Content(r.1)|)
  {
    if |rest| == 1 {
      WalkEnds(goal, offset, inner, rest, data, start, pos);
      assert rest[1..] == [];
    } else {
      WalkDown(goal, offset, inner, rest, data, start, pos);
      assert rest[1..] != [];
    }
  }

  /** One step of the walk; -1 if the field is not there. */
  method WalkOne(data: Bytes, at: nat, size: nat, num: nat, ghost goal: Option<Field>, ghost offset: Option<nat>,
                 ghost inner: seq<Field>, ghost rest: seq<nat>, ghost start: nat)
    returns (pos: int, length: int, ghost next: seq<Field>)
    requires |data| < TWO63 && Walking(goal, offset, inner, rest, data, start, at)
    requires size == |Encode(inner)| && num == rest[0]
    ensures pos == -1 ==> goal.None?
    ensures pos != -1 ==> Progress(goal, offset, next, rest[1..], data, start, pos, length)
  {
    ghost var found := Find(inner, num);
    WalkEnds(goal, offset, inner, rest, data, start, at);
    pos, length := ProtoSearchFieldPos(data, at, size, num, inner);
    if pos == -1 {
      next := [];
    } else {
      WalkStep(goal, offset, inner, rest, data, start, at);
      next := Sub(found.value.1);
    }
  }

  /** protoGetFieldPos: the content range of the first-match descendant, -1 iff there is none. */
  method ProtoGetFieldPos(data: Bytes, start: nat, size: nat, path: seq<nat>, ghost fields: seq<Field>)
    returns (pos: int, length: int)
    requires |data| < TWO63 && SmallNums(fields) && size == |Encode(fields)| && At(Encode(fields), data, start)
    requires path != [] && Typed(fields, path)
    ensures var d := Descendant(fields, path);
            if d.None? then pos == -1 && length == 0
            else
              && pos == start + Locate(fields, path).value && length == |Content(d.value)|
              && At(Content(d.value), data, pos)
  {
    pos, length := start, size;
    ghost var inner, goal, offset := fields, Descendant(fields, path), Locate(fields, path);
    assert path[0..] == path;
    for i := 0 to |path|
      invariant Progress(goal, offset, inner, path[i..], data, start, pos, length)
    {
      ghost var rest := path[i..];
      pos, length, inner := WalkOne(data, pos, length, path[i], goal, offset, inner, rest, start);
      if pos == -1 {
        return -1, 0;
      }
      assert rest[1..] == path[i + 1..];
    }
    if offset.Some? {
      LocateAt(fields, path, data, start);
    }
  }
}
