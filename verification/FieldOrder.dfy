/** The order of a transaction's fields. Payload, header and action are bytes fields that the
    client serializes, and every order of fields decodes to the same message. */
module FieldOrder {
  import opened Common
  import opened Wire
  import opened WireOrder
  import opened Packets
  import opened Annotations
  import opened TxPackets

  /** Of two fields found, the one further to the front ends before the other starts. */
  lemma {:induction false} FindApart(fields: seq<Field>, a: nat, b: nat)
    requires Find(fields, a).Some? && Find(fields, b).Some? && Find(fields, a).value.0 < Find(fields, b).value.0
    ensures Find(fields, a).value.0 + |Content(Find(fields, a).value.1)| < Find(fields, b).value.0
  {
    var rest := fields[1..];
    if fields[0].num == a {
      FindOffset(rest, b);
      HeadNotEmpty(Find(rest, b).value.1);
    } else if fields[0].num == b {
      FindOffset(rest, a);
    } else {
      FindApart(rest, a, b);
    }
  }

  /** Where the action is reached, and two paths go on from it into different fields. */
  lemma PartedPositions(tx: seq<Field>, p: seq<nat>, q: seq<nat>, r: seq<nat>)
    requires p != [] && q != [] && r != [] && Resolves(tx, p + q) && Resolves(tx, p + r)
    ensures Resolves(tx, p) && Descendant(tx, p).value.Message?
    ensures var inner := Descendant(tx, p).value.fields;
            && Find(inner, q[0]).Some? && Find(inner, r[0]).Some?
            && (Find(inner, q[0]).value.0 < Find(inner, r[0]).value.0 ==> EndOf(tx, p + q) < PosOf(tx, p + r))
  {
    LocateJoin(tx, p, q);
    LocateJoin(tx, p, r);
    var inner := Descendant(tx, p).value.fields;
    LocateInside(inner, q);
    LocateInside(inner, r);
    if Find(inner, q[0]).value.0 < Find(inner, r[0]).value.0 {
      FindApart(inner, q[0], r[0]);
    }
  }

  const TX_ACTION_PATH: seq<nat> := [1, 1, 2, 1]

  /** An action that carries its payload in front of its header, which any protobuf decoder
      accepts, cannot be sent: the slice behind the endorsers' identities would run backwards. */
  lemma PayloadFirstFails(tx: seq<Field>, infos: seq<AnnotationInfo>, at: nat)
    requires TxShape(tx, infos) && IsTable(infos) && Resolves(tx, ENDORSER_PATH) && Resolves(tx, infos[4].path)
    requires Resolves(tx, TX_ACTION_PATH) && Descendant(tx, TX_ACTION_PATH).value.Message?
    requires var action := Descendant(tx, TX_ACTION_PATH).value.fields;
             Find(action, 1).Some? && Find(action, 2).Some? && Find(action, 2).value.0 < Find(action, 1).value.0
    ensures !Sendable(tx, infos, at)
  {
    assert TX_ACTION_PATH + [2, 2, 2] == ENDORSER_PATH && TX_ACTION_PATH + [1, 1] == infos[4].path;
    PartedPositions(tx, TX_ACTION_PATH, [2, 2, 2], [1, 1]);
    FirstEndorser(tx);
    assert Endorsements(tx)[0] in Endorsements(tx);
    IdentityInside(Endorsements(tx)[0]);
    EntryFits(tx, infos[4], at);
    GeneratedWellPlacedIff(tx, infos, at);
  }

  // ---------- a transaction in both orders ----------

  function Header(creator: Bytes): Field {
    Message(1, [Message(2, [Blob(1, creator)])])
  }

  function Endorsement(identity: Bytes, signature: Bytes): Field {
    Message(2, [Blob(1, identity), Blob(2, signature)])
  }

  function ActionHeader(creator: Bytes): Field {
    Message(1, [Blob(1, creator)])
  }

  function ActionPayload(endorsement: Field): Field {
    Message(2, [Message(2, [endorsement])])
  }

  /** A transaction with one action. */
  function Transaction(creator: Bytes, action: seq<Field>): seq<Field> {
    [Message(1, [Message(1, [Header(creator), Message(2, [Message(1, action)])])])]
  }

  /** The fields of the action in number order, or the payload first. */
  function ActionFields(creator: Bytes, endorsement: Field, payloadFirst: bool): seq<Field> {
    if payloadFirst then [ActionPayload(endorsement), ActionHeader(creator)]
    else [ActionHeader(creator), ActionPayload(endorsement)]
  }

  lemma WalkDownOne(fields: seq<Field>, path: seq<nat>, inner: seq<Field>)
    requires |path| > 1 && Find(fields, path[0]).Some? && Find(fields, path[0]).value.1.Message?
    requires inner == Find(fields, path[0]).value.1.fields && Walkable(inner, path[1..])
    ensures Walkable(fields, path) && Descendant(fields, path) == Descendant(inner, path[1..])
  {
  }

  /** Paths into the action. */
  lemma IntoAction(creator: Bytes, action: seq<Field>, path: seq<nat>)
    requires Walkable(action, path)
    ensures var tx := Transaction(creator, action);
            Walkable(tx, TX_ACTION_PATH + path) && Descendant(tx, TX_ACTION_PATH + path) == Descendant(action, path)
  {
    var data := [Message(1, action)];
    var payload := [Header(creator), Message(2, data)];
    var envelope := [Message(1, payload)];
    var tx := [Message(1, envelope)];
    var p := TX_ACTION_PATH + path;
    assert p[1..][1..] == p[2..] && p[2..][1..] == p[3..] && p[3..][1..] == path;
    WalkDownOne(data, p[3..], action);
    assert payload[1..] == [Message(2, data)];
    WalkDownOne(payload, p[2..], data);
    WalkDownOne(envelope, p[1..], payload);
    WalkDownOne(tx, p, envelope);
  }

  /** The paths of the table below the action. */
  lemma ActionPaths(creator: Bytes, endorsement: Field, payloadFirst: bool)
    requires endorsement.num == 2
    ensures var action := ActionFields(creator, endorsement, payloadFirst);
            && Walkable(action, [1, 1]) && Descendant(action, [1, 1]) == Some(Blob(1, creator))
            && Walkable(action, [2, 1])
            && Walkable(action, [2, 2]) && Descendant(action, [2, 2]) == Some(Message(2, [endorsement]))
            && Walkable(action, [2, 2, 2]) && Descendant(action, [2, 2, 2]) == Some(endorsement)
            && Walkable(action, [2, 2, 1, 2, 1])
            && (Find(action, 2).Some? && Find(action, 1).Some?)
            && (Find(action, 2).value.0 < Find(action, 1).value.0 <==> payloadFirst)
  {
    var action := ActionFields(creator, endorsement, payloadFirst);
    var payload := [Message(2, [endorsement])];
    assert action[1..] == [action[1]];
    WalkDownOne(action, [1, 1], [Blob(1, creator)]);
    WalkDownOne(action, [2, 1], payload);
    WalkDownOne(action, [2, 2], payload);
    WalkDownOne(payload, [2, 2], [endorsement]);
    WalkDownOne(action, [2, 2, 2], payload);
    WalkDownOne(payload, [2, 1, 2, 1], [endorsement]);
    WalkDownOne(action, [2, 2, 1, 2, 1], payload);
  }

  /** The other paths of the table. */
  lemma OuterPaths(creator: Bytes, action: seq<Field>)
    ensures var tx := Transaction(creator, action);
            && Walkable(tx, [1, 2]) && Walkable(tx, [1, 1, 1, 1, 7, 2, 2])
            && Walkable(tx, TX_ACTION_PATH) && Descendant(tx, TX_ACTION_PATH) == Some(Message(1, action))
            && Walkable(tx, [1, 1, 1, 2, 1]) && Descendant(tx, [1, 1, 1, 2, 1]) == Some(Blob(1, creator))
  {
    var data := [Message(1, action)];
    var header := [Message(2, [Blob(1, creator)])];
    var payload := [Header(creator), Message(2, data)];
    var envelope := [Message(1, payload)];
    var tx := [Message(1, envelope)];
    assert payload[1..] == [Message(2, data)];
    WalkDownOne(tx, [1, 2], envelope);
    WalkDownOne(payload, [1, 1, 7, 2, 2], header);
    WalkDownOne(envelope, [1, 1, 1, 7, 2, 2], payload);
    WalkDownOne(tx, [1, 1, 1, 1, 7, 2, 2], envelope);
    WalkDownOne(header, [2, 1], [Blob(1, creator)]);
    WalkDownOne(payload, [1, 2, 1], header);
    WalkDownOne(envelope, [1, 1, 2, 1], payload);
    WalkDownOne(tx, [1, 1, 1, 2, 1], envelope);
    WalkDownOne(payload, [2, 1], data);
    WalkDownOne(envelope, [1, 2, 1], payload);
    WalkDownOne(tx, TX_ACTION_PATH, envelope);
  }

  lemma InnerPaths(creator: Bytes, endorsement: Field, payloadFirst: bool)
    requires endorsement.num == 2
    ensures var tx := Transaction(creator, ActionFields(creator, endorsement, payloadFirst));
            && Resolves(tx, INFO_LIST[4].path) && Walkable(tx, INFO_LIST[5].path) && Walkable(tx, INFO_LIST[6].path)
            && Walkable(tx, ACTION_PATH) && Descendant(tx, ACTION_PATH) == Some(Message(2, [endorsement]))
            && Resolves(tx, ENDORSER_PATH)
  {
    var action := ActionFields(creator, endorsement, payloadFirst);
    ActionPaths(creator, endorsement, payloadFirst);
    assert TX_ACTION_PATH + [1, 1] == INFO_LIST[4].path;
    IntoAction(creator, action, [1, 1]);
    assert TX_ACTION_PATH + [2, 1] == INFO_LIST[5].path;
    IntoAction(creator, action, [2, 1]);
    assert TX_ACTION_PATH + [2, 2] == ACTION_PATH;
    IntoAction(creator, action, [2, 2]);
    assert TX_ACTION_PATH + [2, 2, 2] == ENDORSER_PATH;
    IntoAction(creator, action, [2, 2, 2]);
    assert TX_ACTION_PATH + [2, 2, 1, 2, 1] == INFO_LIST[6].path;
    IntoAction(creator, action, [2, 2, 1, 2, 1]);
  }

  lemma AllPaths(creator: Bytes, endorsement: Field, payloadFirst: bool)
    requires endorsement.num == 2
    ensures var tx := Transaction(creator, ActionFields(creator, endorsement, payloadFirst));
            && (forall t | 0 <= t < 10 :: Walkable(tx, INFO_LIST[t].path))
            && Resolves(tx, ENDORSER_PATH) && Endorsements(tx) == [endorsement]
            && Resolves(tx, INFO_LIST[2].path) && Resolves(tx, INFO_LIST[4].path) && Walkable(tx, ACTION_PATH)
  {
    InnerPaths(creator, endorsement, payloadFirst);
    OuterPaths(creator, ActionFields(creator, endorsement, payloadFirst));
  }

  lemma FieldSize(f: Field, n: nat)
    requires f.num < 16 && !f.Number? && |Content(f)| <= n < 16384
    ensures |EncodeField(f)| <= n + 3
  {
    HeadLength(f);
    VarintSize(8 * f.num + WireType(f));
    VarintSize(|Content(f)|);
  }

  lemma OneSize(f: Field, num: nat, n: nat)
    requires num < 16 && f.num < 16 && !f.Number? && |Content(f)| <= n < 16384 - 3
    ensures |Content(Message(num, [f]))| <= n + 3
  {
    FieldSize(f, n);
    EncodeOne(f);
  }

  lemma PairSize(num: nat, f: Field, g: Field, n: nat, k: nat)
    requires f.num < 16 && !f.Number? && |Content(f)| <= n < 16384 && g.num < 16 && !g.Number?
             && |Content(g)| <= k < 16384
    ensures |Content(Message(num, [f, g]))| <= n + k + 6
  {
    FieldSize(f, n);
    FieldSize(g, k);
    PairContent(Message(num, [f, g]), f, g);
  }

  lemma TransactionSize(creator: Bytes, identity: Bytes, signature: Bytes, payloadFirst: bool)
    requires |creator| <= 4000 && |identity| <= 4000 && |signature| <= 200
    ensures var action := ActionFields(creator, Endorsement(identity, signature), payloadFirst);
            |Encode(Transaction(creator, action))| < 16384
  {
    var e := Endorsement(identity, signature);
    var action := ActionFields(creator, e, payloadFirst);
    PairSize(2, Blob(1, identity), Blob(2, signature), 4000, 200);
    OneSize(e, 2, 4206);
    OneSize(Message(2, [e]), 2, 4209);
    OneSize(Blob(1, creator), 1, 4000);
    PairSize(1, action[0], action[1], if payloadFirst then 4212 else 4003, if payloadFirst then 4003 else 4212);
    assert action == [action[0], action[1]];
    OneSize(Message(1, action), 2, 8221);
    OneSize(Blob(1, creator), 2, 4000);
    OneSize(Message(2, [Blob(1, creator)]), 1, 4003);
    PairSize(1, Header(creator), Message(2, [Message(1, action)]), 4006, 8224);
    OneSize(Message(1, [Header(creator), Message(2, [Message(1, action)])]), 1, 12236);
    FieldSize(Transaction(creator, action)[0], 12239);
    EncodeOne(Transaction(creator, action)[0]);
  }

  lemma SmallOne(f: Field)
    requires SmallNum(f) && (f.Message? ==> SmallNums(f.fields))
    ensures SmallNums([f])
  {
  }

  lemma SmallTwo(f: Field, g: Field)
    requires SmallNum(f) && (f.Message? ==> SmallNums(f.fields)) && SmallNum(g) && (g.Message? ==> SmallNums(g.fields))
    ensures SmallNums([f, g])
  {
  }

  lemma TransactionSmall(creator: Bytes, identity: Bytes, signature: Bytes, payloadFirst: bool)
    ensures var e := Endorsement(identity, signature);
            IsEndorsement(e) && SmallNums(Transaction(creator, ActionFields(creator, e, payloadFirst)))
  {
    var e := Endorsement(identity, signature);
    var action := ActionFields(creator, e, payloadFirst);
    SmallTwo(Blob(1, identity), Blob(2, signature));
    SmallOne(e);
    SmallOne(Message(2, [e]));
    SmallOne(Blob(1, creator));
    SmallTwo(action[0], action[1]);
    SmallOne(Message(1, action));
    SmallOne(Message(2, [Blob(1, creator)]));
    var payload := [Header(creator), Message(2, [Message(1, action)])];
    SmallTwo(payload[0], payload[1]);
    SmallOne(Message(1, payload));
    SmallOne(Message(1, [Message(1, payload)]));
  }

  lemma SortedOne(f: Field)
    requires f.Message? ==> Sorted(f.fields)
    ensures Sorted([f])
  {
  }

  lemma SortedTwo(f: Field, g: Field)
    requires f.num <= g.num && (f.Message? ==> Sorted(f.fields)) && (g.Message? ==> Sorted(g.fields))
    ensures Sorted([f, g])
  {
  }

  lemma TransactionSorted(creator: Bytes, identity: Bytes, signature: Bytes)
    ensures Sorted(Transaction(creator, ActionFields(creator, Endorsement(identity, signature), false)))
  {
    var e := Endorsement(identity, signature);
    var action := ActionFields(creator, e, false);
    SortedTwo(Blob(1, identity), Blob(2, signature));
    SortedOne(e);
    SortedOne(Message(2, [e]));
    SortedOne(Blob(1, creator));
    SortedTwo(action[0], action[1]);
    SortedOne(Message(1, action));
    SortedOne(Message(2, [Blob(1, creator)]));
    var payload := [Header(creator), Message(2, [Message(1, action)])];
    SortedTwo(payload[0], payload[1]);
    SortedOne(Message(1, payload));
    SortedOne(Message(1, [Message(1, payload)]));
  }

  /** The same transaction in both orders of its action's fields: it can be sent exactly when
      the header comes first. */
  lemma SendableIffHeaderFirst(creator: Bytes, identity: Bytes, signature: Bytes, payloadFirst: bool, at: nat)
    requires |creator| <= 4000 && |identity| <= 4000 && |signature| <= 200
    ensures var tx := Transaction(creator, ActionFields(creator, Endorsement(identity, signature), payloadFirst));
            TxShape(tx, INFO_LIST) && (Sendable(tx, INFO_LIST, at) <==> !payloadFirst)
  {
    var e := Endorsement(identity, signature);
    var action := ActionFields(creator, e, payloadFirst);
    var tx := Transaction(creator, action);
    AllPaths(creator, e, payloadFirst);
    TransactionSmall(creator, identity, signature, payloadFirst);
    TransactionSize(creator, identity, signature, payloadFirst);
    ActionPaths(creator, e, payloadFirst);
    OuterPaths(creator, action);
    TheTableIsTable();
    if payloadFirst {
      PayloadFirstFails(tx, INFO_LIST, at);
    } else {
      TransactionSorted(creator, identity, signature);
      SortedSendable(tx, INFO_LIST, at);
    }
  }
}
