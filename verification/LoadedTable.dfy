/** The identity table as it is loaded from the configuration: which ids are in use, and when
    all of them fit the 16 bits of an annotation. */
module LoadedTable {
  import opened Common
  import opened CertificateCache
  import opened Packets

  const EMPTY := Maps(map[], map[])

  predicate IsTable(orgs: seq<Organization>) {
    |orgs| <= 16 && forall o | o in orgs :: IsOrganization(o)
  }

  // ---------- which insertions take effect ----------

  /** Insertions under ids that are all different. */
  predicate FreshInserts(ops: seq<Op>) {
    (forall op | op in ops :: op.Insert?) && forall a, b | 0 <= a < b < |ops| :: ops[a].id != ops[b].id
  }

  function IdentityOf(op: Op): Bytes
    requires op.Insert?
  {
    SerializeCertificate(op.name, op.ca)
  }

  /** The identity was inserted before, under a positive id. */
  predicate Known(ops: seq<Op>, identity: Bytes) {
    exists j | 0 <= j < |ops| :: ops[j].Insert? && ops[j].id > 0 && IdentityOf(ops[j]) == identity
  }

  predicate Repeats(ops: seq<Op>, k: nat)
    requires k < |ops| && ops[k].Insert?
  {
    Known(ops[..k], IdentityOf(ops[k]))
  }

  /** Some insertion under the id is not a repetition. */
  predicate Taken(ops: seq<Op>, id: int) {
    exists k | 0 <= k < |ops| :: ops[k].Insert? && ops[k].id == id && !Repeats(ops, k)
  }

  lemma FreshPrefix(ops: seq<Op>)
    requires FreshInserts(ops) && ops != []
    ensures FreshInserts(ops[..|ops| - 1]) && ops[|ops| - 1].Insert?
    ensures !Taken(ops[..|ops| - 1], ops[|ops| - 1].id)
  {
    var n := |ops| - 1;
    assert ops[n] in ops && forall op | op in ops[..n] :: op in ops;
  }

  lemma KnownNext(ops: seq<Op>, identity: Bytes)
    requires FreshInserts(ops) && ops != []
    ensures var e := ops[|ops| - 1];
            && e.Insert?
            && (Known(ops, identity) <==> Known(ops[..|ops| - 1], identity) || (e.id > 0 && IdentityOf(e) == identity))
  {
    var n := |ops| - 1;
    assert ops[n] in ops;
    if Known(ops[..n], identity) {
      var j :| 0 <= j < n && ops[..n][j].Insert? && ops[..n][j].id > 0 && IdentityOf(ops[..n][j]) == identity;
      assert ops[j].id > 0;
    }
    if Known(ops, identity) && !(ops[n].id > 0 && IdentityOf(ops[n]) == identity) {
      var j :| 0 <= j < |ops| && ops[j].Insert? && ops[j].id > 0 && IdentityOf(ops[j]) == identity;
      assert ops[..n][j] == ops[j];
    }
  }

  lemma TakenNext(ops: seq<Op>, id: int)
    requires FreshInserts(ops) && ops != []
    ensures var n := |ops| - 1;
            && ops[n].Insert?
            && (Taken(ops, id) <==> Taken(ops[..n], id) || (ops[n].id == id && !Repeats(ops, n)))
  {
    var n := |ops| - 1;
    assert ops[n] in ops;
    if Taken(ops[..n], id) {
      var k :| 0 <= k < n && ops[..n][k].Insert? && ops[..n][k].id == id && !Repeats(ops[..n], k);
      assert ops[..n][..k] == ops[..k];
      assert ops[k].id == id && !Repeats(ops, k);
    }
    if Taken(ops, id) && !(ops[n].id == id && !Repeats(ops, n)) {
      var k :| 0 <= k < |ops| && ops[k].Insert? && ops[k].id == id && !Repeats(ops, k);
      assert ops[..n][..k] == ops[..k] && ops[..n][k] == ops[k];
    }
  }

  lemma InsertEffect(m: Maps, e: Op, id: int, identity: Bytes)
    requires e.Insert? && e.id !in m.byId
    ensures id in Step(m, e).byId <==> id in m.byId || (e.id == id && m.IdOf(IdentityOf(e)) <= 0)
    ensures Step(m, e).IdOf(identity) > 0 <==> m.IdOf(identity) > 0 || (e.id > 0 && IdentityOf(e) == identity)
  {
  }

  /** After insertions under fresh ids, the ids in use are those of the insertions that repeat
      nothing, and the identities recognised are those inserted under a positive id. */
  lemma {:induction false} InsertedIds(ops: seq<Op>, id: int, identity: Bytes)
    requires FreshInserts(ops)
    ensures var m := Run(EMPTY, ops);
            && (id in m.byId <==> Taken(ops, id))
            && (m.IdOf(identity) > 0 <==> Known(ops, identity))
  {
    if ops != [] {
      var n := |ops| - 1;
      FreshPrefix(ops);
      KnownNext(ops, identity);
      TakenNext(ops, id);
      InsertedIds(ops[..n], id, identity);
      InsertedIds(ops[..n], ops[n].id, IdentityOf(ops[n]));
      InsertEffect(Run(EMPTY, ops[..n]), ops[n], id, identity);
    }
  }

  // ---------- the insertions of a configuration ----------

  /** The op inserts certificate i of organization `org`. */
  predicate Inserts(op: Op, o: Organization, org: nat, i: nat) {
    && |o.files| == |o.roleIds| && i < |o.roleIds| && o.files[i].Some?
    && op == Insert(GenerateId(UserId(o.roleIds, i), org, o.roleIds[i]), o.name, o.files[i].value)
  }

  predicate FromOrg(op: Op, o: Organization, org: nat, n: nat) {
    exists i | 0 <= i < n :: Inserts(op, o, org, i)
  }

  predicate FromTable(op: Op, orgs: seq<Organization>) {
    exists org | 0 <= org < |orgs| :: FromOrg(op, orgs[org], org, |orgs[org].roleIds|)
  }

  lemma OrgOf(op: Op, o: Organization, org: nat, i: nat)
    requires Inserts(op, o, org, i) && org < 16 && IsOrganization(o)
    ensures op.id >= 0 && op.id / 16 % 16 == org && op.id % 16 < 4
    ensures op.id >= 0x1_0000 <==> UserId(o.roleIds, i) >= 256
  {
    assert o.roleIds[i] in o.roleIds;
    IdDigits(UserId(o.roleIds, i), org, o.roleIds[i]);
  }

  lemma IdDigits(userId: nat, org: nat, role: nat)
    requires org < 16 && role < 4
    ensures var id := GenerateId(userId, org, role);
            id / 16 % 16 == org && id % 16 < 4 && (id >= 0x1_0000 <==> userId >= 256)
  {
    var id := GenerateId(userId, org, role);
    assert id / 16 == org + 16 * userId;
  }

  lemma DifferentCertificates(o: Organization, org: nat, i: nat, j: nat, a: Op, b: Op)
    requires org < 16 && IsOrganization(o) && i < j && Inserts(a, o, org, i) && Inserts(b, o, org, j)
    ensures a.id != b.id
  {
    assert o.roleIds[i] in o.roleIds && o.roleIds[j] in o.roleIds;
    if a.id == b.id {
      IdInjective(UserId(o.roleIds, i), org, o.roleIds[i], UserId(o.roleIds, j), org, o.roleIds[j]);
      CountGrows(o.roleIds, i, j);
    }
  }

  function CertOp(o: Organization, org: nat, i: nat): Op
    requires IsOrganization(o) && i < |o.roleIds| && o.files[i].Some?
  {
    Insert(GenerateId(UserId(o.roleIds, i), org, o.roleIds[i]), o.name, o.files[i].value)
  }

  /** One op for each readable certificate among the first n, under fresh ids. */
  predicate OrgFresh(ops: seq<Op>, o: Organization, org: nat, n: nat)
    requires IsOrganization(o) && n <= |o.roleIds|
  {
    && FreshInserts(ops) && (forall op | op in ops :: FromOrg(op, o, org, n))
    && (forall i | 0 <= i < n && o.files[i].Some? :: CertOp(o, org, i) in ops)
  }

  lemma FromOrgMore(op: Op, o: Organization, org: nat, n: nat)
    requires FromOrg(op, o, org, n)
    ensures FromOrg(op, o, org, n + 1)
  {
    var i :| 0 <= i < n && Inserts(op, o, org, i);
  }

  lemma OrgFreshNext(ops: seq<Op>, o: Organization, org: nat, n: nat)
    requires org < 16 && IsOrganization(o) && n < |o.roleIds| && OrgFresh(ops, o, org, n) && o.files[n].Some?
    ensures OrgFresh(ops + [CertOp(o, org, n)], o, org, n + 1)
  {
    var last := CertOp(o, org, n);
    assert Inserts(last, o, org, n);
    forall op | op in ops
      ensures op.id != last.id && FromOrg(op, o, org, n + 1)
    {
      FromOrgMore(op, o, org, n);
      var i :| 0 <= i < n && Inserts(op, o, org, i);
      DifferentCertificates(o, org, i, n, op, last);
    }
    AppendFresh(ops, [last]);
  }

  /** What an organization inserts. */
  lemma {:induction false} OrgInsertsFresh(o: Organization, org: nat, n: nat)
    requires org < 16 && IsOrganization(o) && n <= |o.roleIds|
    ensures OrgFresh(OrgInserts(org, o, n), o, org, n)
  {
    if n > 0 {
      var before := OrgInserts(org, o, n - 1);
      OrgInsertsFresh(o, org, n - 1);
      if o.files[n - 1].Some? {
        OrgFreshNext(before, o, org, n - 1);
      } else {
        forall op | op in before
          ensures FromOrg(op, o, org, n)
        {
          FromOrgMore(op, o, org, n - 1);
        }
        assert before + [] == before;
      }
    }
  }

  lemma AppendFresh(a: seq<Op>, b: seq<Op>)
    requires FreshInserts(a) && FreshInserts(b)
    requires forall x, y | x in a && y in b :: x.id != y.id
    ensures FreshInserts(a + b)
  {
    var c := a + b;
    forall i, j | 0 <= i < j < |c|
      ensures c[i].id != c[j].id
    {
      if i < |a| <= j {
        assert c[i] in a && c[j] in b;
      }
    }
  }

  lemma TableTail(orgs: seq<Organization>)
    requires IsTable(orgs) && orgs != []
    ensures IsTable(orgs[..|orgs| - 1]) && IsOrganization(orgs[|orgs| - 1])
  {
    assert forall o | o in orgs[..|orgs| - 1] :: o in orgs;
    assert orgs[|orgs| - 1] in orgs;
  }

  lemma {:induction false} AllInsertsFresh(orgs: seq<Organization>)
    requires IsTable(orgs)
    ensures FreshInserts(AllInserts(orgs))
    ensures forall op | op in AllInserts(orgs) :: FromTable(op, orgs)
  {
    if orgs != [] {
      var n := |orgs| - 1;
      var o := orgs[n];
      TableTail(orgs);
      AllInsertsFresh(orgs[..n]);
      OrgInsertsFresh(o, n, |o.roleIds|);
      var a, b := AllInserts(orgs[..n]), OrgInserts(n, o, |o.roleIds|);
      forall x | x in a
        ensures FromTable(x, orgs) && x.Insert? && x.id / 16 % 16 != n
      {
        var org :| 0 <= org < n && FromOrg(x, orgs[..n][org], org, |orgs[..n][org].roleIds|);
        assert FromOrg(x, orgs[org], org, |orgs[org].roleIds|) && orgs[org] in orgs;
        var i :| 0 <= i < |orgs[org].roleIds| && Inserts(x, orgs[org], org, i);
        OrgOf(x, orgs[org], org, i);
      }
      forall y | y in b
        ensures FromTable(y, orgs) && y.Insert? && y.id / 16 % 16 == n
      {
        assert FromOrg(y, orgs[n], n, |orgs[n].roleIds|);
        var i :| 0 <= i < |o.roleIds| && Inserts(y, o, n, i);
        OrgOf(y, o, n, i);
      }
      AppendFresh(a, b);
    }
  }

  lemma {:induction false} CertificateInserted(orgs: seq<Organization>, org: nat, i: nat)
    requires IsTable(orgs) && org < |orgs|
    requires IsOrganization(orgs[org]) && i < |orgs[org].roleIds| && orgs[org].files[i].Some?
    ensures CertOp(orgs[org], org, i) in AllInserts(orgs)
  {
    var n := |orgs| - 1;
    TableTail(orgs);
    if org == n {
      OrgInsertsFresh(orgs[n], n, |orgs[n].roleIds|);
    } else {
      CertificateInserted(orgs[..n], org, i);
    }
  }

  // ---------- when the ids fit ----------

  /** The ids of a loaded table all fit exactly when every certificate that would get an id of
      more than 16 bits repeats an earlier one. */
  lemma {:induction false} LoadedIdsFitIff(orgs: seq<Organization>)
    requires IsTable(orgs)
    ensures var ops := AllInserts(orgs);
            && FreshInserts(ops)
            && (IdsFit(Run(EMPTY, ops)) <==> forall k | 0 <= k < |ops| && ops[k].id >= 0x1_0000 :: Repeats(ops, k))
  {
    var ops, m := AllInserts(orgs), Run(EMPTY, AllInserts(orgs));
    AllInsertsFresh(orgs);
    if IdsFit(m) {
      forall k | 0 <= k < |ops| && ops[k].id >= 0x1_0000
        ensures Repeats(ops, k)
      {
        assert ops[k] in ops;
        InsertedIds(ops, ops[k].id, []);
      }
    }
    if forall k | 0 <= k < |ops| && ops[k].id >= 0x1_0000 :: Repeats(ops, k) {
      forall i | i in m.byId
        ensures 0 <= i < 0xFFFF
      {
        InsertedIds(ops, i, []);
        var k :| 0 <= k < |ops| && ops[k].Insert? && ops[k].id == i && !Repeats(ops, k);
        TableId(orgs, ops[k]);
      }
    }
  }

  lemma TableId(orgs: seq<Organization>, op: Op)
    requires IsTable(orgs) && FromTable(op, orgs)
    ensures op.id >= 0 && op.id != 0xFFFF
  {
    var org :| 0 <= org < |orgs| && FromOrg(op, orgs[org], org, |orgs[org].roleIds|);
    assert orgs[org] in orgs;
    var i :| 0 <= i < |orgs[org].roleIds| && Inserts(op, orgs[org], org, i);
    OrgOf(op, orgs[org], org, i);
  }

  /** No readable certificate is the 257th of its role in its organization, or a later one. */
  predicate FewPerRole(orgs: seq<Organization>)
    requires IsTable(orgs)
  {
    forall org | 0 <= org < |orgs| :: FewInOrg(orgs[org])
  }

  predicate FewInOrg(o: Organization) {
    |o.files| == |o.roleIds| && forall i | 0 <= i < |o.roleIds| && o.files[i].Some? :: UserId(o.roleIds, i) < 256
  }

  lemma FewMeansNarrow(orgs: seq<Organization>)
    requires IsTable(orgs)
    ensures FreshInserts(AllInserts(orgs))
    ensures FewPerRole(orgs) <==> forall op | op in AllInserts(orgs) :: op.id < 0x1_0000
  {
    AllInsertsFresh(orgs);
    if FewPerRole(orgs) {
      forall op | op in AllInserts(orgs)
        ensures op.id < 0x1_0000
      {
        var org :| 0 <= org < |orgs| && FromOrg(op, orgs[org], org, |orgs[org].roleIds|);
        assert orgs[org] in orgs && FewInOrg(orgs[org]);
        var i :| 0 <= i < |orgs[org].roleIds| && Inserts(op, orgs[org], org, i);
        OrgOf(op, orgs[org], org, i);
      }
    } else {
      var org :| 0 <= org < |orgs| && !FewInOrg(orgs[org]);
      assert orgs[org] in orgs;
      var i :| 0 <= i < |orgs[org].roleIds| && orgs[org].files[i].Some? && UserId(orgs[org].roleIds, i) >= 256;
      CertificateInserted(orgs, org, i);
      OrgOf(CertOp(orgs[org], org, i), orgs[org], org, i);
    }
  }

  /** With up to 256 readable certificates per role and organization every id fits; if no
      certificate appears twice, only then. */
  lemma {:induction false} LoadedIdsFitIffFew(orgs: seq<Organization>)
    requires IsTable(orgs)
    ensures var ops := AllInserts(orgs);
            && FreshInserts(ops)
            && (FewPerRole(orgs) ==> IdsFit(Run(EMPTY, ops)))
            && ((forall k | 0 <= k < |ops| :: !Repeats(ops, k)) ==> (IdsFit(Run(EMPTY, ops)) <==> FewPerRole(orgs)))
  {
    var ops := AllInserts(orgs);
    LoadedIdsFitIff(orgs);
    FewMeansNarrow(orgs);
    assert forall op | op in ops :: exists k | 0 <= k < |ops| :: ops[k] == op;
  }

  // ---------- an identity that comes back as another ----------

  function Zeros(n: nat): (r: seq<nat>)
    ensures |r| == n
  {
    seq(n, _ => 0)
  }

  /** 257 certificates of one role, of which the first and the last can be read. */
  function Crowded(name: Bytes, first: Bytes, last: Bytes): (o: Organization)
    ensures IsOrganization(o)
  {
    Organization(name, Zeros(257), seq(257, i => if i == 0 then Some(first) else if i == 256 then Some(last) else None))
  }

  lemma {:induction false} CountZeros(n: nat)
    ensures CountRole(Zeros(n), 0) == n
  {
    if n > 0 {
      CountZeros(n - 1);
      assert Zeros(n)[..n - 1] == Zeros(n - 1);
    }
  }

  lemma {:induction false} CrowdedInserts(name: Bytes, first: Bytes, last: Bytes, n: nat)
    requires 1 <= n <= 257
    ensures OrgInserts(0, Crowded(name, first, last), n)
            == if n < 257 then [Insert(0, name, first)] else [Insert(0, name, first), Insert(0x1_0000, name, last)]
  {
    var o := Crowded(name, first, last);
    CrowdedCertificate(name, first, last, n - 1);
    if n > 1 {
      CrowdedInserts(name, first, last, n - 1);
    }
    OneMore(0, o, n);
  }

  lemma OneMore(org: nat, o: Organization, n: nat)
    requires IsOrganization(o) && 0 < n <= |o.roleIds|
    ensures OrgInserts(org, o, n)
            == OrgInserts(org, o, n - 1)
               + CertInserts(o, n - 1, GenerateId(UserId(o.roleIds, n - 1), org, o.roleIds[n - 1]))
    ensures n == 1 ==> OrgInserts(org, o, n - 1) == []
  {
  }

  lemma CrowdedCertificate(name: Bytes, first: Bytes, last: Bytes, i: nat)
    requires i < 257
    ensures var o := Crowded(name, first, last);
            CertInserts(o, i, GenerateId(UserId(o.roleIds, i), 0, o.roleIds[i]))
            == if i == 0 then [Insert(0, name, first)] else if i == 256 then [Insert(0x1_0000, name, last)] else []
  {
    var o := Crowded(name, first, last);
    assert o.roleIds[..i] == Zeros(i);
    CountZeros(i);
  }

  /** The last of them is cached under id 65536. A packet that holds nothing but its identity
      is sent with id 0 and comes back as the identity of the first. */
  lemma {:induction false} CrowdedAliases(name: Bytes, first: Bytes, last: Bytes)
    requires var region := SerializeCertificate(name, last);
             region != SerializeCertificate(name, first) && |region| < 0x1_0000
    ensures var m, region := Run(EMPTY, AllInserts([Crowded(name, first, last)])), SerializeCertificate(name, last);
            var anns := [Annotation(LOCATOR, 0, |region|)];
            && m.Bijective() && InPacket(anns, |region|) && WellPlaced(anns, 0, |region|) && AllCached(region, anns, m)
            && Rebuild(Strip(region, anns, 0), Corrected(region, anns, m), m, 0)
               == Some(SerializeCertificate(name, first))
  {
    var region := SerializeCertificate(name, last);
    var anns := [Annotation(LOCATOR, 0, |region|)];
    var m := Run(EMPTY, AllInserts([Crowded(name, first, last)]));
    CrowdedTable(name, first, last);
    TwoInserts(name, first, last);
    assert Slice(region, anns[0]) == region;
    RebuildsRestored(region, anns, m);
    AliasRestored(region, anns, m);
  }

  lemma CrowdedTable(name: Bytes, first: Bytes, last: Bytes)
    ensures AllInserts([Crowded(name, first, last)]) == [Insert(0, name, first), Insert(0x1_0000, name, last)]
  {
    var o := Crowded(name, first, last);
    CrowdedInserts(name, first, last, 257);
    assert [o][..0] == [] && AllInserts([o][..0]) == [];
    assert [] + OrgInserts(0, o, 257) == OrgInserts(0, o, 257);
  }

  /** A packet that is one annotated identity comes back as what its id names. */
  lemma AliasRestored(region: Bytes, anns: seq<Annotation>, m: Maps)
    requires |region| < 0x1_0000 && anns == [Annotation(LOCATOR, 0, |region|)]
    ensures WellPlaced(anns, 0, |region|) && Restored(region, anns, m, 0) == ComesBackAs(m, region)
  {
    assert anns[1..] == [] && Slice(region, anns[0]) == region;
    assert region[0..0] == [] && region[|region|..] == [];
    assert Restored(region, anns[1..], m, |region|) == [];
    assert [] + ComesBackAs(m, region) + [] == ComesBackAs(m, region);
  }

  lemma TwoInserts(name: Bytes, first: Bytes, last: Bytes)
    requires SerializeCertificate(name, first) != SerializeCertificate(name, last)
    ensures var m := Run(EMPTY, [Insert(0, name, first), Insert(0x1_0000, name, last)]);
            && m.Bijective() && m.IdOf(SerializeCertificate(name, last)) == 0x1_0000
            && SerializeCertificate(name, last) in m.byData && m.ById(0) == SerializeCertificate(name, first)
  {
    var a, b := Insert(0, name, first), Insert(0x1_0000, name, last);
    RunPush(EMPTY, [], a);
    RunPush(EMPTY, [a], b);
    assert [] + [a] == [a] && [a] + [b] == [a, b];
    assert Run(EMPTY, [a, b]) == Step(Step(EMPTY, a), b);
  }
}
