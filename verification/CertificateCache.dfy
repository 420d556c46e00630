/** The identity cache: two maps, from serialized identity and from id, kept by
    insert and remove, and the ids that the configuration file gives out. */
module CertificateCache {
  import opened Common
  import opened Wire

  datatype CertificateInfo = CertificateInfo(id: int, name: Bytes, ca: Bytes, identity: Bytes)

  /** uint8 conversion */
  function U8(x: nat): byte {
    (x % 256) as byte
  }

  function SerializeCertificate(name: Bytes, ca: Bytes): Bytes {
    [0x0a, U8(|name|)] + name + [0x12, Continued(|ca|), U8(|ca| / 128)] + ca
  }

  function ProtoIdentity(name: Bytes, ca: Bytes): Bytes {
    Encode([Blob(1, name), Blob(2, ca)])
  }

  lemma EncodeTwo(a: Field, b: Field)
    ensures Encode([a, b]) == EncodeField(a) + EncodeField(b)
  {
    assert [a, b][1..] == [b] && [b][1..] == [];
    assert Encode([b]) == EncodeField(b) + Encode([]);
  }

  lemma BlobBytes(num: nat, payload: Bytes)
    ensures EncodeField(Blob(num, payload)) == Varint(8 * num + 2) + Varint(|payload|) + payload
  {
    var f := Blob(num, payload);
    assert Content(f) == payload;
    assert Head(f) == Varint(8 * num + 2) + Varint(|payload|);
  }

  lemma JoinParts(a: Bytes, b: Bytes, c: Bytes, d: Bytes, e: Bytes, f: Bytes)
    ensures (a + b + c) + (d + e + f) == a + b + c + d + e + f
  {
  }

  lemma ProtoIdentityBytes(name: Bytes, ca: Bytes)
    ensures ProtoIdentity(name, ca) == [0x0a] + Varint(|name|) + name + [0x12] + Varint(|ca|) + ca
  {
    EncodeTwo(Blob(1, name), Blob(2, ca));
    BlobBytes(1, name);
    BlobBytes(2, ca);
    VarintSize(10);
    VarintSize(18);
    JoinParts(Varint(10), Varint(|name|), name, Varint(18), Varint(|ca|), ca);
  }

  /** Two ways to lay out the same tail, one a byte later than the other. */
  lemma ShiftedTailDiffers(name: Bytes, ca: Bytes, v: Bytes, w: Bytes)
    requires |v| == 2 && |name| > 0
    ensures [0x0a, U8(|name|)] + name + [0x12, Continued(|ca|), U8(|ca| / 128)] + ca
            != [0x0a] + v + name + [0x12] + w + ca
  {
    var n := |name|;
    var ours := [0x0a, U8(n)] + name + [0x12, Continued(|ca|), U8(|ca| / 128)] + ca;
    var theirs := [0x0a] + v + name + [0x12] + w + ca;
    assert ours[3 + n] == Continued(|ca|) >= 128;
    assert theirs[3 + n] == 0x12;
  }

  /** A name of 128 bytes or more shifts everything behind it; no choice of name and
      certificate hides that. */
  lemma LongNameDiffers(name: Bytes, ca: Bytes)
    requires |name| >= 128
    ensures SerializeCertificate(name, ca) != ProtoIdentity(name, ca)
  {
    ProtoIdentityBytes(name, ca);
    VarintSize(|name|);
    if |Varint(|name|)| == 2 {
      ShiftedTailDiffers(name, ca, Varint(|name|), Varint(|ca|));
    } else {
      assert |SerializeCertificate(name, ca)| == 5 + |name| + |ca|;
      assert |ProtoIdentity(name, ca)| == 2 + |Varint(|name|)| + |Varint(|ca|)| + |name| + |ca|;
    }
  }

  /** serializeCertificate produces the protobuf encoding of the identity, the one the
      block carries, exactly for short names and certificates of 128 to 16383 bytes. */
  lemma SerializesIdentityIff(name: Bytes, ca: Bytes)
    ensures SerializeCertificate(name, ca) == ProtoIdentity(name, ca) <==> |name| < 128 && 128 <= |ca| < 16384
  {
    var ours, theirs := SerializeCertificate(name, ca), ProtoIdentity(name, ca);
    if |name| >= 128 {
      LongNameDiffers(name, ca);
    } else {
      ProtoIdentityBytes(name, ca);
      VarintSize(|name|);
      VarintSize(|ca|);
      assert |ours| == 5 + |name| + |ca|;
      assert |theirs| == 3 + |Varint(|ca|)| + |name| + |ca|;
      if 128 <= |ca| < 16384 {
        assert U8(|ca| / 128) == (|ca| / 128) as byte;
        assert ours == theirs;
      } else {
        assert |Varint(|ca|)| != 2;
      }
    }
  }

  /** The bytes that give the lengths. */
  lemma LengthBytes(name: Bytes, ca: Bytes, x: Bytes)
    requires |name| < 256 && |ca| < 0x8000
    ensures var u, n := SerializeCertificate(name, ca) + x, |name|;
            && |u| == 5 + n + |ca| + |x| && u[1] as nat == n
            && u[3 + n] as nat == |ca| % 128 + 128 && u[4 + n] as nat == |ca| / 128
  {
    var u, n := SerializeCertificate(name, ca), |name|;
    assert u[1] == U8(n) && u[3 + n] == Continued(|ca|) && u[4 + n] == U8(|ca| / 128);
    assert (u + x)[1] == u[1] && (u + x)[3 + n] == u[3 + n] && (u + x)[4 + n] == u[4 + n];
  }

  /** No serialized identity is the beginning of another. */
  lemma IdentitiesApart(name: Bytes, ca: Bytes, name': Bytes, ca': Bytes, x: Bytes, y: Bytes)
    requires |name| < 256 && |name'| < 256 && |ca| < 0x8000 && |ca'| < 0x8000
    requires SerializeCertificate(name, ca) + x == SerializeCertificate(name', ca') + y
    ensures SerializeCertificate(name, ca) == SerializeCertificate(name', ca') && x == y
  {
    LengthBytes(name, ca, x);
    LengthBytes(name', ca', y);
    SameLengthParts(SerializeCertificate(name, ca), SerializeCertificate(name', ca'), x, y);
  }

  lemma SameLengthParts(u: Bytes, v: Bytes, x: Bytes, y: Bytes)
    requires u + x == v + y && |u| == |v|
    ensures u == v && x == y
  {
    assert u == (u + x)[..|u|] && v == (v + y)[..|v|];
    assert x == (u + x)[|u|..] && y == (v + y)[|v|..];
  }

  // ---------- the two maps ----------

  datatype Maps = Maps(byData: map<Bytes, CertificateInfo>, byId: map<int, CertificateInfo>) {
    /** getCertificateId: -1 if the identity is not cached. */
    function IdOf(identity: Bytes): int {
      if identity in byData then byData[identity].id else -1
    }

    /** getCertificateById: empty if the id is not in use. */
    function ById(id: int): Bytes {
      if id in byId then byId[id].identity else []
    }

    /** What a lookup by data finds, a lookup by id undoes. */
    predicate Consistent() {
      && (forall k | k in byData :: byData[k].identity == k && byData[k].id in byId && byId[byData[k].id].identity == k)
      && (forall i | i in byId :: byId[i].id == i && byId[i].identity == SerializeCertificate(byId[i].name, byId[i].ca))
    }

    /** The two maps are mutually inverse. */
    predicate Bijective() {
      Consistent() && forall i | i in byId :: byId[i].identity in byData && byData[byId[i].identity].id == i
    }
  }

  function Inserted(m: Maps, id: int, name: Bytes, ca: Bytes): (Maps, int) {
    var identity := SerializeCertificate(name, ca);
    if id in m.byId || m.IdOf(identity) > 0 then (m, -1)
    else
      var info := CertificateInfo(id, name, ca, identity);
      (Maps(m.byData[identity := info], m.byId[id := info]), 0)
  }

  function Removed(m: Maps, id: int): Maps {
    Maps(m.byData - {m.ById(id)}, m.byId - {id})
  }

  class Cache {
    var byData: map<Bytes, CertificateInfo>
    var byId: map<int, CertificateInfo>

    constructor ()
      ensures State() == Maps(map[], map[])
    {
      byData, byId := map[], map[];
    }

    function State(): Maps
      reads this
    {
      Maps(byData, byId)
    }

    method InsertCertificate(id: int, name: Bytes, ca: Bytes) returns (res: int)
      modifies this
      ensures (State(), res) == Inserted(old(State()), id, name, ca)
    {
      if id in byId {
        return -1;
      }
      var sk := SerializeCertificate(name, ca);
      var k := State().IdOf(sk);
      if k > 0 {
        return -1;
      }
      byData := byData[sk := CertificateInfo(id, name, ca, sk)];
      byId := byId[id := CertificateInfo(id, name, ca, sk)];
      return 0;
    }

    method RemoveCertificateFromCache(id: int)
      modifies this
      ensures State() == Removed(old(State()), id)
    {
      var k := State().ById(id);
      byId := byId - {id};
      byData := byData - {k};
    }
  }

  lemma InsertKeepsConsistent(m: Maps, id: int, name: Bytes, ca: Bytes)
    requires m.Consistent()
    ensures Inserted(m, id, name, ca).0.Consistent()
  {
  }

  lemma RemoveKeepsConsistent(m: Maps, id: int)
    requires m.Consistent()
    ensures Removed(m, id).Consistent()
    ensures m.Bijective() ==> Removed(m, id).Bijective()
  {
    if id in m.byId {
      var k := m.byId[id].identity;
      forall j | j in m.byData && j != k
        ensures m.byData[j].id != id
      {
      }
    } else {
      forall k | k in m.byData
        ensures k != []
      {
        assert m.byId[m.byData[k].id].identity == k;
      }
    }
  }

  /** An insertion breaks the inverse exactly when it succeeds for an identity that is
      already cached under an id that is not positive: such an entry is not recognised. */
  lemma InsertKeepsBijectiveIff(m: Maps, id: int, name: Bytes, ca: Bytes)
    requires m.Bijective()
    ensures Inserted(m, id, name, ca).0.Bijective() <==>
            !(id !in m.byId && SerializeCertificate(name, ca) in m.byData
              && m.IdOf(SerializeCertificate(name, ca)) <= 0)
  {
    var m', identity := Inserted(m, id, name, ca).0, SerializeCertificate(name, ca);
    InsertKeepsConsistent(m, id, name, ca);
    if id !in m.byId && identity in m.byData && m.IdOf(identity) <= 0 {
      var other := m.byData[identity].id;
      assert other in m'.byId && m'.byId[other].identity == identity && m'.IdOf(identity) == id != other;
    }
  }

  datatype Op = Insert(id: int, name: Bytes, ca: Bytes) | Remove(id: int)

  function Step(m: Maps, op: Op): Maps {
    match op
    case Insert(id, name, ca) => Inserted(m, id, name, ca).0
    case Remove(id) => Removed(m, id)
  }

  function Run(m: Maps, ops: seq<Op>): Maps {
    if ops == [] then m else Step(Run(m, ops[..|ops| - 1]), ops[|ops| - 1])
  }

  /** Over every sequence of insertions and removals a cached identity can be fetched back
      by its id; if all ids are positive the maps stay mutually inverse. */
  lemma {:induction false} EveryRunConsistent(m: Maps, ops: seq<Op>)
    requires m.Consistent()
    ensures Run(m, ops).Consistent()
    ensures m.Bijective() && (forall i | i in m.byId :: i > 0)
            && (forall op | op in ops :: op.Insert? ==> op.id > 0) ==>
              Run(m, ops).Bijective() && forall i | i in Run(m, ops).byId :: i > 0
  {
    if ops != [] {
      var before := ops[..|ops| - 1];
      EveryRunConsistent(m, before);
      assert forall op | op in before :: op in ops;
      match ops[|ops| - 1]
      case Insert(id, name, ca) =>
        InsertKeepsConsistent(Run(m, before), id, name, ca);
        if Run(m, before).Bijective() {
          InsertKeepsBijectiveIff(Run(m, before), id, name, ca);
        }
      case Remove(id) =>
        RemoveKeepsConsistent(Run(m, before), id);
    }
  }

  lemma RunPush(m: Maps, ops: seq<Op>, op: Op)
    ensures Run(m, ops + [op]) == Step(Run(m, ops), op)
  {
    assert (ops + [op])[..|ops|] == ops;
  }

  lemma {:induction false} RunConcat(m: Maps, a: seq<Op>, b: seq<Op>)
    ensures Run(m, a + b) == Run(Run(m, a), b)
  {
    if b == [] {
      assert a + b == a;
    } else {
      RunConcat(m, a, b[..|b| - 1]);
      RunPush(m, a + b[..|b| - 1], b[|b| - 1]);
      assert a + b == a + b[..|b| - 1] + [b[|b| - 1]];
    }
  }

  // ---------- ids from the configuration file ----------

  function GenerateId(userId: nat, orgId: nat, role: nat): nat {
    role + 16 * orgId + 256 * userId
  }

  /** The certificates of an organization in the configuration: the index of each one's role,
      0 for an unknown one, and the bytes of its file, None if it cannot be read. */
  datatype Organization = Organization(name: Bytes, roleIds: seq<nat>, files: seq<Option<Bytes>>)

  /** Four roles at most are known. */
  predicate IsOrganization(o: Organization) {
    |o.files| == |o.roleIds| && forall r | r in o.roleIds :: r < 4
  }

  /** Certificates of the same organization and role that come before certificate i. */
  function UserId(roleIds: seq<nat>, i: nat): nat
    requires i < |roleIds|
  {
    CountRole(roleIds[..i], roleIds[i])
  }

  function CountRole(roleIds: seq<nat>, role: nat): nat {
    if roleIds == [] then 0
    else CountRole(roleIds[..|roleIds| - 1], role) + if roleIds[|roleIds| - 1] == role then 1 else 0
  }

  function OrgIds(org: nat, roleIds: seq<nat>): seq<nat> {
    seq(|roleIds|, i requires 0 <= i < |roleIds| => GenerateId(UserId(roleIds, i), org, roleIds[i]))
  }

  function AllIds(orgs: seq<Organization>): seq<nat> {
    if orgs == [] then []
    else AllIds(orgs[..|orgs| - 1]) + OrgIds(|orgs| - 1, orgs[|orgs| - 1].roleIds)
  }

  /** What the first n certificates of organization `org` put into the cache. */
  function OrgInserts(org: nat, o: Organization, n: nat): seq<Op>
    requires IsOrganization(o) && n <= |o.roleIds|
  {
    if n == 0 then []
    else OrgInserts(org, o, n - 1) + CertInserts(o, n - 1, GenerateId(UserId(o.roleIds, n - 1), org, o.roleIds[n - 1]))
  }

  function CertInserts(o: Organization, i: nat, id: nat): seq<Op>
    requires i < |o.files|
  {
    if o.files[i].None? then [] else [Insert(id, o.name, o.files[i].value)]
  }

  function AllInserts(orgs: seq<Organization>): seq<Op>
    requires forall o | o in orgs :: IsOrganization(o)
  {
    if orgs == [] then []
    else
      var n := |orgs| - 1;
      assert orgs[n] in orgs && forall o | o in orgs[..n] :: o in orgs;
      AllInserts(orgs[..n]) + OrgInserts(n, orgs[n], |orgs[n].roleIds|)
  }

  /** installCertificateFile */
  method InstallCertificateFile(cache: Cache, file: Option<Bytes>, id: nat, name: Bytes) returns (ret: int)
    modifies cache
    ensures cache.State()
            == if file.None? then old(cache.State()) else Step(old(cache.State()), Insert(id, name, file.value))
    ensures ret == if file.None? then -1 else Inserted(old(cache.State()), id, name, file.value).1
  {
    if file.None? {
      return -1;
    }
    ret := cache.InsertCertificate(id, name, file.value);
  }

  /** Certificate i of an organization, its number among those of its role being `userId`. */
  method InstallNth(cache: Cache, orgId: nat, o: Organization, i: nat, userId: nat, ghost m: Maps) returns (id: nat)
    requires IsOrganization(o) && i < |o.roleIds| && userId == UserId(o.roleIds, i)
    requires cache.State() == Run(m, OrgInserts(orgId, o, i))
    modifies cache
    ensures id == OrgIds(orgId, o.roleIds)[i]
    ensures cache.State() == Run(m, OrgInserts(orgId, o, i + 1))
  {
    id := GenerateId(userId, orgId, o.roleIds[i]);
    InsertsNext(m, orgId, o, i);
    var ret := InstallCertificateFile(cache, o.files[i], id, o.name);
  }

  /** The counts of each role among the first i certificates. */
  predicate Counts(record: seq<nat>, roleIds: seq<nat>, i: nat) {
    |record| == 4 && i <= |roleIds| && forall r | 0 <= r < 4 :: record[r] == CountRole(roleIds[..i], r)
  }

  lemma CountsNext(record: seq<nat>, roleIds: seq<nat>, i: nat)
    requires Counts(record, roleIds, i) && i < |roleIds| && roleIds[i] < 4
    ensures record[roleIds[i]] == UserId(roleIds, i)
    ensures Counts(record[roleIds[i] := record[roleIds[i]] + 1], roleIds, i + 1)
  {
    assert roleIds[..i + 1][..i] == roleIds[..i];
  }

  /** user_id_record[role_id]++ */
  method CountOne(record: array<nat>, roleId: nat, ghost roleIds: seq<nat>, ghost i: nat)
    requires Counts(record[..], roleIds, i) && i < |roleIds| && roleId == roleIds[i] < 4
    modifies record
    ensures Counts(record[..], roleIds, i + 1)
  {
    ghost var counts := record[..];
    CountsNext(counts, roleIds, i);
    record[roleId] := record[roleId] + 1;
    assert record[..] == counts[roleId := counts[roleId] + 1];
  }

  /** One turn of the loop over the certificates. */
  method LoadNext(cache: Cache, orgId: nat, o: Organization, i: nat, record: array<nat>, ghost m: Maps)
    returns (id: nat)
    requires IsOrganization(o) && i < |o.roleIds| && Counts(record[..], o.roleIds, i)
    requires cache.State() == Run(m, OrgInserts(orgId, o, i))
    modifies cache, record
    ensures id == OrgIds(orgId, o.roleIds)[i] && Counts(record[..], o.roleIds, i + 1)
    ensures cache.State() == Run(m, OrgInserts(orgId, o, i + 1))
  {
    var roleId := o.roleIds[i];
    assert roleId in o.roleIds;
    CountsNext(record[..], o.roleIds, i);
    id := InstallNth(cache, orgId, o, i, record[roleId], m);
    CountOne(record, roleId, o.roleIds, i);
  }

  lemma IdsNext(ids: seq<nat>, all: seq<nat>, i: nat)
    requires i < |all| && ids == all[..i]
    ensures ids + [all[i]] == all[..i + 1]
  {
  }

  /** The certificates of one organization; user_id_record counts those of each role. */
  method LoadOrganization(cache: Cache, orgId: nat, o: Organization) returns (ids: seq<nat>)
    requires IsOrganization(o)
    modifies cache
    ensures ids == OrgIds(orgId, o.roleIds)
    ensures cache.State() == Run(old(cache.State()), OrgInserts(orgId, o, |o.roleIds|))
  {
    ghost var m, all := cache.State(), OrgIds(orgId, o.roleIds);
    ids := [];
    var record := new nat[4](_ => 0);
    for i := 0 to |o.roleIds|
      invariant Counts(record[..], o.roleIds, i) && ids == all[..i]
      invariant cache.State() == Run(m, OrgInserts(orgId, o, i))
    {
      var id := LoadNext(cache, orgId, o, i, record, m);
      IdsNext(ids, all, i);
      ids := ids + [id];
    }
  }

  lemma InsertsNext(m: Maps, org: nat, o: Organization, i: nat)
    requires IsOrganization(o) && i < |o.roleIds|
    ensures var before, id := Run(m, OrgInserts(org, o, i)), GenerateId(UserId(o.roleIds, i), org, o.roleIds[i]);
            Run(m, OrgInserts(org, o, i + 1))
            == if o.files[i].None? then before else Step(before, Insert(id, o.name, o.files[i].value))
  {
    var ops, id := OrgInserts(org, o, i), GenerateId(UserId(o.roleIds, i), org, o.roleIds[i]);
    if o.files[i].Some? {
      RunPush(m, ops, Insert(id, o.name, o.files[i].value));
    } else {
      assert ops + [] == ops;
    }
  }

  /** loadIdentityTable: the ids handed out, in order, and the cache after all installations. */
  method LoadIdentityTable(cache: Cache, orgs: seq<Organization>) returns (ids: seq<nat>)
    requires forall o | o in orgs :: IsOrganization(o)
    modifies cache
    ensures ids == AllIds(orgs)
    ensures cache.State() == Run(old(cache.State()), AllInserts(orgs))
  {
    ghost var m := cache.State();
    ids := [];
    for orgId := 0 to |orgs|
      invariant forall o | o in orgs[..orgId] :: IsOrganization(o)
      invariant ids == AllIds(orgs[..orgId])
      invariant cache.State() == Run(m, AllInserts(orgs[..orgId]))
    {
      assert orgs[orgId] in orgs;
      var loaded := LoadOrganization(cache, orgId, orgs[orgId]);
      ids := ids + loaded;
      assert forall o | o in orgs[..orgId + 1] :: o in orgs;
      RunConcat(m, AllInserts(orgs[..orgId]), OrgInserts(orgId, orgs[orgId], |orgs[orgId].roleIds|));
      assert orgs[..orgId + 1][..orgId] == orgs[..orgId];
    }
    assert orgs[..|orgs|] == orgs;
  }

  /** A table loaded into an empty cache: whatever identity is cached, its id leads back to it. */
  lemma {:induction false} LoadedIdsLeadBack(orgs: seq<Organization>, identity: Bytes)
    requires forall o | o in orgs :: IsOrganization(o)
    ensures var m := Run(Maps(map[], map[]), AllInserts(orgs));
            identity in m.byData ==> m.ById(m.IdOf(identity)) == identity
  {
    EveryRunConsistent(Maps(map[], map[]), AllInserts(orgs));
  }

  lemma {:induction false} CountGrows(roleIds: seq<nat>, i: nat, j: nat)
    requires i < j < |roleIds| && roleIds[i] == roleIds[j]
    ensures UserId(roleIds, i) < UserId(roleIds, j)
    decreases j
  {
    var role := roleIds[i];
    assert roleIds[..j][..j - 1] == roleIds[..j - 1];
    if i < j - 1 {
      CountMonotone(roleIds, role, i + 1, j);
      assert roleIds[..i + 1][..i] == roleIds[..i];
    }
  }

  lemma {:induction false} CountMonotone(roleIds: seq<nat>, role: nat, i: nat, j: nat)
    requires i <= j <= |roleIds|
    ensures CountRole(roleIds[..i], role) <= CountRole(roleIds[..j], role)
    decreases j
  {
    if i < j {
      CountMonotone(roleIds, role, i, j - 1);
      assert roleIds[..j][..j - 1] == roleIds[..j - 1];
    }
  }

  /** Which organization and certificate an entry of the id list belongs to. */
  lemma {:induction false} IdOrigin(orgs: seq<Organization>, k: nat) returns (org: nat, i: nat)
    requires k < |AllIds(orgs)|
    ensures org < |orgs| && i < |orgs[org].roleIds|
    ensures AllIds(orgs)[k] == GenerateId(UserId(orgs[org].roleIds, i), org, orgs[org].roleIds[i])
    ensures |AllIds(orgs[..org])| + i == k
  {
    var n := |orgs| - 1;
    if k < |AllIds(orgs[..n])| {
      org, i := IdOrigin(orgs[..n], k);
      assert orgs[..n][..org] == orgs[..org];
    } else {
      org, i := n, k - |AllIds(orgs[..n])|;
    }
  }

  lemma IdInjective(u: nat, o: nat, r: nat, u': nat, o': nat, r': nat)
    requires o < 16 && o' < 16 && r < 4 && r' < 4
    requires GenerateId(u, o, r) == GenerateId(u', o', r')
    ensures u == u' && o == o' && r == r'
  {
  }

  lemma IdParts(orgs: seq<Organization>, k: nat) returns (org: nat, i: nat)
    requires |orgs| <= 16 && forall o | o in orgs :: forall r | r in o.roleIds :: r < 4
    requires k < |AllIds(orgs)|
    ensures org < |orgs| && i < |orgs[org].roleIds| && orgs[org].roleIds[i] < 4
    ensures AllIds(orgs)[k] == GenerateId(UserId(orgs[org].roleIds, i), org, orgs[org].roleIds[i])
    ensures |AllIds(orgs[..org])| + i == k
  {
    org, i := IdOrigin(orgs, k);
    assert orgs[org] in orgs;
    assert orgs[org].roleIds[i] in orgs[org].roleIds;
  }

  /** For up to 16 organizations and 4 roles all ids handed out are different. */
  lemma IdsAreDistinct(orgs: seq<Organization>, a: nat, b: nat)
    requires |orgs| <= 16 && forall o | o in orgs :: forall r | r in o.roleIds :: r < 4
    requires a < b < |AllIds(orgs)|
    ensures AllIds(orgs)[a] != AllIds(orgs)[b]
  {
    var oa, i := IdParts(orgs, a);
    var ob, j := IdParts(orgs, b);
    if AllIds(orgs)[a] == AllIds(orgs)[b] {
      IdInjective(UserId(orgs[oa].roleIds, i), oa, orgs[oa].roleIds[i], UserId(orgs[ob].roleIds, j), ob,
                  orgs[ob].roleIds[j]);
      CountGrows(orgs[oa].roleIds, i, j);
    }
  }
}
