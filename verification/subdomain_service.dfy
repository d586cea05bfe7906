/**
  The subdomain registrar: hosted-zone listing, creation of a subdomain by
  an A-record UPSERT, lookup, the certificate flag update, and deletion by an
  A-record DELETE. The persisted subdomain list is a sequence of records;
  the Route53 SDK, the public-address service and the credential store are
  reduced to the answers they give (`Provider`), and the clock to `now`.
*/
module SubdomainService {
  import opened Common
  import opened Text

  const RecordTtl := 300
  const RecordType := "A"
  const HostedZonePrefix := "/hostedzone/"
  const CredentialsMissing := "AWS credentials not found"
  const PublicIpFailed := "Failed to get public IP address"
  const SubdomainNotFound := "Subdomain not found"

  /** One persisted subdomain. Timestamps are clock values in milliseconds. */
  datatype Subdomain = Subdomain(
    id: string,
    name: string,
    fullName: string,
    hostedZoneId: string,
    domainName: string,
    ipAddress: string,
    createdAt: int,
    updatedAt: int,
    sslInstalled: bool)

  /** A hosted zone as the provider lists it. */
  datatype ProviderZone = ProviderZone(id: string, name: string, resourceRecordSetCount: int)

  /** A hosted zone as the registrar reports it. */
  datatype ZoneSummary = ZoneSummary(id: string, name: string, recordCount: int)

  datatype ChangeAction = Upsert | Delete

  /** One change batch sent to the DNS provider: a single A-record change. */
  datatype RecordChange = RecordChange(
    hostedZoneId: string,
    action: ChangeAction,
    name: string,
    value: string,
    ttl: int,
    recordType: string,
    comment: string)

  /**
    The answers of the collaborators during one create call: whether
    credentials are stored, the public address (None when the lookup
    fails), the zone name the provider returns for the zone id, and the
    provider's answer to the change batch.
  */
  datatype Provider = Provider(
    credentials: bool,
    publicIp: Option<string>,
    zoneName: Result<string>,
    change: Outcome)

  /** What a successful create returns to its caller. */
  datatype Created = Created(subdomain: string, ipAddress: string)

  /** The result, the changes sent to the provider, and the subdomain list afterwards. */
  datatype CreateOutcome = CreateOutcome(result: Result<Created>, changes: seq<RecordChange>, store: seq<Subdomain>)

  datatype UpdateOutcome = UpdateOutcome(result: Result<Subdomain>, store: seq<Subdomain>)

  datatype DeleteOutcome = DeleteOutcome(status: Outcome, changes: seq<RecordChange>, store: seq<Subdomain>)

  predicate EndsWithDot(name: string) {
    |name| > 0 && name[|name| - 1] == '.'
  }

  /** The apex of a zone: the provider's name without its one trailing dot. */
  function ZoneApex(zoneName: string): (r: string)
    ensures EndsWithDot(zoneName) ==> r + "." == zoneName
    ensures !EndsWithDot(zoneName) ==> r == zoneName
  {
    if EndsWithDot(zoneName) then zoneName[..|zoneName| - 1] else zoneName
  }

  /** The zone id the registrar reports: the provider id without the first "/hostedzone/". */
  function ZoneIdOf(providerId: string): (r: string)
    ensures !Contains(providerId, HostedZonePrefix) ==> r == providerId
    ensures Contains(providerId, HostedZonePrefix) ==> |r| + |HostedZonePrefix| == |providerId|
  {
    RemoveFirst(providerId, HostedZonePrefix)
  }

  function Summarize(zone: ProviderZone): (s: ZoneSummary)
    ensures s.recordCount == zone.resourceRecordSetCount
    ensures s.name == ZoneApex(zone.name)
    ensures s.id == ZoneIdOf(zone.id)
  {
    ZoneSummary(ZoneIdOf(zone.id), ZoneApex(zone.name), zone.resourceRecordSetCount)
  }

  /** The listing of hosted zones: one summary per provider zone, in the provider's order. */
  function ListHostedZones(credentials: bool, zones: Result<seq<ProviderZone>>): (r: Result<seq<ZoneSummary>>)
    ensures !credentials ==> r == Err(CredentialsMissing)
    ensures credentials && zones.Err? ==> r == Err(zones.error)
    ensures credentials && zones.Ok? ==> r.Ok? && |r.value| == |zones.value|
    ensures credentials && zones.Ok? ==>
      forall i :: 0 <= i < |zones.value| ==>
        r.value[i].recordCount == zones.value[i].resourceRecordSetCount &&
        r.value[i].name == ZoneApex(zones.value[i].name) &&
        r.value[i].id == ZoneIdOf(zones.value[i].id)
  {
    if !credentials then Err(CredentialsMissing)
    else match zones
      case Err(e) => Err(e)
      case Ok(zs) => Ok(seq(|zs|, i requires 0 <= i < |zs| => Summarize(zs[i])))
  }

  /** A zone whose provider name is an apex plus the root dot is reported under that apex. */
  lemma ApexOfQualifiedName(apex: string)
    ensures ZoneApex(apex + ".") == apex
    ensures !EndsWithDot(apex) ==> ZoneApex(apex) == apex
  {
    assert (apex + ".")[..|apex|] == apex;
  }

  /** A provider id "/hostedzone/<id>" is reported as "<id>". */
  lemma ZoneIdOfProviderId(id: string)
    ensures ZoneIdOf(HostedZonePrefix + id) == id
  {
    RemoveFirstOfPrefix(HostedZonePrefix, id);
  }

  /** The fully qualified name of subdomain `name` in the zone the provider names `zoneName`. */
  function FullName(name: string, zoneName: string): string {
    name + "." + ZoneApex(zoneName)
  }

  function UpsertChange(hostedZoneId: string, fullName: string, ip: string): RecordChange {
    RecordChange(hostedZoneId, Upsert, fullName, ip, RecordTtl, RecordType, "Created by CertiRoute for " + fullName)
  }

  function DeleteChange(s: Subdomain): RecordChange {
    RecordChange(s.hostedZoneId, Delete, s.fullName, s.ipAddress, RecordTtl, RecordType, "Deleted by CertiRoute for " + s.fullName)
  }

  /** The id a subdomain created at clock `now` receives: "<name>-<now>". */
  function SubdomainId(name: string, now: nat): string {
    name + "-" + NatToString(now)
  }

  /**
    Create a subdomain: check credentials, get the public address, get the
    zone's name, send one UPSERT of the A record, then append the record.
    A failure at any step ends the call with that step's error and leaves
    the list as it was. A repeated name is appended again.
  */
  function CreateSubdomain(store: seq<Subdomain>, name: string, hostedZoneId: string, p: Provider, now: nat): (o: CreateOutcome)
    ensures !p.credentials ==> o == CreateOutcome(Err(CredentialsMissing), [], store)
    ensures p.credentials && p.publicIp.None? ==> o == CreateOutcome(Err(PublicIpFailed), [], store)
    ensures p.credentials && p.publicIp.Some? && p.zoneName.Err? ==> o == CreateOutcome(Err(p.zoneName.error), [], store)
    ensures p.credentials && p.publicIp.Some? && p.zoneName.Ok? ==>
      var fqdn := name + "." + ZoneApex(p.zoneName.value);
      o.changes == [RecordChange(hostedZoneId, Upsert, fqdn, p.publicIp.value, 300, "A", "Created by CertiRoute for " + fqdn)]
    ensures o.result.Ok? <==> p.credentials && p.publicIp.Some? && p.zoneName.Ok? && p.change.Pass?
    ensures o.result.Err? ==> o.store == store
    ensures o.result.Ok? ==>
      && |o.store| == |store| + 1
      && o.store[..|store|] == store
      && var s := o.store[|store|];
      && s.id == SubdomainId(name, now)
      && s.name == name && s.hostedZoneId == hostedZoneId
      && s.fullName == name + "." + s.domainName
      && s.domainName == ZoneApex(p.zoneName.value)
      && s.ipAddress == p.publicIp.value
      && !s.sslInstalled && s.createdAt == s.updatedAt == now
      && o.result.value == Created(s.fullName, s.ipAddress)
  {
    if !p.credentials then CreateOutcome(Err(CredentialsMissing), [], store)
    else if p.publicIp.None? then CreateOutcome(Err(PublicIpFailed), [], store)
    else if p.zoneName.Err? then CreateOutcome(Err(p.zoneName.error), [], store)
    else
      var ip := p.publicIp.value;
      var apex := ZoneApex(p.zoneName.value);
      var fqdn := FullName(name, p.zoneName.value);
      var change := UpsertChange(hostedZoneId, fqdn, ip);
      match p.change
      case Fail(e) => CreateOutcome(Err(e), [change], store)
      case Pass =>
        var record := Subdomain(SubdomainId(name, now), name, fqdn, hostedZoneId, apex, ip, now, now, false);
        CreateOutcome(Ok(Created(fqdn, ip)), [change], store + [record])
  }

  /** The first subdomain with the id, or None. */
  function GetSubdomainById(store: seq<Subdomain>, id: string): (r: Option<Subdomain>)
    ensures r.Some? ==> r.value.id == id && r.value in store
    ensures r.Some? ==> exists i :: 0 <= i < |store| && store[i] == r.value && forall j :: 0 <= j < i ==> store[j].id != id
    ensures r.None? <==> forall j :: 0 <= j < |store| ==> store[j].id != id
  {
    Find(store, (s: Subdomain) => s.id == id)
  }

  function IndexOfId(store: seq<Subdomain>, id: string): (r: Option<nat>)
    ensures r.Some? ==> r.value < |store| && store[r.value].id == id
    ensures r.Some? ==> forall j :: 0 <= j < r.value ==> store[j].id != id
    ensures r.None? ==> forall j :: 0 <= j < |store| ==> store[j].id != id
  {
    FindIndex(store, (s: Subdomain) => s.id == id)
  }

  /**
    Set the certificate flag of the first subdomain with the id and stamp
    its `updatedAt`; an unknown id fails and changes nothing.
  */
  function UpdateSubdomainSslStatus(store: seq<Subdomain>, id: string, sslInstalled: bool, now: int): (o: UpdateOutcome)
    ensures IndexOfId(store, id).None? ==> o == UpdateOutcome(Err(SubdomainNotFound), store)
    ensures IndexOfId(store, id).Some? ==>
      var i := IndexOfId(store, id).value;
      && |o.store| == |store|
      && (forall j :: 0 <= j < |store| && j != i ==> o.store[j] == store[j])
      && o.store[i] == store[i].(sslInstalled := sslInstalled, updatedAt := now)
      && o.result == Ok(o.store[i])
  {
    match IndexOfId(store, id)
    case None => UpdateOutcome(Err(SubdomainNotFound), store)
    case Some(i) =>
      var s := store[i].(sslInstalled := sslInstalled, updatedAt := now);
      UpdateOutcome(Ok(s), store[i := s])
  }

  /**
    Delete a subdomain: check credentials, find the record, send one DELETE
    of the A record carrying the stored name, address and zone, then remove
    the record. An unknown id sends nothing; a provider failure keeps the
    record.
  */
  function DeleteSubdomain(store: seq<Subdomain>, id: string, credentials: bool, change: Outcome): (o: DeleteOutcome)
    ensures !credentials ==> o == DeleteOutcome(Fail(CredentialsMissing), [], store)
    ensures credentials && IndexOfId(store, id).None? ==> o == DeleteOutcome(Fail(SubdomainNotFound), [], store)
    ensures credentials && IndexOfId(store, id).Some? ==>
      var s := store[IndexOfId(store, id).value];
      o.changes == [RecordChange(s.hostedZoneId, Delete, s.fullName, s.ipAddress, 300, "A", "Deleted by CertiRoute for " + s.fullName)]
    ensures o.status.Pass? <==> credentials && IndexOfId(store, id).Some? && change.Pass?
    ensures o.status.Fail? ==> o.store == store
    ensures o.status.Pass? ==> o.store == RemoveAt(store, IndexOfId(store, id).value)
  {
    if !credentials then DeleteOutcome(Fail(CredentialsMissing), [], store)
    else match IndexOfId(store, id)
      case None => DeleteOutcome(Fail(SubdomainNotFound), [], store)
      case Some(i) =>
        var c := DeleteChange(store[i]);
        match change
        case Fail(e) => DeleteOutcome(Fail(e), [c], store)
        case Pass => DeleteOutcome(Pass, [c], RemoveAt(store, i))
  }

  predicate UniqueIds(store: seq<Subdomain>) {
    forall i, j :: 0 <= i < j < |store| ==> store[i].id != store[j].id
  }

  /** With unique ids, a successful delete leaves no record with the id and keeps every other record. */
  lemma DeleteRemovesOnlyTarget(store: seq<Subdomain>, id: string, change: Outcome)
    requires UniqueIds(store)
    requires DeleteSubdomain(store, id, true, change).status.Pass?
    ensures var after := DeleteSubdomain(store, id, true, change).store;
      && (forall j :: 0 <= j < |after| ==> after[j].id != id)
      && (forall s :: s in store && s.id != id ==> s in after)
      && UniqueIds(after)
  {
    var i := IndexOfId(store, id).value;
    var after := RemoveAt(store, i);
    forall s | s in store && s.id != id
      ensures s in after
    {
      var k :| 0 <= k < |store| && store[k] == s;
      if k < i { assert after[k] == s; } else { assert k > i; assert after[k - 1] == s; }
    }
  }

  /**
    Creating a subdomain and then deleting the new record restores the list,
    and the DELETE carries exactly the zone, name and address of the UPSERT.
  */
  lemma CreateThenDelete(store: seq<Subdomain>, name: string, hostedZoneId: string, p: Provider, now: nat, change: Outcome)
    requires CreateSubdomain(store, name, hostedZoneId, p, now).result.Ok?
    requires forall j :: 0 <= j < |store| ==> store[j].id != SubdomainId(name, now)
    ensures var created := CreateSubdomain(store, name, hostedZoneId, p, now);
      var deleted := DeleteSubdomain(created.store, SubdomainId(name, now), true, change);
      && |deleted.changes| == 1 && |created.changes| == 1
      && deleted.changes[0].action == Delete && created.changes[0].action == Upsert
      && deleted.changes[0].hostedZoneId == created.changes[0].hostedZoneId
      && deleted.changes[0].name == created.changes[0].name
      && deleted.changes[0].value == created.changes[0].value
      && deleted.changes[0].ttl == created.changes[0].ttl
      && (change.Pass? ==> deleted.store == store)
      && (change.Fail? ==> deleted.store == created.store)
  {
    var created := CreateSubdomain(store, name, hostedZoneId, p, now);
    var id := SubdomainId(name, now);
    assert created.store[|store|].id == id;
    FindIndexAt(created.store, (s: Subdomain) => s.id == id, |store|);
    assert RemoveAt(created.store, |store|) == store;
  }

  /** After an update, a lookup of the id finds the record with the new flag. */
  lemma UpdateThenGet(store: seq<Subdomain>, id: string, sslInstalled: bool, now: int)
    requires UpdateSubdomainSslStatus(store, id, sslInstalled, now).result.Ok?
    ensures var after := UpdateSubdomainSslStatus(store, id, sslInstalled, now).store;
      && GetSubdomainById(after, id).Some?
      && GetSubdomainById(after, id).value.sslInstalled == sslInstalled
      && GetSubdomainById(after, id).value.updatedAt == now
      && Ids(after) == Ids(store)
  {
    var i := IndexOfId(store, id).value;
    var after := UpdateSubdomainSslStatus(store, id, sslInstalled, now).store;
    FindIndexAt(after, (s: Subdomain) => s.id == id, i);
  }

  function Ids(store: seq<Subdomain>): seq<string> {
    seq(|store|, i requires 0 <= i < |store| => store[i].id)
  }
}
