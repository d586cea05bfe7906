/**
  The subdomain HTTP routes: the request-body validators of the create
  route and the status code each handler answers with. The handlers call
  the registrar operations of `SubdomainService`; the collaborators'
  answers arrive as the same abstract inputs those operations take.
*/
module SubdomainRoutes {
  import opened Common
  import opened Text
  import opened SubdomainService

  const NotConfigured := "AWS credentials not configured"
  const SubdomainRequired := "Subdomain is required"
  const SubdomainSyntax := "Subdomain can only contain letters, numbers, and hyphens"
  const ZoneIdRequired := "Hosted Zone ID is required"

  /** One entry of a validation failure: the field and its message. */
  datatype FieldError = FieldError(field: string, msg: string)

  /** The JSON bodies the routes answer with. */
  datatype Body =
    | Errors(errors: seq<FieldError>)
    | Message(error: string)
    | Failure(error: string, details: string)
    | IpBody(ip: string)
    | ZonesBody(zones: seq<ZoneSummary>)
    | CreatedBody(created: Created)
    | SubdomainBody(subdomain: Subdomain)
    | SubdomainsBody(subdomains: seq<Subdomain>)
    | Done(message: string)

  datatype Response = Response(status: int, body: Body)

  /** A response, the record changes sent to the provider while producing it, and the subdomain list afterwards. */
  datatype Handled = Handled(response: Response, changes: seq<RecordChange>, store: seq<Subdomain>)

  /** A character of the class `[a-zA-Z0-9-]`. */
  predicate LabelChar(c: char) {
    'a' <= c <= 'z' || 'A' <= c <= 'Z' || '0' <= c <= '9' || c == '-'
  }

  /** A text the pattern `^[a-zA-Z0-9-]+$` matches. */
  predicate IsLabel(s: string) {
    |s| > 0 && forall i :: 0 <= i < |s| ==> LabelChar(s[i])
  }

  /** A body field as the validators see it: a missing field is the empty text. */
  function FieldText(field: Option<string>): string {
    match field
    case None => ""
    case Some(s) => s
  }

  /**
    The errors of the `subdomain` field. Both checks of the chain run, so an
    empty field fails both.
  */
  function LabelErrors(subdomain: string): (r: seq<FieldError>)
    ensures r == [] <==> IsLabel(subdomain)
    ensures FieldError("subdomain", SubdomainRequired) in r <==> subdomain == ""
    ensures FieldError("subdomain", SubdomainSyntax) in r <==> !IsLabel(subdomain)
    ensures forall i :: 0 <= i < |r| ==> r[i].field == "subdomain"
  {
    (if subdomain == "" then [FieldError("subdomain", SubdomainRequired)] else [])
    + (if IsLabel(subdomain) then [] else [FieldError("subdomain", SubdomainSyntax)])
  }

  function ZoneIdErrors(hostedZoneId: string): (r: seq<FieldError>)
    ensures r == [] <==> hostedZoneId != ""
    ensures forall i :: 0 <= i < |r| ==> r[i] == FieldError("hostedZoneId", ZoneIdRequired)
  {
    if hostedZoneId == "" then [FieldError("hostedZoneId", ZoneIdRequired)] else []
  }

  /** The errors of a create request, the `subdomain` field's first. */
  function ValidateCreate(subdomain: Option<string>, hostedZoneId: Option<string>): (r: seq<FieldError>)
    ensures r == [] <==> IsLabel(FieldText(subdomain)) && FieldText(hostedZoneId) != ""
    ensures |r| <= 3
  {
    LabelErrors(FieldText(subdomain)) + ZoneIdErrors(FieldText(hostedZoneId))
  }

  /** `GET /ip`: the public address, or 500 when the lookup fails. */
  function GetIp(publicIp: Option<string>): (r: Response)
    ensures r.status == 200 <==> publicIp.Some?
    ensures r.status == 200 ==> r.body == IpBody(publicIp.value)
    ensures r.status != 200 ==> r == Response(500, Message(PublicIpFailed))
  {
    match publicIp
    case None => Response(500, Message(PublicIpFailed))
    case Some(ip) => Response(200, IpBody(ip))
  }

  /** `GET /zones`: 400 without credentials, 500 when the listing fails, else the summaries. */
  function ListZones(credentials: bool, zones: Result<seq<ProviderZone>>): (r: Response)
    ensures !credentials <==> r.status == 400
    ensures r.status == 400 ==> r.body == Message(NotConfigured)
    ensures r.status == 500 <==> credentials && zones.Err?
    ensures r.status == 500 ==> r.body == Message("Failed to list hosted zones")
    ensures r.status == 200 <==> credentials && zones.Ok?
    ensures r.status == 200 ==> r.body == ZonesBody(ListHostedZones(true, zones).value)
  {
    if !credentials then Response(400, Message(NotConfigured))
    else match ListHostedZones(credentials, zones)
      case Err(_) => Response(500, Message("Failed to list hosted zones"))
      case Ok(summaries) => Response(200, ZonesBody(summaries))
  }

  /**
    `POST /`: validation errors answer 400 before anything else happens;
    missing credentials answer 400 before the registrar is called; a
    registrar failure answers 500 with its message; a create answers 201.
  */
  function PostSubdomain(
    store: seq<Subdomain>, subdomain: Option<string>, hostedZoneId: Option<string>,
    p: Provider, now: nat): (h: Handled)
    ensures ValidateCreate(subdomain, hostedZoneId) != [] ==>
      h == Handled(Response(400, Errors(ValidateCreate(subdomain, hostedZoneId))), [], store)
    ensures ValidateCreate(subdomain, hostedZoneId) == [] && !p.credentials ==>
      h == Handled(Response(400, Message(NotConfigured)), [], store)
    ensures h.response.status == 201 <==>
      ValidateCreate(subdomain, hostedZoneId) == [] && p.credentials && p.publicIp.Some? && p.zoneName.Ok? && p.change.Pass?
    ensures h.response.status == 500 <==>
      ValidateCreate(subdomain, hostedZoneId) == [] && p.credentials && !(p.publicIp.Some? && p.zoneName.Ok? && p.change.Pass?)
    ensures h.response.status != 201 ==> h.store == store
    ensures h.response.status == 201 ==>
      var o := CreateSubdomain(store, subdomain.value, hostedZoneId.value, p, now);
      h.response.body == CreatedBody(o.result.value) && h.store == o.store && h.changes == o.changes
  {
    var errors := ValidateCreate(subdomain, hostedZoneId);
    if errors != [] then Handled(Response(400, Errors(errors)), [], store)
    else if !p.credentials then Handled(Response(400, Message(NotConfigured)), [], store)
    else
      var o := CreateSubdomain(store, FieldText(subdomain), FieldText(hostedZoneId), p, now);
      match o.result
      case Ok(created) => Handled(Response(201, CreatedBody(created)), o.changes, o.store)
      case Err(e) => Handled(Response(500, Failure("Failed to create subdomain", e)), o.changes, o.store)
  }

  /** `GET /`: the stored list. */
  function ListSubdomains(store: seq<Subdomain>): (r: Response)
    ensures r.status == 200 && r.body.SubdomainsBody? && r.body.subdomains == store
  {
    Response(200, SubdomainsBody(store))
  }

  /** `GET /:id`: 404 exactly when no subdomain has the id. */
  function GetSubdomain(store: seq<Subdomain>, id: string): (r: Response)
    ensures r.status == 404 <==> forall j :: 0 <= j < |store| ==> store[j].id != id
    ensures r.status == 404 ==> r.body == Message(SubdomainNotFound)
    ensures r.status != 404 ==> r.status == 200 && r.body.SubdomainBody? && r.body.subdomain.id == id && r.body.subdomain in store
  {
    match GetSubdomainById(store, id)
    case None => Response(404, Message(SubdomainNotFound))
    case Some(s) => Response(200, SubdomainBody(s))
  }

  /**
    `DELETE /:id`: 400 without credentials (the registrar is not called),
    400 with the registrar's error when it reports a failure, 200 otherwise.
  */
  function DeleteSubdomainRoute(store: seq<Subdomain>, id: string, credentials: bool, change: Outcome): (h: Handled)
    ensures !credentials ==> h == Handled(Response(400, Message(NotConfigured)), [], store)
    ensures credentials ==>
      var o := DeleteSubdomain(store, id, true, change);
      h.changes == o.changes && h.store == o.store
      && (o.status.Fail? ==> h.response == Response(400, Message(o.status.error)))
      && (o.status.Pass? ==> h.response == Response(200, Done("Subdomain deleted successfully")))
    ensures h.response.status == 200 <==> credentials && IndexOfId(store, id).Some? && change.Pass?
    ensures h.response.status == 400 <==> !(credentials && IndexOfId(store, id).Some? && change.Pass?)
  {
    if !credentials then Handled(Response(400, Message(NotConfigured)), [], store)
    else
      var o := DeleteSubdomain(store, id, credentials, change);
      match o.status
      case Fail(e) => Handled(Response(400, Message(e)), o.changes, o.store)
      case Pass => Handled(Response(200, Done("Subdomain deleted successfully")), o.changes, o.store)
  }

  /** A valid label holds no dot, so it is the first dot-separated piece of the full name it creates. */
  lemma {:induction false} CreatedNameStartsWithLabel(
    store: seq<Subdomain>, subdomain: Option<string>, hostedZoneId: Option<string>, p: Provider, now: nat)
    requires PostSubdomain(store, subdomain, hostedZoneId, p, now).response.status == 201
    ensures var h := PostSubdomain(store, subdomain, hostedZoneId, p, now);
      h.response.body.created.subdomain == h.store[|store|].fullName
      && SplitOn(h.store[|store|].fullName, '.')[0] == subdomain.value
  {
    var name := subdomain.value;
    var h := PostSubdomain(store, subdomain, hostedZoneId, p, now);
    var s := h.store[|store|];
    assert IsLabel(name);
    assert '.' !in name by {
      forall i | 0 <= i < |name| ensures name[i] != '.' {
        assert LabelChar(name[i]);
      }
    }
    assert s.fullName == name + "." + s.domainName;
    assert s.fullName == name + ("." + s.domainName);
    SplitOnHead(name, "." + s.domainName, '.');
  }

  /**
    Deleting what a create just added answers 200 and restores the list
    when the provider accepts the DELETE; when it refuses, the answer is
    400 with the provider's error and the created record stays.
  */
  lemma CreateThenDeleteRoutes(
    store: seq<Subdomain>, subdomain: Option<string>, hostedZoneId: Option<string>, p: Provider, now: nat, change: Outcome)
    requires PostSubdomain(store, subdomain, hostedZoneId, p, now).response.status == 201
    requires forall j :: 0 <= j < |store| ==> store[j].id != SubdomainId(subdomain.value, now)
    ensures var h := PostSubdomain(store, subdomain, hostedZoneId, p, now);
      var d := DeleteSubdomainRoute(h.store, SubdomainId(subdomain.value, now), true, change);
      && (d.response.status == 200 <==> change.Pass?)
      && (change.Pass? ==> d.store == store)
      && (change.Fail? ==> d.response == Response(400, Message(change.error)) && d.store == h.store)
  {
    SubdomainService.CreateThenDelete(store, subdomain.value, hostedZoneId.value, p, now, change);
  }
}
