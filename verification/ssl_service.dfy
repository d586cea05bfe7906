/**
  The certificate records: generation of a (simulated) certificate record
  for a subdomain, installation on a web server type, lookup, listing by
  subdomain and deletion. The persisted certificate list is a sequence of
  records; the ACME library is reduced to the success or failure of its
  key and CSR generation, and the clock to `now` in milliseconds.
*/
module SslService {
  import opened Common
  import opened Text
  import SubdomainService

  type Subdomain = SubdomainService.Subdomain

  /** The directory under which each domain gets its own certificate directory. */
  const CertsDir := "data/certs"
  /** The validity the record claims: 90 days, in milliseconds. */
  const ValidityMs := 90 * 24 * 60 * 60 * 1000
  const CertificateNotFound := "Certificate not found"

  const BackupStep := "Backing up existing configuration..."
  const LinkStep := "Linking certificate files..."
  const TestStep := "Testing configuration..."
  const NodeStep := "Generating sample code for Node.js HTTPS server..."
  const GenericStep := "Generating generic installation instructions..."

  datatype CertStatus = Simulated | Installed

  /** One persisted certificate record; `installedAt` and `serverType` appear on installation. */
  datatype Certificate = Certificate(
    id: string,
    subdomainId: string,
    domain: string,
    createdAt: int,
    expiresAt: int,
    webServerPort: int,
    certPath: string,
    keyPath: string,
    fullchainPath: string,
    status: CertStatus,
    installedAt: Option<int>,
    serverType: Option<string>)

  /** The certificate signing request handed to the ACME library. */
  datatype CsrRequest = CsrRequest(commonName: string, altNames: seq<string>)

  /** The ACME library's answers: creating the account key, then the key pair and CSR. */
  datatype Acme = Acme(accountKey: Outcome, csr: Outcome)

  datatype GenerateOutcome = GenerateOutcome(
    result: Result<Certificate>,
    csr: Option<CsrRequest>,
    certificates: seq<Certificate>,
    subdomains: seq<Subdomain>)

  datatype InstallResult = InstallResult(success: bool, message: string, steps: seq<string>)

  datatype InstallOutcome = InstallOutcome(result: Result<InstallResult>, certificates: seq<Certificate>)

  /** The result, the directory whose removal is attempted, and the list afterwards. */
  datatype DeleteOutcome = DeleteOutcome(status: Outcome, removedDir: Option<string>, certificates: seq<Certificate>)

  function CertDir(fullName: string): string {
    CertsDir + "/" + fullName
  }

  /** The path of one of a domain's certificate files. */
  function CertFile(fullName: string, file: string): string {
    CertDir(fullName) + "/" + file
  }

  /** The id a certificate created at clock `now` receives: "cert-<now>". */
  function CertificateId(now: nat): string {
    "cert-" + NatToString(now)
  }

  /**
    Generate the record of a certificate for a subdomain. An unknown
    subdomain, or a failure of the ACME key or CSR generation, ends the call
    with that error and changes neither list. Otherwise the record is
    appended, marked simulated, valid for 90 days from `now`, and the
    subdomain is flagged as having a certificate.
  */
  function GenerateCertificate(
    subdomains: seq<Subdomain>, certificates: seq<Certificate>,
    subdomainId: string, webServerPort: int, acme: Acme, now: nat): (o: GenerateOutcome)
    ensures SubdomainService.GetSubdomainById(subdomains, subdomainId).None? ==>
      o == GenerateOutcome(Err(SubdomainService.SubdomainNotFound), None, certificates, subdomains)
    ensures o.result.Ok? <==>
      SubdomainService.GetSubdomainById(subdomains, subdomainId).Some? && acme.accountKey.Pass? && acme.csr.Pass?
    ensures o.csr.Some? ==>
      var s := SubdomainService.GetSubdomainById(subdomains, subdomainId).value;
      o.csr.value.commonName == s.fullName && o.csr.value.altNames == [s.fullName]
    ensures o.result.Err? ==> o.certificates == certificates && o.subdomains == subdomains
    ensures o.result.Ok? ==>
      var s := SubdomainService.GetSubdomainById(subdomains, subdomainId).value;
      var c := o.result.value;
      && o.csr.Some?
      && c.subdomainId == subdomainId && c.domain == s.fullName
      && c.webServerPort == webServerPort
      && c.status == Simulated && c.installedAt.None? && c.serverType.None?
      && c.createdAt == now && c.expiresAt == now + 90 * 24 * 60 * 60 * 1000
      && c.certPath == CertFile(s.fullName, "cert.pem")
      && c.keyPath == CertFile(s.fullName, "privkey.pem")
      && c.fullchainPath == CertFile(s.fullName, "fullchain.pem")
      && o.certificates == certificates + [c]
      && SubdomainService.GetSubdomainById(o.subdomains, subdomainId).Some?
      && SubdomainService.GetSubdomainById(o.subdomains, subdomainId).value.sslInstalled
      && SubdomainService.GetSubdomainById(o.subdomains, subdomainId).value.updatedAt == now
      && |o.subdomains| == |subdomains|
      && o.subdomains == SubdomainService.UpdateSubdomainSslStatus(subdomains, subdomainId, true, now).store
  {
    match SubdomainService.GetSubdomainById(subdomains, subdomainId)
    case None => GenerateOutcome(Err(SubdomainService.SubdomainNotFound), None, certificates, subdomains)
    case Some(s) =>
      if acme.accountKey.Fail? then GenerateOutcome(Err(acme.accountKey.error), None, certificates, subdomains)
      else
        var csr := CsrRequest(s.fullName, [s.fullName]);
        if acme.csr.Fail? then GenerateOutcome(Err(acme.csr.error), Some(csr), certificates, subdomains)
        else
          var c := Certificate(
            CertificateId(now), s.id, s.fullName, now, now + ValidityMs, webServerPort,
            CertFile(s.fullName, "cert.pem"), CertFile(s.fullName, "privkey.pem"), CertFile(s.fullName, "fullchain.pem"),
            Simulated, None, None);
          SubdomainService.UpdateThenGet(subdomains, subdomainId, true, now);
          var updated := SubdomainService.UpdateSubdomainSslStatus(subdomains, subdomainId, true, now);
          GenerateOutcome(Ok(c), Some(csr), certificates + [c], updated.store)
  }

  /**
    The installation steps for a server type, chosen in order: exactly
    "nginx", exactly "apache", any type containing "node", anything else.
  */
  function InstallSteps(serverType: string): (steps: seq<string>)
    ensures serverType == "nginx" ==> |steps| == 5 && steps[4] == "Reloading Nginx..."
    ensures serverType == "apache" ==> |steps| == 6 && steps[5] == "Reloading Apache..."
    ensures serverType != "nginx" && serverType != "apache" ==>
      && |steps| == 2 && steps[1] == LinkStep
      && (Contains(serverType, "node") <==> steps[0] == NodeStep)
      && (!Contains(serverType, "node") <==> steps[0] == GenericStep)
    ensures steps[0] == BackupStep <==> serverType == "nginx" || serverType == "apache"
    ensures LinkStep in steps
  {
    if serverType == "nginx" then
      [BackupStep, "Creating Nginx configuration for SSL...", LinkStep, TestStep, "Reloading Nginx..."]
    else if serverType == "apache" then
      [BackupStep, "Enabling SSL module...", "Creating Apache configuration for SSL...", LinkStep, TestStep, "Reloading Apache..."]
    else if Contains(serverType, "node") then
      [NodeStep, LinkStep]
    else
      [GenericStep, LinkStep]
  }

  function IndexOfId(certificates: seq<Certificate>, id: string): (r: Option<nat>)
    ensures r.Some? ==> r.value < |certificates| && certificates[r.value].id == id
    ensures r.Some? ==> forall j :: 0 <= j < r.value ==> certificates[j].id != id
    ensures r.None? ==> forall j :: 0 <= j < |certificates| ==> certificates[j].id != id
  {
    FindIndex(certificates, (c: Certificate) => c.id == id)
  }

  function MarkInstalled(c: Certificate, serverType: string, now: int): Certificate {
    c.(status := Installed, installedAt := Some(now), serverType := Some(serverType))
  }

  /**
    Install a certificate: an unknown id fails and changes nothing;
    otherwise the first record with the id becomes installed on the server
    type at `now`, whatever its status was, and the steps for the type are
    returned.
  */
  function InstallCertificate(certificates: seq<Certificate>, certId: string, serverType: string, now: int): (o: InstallOutcome)
    ensures IndexOfId(certificates, certId).None? ==> o == InstallOutcome(Err(CertificateNotFound), certificates)
    ensures IndexOfId(certificates, certId).Some? ==>
      var i := IndexOfId(certificates, certId).value;
      var c := certificates[i];
      && |o.certificates| == |certificates|
      && (forall j :: 0 <= j < |certificates| && j != i ==> o.certificates[j] == certificates[j])
      && o.certificates[i].status == Installed
      && o.certificates[i].serverType == Some(serverType)
      && o.certificates[i].installedAt == Some(now)
      && o.certificates[i] == c.(status := Installed, installedAt := Some(now), serverType := Some(serverType))
      && o.result.Ok? && o.result.value.success
      && o.result.value.steps == InstallSteps(serverType)
      && o.result.value.message == "SSL certificate installed successfully for " + c.domain + " on " + serverType
  {
    match IndexOfId(certificates, certId)
    case None => InstallOutcome(Err(CertificateNotFound), certificates)
    case Some(i) =>
      var c := certificates[i];
      var message := "SSL certificate installed successfully for " + c.domain + " on " + serverType;
      InstallOutcome(Ok(InstallResult(true, message, InstallSteps(serverType))), certificates[i := MarkInstalled(c, serverType, now)])
  }

  /** The first certificate with the id, or None. */
  function GetCertificateById(certificates: seq<Certificate>, id: string): (r: Option<Certificate>)
    ensures r.Some? ==> r.value.id == id && r.value in certificates
    ensures r.None? <==> forall j :: 0 <= j < |certificates| ==> certificates[j].id != id
    ensures r.Some? ==> r.value == certificates[IndexOfId(certificates, id).value]
  {
    Find(certificates, (c: Certificate) => c.id == id)
  }

  /**
    The certificates of one subdomain. `BySubdomainAppend` states that they
    come in list order, each as often as it is listed.
  */
  function GetCertificatesBySubdomain(certificates: seq<Certificate>, subdomainId: string): (r: seq<Certificate>)
    ensures forall j :: 0 <= j < |r| ==> r[j].subdomainId == subdomainId && r[j] in certificates
    ensures forall j :: 0 <= j < |certificates| && certificates[j].subdomainId == subdomainId ==> certificates[j] in r
  {
    Filter(certificates, (c: Certificate) => c.subdomainId == subdomainId)
  }

  /**
    The listing keeps list order and multiplicity: an empty list lists
    nothing, a single certificate is listed exactly when it belongs to the
    subdomain, and a concatenation lists each part in turn.
  */
  lemma BySubdomainAppend(a: seq<Certificate>, b: seq<Certificate>, subdomainId: string)
    ensures GetCertificatesBySubdomain([], subdomainId) == []
    ensures forall c: Certificate ::
      GetCertificatesBySubdomain([c], subdomainId) == if c.subdomainId == subdomainId then [c] else []
    ensures GetCertificatesBySubdomain(a + b, subdomainId)
      == GetCertificatesBySubdomain(a, subdomainId) + GetCertificatesBySubdomain(b, subdomainId)
  {
    var p := (c: Certificate) => c.subdomainId == subdomainId;
    FilterAppend(a, b, p);
    forall c: Certificate
      ensures GetCertificatesBySubdomain([c], subdomainId) == if c.subdomainId == subdomainId then [c] else []
    {
      assert Filter([c], p) == (if p(c) then [c] else []) + Filter([c][1..], p);
    }
  }

  /**
    Delete a certificate: an unknown id fails and changes nothing;
    otherwise removal of the record's directory is attempted (its failure
    is ignored) and the record is removed, the others kept in order.
  */
  function DeleteCertificate(certificates: seq<Certificate>, id: string): (o: DeleteOutcome)
    ensures IndexOfId(certificates, id).None? ==> o == DeleteOutcome(Fail(CertificateNotFound), None, certificates)
    ensures IndexOfId(certificates, id).Some? ==>
      var i := IndexOfId(certificates, id).value;
      && o.status == Pass
      && o.removedDir == Some(DirName(certificates[i].certPath))
      && |o.certificates| == |certificates| - 1
      && o.certificates == RemoveAt(certificates, i)
  {
    match IndexOfId(certificates, id)
    case None => DeleteOutcome(Fail(CertificateNotFound), None, certificates)
    case Some(i) => DeleteOutcome(Pass, Some(DirName(certificates[i].certPath)), RemoveAt(certificates, i))
  }

  function Ids(certificates: seq<Certificate>): seq<string> {
    seq(|certificates|, i requires 0 <= i < |certificates| => certificates[i].id)
  }

  /** A generated certificate is the last in its subdomain's listing, after the earlier ones. */
  lemma GeneratedListedLast(
    subdomains: seq<Subdomain>, certificates: seq<Certificate>,
    subdomainId: string, webServerPort: int, acme: Acme, now: nat)
    requires SubdomainService.GetSubdomainById(subdomains, subdomainId).Some? && acme.accountKey.Pass? && acme.csr.Pass?
    ensures var o := GenerateCertificate(subdomains, certificates, subdomainId, webServerPort, acme, now);
      GetCertificatesBySubdomain(o.certificates, subdomainId)
        == GetCertificatesBySubdomain(certificates, subdomainId) + [o.result.value]
  {
    var o := GenerateCertificate(subdomains, certificates, subdomainId, webServerPort, acme, now);
    var p := (c: Certificate) => c.subdomainId == subdomainId;
    FilterAppend(certificates, [o.result.value], p);
  }

  /**
    The files of a generated certificate lie in its domain's directory.
    When no earlier record has the new id, deleting the new record removes
    that directory and restores the list.
  */
  lemma GeneratedFilesInDomainDir(
    subdomains: seq<Subdomain>, certificates: seq<Certificate>,
    subdomainId: string, webServerPort: int, acme: Acme, now: nat)
    requires SubdomainService.GetSubdomainById(subdomains, subdomainId).Some? && acme.accountKey.Pass? && acme.csr.Pass?
    ensures var o := GenerateCertificate(subdomains, certificates, subdomainId, webServerPort, acme, now);
      var c := o.result.value;
      && DirName(c.certPath) == CertDir(c.domain)
      && DirName(c.keyPath) == CertDir(c.domain)
      && DirName(c.fullchainPath) == CertDir(c.domain)
      && ((forall j :: 0 <= j < |certificates| ==> certificates[j].id != c.id) ==>
            var d := DeleteCertificate(o.certificates, c.id);
            d.status == Pass && d.removedDir == Some(CertDir(c.domain)) && d.certificates == certificates)
  {
    var o := GenerateCertificate(subdomains, certificates, subdomainId, webServerPort, acme, now);
    var c := o.result.value;
    DirNameOfChild(CertDir(c.domain), "cert.pem");
    DirNameOfChild(CertDir(c.domain), "privkey.pem");
    DirNameOfChild(CertDir(c.domain), "fullchain.pem");
    if forall j :: 0 <= j < |certificates| ==> certificates[j].id != c.id {
      DeleteAppended(certificates, c);
    }
  }

  /** Deleting a record appended under a fresh id removes its directory and restores the list. */
  lemma DeleteAppended(certificates: seq<Certificate>, c: Certificate)
    requires forall j :: 0 <= j < |certificates| ==> certificates[j].id != c.id
    ensures DeleteCertificate(certificates + [c], c.id) == DeleteOutcome(Pass, Some(DirName(c.certPath)), certificates)
  {
    var all := certificates + [c];
    FindIndexAt(all, (x: Certificate) => x.id == c.id, |certificates|);
    assert RemoveAt(all, |certificates|) == certificates;
  }

  /**
    Two certificates generated for the same subdomain share their file
    paths: the later one's files replace the earlier one's, and deleting
    either record removes the directory both point to.
  */
  lemma SameSubdomainSharesFiles(
    subdomains: seq<Subdomain>, certificates: seq<Certificate>, certificates': seq<Certificate>,
    subdomainId: string, port: int, port': int, acme: Acme, now: nat, now': nat)
    requires SubdomainService.GetSubdomainById(subdomains, subdomainId).Some? && acme.accountKey.Pass? && acme.csr.Pass?
    ensures var c := GenerateCertificate(subdomains, certificates, subdomainId, port, acme, now).result.value;
      var c' := GenerateCertificate(subdomains, certificates', subdomainId, port', acme, now').result.value;
      c.certPath == c'.certPath && c.keyPath == c'.keyPath && c.fullchainPath == c'.fullchainPath
      && (now != now' ==> c.id != c'.id)
  {
    if now != now' {
      NatToStringInjective(now, now');
      var a := GenerateCertificate(subdomains, certificates, subdomainId, port, acme, now).result.value;
      var b := GenerateCertificate(subdomains, certificates', subdomainId, port', acme, now').result.value;
      assert a.id[5..] == NatToString(now);
      assert b.id[5..] == NatToString(now');
    }
  }

  /** Installing the same certificate twice at the same time is the same as installing it once. */
  lemma InstallIdempotent(certificates: seq<Certificate>, certId: string, serverType: string, now: int)
    ensures var once := InstallCertificate(certificates, certId, serverType, now);
      InstallCertificate(once.certificates, certId, serverType, now) == once
  {
    var once := InstallCertificate(certificates, certId, serverType, now);
    match IndexOfId(certificates, certId)
    case None =>
    case Some(i) =>
      FindIndexAt(once.certificates, (c: Certificate) => c.id == certId, i);
  }

  /** Installation keeps the list's ids, and a lookup afterwards sees the installed record. */
  lemma InstallThenGet(certificates: seq<Certificate>, certId: string, serverType: string, now: int)
    requires InstallCertificate(certificates, certId, serverType, now).result.Ok?
    ensures var after := InstallCertificate(certificates, certId, serverType, now).certificates;
      && Ids(after) == Ids(certificates)
      && GetCertificateById(after, certId).Some?
      && GetCertificateById(after, certId).value.status == Installed
      && GetCertificateById(after, certId).value.serverType == Some(serverType)
  {
    var i := IndexOfId(certificates, certId).value;
    var after := InstallCertificate(certificates, certId, serverType, now).certificates;
    FindIndexAt(after, (c: Certificate) => c.id == certId, i);
  }

  /** With unique ids, after a delete no record has the id and every other record remains. */
  lemma DeleteRemovesOnlyTarget(certificates: seq<Certificate>, id: string)
    requires forall i, j :: 0 <= i < j < |certificates| ==> certificates[i].id != certificates[j].id
    requires DeleteCertificate(certificates, id).status.Pass?
    ensures var after := DeleteCertificate(certificates, id).certificates;
      && GetCertificateById(after, id).None?
      && (forall c :: c in certificates && c.id != id ==> c in after)
  {
    var i := IndexOfId(certificates, id).value;
    var after := RemoveAt(certificates, i);
    forall c | c in certificates && c.id != id
      ensures c in after
    {
      var k :| 0 <= k < |certificates| && certificates[k] == c;
      if k < i { assert after[k] == c; } else { assert k > i; assert after[k - 1] == c; }
    }
  }
}
