/**
  The client store of certificates: a reducer from the slice state and one
  action to the next state. The actions are the lifecycle events of the six
  certificate requests and the four plain reducers.
*/
module SslSlice {
  import opened Common
  import opened AsyncThunk
  import S = SslService

  type Certificate = S.Certificate

  datatype Request = Generate | Install | GetAll | GetById | BySubdomain | Delete

  datatype State = State(
    certificates: seq<Certificate>,
    currentCertificate: Option<Certificate>,
    subdomainCertificates: seq<Certificate>,
    installationResult: Option<S.InstallResult>,
    loading: bool,
    error: Option<string>)

  datatype Action =
    | Started(request: Request)
    | Failed(request: Request, payloadError: Option<string>)
    | Generated(certificate: Certificate)
    | Installed(certId: string, serverType: string, result: S.InstallResult)
    | Listed(certificates: seq<Certificate>)
    | Fetched(certificate: Certificate)
    | ListedForSubdomain(certificates: seq<Certificate>)
    | Deleted(id: string)
    | ClearError
    | ClearInstallationResult
    | SetCurrentCertificate(current: Option<Certificate>)
    | ClearCurrentCertificate

  const Initial := State([], None, [], None, false, None)

  /** The message a rejected request leaves when its payload carries none. */
  function DefaultMessage(request: Request): (m: string)
    ensures m != ""
  {
    match request
    case Generate => "Failed to generate certificate"
    case Install => "Failed to install certificate"
    case GetAll => "Failed to get certificates"
    case GetById => "Failed to get certificate"
    case BySubdomain => "Failed to get certificates"
    case Delete => "Failed to delete certificate"
  }

  /** What an install does to a certificate the client holds. */
  function ShownInstalled(c: Certificate, serverType: string): Certificate {
    c.(status := S.Installed, serverType := Some(serverType))
  }

  predicate IsCurrent(s: State, id: string) {
    s.currentCertificate.Some? && s.currentCertificate.value.id == id
  }

  /**
    A fulfilled install: the result is kept, the first listed certificate
    with the id and the current certificate (when it has the id) show the
    installation; nothing else changes.
  */
  function OnInstalled(s: State, certId: string, serverType: string, result: S.InstallResult): (t: State)
    ensures !t.loading && t.installationResult == Some(result)
    ensures t.error == s.error && t.subdomainCertificates == s.subdomainCertificates
    ensures |t.certificates| == |s.certificates|
    ensures S.IndexOfId(s.certificates, certId).None? ==> t.certificates == s.certificates
    ensures S.IndexOfId(s.certificates, certId).Some? ==>
      var i := S.IndexOfId(s.certificates, certId).value;
      && t.certificates[i] == ShownInstalled(s.certificates[i], serverType)
      && forall j :: 0 <= j < |s.certificates| && j != i ==> t.certificates[j] == s.certificates[j]
    ensures IsCurrent(s, certId) ==> t.currentCertificate == Some(ShownInstalled(s.currentCertificate.value, serverType))
    ensures !IsCurrent(s, certId) ==> t.currentCertificate == s.currentCertificate
  {
    var certificates :=
      match S.IndexOfId(s.certificates, certId)
      case None => s.certificates
      case Some(i) => s.certificates[i := ShownInstalled(s.certificates[i], serverType)];
    var current := if IsCurrent(s, certId) then Some(ShownInstalled(s.currentCertificate.value, serverType)) else s.currentCertificate;
    s.(loading := false, installationResult := Some(result), certificates := certificates, currentCertificate := current)
  }

  function WithoutId(certificates: seq<Certificate>, id: string): seq<Certificate> {
    Filter(certificates, (c: Certificate) => c.id != id)
  }

  /**
    A fulfilled delete: no certificate with the id remains in either list,
    every other one stays, and the current certificate is cleared exactly
    when it has the id. The kept certificates stay in list order: the
    filter behind a delete keeps its input's order (`Common.FilterAppend`).
  */
  function OnDeleted(s: State, id: string): (t: State)
    ensures !t.loading && t.error == s.error && t.installationResult == s.installationResult
    ensures forall j :: 0 <= j < |t.certificates| ==> t.certificates[j].id != id && t.certificates[j] in s.certificates
    ensures forall j :: 0 <= j < |s.certificates| && s.certificates[j].id != id ==> s.certificates[j] in t.certificates
    ensures forall j :: 0 <= j < |t.subdomainCertificates| ==>
      t.subdomainCertificates[j].id != id && t.subdomainCertificates[j] in s.subdomainCertificates
    ensures forall j :: 0 <= j < |s.subdomainCertificates| && s.subdomainCertificates[j].id != id ==>
      s.subdomainCertificates[j] in t.subdomainCertificates
    ensures t.currentCertificate.None? <==> s.currentCertificate.None? || IsCurrent(s, id)
    ensures t.currentCertificate.Some? ==> t.currentCertificate == s.currentCertificate
  {
    s.(loading := false,
       certificates := WithoutId(s.certificates, id),
       subdomainCertificates := WithoutId(s.subdomainCertificates, id),
       currentCertificate := if IsCurrent(s, id) then None else s.currentCertificate)
  }

  /** The fields of the slice state. */
  datatype Field = Certificates | Current | SubdomainCertificates | InstallationResult | Loading | Error

  predicate Keeps(s: State, t: State, f: Field) {
    match f
    case Certificates => t.certificates == s.certificates
    case Current => t.currentCertificate == s.currentCertificate
    case SubdomainCertificates => t.subdomainCertificates == s.subdomainCertificates
    case InstallationResult => t.installationResult == s.installationResult
    case Loading => t.loading == s.loading
    case Error => t.error == s.error
  }

  /** `t` differs from `s` at most in the fields `fs`. */
  predicate ChangesAtMost(s: State, t: State, fs: set<Field>) {
    forall f: Field :: f !in fs ==> Keeps(s, t, f)
  }

  /**
    The reducer. Each action changes at most the fields named here: a start
    sets loading and clears the error (and, for an install, the previous
    installation result); a rejection stops loading and leaves the payload's
    message or the request's default; each fulfilment stops loading and
    writes the fields of its request; each plain reducer writes its one field.
  */
  function Reduce(s: State, a: Action): (t: State)
    ensures a.Started? ==> t.loading && t.error.None?
    ensures a.Started? && a.request == Install ==> t.installationResult.None? && ChangesAtMost(s, t, {Loading, Error, InstallationResult})
    ensures a.Started? && a.request != Install ==> ChangesAtMost(s, t, {Loading, Error})
    ensures a.Failed? ==> !t.loading && ChangesAtMost(s, t, {Loading, Error})
    ensures a.Failed? && a.payloadError.Some? && a.payloadError.value != "" ==> t.error == a.payloadError
    ensures a.Failed? && (a.payloadError.None? || a.payloadError.value == "") ==> t.error == Some(DefaultMessage(a.request))
    ensures a.Generated? ==> !t.loading && ChangesAtMost(s, t, {Loading, Certificates, Current})
    ensures a.Generated? ==> t.certificates == s.certificates + [a.certificate] && t.currentCertificate == Some(a.certificate)
    ensures a.Installed? ==> t == OnInstalled(s, a.certId, a.serverType, a.result)
    ensures a.Installed? ==> ChangesAtMost(s, t, {Loading, InstallationResult, Certificates, Current})
    ensures a.Listed? ==> !t.loading && t.certificates == a.certificates && ChangesAtMost(s, t, {Loading, Certificates})
    ensures a.Fetched? ==> !t.loading && t.currentCertificate == Some(a.certificate) && ChangesAtMost(s, t, {Loading, Current})
    ensures a.ListedForSubdomain? ==>
      !t.loading && t.subdomainCertificates == a.certificates && ChangesAtMost(s, t, {Loading, SubdomainCertificates})
    ensures a.Deleted? ==> t == OnDeleted(s, a.id)
    ensures a.Deleted? ==> ChangesAtMost(s, t, {Loading, Certificates, SubdomainCertificates, Current})
    ensures a.ClearError? ==> t.error.None? && ChangesAtMost(s, t, {Error})
    ensures a.ClearInstallationResult? ==> t.installationResult.None? && ChangesAtMost(s, t, {InstallationResult})
    ensures a.SetCurrentCertificate? ==> t.currentCertificate == a.current && ChangesAtMost(s, t, {Current})
    ensures a.ClearCurrentCertificate? ==> t.currentCertificate.None? && ChangesAtMost(s, t, {Current})
  {
    match a
    case Started(request) =>
      if request == Install then s.(loading := true, error := None, installationResult := None)
      else s.(loading := true, error := None)
    case Failed(request, payloadError) =>
      s.(loading := false, error := Some(RejectionMessage(payloadError, DefaultMessage(request))))
    case Generated(c) => s.(loading := false, certificates := s.certificates + [c], currentCertificate := Some(c))
    case Installed(certId, serverType, result) => OnInstalled(s, certId, serverType, result)
    case Listed(cs) => s.(loading := false, certificates := cs)
    case Fetched(c) => s.(loading := false, currentCertificate := Some(c))
    case ListedForSubdomain(cs) => s.(loading := false, subdomainCertificates := cs)
    case Deleted(id) => OnDeleted(s, id)
    case ClearError => s.(error := None)
    case ClearInstallationResult => s.(installationResult := None)
    case SetCurrentCertificate(c) => s.(currentCertificate := c)
    case ClearCurrentCertificate => s.(currentCertificate := None)
  }

  /** The state after a history of actions, oldest first. */
  function Run(s: State, history: seq<Action>): State
    decreases |history|
  {
    if |history| == 0 then s else Run(Reduce(s, history[0]), history[1..])
  }

  /** A settling action: the end of a request, fulfilled or rejected. */
  predicate Settles(a: Action) {
    a.Failed? || a.Generated? || a.Installed? || a.Listed? || a.Fetched? || a.ListedForSubdomain? || a.Deleted?
  }

  /**
    Along any history the error is cleared or readable, a start always
    leaves the store loading with no error, and a settling action always
    leaves it not loading.
  */
  lemma {:induction false} HistoryKeepsErrorReadable(s: State, history: seq<Action>)
    requires ValidError(s.error)
    ensures ValidError(Run(s, history).error)
    ensures |history| > 0 && history[|history| - 1].Started? ==> Run(s, history).loading && Run(s, history).error.None?
    ensures |history| > 0 && Settles(history[|history| - 1]) ==> !Run(s, history).loading
    decreases |history|
  {
    if |history| > 0 {
      HistoryKeepsErrorReadable(Reduce(s, history[0]), history[1..]);
      if |history| > 1 {
        assert history[1..][|history[1..]| - 1] == history[|history| - 1];
      }
    }
  }

  /** Applying the same fulfilled install twice is applying it once. */
  lemma InstallIdempotent(s: State, certId: string, serverType: string, result: S.InstallResult)
    ensures var a := Installed(certId, serverType, result);
      Reduce(Reduce(s, a), a) == Reduce(s, a)
  {
    var t := OnInstalled(s, certId, serverType, result);
    var p := (c: Certificate) => c.id == certId;
    match S.IndexOfId(s.certificates, certId)
    case None =>
      assert t.certificates == s.certificates;
    case Some(i) =>
      assert forall j :: 0 <= j < |s.certificates| ==> t.certificates[j].id == s.certificates[j].id;
      FindIndexAt(t.certificates, p, i);
      assert S.IndexOfId(t.certificates, certId) == Some(i);
      assert t.certificates[i := ShownInstalled(t.certificates[i], serverType)] == t.certificates;
  }

  /** Applying the same fulfilled delete twice is applying it once. */
  lemma DeleteIdempotent(s: State, id: string)
    ensures Reduce(Reduce(s, Deleted(id)), Deleted(id)) == Reduce(s, Deleted(id))
  {
    FilterIdempotent(s.certificates, (c: Certificate) => c.id != id);
    FilterIdempotent(s.subdomainCertificates, (c: Certificate) => c.id != id);
  }

  /**
    A certificate generated with an id no listed certificate has, then
    deleted, leaves the list as it was.
  */
  lemma GenerateThenDelete(s: State, c: Certificate)
    requires forall j :: 0 <= j < |s.certificates| ==> s.certificates[j].id != c.id
    ensures Reduce(Reduce(s, Generated(c)), Deleted(c.id)).certificates == s.certificates
    ensures Reduce(Reduce(s, Generated(c)), Deleted(c.id)).currentCertificate.None?
  {
    var p := (x: Certificate) => x.id != c.id;
    FilterAppend(s.certificates, [c], p);
    FilterKeepsAll(s.certificates, p);
    assert Filter([c], p) == [];
  }
}
