/**
  The client store of subdomains: the public address, the hosted zones,
  the subdomain list and the subdomain on display, driven by the lifecycle
  events of six requests and three plain reducers.
*/
module SubdomainSlice {
  import opened Common
  import opened AsyncThunk
  import D = SubdomainService

  type Subdomain = D.Subdomain

  datatype Request = PublicIp | HostedZones | Create | GetAll | GetById | Delete

  datatype State = State(
    publicIp: Option<string>,
    hostedZones: seq<D.ZoneSummary>,
    subdomains: seq<Subdomain>,
    currentSubdomain: Option<Subdomain>,
    loading: bool,
    error: Option<string>)

  datatype Action =
    | Started(request: Request)
    | Failed(request: Request, payloadError: Option<string>)
    | GotPublicIp(ip: Option<string>)
    | GotHostedZones(zones: seq<D.ZoneSummary>)
    | Created(created: D.Created)
    | Listed(subdomains: seq<Subdomain>)
    | Fetched(subdomain: Subdomain)
    | Deleted(id: string)
    | ClearError
    | SetCurrentSubdomain(current: Option<Subdomain>)
    | ClearCurrentSubdomain

  const Initial := State(None, [], [], None, false, None)

  function DefaultMessage(request: Request): (m: string)
    ensures m != ""
  {
    match request
    case PublicIp => "Failed to get public IP"
    case HostedZones => "Failed to get hosted zones"
    case Create => "Failed to create subdomain"
    case GetAll => "Failed to get subdomains"
    case GetById => "Failed to get subdomain"
    case Delete => "Failed to delete subdomain"
  }

  datatype Field = PublicIpField | HostedZonesField | Subdomains | Current | Loading | Error

  predicate Keeps(s: State, t: State, f: Field) {
    match f
    case PublicIpField => t.publicIp == s.publicIp
    case HostedZonesField => t.hostedZones == s.hostedZones
    case Subdomains => t.subdomains == s.subdomains
    case Current => t.currentSubdomain == s.currentSubdomain
    case Loading => t.loading == s.loading
    case Error => t.error == s.error
  }

  /** `t` differs from `s` at most in the fields `fs`. */
  predicate ChangesAtMost(s: State, t: State, fs: set<Field>) {
    forall f: Field :: f !in fs ==> Keeps(s, t, f)
  }

  predicate IsCurrent(s: State, id: string) {
    s.currentSubdomain.Some? && s.currentSubdomain.value.id == id
  }

  function WithoutId(subdomains: seq<Subdomain>, id: string): seq<Subdomain> {
    Filter(subdomains, (x: Subdomain) => x.id != id)
  }

  /**
    The reducer. A start sets loading and clears the error; a rejection
    stops loading and leaves the payload's message or the request's
    default; a fulfilled create only stops loading, so the new subdomain
    appears after the list is fetched again; a fulfilled delete drops every
    subdomain with the id and the displayed one when it has the id. The
    kept subdomains stay in list order: the filter behind a delete keeps
    its input's order (`Common.FilterAppend`).
  */
  function Reduce(s: State, a: Action): (t: State)
    ensures a.Started? ==> t.loading && t.error.None? && ChangesAtMost(s, t, {Loading, Error})
    ensures a.Failed? ==> !t.loading && ChangesAtMost(s, t, {Loading, Error})
    ensures a.Failed? && a.payloadError.Some? && a.payloadError.value != "" ==> t.error == a.payloadError
    ensures a.Failed? && (a.payloadError.None? || a.payloadError.value == "") ==> t.error == Some(DefaultMessage(a.request))
    ensures a.GotPublicIp? ==> !t.loading && t.publicIp == a.ip && ChangesAtMost(s, t, {Loading, PublicIpField})
    ensures a.GotHostedZones? ==> !t.loading && t.hostedZones == a.zones && ChangesAtMost(s, t, {Loading, HostedZonesField})
    ensures a.Created? ==> !t.loading && ChangesAtMost(s, t, {Loading})
    ensures a.Listed? ==> !t.loading && t.subdomains == a.subdomains && ChangesAtMost(s, t, {Loading, Subdomains})
    ensures a.Fetched? ==> !t.loading && t.currentSubdomain == Some(a.subdomain) && ChangesAtMost(s, t, {Loading, Current})
    ensures a.Deleted? ==> !t.loading && ChangesAtMost(s, t, {Loading, Subdomains, Current})
    ensures a.Deleted? ==> forall j :: 0 <= j < |t.subdomains| ==> t.subdomains[j].id != a.id && t.subdomains[j] in s.subdomains
    ensures a.Deleted? ==> forall j :: 0 <= j < |s.subdomains| && s.subdomains[j].id != a.id ==> s.subdomains[j] in t.subdomains
    ensures a.Deleted? ==> (t.currentSubdomain.None? <==> s.currentSubdomain.None? || IsCurrent(s, a.id))
    ensures a.Deleted? && !IsCurrent(s, a.id) ==> t.currentSubdomain == s.currentSubdomain
    ensures a.ClearError? ==> t.error.None? && ChangesAtMost(s, t, {Error})
    ensures a.SetCurrentSubdomain? ==> t.currentSubdomain == a.current && ChangesAtMost(s, t, {Current})
    ensures a.ClearCurrentSubdomain? ==> t.currentSubdomain.None? && ChangesAtMost(s, t, {Current})
  {
    match a
    case Started(_) => s.(loading := true, error := None)
    case Failed(request, payloadError) =>
      s.(loading := false, error := Some(RejectionMessage(payloadError, DefaultMessage(request))))
    case GotPublicIp(ip) => s.(loading := false, publicIp := ip)
    case GotHostedZones(zones) => s.(loading := false, hostedZones := zones)
    case Created(_) => s.(loading := false)
    case Listed(subdomains) => s.(loading := false, subdomains := subdomains)
    case Fetched(subdomain) => s.(loading := false, currentSubdomain := Some(subdomain))
    case Deleted(id) =>
      s.(loading := false,
         subdomains := WithoutId(s.subdomains, id),
         currentSubdomain := if IsCurrent(s, id) then None else s.currentSubdomain)
    case ClearError => s.(error := None)
    case SetCurrentSubdomain(c) => s.(currentSubdomain := c)
    case ClearCurrentSubdomain => s.(currentSubdomain := None)
  }

  /** The state after a history of actions, oldest first. */
  function Run(s: State, history: seq<Action>): State
    decreases |history|
  {
    if |history| == 0 then s else Run(Reduce(s, history[0]), history[1..])
  }

  predicate Settles(a: Action) {
    a.Failed? || a.GotPublicIp? || a.GotHostedZones? || a.Created? || a.Listed? || a.Fetched? || a.Deleted?
  }

  /**
    Along any history the error is cleared or readable, a start leaves the
    store loading with no error, and a settling action leaves it not loading.
  */
  lemma {:induction false} HistoryKeepsErrorReadable(s: State, history: seq<Action>)
    requires ValidError(s.error)
    ensures ValidError(Run(s, history).error)
    ensures |history| > 0 && history[|history| - 1].Started? ==> Run(s, history).loading && Run(s, history).error.None?
    ensures |history| > 0 && Settles(history[|history| - 1]) ==> !Run(s, history).loading
    decreases |history|
  {
    if |history| > 0 {
      HistoryKeepsErrorReadable(Reduce(s, history[0]), history[1..]);
      if |history| > 1 {
        assert history[1..][|history[1..]| - 1] == history[|history| - 1];
      }
    }
  }

  /** Applying the same fulfilled delete twice is applying it once. */
  lemma DeleteIdempotent(s: State, id: string)
    ensures Reduce(Reduce(s, Deleted(id)), Deleted(id)) == Reduce(s, Deleted(id))
  {
    FilterIdempotent(s.subdomains, (x: Subdomain) => x.id != id);
  }

  /** Dropping every record with the id of the `i`-th one of a list with unique ids removes just that record. */
  lemma {:induction false} WithoutUniqueId(store: seq<Subdomain>, i: nat)
    requires D.UniqueIds(store) && i < |store|
    ensures WithoutId(store, store[i].id) == RemoveAt(store, i)
  {
    var id := store[i].id;
    var p := (x: Subdomain) => x.id != id;
    var before, after := store[..i], store[i + 1..];
    forall j | 0 <= j < |before| ensures p(before[j]) {
      assert before[j] == store[j];
    }
    forall j | 0 <= j < |after| ensures p(after[j]) {
      assert after[j] == store[i + 1 + j];
    }
    FilterDropsOne(before, store[i], after, p);
    assert store == before + [store[i]] + after;
    assert RemoveAt(store, i) == before + after;
  }

  /**
    When the client shows the server's list and ids are unique, the list a
    fulfilled delete leaves is the list the server keeps after deleting.
  */
  lemma ClientDeleteMatchesServer(s: State, id: string, change: Outcome)
    requires D.UniqueIds(s.subdomains)
    requires D.DeleteSubdomain(s.subdomains, id, true, change).status.Pass?
    ensures Reduce(s, Deleted(id)).subdomains == D.DeleteSubdomain(s.subdomains, id, true, change).store
  {
    var i := D.IndexOfId(s.subdomains, id).value;
    WithoutUniqueId(s.subdomains, i);
  }
}
