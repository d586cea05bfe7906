/**
  The client store of the host probe: the last scan time, the detected
  servers and the last port lists, driven by the lifecycle events of three
  requests and one plain reducer.
*/
module WebserverSlice {
  import opened Common
  import opened AsyncThunk
  import W = WebserverService

  datatype Request = ScanServers | GetDetections | ScanPorts

  datatype State = State(
    lastScan: Option<int>,
    detections: seq<W.Detection>,
    ports: W.PortLists,
    loading: bool,
    error: Option<string>)

  datatype Action =
    | Started(request: Request)
    | Failed(request: Request, payloadError: Option<string>)
    | Scanned(snapshot: W.Snapshot)
    | GotDetections(snapshot: W.Snapshot)
    | PortsScanned(ports: W.PortLists)
    | ClearError

  /** The store before any request: no scan, no detections, both port lists empty. */
  function Initial(): (s: State)
    ensures s.lastScan.None? && s.detections == [] && s.ports.open == [] && s.ports.closed == []
    ensures !s.loading && s.error.None?
  {
    State(None, [], W.PortLists([], []), false, None)
  }

  function DefaultMessage(request: Request): (m: string)
    ensures m != ""
  {
    match request
    case ScanServers => "Failed to scan web servers"
    case GetDetections => "Failed to get web server detections"
    case ScanPorts => "Failed to scan ports"
  }

  datatype Field = LastScan | Detections | Ports | Loading | Error

  predicate Keeps(s: State, t: State, f: Field) {
    match f
    case LastScan => t.lastScan == s.lastScan
    case Detections => t.detections == s.detections
    case Ports => t.ports == s.ports
    case Loading => t.loading == s.loading
    case Error => t.error == s.error
  }

  /** `t` differs from `s` at most in the fields `fs`. */
  predicate ChangesAtMost(s: State, t: State, fs: set<Field>) {
    forall f: Field :: f !in fs ==> Keeps(s, t, f)
  }

  /**
    The reducer. A start sets loading and clears the error; a rejection
    stops loading and leaves a message; a scan or a read of the stored
    detections replaces the scan time and the detections wholesale; a port
    scan replaces both port lists and nothing else.
  */
  function Reduce(s: State, a: Action): (t: State)
    ensures a.Started? ==> t.loading && t.error.None? && ChangesAtMost(s, t, {Loading, Error})
    ensures a.Failed? ==> !t.loading && ChangesAtMost(s, t, {Loading, Error})
    ensures a.Failed? && a.payloadError.Some? && a.payloadError.value != "" ==> t.error == a.payloadError
    ensures a.Failed? && (a.payloadError.None? || a.payloadError.value == "") ==> t.error == Some(DefaultMessage(a.request))
    ensures (a.Scanned? || a.GotDetections?) ==>
      !t.loading && t.lastScan == a.snapshot.lastScan && t.detections == a.snapshot.detections
      && ChangesAtMost(s, t, {Loading, LastScan, Detections})
    ensures a.PortsScanned? ==>
      !t.loading && t.ports.open == a.ports.open && t.ports.closed == a.ports.closed && ChangesAtMost(s, t, {Loading, Ports})
    ensures a.ClearError? ==> t.error.None? && ChangesAtMost(s, t, {Error})
  {
    match a
    case Started(_) => s.(loading := true, error := None)
    case Failed(request, payloadError) =>
      s.(loading := false, error := Some(RejectionMessage(payloadError, DefaultMessage(request))))
    case Scanned(snapshot) => s.(loading := false, lastScan := snapshot.lastScan, detections := snapshot.detections)
    case GotDetections(snapshot) => s.(loading := false, lastScan := snapshot.lastScan, detections := snapshot.detections)
    case PortsScanned(ports) => s.(loading := false, ports := W.PortLists(ports.open, ports.closed))
    case ClearError => s.(error := None)
  }

  function Run(s: State, history: seq<Action>): State
    decreases |history|
  {
    if |history| == 0 then s else Run(Reduce(s, history[0]), history[1..])
  }

  predicate Settles(a: Action) {
    a.Failed? || a.Scanned? || a.GotDetections? || a.PortsScanned?
  }

  /**
    Along any history the error is cleared or readable, a start leaves the
    store loading with no error, and a settling action leaves it not loading.
  */
  lemma {:induction false} HistoryKeepsErrorReadable(s: State, history: seq<Action>)
    requires ValidError(s.error)
    ensures ValidError(Run(s, history).error)
    ensures |history| > 0 && history[|history| - 1].Started? ==> Run(s, history).loading && Run(s, history).error.None?
    ensures |history| > 0 && Settles(history[|history| - 1]) ==> !Run(s, history).loading
    decreases |history|
  {
    if |history| > 0 {
      HistoryKeepsErrorReadable(Reduce(s, history[0]), history[1..]);
      if |history| > 1 {
        assert history[1..][|history[1..]| - 1] == history[|history| - 1];
      }
    }
  }

  /** Whether an action writes the detections. */
  predicate Replaces(a: Action) {
    a.Scanned? || a.GotDetections?
  }

  /**
    The detections shown are those of the last scan or read of the stored
    detections in the history, whatever came before it; with none, they
    are unchanged. Port scans never touch them.
  */
  lemma {:induction false} DetectionsFromLastSnapshot(s: State, history: seq<Action>, k: nat)
    requires k < |history| && Replaces(history[k])
    requires forall j :: k < j < |history| ==> !Replaces(history[j])
    ensures Run(s, history).detections == history[k].snapshot.detections
    ensures Run(s, history).lastScan == history[k].snapshot.lastScan
    decreases |history|
  {
    if k == 0 {
      NoReplaceKeepsDetections(Reduce(s, history[0]), history[1..]);
    } else {
      forall j | k - 1 < j < |history[1..]| ensures !Replaces(history[1..][j]) {
        assert history[1..][j] == history[j + 1];
      }
      DetectionsFromLastSnapshot(Reduce(s, history[0]), history[1..], k - 1);
    }
  }

  lemma {:induction false} NoReplaceKeepsDetections(s: State, history: seq<Action>)
    requires forall j :: 0 <= j < |history| ==> !Replaces(history[j])
    ensures Run(s, history).detections == s.detections && Run(s, history).lastScan == s.lastScan
    decreases |history|
  {
    if |history| > 0 {
      NoReplaceKeepsDetections(Reduce(s, history[0]), history[1..]);
    }
  }
}
