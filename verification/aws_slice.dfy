/**
  The client store of the cloud-credentials status: whether credentials
  are configured, their region, and the result of the last validation,
  driven by the lifecycle events of four requests and two plain reducers.
*/
module AwsSlice {
  import opened Common
  import opened AsyncThunk

  datatype Request = Save | CheckStatus | Remove | Validate

  /** What a validation reports; a rejected validation is recorded as `{valid: false}`. */
  datatype Validation = Validation(valid: bool, message: Option<string>)

  datatype State = State(
    isConfigured: bool,
    region: Option<string>,
    loading: bool,
    error: Option<string>,
    validationResult: Option<Validation>)

  datatype Action =
    | Started(request: Request)
    | Failed(request: Request, payloadError: Option<string>)
    | Saved
    | StatusChecked(configured: bool, region: Option<string>)
    | Removed
    | Validated(result: Validation)
    | ClearError
    | ClearValidationResult

  const Initial := State(false, None, false, None, None)

  function DefaultMessage(request: Request): (m: string)
    ensures m != ""
  {
    match request
    case Save => "Failed to save AWS credentials"
    case CheckStatus => "Failed to check AWS credentials status"
    case Remove => "Failed to delete AWS credentials"
    case Validate => "Failed to validate AWS credentials"
  }

  datatype Field = IsConfigured | Region | Loading | Error | ValidationResult

  predicate Keeps(s: State, t: State, f: Field) {
    match f
    case IsConfigured => t.isConfigured == s.isConfigured
    case Region => t.region == s.region
    case Loading => t.loading == s.loading
    case Error => t.error == s.error
    case ValidationResult => t.validationResult == s.validationResult
  }

  /** `t` differs from `s` at most in the fields `fs`. */
  predicate ChangesAtMost(s: State, t: State, fs: set<Field>) {
    forall f: Field :: f !in fs ==> Keeps(s, t, f)
  }

  /**
    The reducer. A start sets loading and clears the error, and a
    validation start also forgets the previous validation; a rejection stops
    loading and leaves a message, and a rejected validation is recorded as
    invalid; a save marks the credentials configured without touching the
    region; a status check copies both; a removal clears both.
  */
  function Reduce(s: State, a: Action): (t: State)
    ensures a.Started? ==> t.loading && t.error.None?
    ensures a.Started? && a.request == Validate ==> t.validationResult.None? && ChangesAtMost(s, t, {Loading, Error, ValidationResult})
    ensures a.Started? && a.request != Validate ==> ChangesAtMost(s, t, {Loading, Error})
    ensures a.Failed? ==> !t.loading
    ensures a.Failed? && a.payloadError.Some? && a.payloadError.value != "" ==> t.error == a.payloadError
    ensures a.Failed? && (a.payloadError.None? || a.payloadError.value == "") ==> t.error == Some(DefaultMessage(a.request))
    ensures a.Failed? && a.request == Validate ==>
      t.validationResult == Some(Validation(false, None)) && ChangesAtMost(s, t, {Loading, Error, ValidationResult})
    ensures a.Failed? && a.request != Validate ==> ChangesAtMost(s, t, {Loading, Error})
    ensures a.Saved? ==> !t.loading && t.isConfigured && ChangesAtMost(s, t, {Loading, IsConfigured})
    ensures a.StatusChecked? ==>
      !t.loading && t.isConfigured == a.configured && t.region == a.region && ChangesAtMost(s, t, {Loading, IsConfigured, Region})
    ensures a.Removed? ==> !t.loading && !t.isConfigured && t.region.None? && ChangesAtMost(s, t, {Loading, IsConfigured, Region})
    ensures a.Validated? ==> !t.loading && t.validationResult == Some(a.result) && ChangesAtMost(s, t, {Loading, ValidationResult})
    ensures a.ClearError? ==> t.error.None? && ChangesAtMost(s, t, {Error})
    ensures a.ClearValidationResult? ==> t.validationResult.None? && ChangesAtMost(s, t, {ValidationResult})
  {
    match a
    case Started(request) =>
      if request == Validate then s.(loading := true, error := None, validationResult := None)
      else s.(loading := true, error := None)
    case Failed(request, payloadError) =>
      var failed := s.(loading := false, error := Some(RejectionMessage(payloadError, DefaultMessage(request))));
      if request == Validate then failed.(validationResult := Some(Validation(false, None))) else failed
    case Saved => s.(loading := false, isConfigured := true)
    case StatusChecked(configured, region) => s.(loading := false, isConfigured := configured, region := region)
    case Removed => s.(loading := false, isConfigured := false, region := None)
    case Validated(result) => s.(loading := false, validationResult := Some(result))
    case ClearError => s.(error := None)
    case ClearValidationResult => s.(validationResult := None)
  }

  function Run(s: State, history: seq<Action>): State
    decreases |history|
  {
    if |history| == 0 then s else Run(Reduce(s, history[0]), history[1..])
  }

  predicate Settles(a: Action) {
    a.Failed? || a.Saved? || a.StatusChecked? || a.Removed? || a.Validated?
  }

  /**
    Along any history the error is cleared or readable, a start leaves the
    store loading with no error, and a settling action leaves it not loading.
  */
  lemma {:induction false} HistoryKeepsErrorReadable(s: State, history: seq<Action>)
    requires ValidError(s.error)
    ensures ValidError(Run(s, history).error)
    ensures |history| > 0 && history[|history| - 1].Started? ==> Run(s, history).loading && Run(s, history).error.None?
    ensures |history| > 0 && Settles(history[|history| - 1]) ==> !Run(s, history).loading
    decreases |history|
  {
    if |history| > 0 {
      HistoryKeepsErrorReadable(Reduce(s, history[0]), history[1..]);
      if |history| > 1 {
        assert history[1..][|history[1..]| - 1] == history[|history| - 1];
      }
    }
  }

  /** Whether the credentials are configured, after a history: the last settling action that decides it. */
  function ConfiguredAfter(initial: bool, history: seq<Action>): bool
    decreases |history|
  {
    if |history| == 0 then initial
    else
      var a := history[|history| - 1];
      match a
      case Saved => true
      case Removed => false
      case StatusChecked(configured, _) => configured
      case _ => ConfiguredAfter(initial, history[..|history| - 1])
  }

  /**
    The configured flag only ever reflects the latest save, removal or
    status check; starts, rejections, validations and the plain reducers
    leave it alone.
  */
  lemma {:induction false} ConfiguredFollowsLastDecision(s: State, history: seq<Action>)
    ensures Run(s, history).isConfigured == ConfiguredAfter(s.isConfigured, history)
    decreases |history|
  {
    if |history| > 0 {
      var last := |history| - 1;
      var prefix := history[..last];
      RunAppend(s, prefix, history[last]);
      assert prefix + [history[last]] == history;
      ConfiguredFollowsLastDecision(s, prefix);
    }
  }

  /** Running a history and then one more action is running the longer history. */
  lemma {:induction false} RunAppend(s: State, history: seq<Action>, a: Action)
    ensures Run(s, history + [a]) == Reduce(Run(s, history), a)
    decreases |history|
  {
    if |history| == 0 {
      assert history + [a] == [a];
    } else {
      assert (history + [a])[1..] == history[1..] + [a];
      RunAppend(Reduce(s, history[0]), history[1..], a);
    }
  }
}
