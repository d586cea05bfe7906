/**
  The host probe: which process owns a listening port (from the text `lsof`
  prints), what kind of web server that process is (from its name, the
  version commands' text and its command line), the scan of the fixed web
  ports, and the detection pass that replaces the stored snapshot. Every
  shell command, the port scanner and the HEAD probe are reduced to the
  text or value they produce, `None` when they fail.
*/
module WebserverService {
  import opened Common
  import opened Text

  /** The ports the scan tries, in order. */
  const CommonPorts: seq<int> := [80, 443, 3000, 8000, 8080, 8443]
  const Unknown := "unknown"

  /** The owner of a listening socket; `pid` is None when the row has a single column. */
  datatype ProcessInfo = ProcessInfo(processName: string, pid: Option<string>)

  /**
    What the host's commands print while one port is examined, None when the
    command fails: `lsof -i :<port> -P -n -sTCP:LISTEN`, `nginx -v 2>&1`,
    `apachectl -v`, `ps -p <pid> -o command=` and `node -v`.
  */
  datatype PortProbe = PortProbe(
    lsof: Option<string>,
    nginxVersion: Option<string>,
    apacheVersion: Option<string>,
    command: Option<string>,
    nodeVersion: Option<string>)

  datatype ServerInfo = ServerInfo(port: int, processName: string, pid: Option<string>, serverType: string, serverVersion: string)

  datatype HttpResponse = HttpResponse(statusCode: int, headers: map<string, string>)

  datatype Detection = Detection(
    port: int,
    processName: string,
    pid: Option<string>,
    serverType: string,
    serverVersion: string,
    isSecure: bool,
    httpResponse: Option<HttpResponse>,
    detectedAt: int)

  datatype PortLists = PortLists(open: seq<int>, closed: seq<int>)

  /** The stored result of the last detection pass. */
  datatype Snapshot = Snapshot(lastScan: Option<int>, detections: seq<Detection>)

  datatype ScanOutcome = ScanOutcome(detections: seq<Detection>, snapshot: Snapshot)

  // ------------------------------------------------------------ lsof output

  /**
    The owner of a port from `lsof` output: nothing when the command fails,
    when the output is blank, or when it is a header alone; otherwise the
    first two blank-separated columns of the second line.
  */
  function ProcessFromLsof(output: Option<string>): (r: Option<ProcessInfo>)
    ensures r.Some? <==> output.Some? && '\n' in Trim(output.value)
    ensures r.Some? ==> NoSpace(r.value.processName)
    ensures r.Some? && r.value.pid.Some? ==> NoSpace(r.value.pid.value)
  {
    match output
    case None => None
    case Some(stdout) =>
      var t := Trim(stdout);
      if t == "" then None
      else
        var lines := SplitOn(t, '\n');
        SplitTwoIff(t, '\n');
        if |lines| < 2 then None
        else
          var parts := SplitWs(lines[1]);
          Some(ProcessInfo(parts[0], if |parts| >= 2 then Some(parts[1]) else None))
  }

  /** Of "<header>\n<row><more>" split into lines, the second line is the row. */
  lemma SecondLine(header: string, row: string, more: string)
    requires '\n' !in header && '\n' !in row
    requires more == [] || more[0] == '\n'
    ensures var lines := SplitOn(header + "\n" + row + more, '\n'); |lines| >= 2 && lines[1] == row
  {
    assert header + "\n" + row + more == header + ['\n'] + (row + more);
    SplitOnStep(header, row + more, '\n');
    SplitOnHead(row, more, '\n');
  }

  /** The first two columns of "<name><sep><pid><columns>" are the name and the pid, however wide the blank run `sep`. */
  lemma RowColumns(name: string, sep: string, pid: string, columns: string)
    requires |name| > 0 && NoSpace(name) && |pid| > 0 && NoSpace(pid)
    requires |sep| > 0 && forall i :: 0 <= i < |sep| ==> IsSpace(sep[i])
    requires columns == [] || IsSpace(columns[0])
    ensures var parts := SplitWs(name + sep + pid + columns); |parts| >= 2 && parts[0] == name && parts[1] == pid
  {
    assert name + sep + pid + columns == name + sep + (pid + columns);
    SplitWsRunStep(name, sep, pid + columns);
    SplitWsHead(pid, columns);
  }

  lemma NoNewlineInRow(name: string, sep: string, pid: string, columns: string)
    requires NoSpace(name) && NoSpace(pid) && '\n' !in sep && '\n' !in columns
    ensures '\n' !in name + sep + pid + columns
  {
    var row := name + sep + pid + columns;
    assert IsSpace('\n');
    forall j | 0 <= j < |row|
      ensures row[j] != '\n'
    {
      if j < |name| {
        assert row[j] == name[j];
      } else if j < |name| + |sep| {
        assert row[j] == sep[j - |name|];
      } else if j < |name| + |sep| + |pid| {
        assert row[j] == pid[j - |name| - |sep|];
      } else {
        assert row[j] == columns[j - |name| - |sep| - |pid|];
      }
    }
  }

  /**
    A header line followed by a row "<name><sep><pid> ..." yields that name
    and pid, however wide the padding `sep` between the two columns,
    whatever further columns and lines follow, and whatever white space
    (such as the final newline) ends the output.
  */
  lemma ProcessFromLsofRow(header: string, name: string, sep: string, pid: string, columns: string, more: string, ws: string)
    requires |header| > 0 && !IsSpace(header[0]) && '\n' !in header
    requires |name| > 0 && NoSpace(name) && |pid| > 0 && NoSpace(pid)
    requires |sep| > 0 && '\n' !in sep && forall i :: 0 <= i < |sep| ==> IsSpace(sep[i])
    requires '\n' !in columns && (columns == [] || IsSpace(columns[0]))
    requires more == [] || more[0] == '\n'
    requires var out := header + "\n" + name + sep + pid + columns + more; !IsSpace(out[|out| - 1])
    requires forall i :: 0 <= i < |ws| ==> IsSpace(ws[i])
    ensures ProcessFromLsof(Some(header + "\n" + name + sep + pid + columns + more + ws)) == Some(ProcessInfo(name, Some(pid)))
  {
    var row := name + sep + pid + columns;
    var out := header + "\n" + name + sep + pid + columns + more;
    assert out == header + "\n" + row + more;
    TrimTrailingSpaces(out, ws);
    NoNewlineInRow(name, sep, pid, columns);
    SecondLine(header, row, more);
    RowColumns(name, sep, pid, columns);
  }

  // --------------------------------------------------------- classification

  datatype Family = Nginx | Apache | Node | Other

  /** The server family named by the lower-cased process name. */
  function FamilyOf(processName: string): (f: Family)
    ensures f == Nginx <==> ToLower(processName) == "nginx"
    ensures f == Apache <==> ToLower(processName) == "apache2" || ToLower(processName) == "httpd"
    ensures f == Node <==> ToLower(processName) == "node"
  {
    var lc := ToLower(processName);
    if lc == "nginx" then Nginx
    else if lc == "apache2" || lc == "httpd" then Apache
    else if lc == "node" then Node
    else Other
  }

  /** Classification ignores the case of the process name. */
  lemma FamilyIgnoresCase(processName: string)
    ensures FamilyOf(ToLower(processName)) == FamilyOf(processName)
  {
    ToLowerIdempotent(processName);
  }

  lemma ToLowerIdempotent(s: string)
    ensures ToLower(ToLower(s)) == ToLower(s)
  {
  }

  /** The framework a Node.js command line names, by priority express, koa, hapi, next. */
  function NodeFramework(command: string): (t: string)
    ensures t == "express.js" <==> Contains(command, "express")
    ensures t == "koa.js" <==> !Contains(command, "express") && Contains(command, "koa")
    ensures t == "hapi.js" <==> !Contains(command, "express") && !Contains(command, "koa") && Contains(command, "hapi")
    ensures t == "next.js" <==>
      !Contains(command, "express") && !Contains(command, "koa") && !Contains(command, "hapi") && Contains(command, "next")
    ensures t == "node.js" <==>
      !Contains(command, "express") && !Contains(command, "koa") && !Contains(command, "hapi") && !Contains(command, "next")
  {
    if Contains(command, "express") then "express.js"
    else if Contains(command, "koa") then "koa.js"
    else if Contains(command, "hapi") then "hapi.js"
    else if Contains(command, "next") then "next.js"
    else "node.js"
  }

  // --------------------------------------------------------- version regex

  predicate AllDigits(s: string) {
    |s| > 0 && forall k :: 0 <= k < |s| ==> IsDigit(s[k])
  }

  /** A text the pattern `\d+\.\d+\.\d+` matches in full. */
  predicate IsVersion(v: string) {
    exists i, j :: 0 < i < j < |v| && v[i] == '.' && v[j] == '.'
      && AllDigits(v[..i]) && AllDigits(v[i + 1..j]) && AllDigits(v[j + 1..])
  }

  /** The length of the run of digits starting at `i`. */
  function DigitRun(s: string, i: nat): (n: nat)
    requires i <= |s|
    ensures i + n <= |s|
    ensures forall k :: i <= k < i + n ==> IsDigit(s[k])
    ensures i + n == |s| || !IsDigit(s[i + n])
    decreases |s| - i
  {
    if i < |s| && IsDigit(s[i]) then 1 + DigitRun(s, i + 1) else 0
  }

  lemma {:induction false} DigitRunExact(s: string, i: nat, n: nat)
    requires i + n <= |s|
    requires forall k :: i <= k < i + n ==> IsDigit(s[k])
    requires i + n == |s| || !IsDigit(s[i + n])
    ensures DigitRun(s, i) == n
    decreases n
  {
    if n > 0 {
      DigitRunExact(s, i + 1, n - 1);
    }
  }

  /** Where `\d+\.` matched at `i` ends, if it matches there. */
  function AfterDottedRun(s: string, i: nat): (r: Option<nat>)
    requires i <= |s|
    ensures r.Some? ==> i + 2 <= r.value <= |s| && s[r.value - 1] == '.'
    ensures r.Some? ==> forall q :: i <= q < r.value - 1 ==> IsDigit(s[q])
  {
    var a := DigitRun(s, i);
    if a == 0 || i + a >= |s| || s[i + a] != '.' then None else Some(i + a + 1)
  }

  /** Where `\d+\.\d+\.\d+` matched at `i` ends, if it matches there. */
  function VersionEnd(s: string, i: nat): (r: Option<nat>)
    requires i <= |s|
    ensures r.Some? ==> i + 5 <= r.value <= |s|
  {
    match AfterDottedRun(s, i)
    case None => None
    case Some(j) =>
      match AfterDottedRun(s, j)
      case None => None
      case Some(k) =>
        var c := DigitRun(s, k);
        if c == 0 then None else Some(k + c)
  }

  /** What `\d+\.\d+\.\d+` matches at position `i` (digit runs are taken whole). */
  function VersionAt(s: string, i: nat): (r: Option<string>)
    requires i <= |s|
    ensures r.Some? ==> i + |r.value| <= |s| && r.value == s[i..i + |r.value|] && IsVersion(r.value)
  {
    match VersionEnd(s, i)
    case None => None
    case Some(e) =>
      MatchIsVersion(s, i);
      Some(s[i..e])
  }

  lemma MatchIsVersion(s: string, i: nat)
    requires i <= |s| && VersionEnd(s, i).Some?
    ensures IsVersion(s[i..VersionEnd(s, i).value])
  {
    var j := AfterDottedRun(s, i).value;
    var k := AfterDottedRun(s, j).value;
    var e := VersionEnd(s, i).value;
    var v := s[i..e];
    assert e == k + DigitRun(s, k);
    var x, y := j - 1 - i, k - 1 - i;
    var major, minor, patch := v[..x], v[x + 1..y], v[y + 1..];
    assert 0 < x < y < |v| && v[x] == s[j - 1] && v[y] == s[k - 1];
    forall q | 0 <= q < |major| ensures IsDigit(major[q]) {
      assert major[q] == v[q] == s[i + q];
      assert i <= i + q < j - 1;
    }
    forall q | 0 <= q < |minor| ensures IsDigit(minor[q]) {
      assert minor[q] == v[x + 1 + q] == s[j + q];
      assert j <= j + q < k - 1;
    }
    forall q | 0 <= q < |patch| ensures IsDigit(patch[q]) {
      assert patch[q] == v[y + 1 + q] == s[k + q];
      assert k <= k + q < e;
    }
    assert AllDigits(major) && AllDigits(minor) && AllDigits(patch);
  }

  lemma AfterDottedRunExact(s: string, i: nat, a: nat)
    requires 0 < a && i + a < |s| && s[i + a] == '.'
    requires forall q :: i <= q < i + a ==> IsDigit(s[q])
    ensures AfterDottedRun(s, i) == Some(i + a + 1)
  {
    DigitRunExact(s, i, a);
  }

  /** The group captured by the first match of `<prefix>(\d+\.\d+\.\d+)` at or after `p`. */
  function FirstVersionFrom(s: string, prefix: string, p: nat): (r: Option<string>)
    requires p <= |s|
    ensures r.Some? ==> IsVersion(r.value)
    ensures r.None? ==> forall q :: p <= q <= |s| && OccursAt(s, prefix, q) ==> VersionAt(s, q + |prefix|).None?
    decreases |s| - p
  {
    if OccursAt(s, prefix, p) && VersionAt(s, p + |prefix|).Some? then VersionAt(s, p + |prefix|)
    else if p == |s| then None
    else FirstVersionFrom(s, prefix, p + 1)
  }

  /** The version a command's output reports after `prefix`, or "unknown". */
  function VersionOrUnknown(output: Option<string>, prefix: string): (v: string)
    ensures v == Unknown || IsVersion(v)
    ensures v == Unknown <==> output.None? || FirstVersionFrom(output.value, prefix, 0).None?
  {
    match output
    case None => Unknown
    case Some(s) =>
      match FirstVersionFrom(s, prefix, 0)
      case None => Unknown
      case Some(v) =>
        assert v != Unknown by { assert IsVersion(v); assert !IsDigit(Unknown[0]); }
        v
  }

  /** Digit runs of lengths `a`, `b`, `c` separated by dots at `i`, the last one whole, are what the pattern matches there. */
  lemma VersionAtRuns(s: string, i: nat, a: nat, b: nat, c: nat)
    requires 0 < a && 0 < b && 0 < c && i + a + b + c + 2 <= |s|
    requires forall q :: i <= q < i + a ==> IsDigit(s[q])
    requires s[i + a] == '.'
    requires forall q :: i + a + 1 <= q < i + a + 1 + b ==> IsDigit(s[q])
    requires s[i + a + 1 + b] == '.'
    requires forall q :: i + a + b + 2 <= q < i + a + b + 2 + c ==> IsDigit(s[q])
    requires i + a + b + c + 2 == |s| || !IsDigit(s[i + a + b + c + 2])
    ensures VersionAt(s, i) == Some(s[i..i + a + b + c + 2])
  {
    AfterDottedRunExact(s, i, a);
    AfterDottedRunExact(s, i + a + 1, b);
    DigitRunExact(s, i + a + b + 2, c);
  }

  /** Three whole digit runs separated by dots at `i` are what the pattern matches there. */
  lemma VersionAtExact(s: string, i: nat, major: string, minor: string, patch: string)
    requires AllDigits(major) && AllDigits(minor) && AllDigits(patch)
    requires var v := major + "." + minor + "." + patch;
      i + |v| <= |s| && s[i..i + |v|] == v && (i + |v| == |s| || !IsDigit(s[i + |v|]))
    ensures VersionAt(s, i) == Some(major + "." + minor + "." + patch)
  {
    var v := major + "." + minor + "." + patch;
    var a, b, c := |major|, |minor|, |patch|;
    assert |v| == a + b + c + 2;
    forall q | i <= q < i + a ensures IsDigit(s[q]) {
      assert s[q] == v[q - i];
      assert v[q - i] == major[q - i];
    }
    assert s[i + a] == v[a];
    forall q | i + a + 1 <= q < i + a + 1 + b ensures IsDigit(s[q]) {
      assert s[q] == v[q - i];
      assert v[q - i] == minor[q - i - a - 1];
    }
    assert s[i + a + 1 + b] == v[a + 1 + b];
    forall q | i + a + b + 2 <= q < i + a + b + 2 + c ensures IsDigit(s[q]) {
      assert s[q] == v[q - i];
      assert v[q - i] == patch[q - i - a - b - 2];
    }
    VersionAtRuns(s, i, a, b, c);
  }

  /**
    A version printed after an occurrence of the prefix is the version
    reported when no earlier occurrence is followed by a version, whatever
    else precedes it, provided the digit run ends there.
  */
  lemma VersionReported(s: string, before: string, prefix: string, major: string, minor: string, patch: string, after: string)
    requires AllDigits(major) && AllDigits(minor) && AllDigits(patch)
    requires after == [] || !IsDigit(after[0])
    requires s == before + prefix + major + "." + minor + "." + patch + after
    requires forall q :: 0 <= q < |before| ==> !(OccursAt(s, prefix, q) && VersionAt(s, q + |prefix|).Some?)
    ensures VersionOrUnknown(Some(s), prefix) == major + "." + minor + "." + patch
  {
    VersionPrinted(before, prefix, major, minor, patch, after);
    ReportedAt(s, prefix, |before|, major + "." + minor + "." + patch);
  }

  /** A version printed after the prefix is found right behind that occurrence. */
  lemma VersionPrinted(before: string, prefix: string, major: string, minor: string, patch: string, after: string)
    requires AllDigits(major) && AllDigits(minor) && AllDigits(patch)
    requires after == [] || !IsDigit(after[0])
    ensures var s := before + prefix + major + "." + minor + "." + patch + after;
      OccursAt(s, prefix, |before|) && VersionAt(s, |before| + |prefix|) == Some(major + "." + minor + "." + patch)
  {
    var v := major + "." + minor + "." + patch;
    var s := before + prefix + major + "." + minor + "." + patch + after;
    assert s == before + prefix + v + after;
    var i := |before| + |prefix|;
    assert s[|before|..i] == prefix;
    assert s[i..i + |v|] == v;
    assert i + |v| == |s| || s[i + |v|] == after[0];
    VersionAtExact(s, i, major, minor, patch);
  }

  /** The version after the leftmost versioned occurrence of the prefix is the one reported. */
  lemma ReportedAt(s: string, prefix: string, b: nat, v: string)
    requires b <= |s| && OccursAt(s, prefix, b) && VersionAt(s, b + |prefix|) == Some(v)
    requires forall q :: 0 <= q < b ==> !(OccursAt(s, prefix, q) && VersionAt(s, q + |prefix|).Some?)
    ensures VersionOrUnknown(Some(s), prefix) == v
  {
    FirstVersionLeftmost(s, prefix, 0, b);
  }

  /** The search passes positions where no version follows an occurrence of the prefix. */
  lemma {:induction false} FirstVersionSkips(s: string, prefix: string, p: nat, q: nat)
    requires p <= q <= |s|
    requires forall k :: p <= k < q ==> !(OccursAt(s, prefix, k) && VersionAt(s, k + |prefix|).Some?)
    ensures FirstVersionFrom(s, prefix, p) == FirstVersionFrom(s, prefix, q)
    decreases q - p
  {
    if p < q {
      FirstVersionSkips(s, prefix, p + 1, q);
    }
  }

  /**
    The version found is the one after the leftmost occurrence of the prefix
    that a version follows, whatever occurrences without a version precede it.
  */
  lemma FirstVersionLeftmost(s: string, prefix: string, p: nat, q: nat)
    requires p <= q <= |s|
    requires OccursAt(s, prefix, q) && VersionAt(s, q + |prefix|).Some?
    requires forall k :: p <= k < q ==> !(OccursAt(s, prefix, k) && VersionAt(s, k + |prefix|).Some?)
    ensures FirstVersionFrom(s, prefix, p) == VersionAt(s, q + |prefix|)
  {
    FirstVersionSkips(s, prefix, p, q);
  }

  /** Nothing is found when no occurrence of the prefix is followed by a version. */
  lemma FirstVersionNone(s: string, prefix: string, p: nat)
    requires p <= |s|
    requires forall k :: p <= k <= |s| ==> !(OccursAt(s, prefix, k) && VersionAt(s, k + |prefix|).Some?)
    ensures FirstVersionFrom(s, prefix, p).None?
  {
    FirstVersionSkips(s, prefix, p, |s|);
  }

  // ---------------------------------------------------------- identification

  /**
    Identify the server owning a port. No process means no result. The
    process name decides the family; nginx and apache take their version
    from their version command, a Node process is refined by its command
    line and takes the trimmed `node -v`, anything else is "unknown".
  */
  function IdentifyWebServer(port: int, info: Option<ProcessInfo>, probe: PortProbe): (r: Option<ServerInfo>)
    ensures r.Some? <==> info.Some?
    ensures r.Some? ==> r.value.port == port && r.value.processName == info.value.processName && r.value.pid == info.value.pid
    ensures r.Some? && FamilyOf(info.value.processName) == Nginx ==>
      r.value.serverType == "nginx" && r.value.serverVersion == VersionOrUnknown(probe.nginxVersion, "nginx/")
    ensures r.Some? && FamilyOf(info.value.processName) == Apache ==>
      r.value.serverType == "apache" && r.value.serverVersion == VersionOrUnknown(probe.apacheVersion, "Apache/")
    ensures r.Some? && FamilyOf(info.value.processName) == Node ==>
      && (probe.command.None? ==> r.value.serverType == "node.js" && r.value.serverVersion == Unknown)
      && (probe.command.Some? ==> r.value.serverType == NodeFramework(probe.command.value))
      && (probe.command.Some? && probe.nodeVersion.None? ==> r.value.serverVersion == Unknown)
      && (probe.command.Some? && probe.nodeVersion.Some? ==> r.value.serverVersion == Trim(probe.nodeVersion.value))
    ensures r.Some? && FamilyOf(info.value.processName) == Other ==>
      r.value.serverType == Unknown && r.value.serverVersion == Unknown
  {
    match info
    case None => None
    case Some(pi) =>
      var (serverType, serverVersion) :=
        match FamilyOf(pi.processName)
        case Nginx => ("nginx", VersionOrUnknown(probe.nginxVersion, "nginx/"))
        case Apache => ("apache", VersionOrUnknown(probe.apacheVersion, "Apache/"))
        case Node =>
          (match probe.command
           case None => ("node.js", Unknown)
           case Some(cmd) =>
             (NodeFramework(cmd), match probe.nodeVersion case None => Unknown case Some(v) => Trim(v)))
        case Other => (Unknown, Unknown);
      Some(ServerInfo(port, pi.processName, pi.pid, serverType, serverVersion))
  }

  // ------------------------------------------------------- scan and detect

  /** The port scan: the scanner's answer, or every candidate closed when it fails. */
  function ScanPorts(scanner: Option<PortLists>): (r: PortLists)
    ensures scanner.None? ==> r.open == [] && r.closed == [80, 443, 3000, 8000, 8080, 8443]
    ensures scanner.Some? ==> r == scanner.value
  {
    match scanner
    case None => PortLists([], CommonPorts)
    case Some(lists) => lists
  }

  /** Whether the probe of a port is made over TLS. */
  predicate IsSecurePort(port: int) {
    port == 443 || port == 8443
  }

  function Ports(ds: seq<Detection>): seq<int> {
    seq(|ds|, i requires 0 <= i < |ds| => ds[i].port)
  }

  predicate HasOwner(probe: int -> PortProbe, port: int) {
    ProcessFromLsof(probe(port).lsof).Some?
  }

  /** The open ports whose owner is found, in scan order. */
  function OwnedPorts(open: seq<int>, probe: int -> PortProbe): seq<int> {
    Filter(open, port => HasOwner(probe, port))
  }

  /** What one open port contributes: a detection when its owner is found. */
  function DetectPort(port: int, probe: int -> PortProbe, liveness: (int, bool) -> Option<HttpResponse>, now: int): (d: Option<Detection>)
    ensures d.Some? <==> HasOwner(probe, port)
    ensures d.Some? ==> d.value.port == port && d.value.detectedAt == now
    ensures d.Some? ==> (d.value.isSecure <==> port == 443 || port == 8443)
    ensures d.Some? ==> d.value.httpResponse == liveness(port, d.value.isSecure)
    ensures d.Some? ==>
      IdentifyWebServer(port, ProcessFromLsof(probe(port).lsof), probe(port))
        == Some(ServerInfo(port, d.value.processName, d.value.pid, d.value.serverType, d.value.serverVersion))
  {
    var p := probe(port);
    match IdentifyWebServer(port, ProcessFromLsof(p.lsof), p)
    case None => None
    case Some(s) =>
      var secure := IsSecurePort(port);
      Some(Detection(s.port, s.processName, s.pid, s.serverType, s.serverVersion, secure, liveness(port, secure), now))
  }

  function Contribution(port: int, probe: int -> PortProbe, liveness: (int, bool) -> Option<HttpResponse>, now: int): seq<Detection> {
    match DetectPort(port, probe, liveness, now)
    case None => []
    case Some(d) => [d]
  }

  /** One detection per open port whose owner is found, in the order of the open ports. */
  function Detect(open: seq<int>, probe: int -> PortProbe, liveness: (int, bool) -> Option<HttpResponse>, now: int): (r: seq<Detection>)
    ensures |r| <= |open|
    ensures forall i :: 0 <= i < |r| ==> r[i].port in open && DetectPort(r[i].port, probe, liveness, now) == Some(r[i])
  {
    if |open| == 0 then []
    else Contribution(open[0], probe, liveness, now) + Detect(open[1..], probe, liveness, now)
  }

  /** The detected ports are exactly the open ports with an owner, in scan order. */
  lemma {:induction false} DetectedPorts(open: seq<int>, probe: int -> PortProbe, liveness: (int, bool) -> Option<HttpResponse>, now: int)
    ensures Ports(Detect(open, probe, liveness, now)) == OwnedPorts(open, probe)
  {
    if |open| > 0 {
      var head := Contribution(open[0], probe, liveness, now);
      var rest := Detect(open[1..], probe, liveness, now);
      DetectedPorts(open[1..], probe, liveness, now);
      PortsAppend(head, rest);
      assert Detect(open, probe, liveness, now) == head + rest;
      var own := port => HasOwner(probe, port);
      assert Filter(open, own) == (if own(open[0]) then [open[0]] else []) + Filter(open[1..], own);
      assert Ports(head) == (if own(open[0]) then [open[0]] else []);
    }
  }

  lemma PortsAppend(a: seq<Detection>, b: seq<Detection>)
    ensures Ports(a + b) == Ports(a) + Ports(b)
  {
  }

  /**
    A detection pass: scan, detect, and store the new detections with the
    scan time as the whole snapshot; nothing of the previous snapshot survives.
  */
  function DetectWebServers(
    scanner: Option<PortLists>, probe: int -> PortProbe,
    liveness: (int, bool) -> Option<HttpResponse>, now: int): (o: ScanOutcome)
    ensures o.snapshot.lastScan == Some(now)
    ensures o.snapshot.detections == o.detections
    ensures forall i :: 0 <= i < |o.detections| ==> o.detections[i].port in ScanPorts(scanner).open
    ensures scanner.None? ==> o.detections == []
    ensures Ports(o.detections) == OwnedPorts(ScanPorts(scanner).open, probe)
    ensures forall i :: 0 <= i < |o.detections| ==>
      DetectPort(o.detections[i].port, probe, liveness, now) == Some(o.detections[i])
  {
    var ds := Detect(ScanPorts(scanner).open, probe, liveness, now);
    DetectedPorts(ScanPorts(scanner).open, probe, liveness, now);
    ScanOutcome(ds, Snapshot(Some(now), ds))
  }

  /** The stored snapshot, or an empty one when it cannot be read. */
  function GetWebServerDetections(stored: Option<Snapshot>): (r: Snapshot)
    ensures stored.None? ==> r.lastScan.None? && r.detections == []
    ensures stored.Some? ==> r == stored.value
  {
    match stored
    case None => Snapshot(None, [])
    case Some(s) => s
  }

  /** `a` is `b` with every detection time replaced by `now`. */
  predicate Retimed(a: seq<Detection>, b: seq<Detection>, now: int) {
    |a| == |b| && forall i :: 0 <= i < |a| ==> a[i] == b[i].(detectedAt := now)
  }

  /**
    Two passes over the same host state differ only in the detection time.
    This is the determinism of the model, which takes the probes' answers as
    inputs; it says nothing about whether the host answers the same twice.
  */
  lemma {:induction false} DetectionIsStable(open: seq<int>, probe: int -> PortProbe, liveness: (int, bool) -> Option<HttpResponse>, now: int, later: int)
    ensures Retimed(Detect(open, probe, liveness, now), Detect(open, probe, liveness, later), now)
  {
    if |open| > 0 {
      var a0 := Contribution(open[0], probe, liveness, now);
      var b0 := Contribution(open[0], probe, liveness, later);
      var ar := Detect(open[1..], probe, liveness, now);
      var br := Detect(open[1..], probe, liveness, later);
      DetectionIsStable(open[1..], probe, liveness, now, later);
      assert Retimed(a0, b0, now);
      RetimedAppend(a0, ar, b0, br, now);
      assert Detect(open, probe, liveness, now) == a0 + ar;
      assert Detect(open, probe, liveness, later) == b0 + br;
    }
  }

  lemma RetimedAppend(a0: seq<Detection>, ar: seq<Detection>, b0: seq<Detection>, br: seq<Detection>, now: int)
    requires Retimed(a0, b0, now) && Retimed(ar, br, now)
    ensures Retimed(a0 + ar, b0 + br, now)
  {
    forall i | 0 <= i < |a0| + |ar|
      ensures (a0 + ar)[i] == (b0 + br)[i].(detectedAt := now)
    {
      if i >= |a0| {
        assert (a0 + ar)[i] == ar[i - |a0|] && (b0 + br)[i] == br[i - |a0|];
      }
    }
  }
}
