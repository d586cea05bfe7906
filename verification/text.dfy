/**
  The JavaScript string operations the services rely on, with their
  JavaScript meaning: `trim`, `split('\n')`, `split(/\s+/)`, `indexOf` /
  `includes`, `replace` of the first occurrence of a literal, ASCII
  lower-casing, and decimal rendering of a clock value.
*/
module Text {
  import opened Common

  /** The characters JavaScript's `trim` removes and `\s` matches (WhiteSpace and LineTerminator). */
  predicate IsSpace(c: char) {
    || c == ' ' || c == '\t' || c == '\n' || c == '\r' || c == '\U{B}' || c == '\U{C}'
    || c == '\U{A0}' || c == '\U{1680}' || ('\U{2000}' <= c <= '\U{200A}')
    || c == '\U{2028}' || c == '\U{2029}' || c == '\U{202F}' || c == '\U{205F}'
    || c == '\U{3000}' || c == '\U{FEFF}'
  }

  predicate NoSpace(s: string) {
    forall i :: 0 <= i < |s| ==> !IsSpace(s[i])
  }

  predicate IsDigit(c: char) {
    '0' <= c <= '9'
  }

  // ---------------------------------------------------------------- trim

  function TrimStart(s: string): (r: string)
    ensures |r| <= |s| && r == s[|s| - |r|..]
    ensures forall i :: 0 <= i < |s| - |r| ==> IsSpace(s[i])
    ensures r == [] || !IsSpace(r[0])
  {
    if |s| > 0 && IsSpace(s[0]) then TrimStart(s[1..]) else s
  }

  function TrimEnd(s: string): (r: string)
    ensures |r| <= |s| && r == s[..|r|]
    ensures forall i :: |r| <= i < |s| ==> IsSpace(s[i])
    ensures r == [] || !IsSpace(r[|r| - 1])
  {
    if |s| > 0 && IsSpace(s[|s| - 1]) then TrimEnd(s[..|s| - 1]) else s
  }

  /** `String.prototype.trim`. */
  function Trim(s: string): (r: string)
    ensures r == [] || (!IsSpace(r[0]) && !IsSpace(r[|r| - 1]))
    ensures r == [] <==> forall i :: 0 <= i < |s| ==> IsSpace(s[i])
  {
    var t := TrimStart(s);
    var r := TrimEnd(t);
    assert r == [] ==> t == [];
    r
  }

  /** A string that neither starts nor ends with white space is its own trim. */
  lemma TrimUnchanged(s: string)
    requires s == [] || (!IsSpace(s[0]) && !IsSpace(s[|s| - 1]))
    ensures Trim(s) == s
  {
  }

  /** White space appended after a last non-blank character is trimmed away again. */
  lemma {:induction false} TrimEndSpaces(s: string, ws: string)
    requires |s| > 0 && !IsSpace(s[|s| - 1])
    requires forall i :: 0 <= i < |ws| ==> IsSpace(ws[i])
    ensures TrimEnd(s + ws) == s
    decreases |ws|
  {
    if |ws| == 0 {
      assert s + ws == s;
    } else {
      var w := ws[..|ws| - 1];
      assert (s + ws)[..|s + ws| - 1] == s + w;
      TrimEndSpaces(s, w);
    }
  }

  /** Trailing white space after a string that is its own trim does not change the trim. */
  lemma TrimTrailingSpaces(s: string, ws: string)
    requires |s| > 0 && !IsSpace(s[0]) && !IsSpace(s[|s| - 1])
    requires forall i :: 0 <= i < |ws| ==> IsSpace(ws[i])
    ensures Trim(s + ws) == s
  {
    assert TrimStart(s + ws) == s + ws;
    TrimEndSpaces(s, ws);
  }

  // ------------------------------------------------------ substring search

  predicate OccursAt(s: string, pat: string, j: int) {
    0 <= j && j + |pat| <= |s| && s[j..j + |pat|] == pat
  }

  /** `s.indexOf(pat, k)`, with `None` in place of -1. */
  function IndexOfFrom(s: string, pat: string, k: nat): (r: Option<nat>)
    requires k <= |s|
    ensures r.Some? ==> k <= r.value && OccursAt(s, pat, r.value)
    ensures r.Some? ==> forall j :: k <= j < r.value ==> !OccursAt(s, pat, j)
    ensures r.None? ==> forall j :: k <= j ==> !OccursAt(s, pat, j)
    decreases |s| - k
  {
    if OccursAt(s, pat, k) then Some(k)
    else if k == |s| then None
    else IndexOfFrom(s, pat, k + 1)
  }

  function IndexOf(s: string, pat: string): Option<nat> {
    IndexOfFrom(s, pat, 0)
  }

  /** `String.prototype.includes`. */
  predicate Contains(s: string, pat: string) {
    IndexOf(s, pat).Some?
  }

  lemma ContainsAt(s: string, pat: string, j: int)
    requires OccursAt(s, pat, j)
    ensures Contains(s, pat)
  {
  }

  /** `s.replace(pat, '')` for a literal `pat`: removes the first occurrence only. */
  function RemoveFirst(s: string, pat: string): (r: string)
    ensures !Contains(s, pat) ==> r == s
    ensures Contains(s, pat) ==> |r| + |pat| == |s|
    ensures Contains(s, pat) ==>
      var i := IndexOf(s, pat).value; i <= |r| && s == r[..i] + pat + r[i..]
  {
    match IndexOf(s, pat)
    case None => s
    case Some(i) =>
      var r := s[..i] + s[i + |pat|..];
      assert r[..i] == s[..i] && r[i..] == s[i + |pat|..];
      assert s == s[..i] + s[i..i + |pat|] + s[i + |pat|..];
      r
  }

  /** Removing a prefix that is the pattern leaves exactly the rest. */
  lemma RemoveFirstOfPrefix(pat: string, t: string)
    ensures RemoveFirst(pat + t, pat) == t
  {
    assert OccursAt(pat + t, pat, 0);
    assert (pat + t)[|pat|..] == t;
  }

  // ------------------------------------------------------------- splitting

  /** `s.split(sep)` for a one-character separator. */
  function SplitOn(s: string, sep: char): (r: seq<string>)
    ensures |r| >= 1
    ensures forall i :: 0 <= i < |r| ==> sep !in r[i]
    decreases |s|
  {
    match FindIndex(s, c => c == sep)
    case None => [s]
    case Some(i) => [s[..i]] + SplitOn(s[i + 1..], sep)
  }

  /** `parts.join(sep)`. */
  function Join(parts: seq<string>, sep: string): string
    requires |parts| >= 1
  {
    if |parts| == 1 then parts[0] else parts[0] + sep + Join(parts[1..], sep)
  }

  /** Splitting the join of separator-free parts gives the parts back. */
  lemma {:induction false} SplitJoin(parts: seq<string>, sep: char)
    requires |parts| >= 1
    requires forall i :: 0 <= i < |parts| ==> sep !in parts[i]
    ensures SplitOn(Join(parts, [sep]), sep) == parts
  {
    if |parts| == 1 {
      assert FindIndex(parts[0], (c: char) => c == sep).None?;
    } else {
      var rest := Join(parts[1..], [sep]);
      assert Join(parts, [sep]) == parts[0] + [sep] + rest;
      SplitOnStep(parts[0], rest, sep);
      SplitJoin(parts[1..], sep);
      assert parts == [parts[0]] + parts[1..];
    }
  }

  /** A split yields at least two parts exactly when the separator occurs. */
  lemma SplitTwoIff(s: string, sep: char)
    ensures |SplitOn(s, sep)| >= 2 <==> sep in s
  {
    var f := FindIndex(s, c => c == sep);
    if f.Some? {
      assert s[f.value] == sep;
    }
  }

  /** The first piece of a split on `sep` is everything before the first `sep`. */
  lemma SplitOnStep(a: string, b: string, sep: char)
    requires sep !in a
    ensures SplitOn(a + [sep] + b, sep) == [a] + SplitOn(b, sep)
  {
    var s := a + [sep] + b;
    var p := (c: char) => c == sep;
    forall j | 0 <= j < |a|
      ensures !p(s[j])
    {
      assert s[j] == a[j];
    }
    FindIndexAt(s, p, |a|);
    assert s[..|a|] == a;
    assert s[|a| + 1..] == b;
  }

  lemma SplitOnHead(a: string, b: string, sep: char)
    requires sep !in a
    requires b == [] || b[0] == sep
    ensures SplitOn(a + b, sep)[0] == a
  {
    if b == [] {
      assert a + b == a;
      assert FindIndex(a, (c: char) => c == sep).None?;
    } else {
      assert a + b == a + [sep] + b[1..];
      SplitOnStep(a, b[1..], sep);
    }
  }

  /** `s.split(/\s+/)`: the pieces between maximal runs of white space. */
  function SplitWs(s: string): (r: seq<string>)
    ensures |r| >= 1
    ensures forall i :: 0 <= i < |r| ==> NoSpace(r[i])
    decreases |s|
  {
    match FindIndex(s, IsSpace)
    case None => [s]
    case Some(i) => [s[..i]] + SplitWs(TrimStart(s[i..]))
  }

  /** A string without white space splits into itself. */
  lemma SplitWsSingle(a: string)
    requires NoSpace(a)
    ensures SplitWs(a) == [a]
  {
    assert FindIndex(a, IsSpace).None?;
  }

  /** The first piece of a split is everything before the first white space. */
  lemma SplitWsHead(a: string, b: string)
    requires NoSpace(a)
    requires b == [] || IsSpace(b[0])
    ensures SplitWs(a + b)[0] == a
  {
    var s := a + b;
    var f := FindIndex(s, IsSpace);
    forall j | 0 <= j < |a|
      ensures !IsSpace(s[j])
    {
      assert s[j] == a[j];
    }
    if b == [] {
      assert s == a;
      assert f.None?;
    } else {
      assert IsSpace(s[|a|]);
      assert f == Some(|a|);
      assert s[..|a|] == a;
    }
  }

  /** Trimming a string that does not start with white space keeps it. */
  lemma TrimStartKeeps(b: string)
    requires b == [] || !IsSpace(b[0])
    ensures TrimStart(b) == b
  {
  }

  /** A run of white space before a string that does not start with white space is trimmed away. */
  lemma {:induction false} TrimStartRun(sep: string, b: string)
    requires forall i :: 0 <= i < |sep| ==> IsSpace(sep[i])
    requires b == [] || !IsSpace(b[0])
    ensures TrimStart(sep + b) == b
    decreases |sep|
  {
    if sep == [] {
      assert sep + b == b;
      TrimStartKeeps(b);
    } else {
      assert (sep + b)[1..] == sep[1..] + b;
      TrimStartRun(sep[1..], b);
    }
  }

  /** A run of white space between a word and a non-blank rest splits off exactly that word. */
  lemma SplitWsRunStep(a: string, sep: string, b: string)
    requires NoSpace(a)
    requires |sep| > 0 && forall i :: 0 <= i < |sep| ==> IsSpace(sep[i])
    requires |b| > 0 && !IsSpace(b[0])
    ensures SplitWs(a + sep + b) == [a] + SplitWs(b)
  {
    var s := a + sep + b;
    forall j | 0 <= j < |a|
      ensures !IsSpace(s[j])
    {
      assert s[j] == a[j];
    }
    assert s[|a|] == sep[0];
    FindIndexAt(s, IsSpace, |a|);
    assert s[..|a|] == a;
    assert s[|a|..] == sep + b;
    TrimStartRun(sep, b);
  }

  /** One separating blank between a word and a non-blank rest splits off exactly that word. */
  lemma SplitWsStep(a: string, b: string)
    requires NoSpace(a)
    requires |b| > 0 && !IsSpace(b[0])
    ensures SplitWs(a + " " + b) == [a] + SplitWs(b)
  {
    assert IsSpace(" "[0]);
    SplitWsRunStep(a, " ", b);
  }

  /** Words joined by single blanks split back into the same words. */
  lemma {:induction false} SplitWsJoin(words: seq<string>)
    requires |words| >= 1
    requires forall i :: 0 <= i < |words| ==> |words[i]| > 0 && NoSpace(words[i])
    ensures SplitWs(Join(words, " ")) == words
  {
    if |words| == 1 {
      SplitWsSingle(words[0]);
    } else {
      var rest := Join(words[1..], " ");
      JoinStartsWith(words[1..], " ");
      SplitWsStep(words[0], rest);
      SplitWsJoin(words[1..]);
      assert words == [words[0]] + words[1..];
    }
  }

  lemma {:induction false} JoinStartsWith(parts: seq<string>, sep: string)
    requires |parts| >= 1 && |parts[0]| > 0
    ensures |Join(parts, sep)| > 0 && Join(parts, sep)[0] == parts[0][0]
  {
  }

  // ----------------------------------------------------------------- paths

  /** The last position of `c` in `s`, or None. */
  function LastIndexOf(s: string, c: char): (r: Option<nat>)
    ensures r.Some? ==> r.value < |s| && s[r.value] == c
    ensures r.Some? ==> forall j :: r.value < j < |s| ==> s[j] != c
    ensures r.None? <==> c !in s
  {
    if |s| == 0 then None
    else if s[|s| - 1] == c then Some(|s| - 1)
    else LastIndexOf(s[..|s| - 1], c)
  }

  /** `path.dirname` for a path without a trailing separator. */
  function DirName(path: string): string {
    match LastIndexOf(path, '/')
    case None => "."
    case Some(i) => if i == 0 then "/" else path[..i]
  }

  /** The directory of a file joined onto a non-empty directory is that directory. */
  lemma DirNameOfChild(dir: string, file: string)
    requires |dir| > 0
    requires '/' !in file
    ensures DirName(dir + "/" + file) == dir
  {
    var p := dir + "/" + file;
    assert p[|dir|] == '/';
    var r := LastIndexOf(p, '/');
    forall j | |dir| < j < |p|
      ensures p[j] != '/'
    {
      assert p[j] == file[j - |dir| - 1];
    }
    assert r == Some(|dir|);
    assert p[..|dir|] == dir;
  }

  // ------------------------------------------------------------ case, digits

  function LowerChar(c: char): char {
    if 'A' <= c <= 'Z' then (c as int + 32) as char else c
  }

  /** `toLowerCase` on the ASCII letters; every other character is kept. */
  function ToLower(s: string): (r: string)
    ensures |r| == |s|
    ensures forall i :: 0 <= i < |s| ==> r[i] == LowerChar(s[i])
  {
    seq(|s|, i requires 0 <= i < |s| => LowerChar(s[i]))
  }

  function DigitChar(d: nat): (c: char)
    requires d < 10
    ensures IsDigit(c) && c as int - '0' as int == d
  {
    (d + '0' as int) as char
  }

  /** The decimal rendering JavaScript gives a non-negative integer (`${n}`). */
  function NatToString(n: nat): (r: string)
    ensures |r| >= 1
    ensures forall i :: 0 <= i < |r| ==> IsDigit(r[i])
    ensures r[0] == '0' ==> n == 0
  {
    if n < 10 then [DigitChar(n)] else NatToString(n / 10) + [DigitChar(n % 10)]
  }

  /** The number a string of decimal digits denotes. */
  function DigitsValue(s: string): nat
    requires forall i :: 0 <= i < |s| ==> IsDigit(s[i])
  {
    if |s| == 0 then 0
    else
      var d := s[|s| - 1];
      assert IsDigit(d);
      DigitsValue(s[..|s| - 1]) * 10 + (d as int - '0' as int)
  }

  /** Reading back the rendering of a number gives the number. */
  lemma {:induction false} NatToStringRoundTrip(n: nat)
    ensures DigitsValue(NatToString(n)) == n
  {
    var r := NatToString(n);
    if n >= 10 {
      NatToStringRoundTrip(n / 10);
      assert r[..|r| - 1] == NatToString(n / 10);
    }
  }

  /** Different numbers render differently. */
  lemma NatToStringInjective(m: nat, n: nat)
    requires m != n
    ensures NatToString(m) != NatToString(n)
  {
    NatToStringRoundTrip(m);
    NatToStringRoundTrip(n);
  }
}
