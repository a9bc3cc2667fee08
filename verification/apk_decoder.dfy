/**
 The `aapt dump badging` parser of `ApkDecoder`: each output line is matched
 against seven known prefixes and, when one matches, values are cut out of it
 into the decoder's metadata fields. Single-valued fields keep the value of the
 last matching line; permissions and features accumulate one line at a time
 and are trimmed once all lines are read. A value whose closing quote is
 missing makes the source throw, which ends the whole parse; here that is a
 `Failure`.
 */
module ApkDecoder {
  import opened Wrappers
  import opened Text
  import opened SdkVersions

  /** The decoder's text properties after parsing. `None` is a property that
      no line assigned (it stays `null` in the source). */
  datatype ApkInfo = ApkInfo(
    appName: Option<string>,
    iconPath: Option<string>,
    pkgName: Option<string>,
    appVersion: Option<string>,
    appVersionCode: Option<string>,
    minSdk: Option<string>,
    minVersion: Option<string>,
    screenSupport: Option<string>,
    screenSolutions: Option<string>,
    permissions: Option<string>,
    features: Option<string>)

  /** A freshly constructed decoder: every property unset. */
  const Unset: ApkInfo :=
    ApkInfo(None, None, None, None, None, None, None, None, None, None, None)

  /** The exception that aborts parsing: `line` holds `key` but no closing
      quote after it. */
  datatype ParseError = MissingQuote(line: string, key: string)

  const CrLf: string := "\r\n"

  // ---------------------------------------------------------------------------
  // Line classification
  // ---------------------------------------------------------------------------

  /** Which of the seven branches of the parse loop a line enters. */
  datatype LineKind =
    | Application
    | Package
    | SdkVersion
    | SupportsScreens
    | Densities
    | UsesPermission
    | UsesFeature
    | Other

  /** The prefix that selects each branch. */
  function Prefix(k: LineKind): string
    requires !k.Other?
  {
    match k
    case Application => "application:"
    case Package => "package:"
    case SdkVersion => "sdkVersion:"
    case SupportsScreens => "supports-screens:"
    case Densities => "densities:"
    case UsesPermission => "uses-permission:"
    case UsesFeature => "uses-feature:"
  }

  /** The source's `info.IndexOf(prefix) == 0`. */
  predicate BeginsWith(line: string, prefix: string) {
    IndexOf(line, prefix) == Some(0)
  }

  /** The branch a line enters; `Other` when it begins with none of the prefixes. */
  function Classify(line: string): (k: LineKind)
    ensures !k.Other? ==> Prefix(k) <= line
    ensures k.Other? ==> forall k': LineKind :: !k'.Other? ==> !(Prefix(k') <= line)
  {
    if "application:" <= line then Application
    else if "package:" <= line then Package
    else if "sdkVersion:" <= line then SdkVersion
    else if "supports-screens:" <= line then SupportsScreens
    else if "densities:" <= line then Densities
    else if "uses-permission:" <= line then UsesPermission
    else if "uses-feature:" <= line then UsesFeature
    else Other
  }

  /** No line begins with two of the prefixes, so the source's seven separate
      `if`s act as one choice: a line enters the branch of kind `k` exactly when
      it begins with `k`'s prefix, and only that branch. */
  lemma ClassifyIsUnique(line: string, k: LineKind)
    requires !k.Other?
    ensures BeginsWith(line, Prefix(k)) <==> Classify(line) == k
  {
    IndexOfZeroIsPrefix(line, Prefix(k));
    if Prefix(k) <= line && Classify(line) != k {
      PrefixesDiffer(k, Classify(line));
    }
  }

  /** Any two of the prefixes differ at some position within both. */
  lemma PrefixesDiffer(k1: LineKind, k2: LineKind)
    requires !k1.Other? && !k2.Other? && k1 != k2
    ensures exists i :: 0 <= i < |Prefix(k1)| && i < |Prefix(k2)| && Prefix(k1)[i] != Prefix(k2)[i]
  {
    var p1, p2 := Prefix(k1), Prefix(k2);
    if p1[0] == p2[0] {
      if p1[1] == p2[1] {
        assert p1[5] != p2[5];
      } else {
        assert p1[1] != p2[1];
      }
    } else {
      assert p1[0] != p2[0];
    }
  }

  // ---------------------------------------------------------------------------
  // Value extraction
  // ---------------------------------------------------------------------------

  /** `GetKeyValue(info, key)`: the empty string when `key` is absent;
      otherwise the text that begins one character after the first occurrence
      of `key` (skipping its opening quote) and runs up to the next `'`. With
      no such `'` the source throws: the start index is past the end, or the
      substring length is negative. */
  function GetKeyValue(info: string, key: string): (r: Result<string, string>)
    ensures IndexOf(info, key).None? ==> r == Success("")
    ensures IndexOf(info, key).Some? ==>
              var start := IndexOf(info, key).value + |key| + 1;
              (r.Success? <==> exists j :: start <= j < |info| && info[j] == '\'')
    ensures r.Success? && IndexOf(info, key).Some? ==>
              var start := IndexOf(info, key).value + |key| + 1;
              var end := start + |r.value|;
              end < |info| && info[end] == '\'' && r.value == info[start..end]
    ensures r.Success? ==> '\'' !in r.value
    ensures r.Failure? ==> r.error == key
  {
    match IndexOf(info, key)
    case None => Success("")
    case Some(i) =>
      var start := i + |key| + 1;
      if start > |info| then Failure(key)
      else
        match QuoteFrom(info, start)
        case None => Failure(key)
        case Some(e) => Success(info[start..e])
  }

  /** `info.IndexOf("'", start)`: the first quote at or after `start`. */
  function QuoteFrom(info: string, start: nat): (r: Option<nat>)
    requires start <= |info|
    ensures r.Some? ==> start <= r.value < |info| && info[r.value] == '\''
    ensures r.Some? ==> '\'' !in info[start..r.value]
    ensures r.None? ==> forall j :: start <= j < |info| ==> info[j] != '\''
  {
    OneCharOccurrences(info, '\'');
    var q := IndexOfFrom(info, "'", start);
    if q.Some? then
      assert forall j :: start <= j < q.value ==> info[j] != '\'';
      q
    else q
  }

  /** The `supports-screens:` and `densities:` value: every copy of the prefix
      removed, leading white space trimmed, each `' '` between two quoted items
      turned into `, `, then every remaining `'` deleted. */
  function ScreenList(line: string, prefix: string): (r: string)
    requires |prefix| > 0
    ensures '\'' !in r
  {
    var stripped := TrimStart(ReplaceAll(line, prefix, ""));
    var separated := ReplaceAll(stripped, "' '", ", ");
    RemoveCharLeavesNone(separated, '\'');
    ReplaceAll(separated, "'", "")
  }

  /** One permission or feature name: the text after the line's last `.`
      (the whole line when it has none) with every `'` deleted. */
  function LastSegment(line: string): (r: string)
    ensures '\'' !in r && '.' !in r
    ensures '.' !in line ==> r == ReplaceAll(line, "'", "")
    ensures '.' in line ==>
              exists k :: 0 <= k < |line| && line[k] == '.' && '.' !in line[k + 1..]
                          && r == ReplaceAll(line[k + 1..], "'", "")
  {
    var start := match LastIndexOf(line, '.') case None => 0 case Some(d) => d + 1;
    assert start == 0 ==> line[start..] == line;
    RemoveCharLeavesNone(line[start..], '\'');
    ReplaceAvoidsChar(line[start..], "'", "", '.');
    ReplaceAll(line[start..], "'", "")
  }

  // ---------------------------------------------------------------------------
  // The parse loop
  // ---------------------------------------------------------------------------

  /** One iteration of the loop over the badging lines. Empty and unrecognised
      lines leave every property as it was; a `Failure` names the key whose
      closing quote is missing. */
  function Step(acc: ApkInfo, line: string): (r: Result<ApkInfo, string>)
    ensures Classify(line).Other? ==> r == Success(acc)
    ensures r.Failure? ==> Classify(line) in {Application, Package, SdkVersion}
  {
    if line == "" then Success(acc)
    else
      match Classify(line)
      case Application =>
        var appLabel :- GetKeyValue(line, "label=");
        var icon :- GetKeyValue(line, "icon=");
        Success(acc.(appName := Some(appLabel), iconPath := Some(icon)))
      case Package =>
        var name :- GetKeyValue(line, "name=");
        var version :- GetKeyValue(line, "versionName=");
        var code :- GetKeyValue(line, "versionCode=");
        Success(acc.(pkgName := Some(name), appVersion := Some(version), appVersionCode := Some(code)))
      case SdkVersion =>
        var sdk :- GetKeyValue(line, "sdkVersion:");
        Success(acc.(minSdk := Some(sdk), minVersion := Some(MinVersionOf(sdk))))
      case SupportsScreens =>
        Success(acc.(screenSupport := Some(ScreenList(line, "supports-screens:"))))
      case Densities =>
        Success(acc.(screenSolutions := Some(ScreenList(line, "densities:"))))
      case UsesPermission =>
        Success(acc.(permissions := Some(acc.permissions.GetOr("") + LastSegment(line) + CrLf)))
      case UsesFeature =>
        Success(acc.(features := Some(acc.features.GetOr("") + LastSegment(line) + CrLf)))
      case Other => Success(acc)
  }

  /** The properties after the loop has consumed `lines`, before the final
      trimming; the first failing line ends the parse. */
  function Scan(lines: seq<string>): Result<ApkInfo, ParseError> {
    if |lines| == 0 then Success(Unset)
    else Advance(Scan(lines[..|lines| - 1]), lines[|lines| - 1])
  }

  /** One line read after the lines that produced `prev`; a failure earlier
      in the input is passed on unchanged. */
  function Advance(prev: Result<ApkInfo, ParseError>, line: string): Result<ApkInfo, ParseError> {
    var acc :- prev;
    match Step(acc, line)
    case Success(next) => Success(next)
    case Failure(key) => Failure(MissingQuote(line, key))
  }

  /** Reading one more line is one more `Advance`. */
  lemma ScanSnoc(init: seq<string>, line: string)
    ensures Scan(init + [line]) == Advance(Scan(init), line)
  {
    var lines := init + [line];
    assert lines[..|lines| - 1] == init;
    assert lines[|lines| - 1] == line;
  }

  /** The scan of a non-empty input is the scan of all but its last line,
      advanced by that line. */
  lemma ScanLast(lines: seq<string>)
    requires |lines| > 0
    ensures Scan(lines) == Advance(Scan(lines[..|lines| - 1]), lines[|lines| - 1])
  {
  }

  /** A failure is passed on by every later line. */
  lemma AdvanceFailure(e: ParseError, line: string)
    ensures Advance(Failure(e), line) == Failure(e)
  {
  }

  /** `Advance` in terms of `Step`: an earlier failure is kept; otherwise the
      line's step decides, and its failure is reported with the line. */
  lemma AdvanceSpec(prev: Result<ApkInfo, ParseError>, line: string)
    ensures prev.Failure? ==> Advance(prev, line) == prev
    ensures prev.Success? ==> (Advance(prev, line).Success? <==> Step(prev.value, line).Success?)
    ensures prev.Success? && Step(prev.value, line).Success? ==>
              Advance(prev, line).value == Step(prev.value, line).value
    ensures prev.Success? && Step(prev.value, line).Failure? ==>
              Advance(prev, line).error == MissingQuote(line, Step(prev.value, line).error)
  {
  }

  /** The loop's step: one more line read after the lines that produced `acc`. */
  lemma ScanOneMore(lines: seq<string>, i: nat, acc: ApkInfo)
    requires i < |lines| && Scan(lines[..i]) == Success(acc)
    ensures Scan(lines[..i + 1]) == Advance(Success(acc), lines[i])
  {
    var upto := lines[..i + 1];
    assert upto[..i] == lines[..i] && upto[i] == lines[i];
    ScanLast(upto);
  }

  /** Once a prefix of the input fails, the rest of the input is never read. */
  lemma {:induction false} ScanStopsAtFailure(lines: seq<string>, n: nat)
    requires n <= |lines| && Scan(lines[..n]).Failure?
    ensures Scan(lines) == Scan(lines[..n])
    decreases |lines| - n
  {
    if n < |lines| {
      var init, last := lines[..|lines| - 1], lines[|lines| - 1];
      var e := Scan(lines[..n]).error;
      assert init[..n] == lines[..n];
      ScanStopsAtFailure(init, n);
      ScanLast(lines);
      AdvanceFailure(e, last);
    } else {
      assert lines[..n] == lines;
    }
  }

  /** Neither end of the text, when there is one, is white space. */
  predicate NoOuterSpace(list: Option<string>) {
    list.Some? && |list.value| > 0 ==>
      !IsWhiteSpace(list.value[0]) && !IsWhiteSpace(list.value[|list.value| - 1])
  }

  /** The final trimming of one accumulated list: a list that is unset or
      empty is kept as it is, any other is trimmed of white space. */
  function TrimIfSet(list: Option<string>): (r: Option<string>)
    ensures r.None? <==> list.None?
    ensures list.Some? && list.value != "" ==> r == Some(Trim(list.value))
    ensures NoOuterSpace(r)
  {
    match list
    case Some(s) => if s == "" then list else Some(Trim(s))
    case None => None
  }

  /** The trimming after the loop; only the two accumulated lists change. */
  function Finish(raw: ApkInfo): (r: ApkInfo)
    ensures NoOuterSpace(r.permissions) && NoOuterSpace(r.features)
  {
    raw.(permissions := TrimIfSet(raw.permissions), features := TrimIfSet(raw.features))
  }

  /** `DoParseInfo`: the loop followed by the final trimming, so neither list
      keeps the CR LF after its last entry, and the parse fails exactly when
      the loop does. */
  function DoParseInfo(lines: seq<string>): (r: Result<ApkInfo, ParseError>)
    ensures r.Failure? <==> Scan(lines).Failure?
    ensures r.Success? ==> NoOuterSpace(r.value.permissions) && NoOuterSpace(r.value.features)
  {
    var raw := Scan(lines);
    if raw.Failure? then Failure(raw.error) else Success(Finish(raw.value))
  }

  /** `ParseInfo`: an empty dump skips the loop and leaves every property
      unset, which is also what the loop would have produced. */
  function ParseInfo(lines: seq<string>): (r: Result<ApkInfo, ParseError>)
    ensures |lines| == 0 ==> r == Success(Unset)
    ensures r == DoParseInfo(lines)
  {
    if |lines| == 0 then Success(Unset) else DoParseInfo(lines)
  }

  /** The body of the source's loop for one line: seven prefix tests, each
      assigning properties in place. The source writes them as independent
      `if`s; since no line begins with two of the prefixes
      (`ClassifyIsUnique`), at most one of them runs, so each branch can
      return at once. A `Failure` names the key whose closing quote is
      missing. */
  method ParseLine(acc: ApkInfo, info: string) returns (r: Result<ApkInfo, string>)
    ensures r == Step(acc, info)
  {
    ClassifyIsUnique(info, Application);
    ClassifyIsUnique(info, Package);
    ClassifyIsUnique(info, SdkVersion);
    ClassifyIsUnique(info, SupportsScreens);
    ClassifyIsUnique(info, Densities);
    ClassifyIsUnique(info, UsesPermission);
    ClassifyIsUnique(info, UsesFeature);
    if info == "" {
      return Success(acc);
    }
    if BeginsWith(info, "application:") {
      r := ReadApplication(acc, info);
      return;
    }
    if BeginsWith(info, "package:") {
      r := ReadPackage(acc, info);
      return;
    }
    if BeginsWith(info, "sdkVersion:") {
      r := ReadSdkVersion(acc, info);
      return;
    }
    if BeginsWith(info, "supports-screens:") {
      return Success(acc.(screenSupport := Some(ScreenList(info, "supports-screens:"))));
    }
    if BeginsWith(info, "densities:") {
      return Success(acc.(screenSolutions := Some(ScreenList(info, "densities:"))));
    }
    if BeginsWith(info, "uses-permission:") {
      return Success(acc.(permissions := Some(acc.permissions.GetOr("") + LastSegment(info) + CrLf)));
    }
    if BeginsWith(info, "uses-feature:") {
      return Success(acc.(features := Some(acc.features.GetOr("") + LastSegment(info) + CrLf)));
    }
    return Success(acc);
  }

  /** The `application:` branch: the label, then the icon path, each read
      with `GetKeyValue`; the first missing quote ends the line. */
  method ReadApplication(acc: ApkInfo, info: string) returns (r: Result<ApkInfo, string>)
    requires info != "" && Classify(info) == Application
    ensures r == Step(acc, info)
  {
    var appLabel := GetKeyValue(info, "label=");
    if appLabel.Failure? {
      return Failure(appLabel.error);
    }
    var next := acc.(appName := Some(appLabel.value));
    var icon := GetKeyValue(info, "icon=");
    if icon.Failure? {
      return Failure(icon.error);
    }
    next := next.(iconPath := Some(icon.value));
    return Success(next);
  }

  /** The `package:` branch: name, version name and version code, in that
      order. */
  method ReadPackage(acc: ApkInfo, info: string) returns (r: Result<ApkInfo, string>)
    requires info != "" && Classify(info) == Package
    ensures r == Step(acc, info)
  {
    var name := GetKeyValue(info, "name=");
    if name.Failure? {
      return Failure(name.error);
    }
    var next := acc.(pkgName := Some(name.value));
    var version := GetKeyValue(info, "versionName=");
    if version.Failure? {
      return Failure(version.error);
    }
    next := next.(appVersion := Some(version.value));
    var code := GetKeyValue(info, "versionCode=");
    if code.Failure? {
      return Failure(code.error);
    }
    next := next.(appVersionCode := Some(code.value));
    return Success(next);
  }

  /** The `sdkVersion:` branch: the minimum SDK text, and the release name
      looked up only for a non-empty text that parses to a level in 1..19. */
  method ReadSdkVersion(acc: ApkInfo, info: string) returns (r: Result<ApkInfo, string>)
    requires info != "" && Classify(info) == SdkVersion
    ensures r == Step(acc, info)
  {
    var sdk := GetKeyValue(info, "sdkVersion:");
    if sdk.Failure? {
      return Failure(sdk.error);
    }
    var next := acc.(minSdk := Some(sdk.value), minVersion := Some(""));
    if sdk.value != "" {
      var level := TryParseInt32(sdk.value);
      if level.Some? && 1 <= level.value <= 19 {
        SdkNameNonEmpty(level.value);
        next := next.(minVersion := Some(SdkMap[level.value]));
      }
    }
    return Success(next);
  }

  /** `DoParseInfo` as the source writes it: the loop over the lines,
      followed by the trimming of the two lists. */
  method ParseLines(lines: seq<string>) returns (r: Result<ApkInfo, ParseError>)
    ensures r == ParseInfo(lines)
  {
    if |lines| == 0 {
      return Success(Unset);
    }
    var acc := Unset;
    var i := 0;
    while i < |lines|
      invariant i <= |lines|
      invariant Scan(lines[..i]) == Success(acc)
    {
      var info := lines[i];
      var next := ParseLine(acc, info);
      ScanOneMore(lines, i, acc);
      if next.Failure? {
        ScanStopsAtFailure(lines, i + 1);
        return Failure(MissingQuote(info, next.error));
      }
      acc := next.value;
      i := i + 1;
    }
    assert lines[..i] == lines;
    var done := TrimLists(acc);
    return Success(done);
  }

  /** The two `if`s after the loop: a non-empty permission or feature list
      loses its surrounding white space, the separator after the last entry
      included. */
  method TrimLists(raw: ApkInfo) returns (r: ApkInfo)
    ensures r == Finish(raw)
  {
    r := raw;
    if r.permissions.Some? && r.permissions.value != "" {
      r := r.(permissions := Some(Trim(r.permissions.value)));
    }
    if r.features.Some? && r.features.value != "" {
      r := r.(features := Some(Trim(r.features.value)));
    }
  }
}
