/**
 What the badging parse promises, stated against reference definitions that
 are independent of the loop: a table of the keys each branch reads, the
 last line of each kind, and the list of names the permission and feature
 lines contribute.
 */
module ParseProperties {
  import opened Wrappers
  import opened Text
  import opened SdkVersions
  import opened ApkDecoder

  /** Branches whose properties a later line overwrites. */
  predicate IsScalar(k: LineKind) {
    k.Application? || k.Package? || k.SdkVersion? || k.SupportsScreens? || k.Densities?
  }

  /** Branches whose property accumulates across lines. */
  predicate IsList(k: LineKind) {
    k.UsesPermission? || k.UsesFeature?
  }

  /** The properties each branch writes, in the order it writes them. */
  function Fields(info: ApkInfo, k: LineKind): seq<Option<string>> {
    match k
    case Application => [info.appName, info.iconPath]
    case Package => [info.pkgName, info.appVersion, info.appVersionCode]
    case SdkVersion => [info.minSdk, info.minVersion]
    case SupportsScreens => [info.screenSupport]
    case Densities => [info.screenSolutions]
    case UsesPermission => [info.permissions]
    case UsesFeature => [info.features]
    case Other => []
  }

  /** The keys each branch looks up, in lookup order. */
  function Keys(k: LineKind): seq<string> {
    match k
    case Application => ["label=", "icon="]
    case Package => ["name=", "versionName=", "versionCode="]
    case SdkVersion => ["sdkVersion:"]
    case _ => []
  }

  /** Looks the keys up in order; the first missing closing quote wins. */
  function CollectKeys(line: string, keys: seq<string>): (r: Result<seq<string>, string>)
    ensures r.Success? ==> |r.value| == |keys|
    ensures r.Failure? ==> r.error in keys
  {
    if |keys| == 0 then Success([])
    else
      var v :- GetKeyValue(line, keys[0]);
      var rest :- CollectKeys(line, keys[1..]);
      Success([v] + rest)
  }

  /** The values a line of a single-valued kind assigns, read off the key table. */
  function LineValues(k: LineKind, line: string): Result<seq<string>, string>
    requires IsScalar(k)
  {
    match k
    case SdkVersion =>
      var vs :- CollectKeys(line, Keys(k));
      Success(vs + [MinVersionOf(vs[0])])
    case SupportsScreens => Success([ScreenList(line, Prefix(k))])
    case Densities => Success([ScreenList(line, Prefix(k))])
    case _ => CollectKeys(line, Keys(k))
  }

  /** Each value wrapped as an assigned property. */
  function Somes(vs: seq<string>): (r: seq<Option<string>>)
    ensures |r| == |vs| && forall i :: 0 <= i < |vs| ==> r[i] == Some(vs[i])
  {
    if |vs| == 0 then [] else [Some(vs[0])] + Somes(vs[1..])
  }

  lemma SomesPair(a: string, b: string)
    ensures [a] + [b] == [a, b]
    ensures Somes([a, b]) == [Some(a), Some(b)]
  {
    assert [a, b][1..] == [b];
  }

  /** A line crashes the parse: one of the keys its branch looks up has no
      closing quote. */
  predicate LineFails(line: string) {
    KeyLookups(line).Failure?
  }

  /** The key lookups of the branch a line enters. */
  function KeyLookups(line: string): Result<seq<string>, string> {
    CollectKeys(line, Keys(Classify(line)))
  }

  // ---------------------------------------------------------------------------
  // One iteration
  // ---------------------------------------------------------------------------

  /** One iteration of the loop, against the key table: it fails exactly when
      a key lookup of the line's branch fails, naming that key; a
      single-valued branch otherwise assigns the looked-up values; a list
      branch appends one name and a CR LF; every property of the other
      branches is left as it was. */
  lemma StepSpec(acc: ApkInfo, line: string)
    ensures Step(acc, line).Failure? <==> LineFails(line)
    ensures Step(acc, line).Failure? ==> Step(acc, line).error == KeyLookups(line).error
    ensures IsScalar(Classify(line)) && Step(acc, line).Success? ==>
              LineValues(Classify(line), line).Success?
              && Fields(Step(acc, line).value, Classify(line)) == Somes(LineValues(Classify(line), line).value)
    ensures IsList(Classify(line)) ==>
              Fields(Step(acc, line).value, Classify(line))
              == [Some(Fields(acc, Classify(line))[0].GetOr("") + LastSegment(line) + CrLf)]
    ensures Step(acc, line).Success? ==>
              forall k: LineKind :: k != Classify(line) ==> Fields(Step(acc, line).value, k) == Fields(acc, k)
  {
    var k := Classify(line);
    if IsScalar(k) {
      StepScalar(acc, line, k);
    } else {
      StepList(acc, line, k);
    }
    StepFrame(acc, line, k);
  }

  lemma StepScalar(acc: ApkInfo, line: string, k: LineKind)
    requires Classify(line) == k && IsScalar(k)
    ensures Step(acc, line).Failure? <==> CollectKeys(line, Keys(k)).Failure?
    ensures Step(acc, line).Failure? ==> Step(acc, line).error == CollectKeys(line, Keys(k)).error
    ensures Step(acc, line).Success? ==>
              LineValues(k, line).Success? && Fields(Step(acc, line).value, k) == Somes(LineValues(k, line).value)
  {
    match k
    case Application => StepApplication(acc, line);
    case Package => StepPackage(acc, line);
    case SdkVersion => StepSdkVersion(acc, line);
    case SupportsScreens => assert CollectKeys(line, Keys(k)) == Success([]);
    case Densities => assert CollectKeys(line, Keys(k)) == Success([]);
  }

  lemma StepApplication(acc: ApkInfo, line: string)
    requires Classify(line) == Application
    ensures Step(acc, line).Failure? <==> CollectKeys(line, Keys(Application)).Failure?
    ensures Step(acc, line).Failure? ==> Step(acc, line).error == CollectKeys(line, Keys(Application)).error
    ensures Step(acc, line).Success? ==>
              LineValues(Application, line).Success? && Fields(Step(acc, line).value, Application) == Somes(LineValues(Application, line).value)
  {
    CollectTwo(line, "label=", "icon=");
  }

  lemma StepPackage(acc: ApkInfo, line: string)
    requires Classify(line) == Package
    ensures Step(acc, line).Failure? <==> CollectKeys(line, Keys(Package)).Failure?
    ensures Step(acc, line).Failure? ==> Step(acc, line).error == CollectKeys(line, Keys(Package)).error
    ensures Step(acc, line).Success? ==>
              LineValues(Package, line).Success? && Fields(Step(acc, line).value, Package) == Somes(LineValues(Package, line).value)
  {
    CollectThree(line, "name=", "versionName=", "versionCode=");
  }

  lemma StepSdkVersion(acc: ApkInfo, line: string)
    requires Classify(line) == SdkVersion
    ensures Step(acc, line).Failure? <==> CollectKeys(line, Keys(SdkVersion)).Failure?
    ensures Step(acc, line).Failure? ==> Step(acc, line).error == CollectKeys(line, Keys(SdkVersion)).error
    ensures Step(acc, line).Success? ==>
              LineValues(SdkVersion, line).Success? && Fields(Step(acc, line).value, SdkVersion) == Somes(LineValues(SdkVersion, line).value)
  {
    CollectOne(line, "sdkVersion:");
    var g := GetKeyValue(line, "sdkVersion:");
    if g.Success? {
      var sdk := g.value;
      var name := MinVersionOf(sdk);
      assert Keys(SdkVersion) == ["sdkVersion:"];
      assert LineValues(SdkVersion, line) == Success([sdk] + [name]);
      SomesPair(sdk, name);
      assert Step(acc, line) == Success(acc.(minSdk := Some(sdk), minVersion := Some(name)));
    }
  }

  lemma StepList(acc: ApkInfo, line: string, k: LineKind)
    requires Classify(line) == k && !IsScalar(k)
    ensures Step(acc, line).Success? && CollectKeys(line, Keys(k)) == Success([])
    ensures IsList(k) ==> Fields(Step(acc, line).value, k) == [Some(Fields(acc, k)[0].GetOr("") + LastSegment(line) + CrLf)]
  {
    if line == "" {
      assert k.Other?;
    }
  }

  lemma StepFrame(acc: ApkInfo, line: string, k: LineKind)
    requires Classify(line) == k
    ensures Step(acc, line).Success? ==>
              forall k': LineKind :: k' != k ==> Fields(Step(acc, line).value, k') == Fields(acc, k')
  {
    if Step(acc, line).Success? {
      var next := Step(acc, line).value;
      StepOverwrites(acc, line, k);
      OverwriteFrame(acc, next, k);
    }
  }

  /** `acc` with the properties of branch `k` taken from `next`. */
  function Overwrite(acc: ApkInfo, next: ApkInfo, k: LineKind): ApkInfo {
    match k
    case Application => acc.(appName := next.appName, iconPath := next.iconPath)
    case Package => acc.(pkgName := next.pkgName, appVersion := next.appVersion, appVersionCode := next.appVersionCode)
    case SdkVersion => acc.(minSdk := next.minSdk, minVersion := next.minVersion)
    case SupportsScreens => acc.(screenSupport := next.screenSupport)
    case Densities => acc.(screenSolutions := next.screenSolutions)
    case UsesPermission => acc.(permissions := next.permissions)
    case UsesFeature => acc.(features := next.features)
    case Other => acc
  }

  lemma StepOverwrites(acc: ApkInfo, line: string, k: LineKind)
    requires Classify(line) == k && Step(acc, line).Success?
    ensures Step(acc, line).value == Overwrite(acc, Step(acc, line).value, k)
  {
    if line == "" {
      assert k.Other?;
    }
  }

  lemma OverwriteFrame(acc: ApkInfo, next: ApkInfo, k: LineKind)
    ensures forall k': LineKind :: k' != k ==> Fields(Overwrite(acc, next, k), k') == Fields(acc, k')
  {
  }

  lemma CollectOne(line: string, k1: string)
    ensures var g1 := GetKeyValue(line, k1);
            CollectKeys(line, [k1]) == if g1.Failure? then Failure(g1.error) else Success([g1.value])
  {
    assert [k1][1..] == [];
    assert CollectKeys(line, []) == Success([]);
    var g1 := GetKeyValue(line, k1);
    if g1.Success? {
      assert [g1.value] + [] == [g1.value];
    }
  }

  lemma CollectTwo(line: string, k1: string, k2: string)
    ensures var g1, g2 := GetKeyValue(line, k1), GetKeyValue(line, k2);
            CollectKeys(line, [k1, k2])
            == if g1.Failure? then Failure(g1.error)
               else if g2.Failure? then Failure(g2.error)
               else Success([g1.value, g2.value])
  {
    assert [k1, k2][1..] == [k2];
    CollectOne(line, k2);
    var g1, g2 := GetKeyValue(line, k1), GetKeyValue(line, k2);
    if g1.Success? && g2.Success? {
      assert [g1.value] + [g2.value] == [g1.value, g2.value];
    }
  }

  lemma CollectThree(line: string, k1: string, k2: string, k3: string)
    ensures var g1, g2, g3 := GetKeyValue(line, k1), GetKeyValue(line, k2), GetKeyValue(line, k3);
            CollectKeys(line, [k1, k2, k3])
            == if g1.Failure? then Failure(g1.error)
               else if g2.Failure? then Failure(g2.error)
               else if g3.Failure? then Failure(g3.error)
               else Success([g1.value, g2.value, g3.value])
  {
    assert [k1, k2, k3][1..] == [k2, k3];
    CollectTwo(line, k2, k3);
    var g1, g2, g3 := GetKeyValue(line, k1), GetKeyValue(line, k2), GetKeyValue(line, k3);
    if g1.Success? && g2.Success? && g3.Success? {
      assert [g1.value] + [g2.value, g3.value] == [g1.value, g2.value, g3.value];
    }
  }

  // ---------------------------------------------------------------------------
  // Single-valued properties: the last matching line wins
  // ---------------------------------------------------------------------------

  /** The index of the last line of kind `k`. */
  function LastOfKind(lines: seq<string>, k: LineKind): (r: Option<nat>)
    ensures r.Some? ==> r.value < |lines| && Classify(lines[r.value]) == k
    ensures r.Some? ==> forall j :: r.value < j < |lines| ==> Classify(lines[j]) != k
    ensures r.None? ==> forall j :: 0 <= j < |lines| ==> Classify(lines[j]) != k
  {
    if |lines| == 0 then None
    else if Classify(lines[|lines| - 1]) == k then Some(|lines| - 1)
    else
      InitLines(lines);
      LastOfKind(lines[..|lines| - 1], k)
  }

  /** `LastOfKind` looks at the last line first. */
  lemma LastOfKindLast(lines: seq<string>, k: LineKind)
    requires |lines| > 0
    ensures Classify(lines[|lines| - 1]) == k ==> LastOfKind(lines, k) == Some(|lines| - 1)
    ensures Classify(lines[|lines| - 1]) != k ==>
              var r := LastOfKind(lines[..|lines| - 1], k);
              LastOfKind(lines, k) == r && (r.Some? ==> lines[r.value] == lines[..|lines| - 1][r.value])
  {
  }

  lemma {:induction false} LastWriterWinsScan(lines: seq<string>, k: LineKind)
    requires IsScalar(k) && Scan(lines).Success?
    ensures LastOfKind(lines, k).None? ==> Fields(Scan(lines).value, k) == Fields(Unset, k)
    ensures LastOfKind(lines, k).Some? ==>
              var i := LastOfKind(lines, k).value;
              LineValues(k, lines[i]).Success?
              && Fields(Scan(lines).value, k) == Somes(LineValues(k, lines[i]).value)
  {
    if |lines| > 0 {
      var init := lines[..|lines| - 1];
      var last := lines[|lines| - 1];
      ScanLast(lines);
      AdvanceSpec(Scan(init), last);
      StepSpec(Scan(init).value, last);
      LastOfKindLast(lines, k);
      if Classify(last) != k {
        LastWriterWinsScan(init, k);
      }
    }
  }

  /** Every single-valued property holds what the LAST line of its kind
      assigns, or stays unset when no line of that kind occurs. */
  lemma LastWriterWins(lines: seq<string>, k: LineKind)
    requires IsScalar(k) && DoParseInfo(lines).Success?
    ensures LastOfKind(lines, k).None? ==> Fields(DoParseInfo(lines).value, k) == Fields(Unset, k)
    ensures LastOfKind(lines, k).Some? ==>
              var i := LastOfKind(lines, k).value;
              LineValues(k, lines[i]).Success?
              && Fields(DoParseInfo(lines).value, k) == Somes(LineValues(k, lines[i]).value)
  {
    LastWriterWinsScan(lines, k);
  }

  // ---------------------------------------------------------------------------
  // Permissions and features: accumulate in input order
  // ---------------------------------------------------------------------------

  /** The names the lines of list kind `k` contribute, in input order. */
  function Pieces(lines: seq<string>, k: LineKind): seq<string>
    requires IsList(k)
  {
    if |lines| == 0 then []
    else
      var init := Pieces(lines[..|lines| - 1], k);
      var last := lines[|lines| - 1];
      if Classify(last) == k then init + [LastSegment(last)] else init
  }

  lemma {:induction false} ListAccumulatesScan(lines: seq<string>, k: LineKind)
    requires IsList(k) && Scan(lines).Success?
    ensures var ps := Pieces(lines, k);
            Fields(Scan(lines).value, k) == [if |ps| == 0 then None else Some(Terminated(ps, CrLf))]
  {
    if |lines| > 0 {
      var init := lines[..|lines| - 1];
      var last := lines[|lines| - 1];
      var acc := Scan(init).value;
      StepSpec(acc, last);
      ListAccumulatesScan(init, k);
      if Classify(last) == k {
        var ps := Pieces(init, k);
        var ps' := ps + [LastSegment(last)];
        assert ps'[..|ps'| - 1] == ps;
      }
    }
  }

  /** Trimming a non-empty CR LF terminated list gives the trimmed join. */
  lemma TrimTerminated(ps: seq<string>)
    ensures TrimIfSet(if |ps| == 0 then None else Some(Terminated(ps, CrLf)))
            == if |ps| == 0 then None else Some(Trim(Join(ps, CrLf)))
  {
    if |ps| > 0 {
      TerminatedIsJoinThenSep(ps, CrLf);
      assert AllSpace(CrLf, WhiteSpace);
      TrimIgnoresSpaceSuffix(Join(ps, CrLf), CrLf);
    }
  }

  /** The property a list branch accumulates into. */
  function ListField(info: ApkInfo, k: LineKind): Option<string>
    requires IsList(k)
  {
    if k.UsesPermission? then info.permissions else info.features
  }

  /** The final trimming turns an accumulated list into the trimmed join. */
  lemma FinishList(raw: ApkInfo, k: LineKind, ps: seq<string>)
    requires IsList(k)
    requires Fields(raw, k) == [if |ps| == 0 then None else Some(Terminated(ps, CrLf))]
    ensures ListField(Finish(raw), k) == if |ps| == 0 then None else Some(Trim(Join(ps, CrLf)))
  {
    assert Fields(raw, k)[0] == ListField(raw, k);
    TrimTerminated(ps);
  }

  /** A list property over whole lines: unset without lines of its kind,
      otherwise the contributed names joined with CR LF and trimmed. */
  lemma ListIsTrimmedJoin(lines: seq<string>, k: LineKind)
    requires IsList(k) && DoParseInfo(lines).Success?
    ensures var ps := Pieces(lines, k);
            ListField(DoParseInfo(lines).value, k) == if |ps| == 0 then None else Some(Trim(Join(ps, CrLf)))
  {
    ListAccumulatesScan(lines, k);
    var raw := Scan(lines).value;
    assert DoParseInfo(lines) == Success(Finish(raw));
    FinishList(raw, k, Pieces(lines, k));
  }

  /** `Permissions`: every `uses-permission:` line's name, in order, joined
      by CR LF and trimmed; unset when there is no such line. */
  lemma PermissionsAreTrimmedJoin(lines: seq<string>)
    requires DoParseInfo(lines).Success?
    ensures var ps := Pieces(lines, UsesPermission);
            DoParseInfo(lines).value.permissions
            == if |ps| == 0 then None else Some(Trim(Join(ps, CrLf)))
  {
    ListIsTrimmedJoin(lines, UsesPermission);
  }

  /** `Features`: the same for the `uses-feature:` lines. */
  lemma FeaturesAreTrimmedJoin(lines: seq<string>)
    requires DoParseInfo(lines).Success?
    ensures var ps := Pieces(lines, UsesFeature);
            DoParseInfo(lines).value.features
            == if |ps| == 0 then None else Some(Trim(Join(ps, CrLf)))
  {
    ListIsTrimmedJoin(lines, UsesFeature);
  }

  // ---------------------------------------------------------------------------
  // Ignored lines
  // ---------------------------------------------------------------------------

  /** An ignored line passes the scan state on unchanged. */
  lemma AdvanceIgnored(prev: Result<ApkInfo, ParseError>, l: string)
    requires Classify(l).Other?
    ensures Advance(prev, l) == prev
  {
  }

  lemma {:induction false} IgnoredLineScan(a: seq<string>, l: string, b: seq<string>)
    requires Classify(l).Other?
    ensures Scan(a + [l] + b) == Scan(a + b)
    decreases |b|
  {
    if |b| == 0 {
      DropLast(a, l, b);
      ScanSnoc(a, l);
      AdvanceIgnored(Scan(a), l);
    } else {
      var b' := b[..|b| - 1];
      var x := b[|b| - 1];
      IgnoredLineScan(a, l, b');
      DropLast(a, l, b);
      ScanSnoc(a + [l] + b', x);
      ScanSnoc(a + b', x);
    }
  }

  /** How the two sides of `IgnoredLineScan` split off their last line. */
  lemma DropLast(a: seq<string>, l: string, b: seq<string>)
    ensures |b| == 0 ==> a + [l] + b == a + [l] && a + b == a
    ensures |b| > 0 ==> a + [l] + b == (a + [l] + b[..|b| - 1]) + [b[|b| - 1]]
                        && a + b == (a + b[..|b| - 1]) + [b[|b| - 1]]
  {
    if |b| > 0 {
      assert b == b[..|b| - 1] + [b[|b| - 1]];
    }
  }

  /** An empty line, or one that begins with none of the seven prefixes,
      changes nothing wherever it appears. */
  lemma IgnoredLineChangesNothing(a: seq<string>, l: string, b: seq<string>)
    requires l == "" || Classify(l).Other?
    ensures DoParseInfo(a + [l] + b) == DoParseInfo(a + b)
  {
    IgnoredLineScan(a, l, b);
  }

  /** A dump in which every line is ignored (in particular an empty dump)
      leaves every property unset. */
  lemma IgnoredLinesLeaveUnset(lines: seq<string>)
    requires forall i :: 0 <= i < |lines| ==> Classify(lines[i]).Other?
    ensures DoParseInfo(lines) == Success(Unset)
    ensures ParseInfo(lines) == Success(Unset)
  {
    IgnoredLinesScan(lines);
    assert Finish(Unset) == Unset;
  }

  lemma {:induction false} IgnoredLinesScan(lines: seq<string>)
    requires forall i :: 0 <= i < |lines| ==> Classify(lines[i]).Other?
    ensures Scan(lines) == Success(Unset)
  {
    if |lines| > 0 {
      var init, last := lines[..|lines| - 1], lines[|lines| - 1];
      InitLines(lines);
      IgnoredLinesScan(init);
      ScanLast(lines);
      AdvanceIgnored(Scan(init), last);
    }
  }

  // ---------------------------------------------------------------------------
  // When the parse crashes
  // ---------------------------------------------------------------------------

  /** Which lines would crash the parse, taken one at a time. */
  function Failures(lines: seq<string>): (r: seq<bool>)
    ensures |r| == |lines|
    ensures forall j :: 0 <= j < |lines| ==> r[j] == LineFails(lines[j])
  {
    seq(|lines|, j requires 0 <= j < |lines| => LineFails(lines[j]))
  }

  /** The first `true` at or after `from`. */
  function FirstTrue(flags: seq<bool>, from: nat): (r: Option<nat>)
    requires from <= |flags|
    ensures r.Some? ==> from <= r.value < |flags| && flags[r.value]
    ensures r.Some? ==> forall j :: from <= j < r.value ==> !flags[j]
    ensures r.None? ==> forall j :: from <= j < |flags| ==> !flags[j]
    decreases |flags| - from
  {
    if from == |flags| then None
    else if flags[from] then Some(from)
    else FirstTrue(flags, from + 1)
  }

  /** The index of the first line that crashes the parse. */
  function FirstFailing(lines: seq<string>): Option<nat> {
    FirstTrue(Failures(lines), 0)
  }

  /** A failing line with no failing line before it is the first one. */
  lemma FirstFailingIs(lines: seq<string>, i: nat)
    requires i < |lines| && LineFails(lines[i])
    requires forall j :: 0 <= j < i ==> !LineFails(lines[j])
    ensures FirstFailing(lines) == Some(i)
  {
    var flags := Failures(lines);
    assert flags[i];
    assert forall j :: 0 <= j < i ==> !flags[j];
    FirstTrueIs(flags, 0, i);
  }

  lemma {:induction false} FirstTrueIs(flags: seq<bool>, from: nat, i: nat)
    requires from <= i < |flags| && flags[i]
    requires forall j :: from <= j < i ==> !flags[j]
    ensures FirstTrue(flags, from) == Some(i)
    decreases i - from
  {
    if from < i {
      FirstTrueIs(flags, from + 1, i);
    }
  }

  /** The lines before the last are the lines of the input without it. */
  lemma InitLines(lines: seq<string>)
    requires |lines| > 0
    ensures forall j :: 0 <= j < |lines| - 1 ==> lines[..|lines| - 1][j] == lines[j]
  {
  }

  lemma {:induction false} ScanFailsAtFirstBadLine(lines: seq<string>)
    ensures Scan(lines).Failure? <==> FirstFailing(lines).Some?
    ensures Scan(lines).Failure? ==>
              var i := FirstFailing(lines).value;
              Scan(lines).error == MissingQuote(lines[i], KeyLookups(lines[i]).error)
  {
    if |lines| > 0 {
      var init := lines[..|lines| - 1];
      var last := lines[|lines| - 1];
      ScanFailsAtFirstBadLine(init);
      ScanLast(lines);
      AdvanceSpec(Scan(init), last);
      InitLines(lines);
      if Scan(init).Failure? {
        FirstFailingIs(lines, FirstFailing(init).value);
      } else {
        StepSpec(Scan(init).value, last);
        if LineFails(last) {
          FirstFailingIs(lines, |lines| - 1);
        }
      }
    }
  }

  /** The parse fails exactly when some line selects a branch whose key has no
      closing quote, and it reports the first such line and key. */
  lemma ParseFailsAtFirstBadLine(lines: seq<string>)
    ensures DoParseInfo(lines).Failure? <==> exists i :: 0 <= i < |lines| && LineFails(lines[i])
    ensures DoParseInfo(lines).Failure? ==>
              var i := FirstFailing(lines).value;
              i < |lines| && LineFails(lines[i]) && (forall j :: 0 <= j < i ==> !LineFails(lines[j]))
              && DoParseInfo(lines).error == MissingQuote(lines[i], KeyLookups(lines[i]).error)
  {
    ScanFailsAtFirstBadLine(lines);
  }

  // ---------------------------------------------------------------------------
  // Extraction round trips
  // ---------------------------------------------------------------------------

  /** `key='value'` gives back `value` when the value holds no quote and
      `key` first occurs right there. */
  lemma GetKeyValueRoundTrip(pre: string, key: string, v: string, post: string)
    requires '\'' !in v
    requires IndexOf(pre + key, key) == Some(|pre|)
    ensures GetKeyValue(pre + key + "'" + v + "'" + post, key) == Success(v)
  {
    var head := pre + key;
    var rest := "'" + v + "'" + post;
    var info := pre + key + "'" + v + "'" + post;
    assert info == head + rest;
    IndexOfExtend(head, rest, key);
    var start := |pre| + |key| + 1;
    assert info[start..start + |v|] == v;
    assert info[start + |v|] == '\'';
    GetKeyValueAt(info, key, v);
  }

  /** Once the key is found, the value is the text up to the next quote. */
  lemma GetKeyValueAt(info: string, key: string, v: string)
    requires IndexOf(info, key).Some?
    requires '\'' !in v
    requires var start := IndexOf(info, key).value + |key| + 1;
             start + |v| < |info| && info[start..start + |v|] == v && info[start + |v|] == '\''
    ensures GetKeyValue(info, key) == Success(v)
  {
    var start := IndexOf(info, key).value + |key| + 1;
    assert info[start + |v|] == '\'';
  }

  /** A permission or feature line `head.name'` contributes `name` when the
      name holds neither `.` nor `'`. */
  lemma LastSegmentRoundTrip(head: string, name: string)
    requires '.' !in name && '\'' !in name
    ensures LastSegment(head + "." + name + "'") == name
  {
    var q := "'";
    var line := head + "." + name + q;
    assert line == head + "." + (name + q);
    LastIndexOfBefore(head, '.', name + q);
    assert line[|head| + 1..] == name + q;
    LastSegmentAfter(line, |head|);
    var gone := ReplaceAll(q, q, "");
    assert gone == "" by {
      ReplaceAtPattern(q, "", "");
    }
    ReplaceSkipsPrefix(name, q, q, "");
    assert name + gone == name;
  }

  /** With the last `.` at `d`, the segment is the text after it, quotes deleted. */
  lemma LastSegmentAfter(line: string, d: nat)
    requires LastIndexOf(line, '.') == Some(d)
    ensures LastSegment(line) == ReplaceAll(line[d + 1..], "'", "")
  {
  }

  /** Removing a prefix that holds a character absent from the rest leaves the rest. */
  lemma RemovePrefix(prefix: string, tail: string, c: char)
    requires c in prefix && c !in tail
    ensures ReplaceAll(prefix + tail, prefix, "") == tail
  {
    ReplaceAtPattern(prefix, tail, "");
    MissingCharNotContained(tail, prefix, c);
    ReplaceAbsent(tail, prefix, "");
  }

  /** `supports-screens: 'small' 'normal'` (and likewise `densities:`) turns
      into `small, normal` when the items are non-empty and hold no quote,
      colon or space. */
  lemma ScreenListRoundTrip(prefix: string, items: seq<string>)
    requires ':' in prefix
    requires |items| > 0
    requires forall i :: 0 <= i < |items| ==> |items[i]| > 0
    requires forall i :: 0 <= i < |items| ==> '\'' !in items[i] && ':' !in items[i] && ' ' !in items[i]
    ensures ScreenList(prefix + " '" + Join(items, "' '") + "'", prefix) == Join(items, ", ")
  {
    var joined := Join(items, "' '");
    var quoted := "'" + joined + "'";
    var listed := Join(items, ", ");
    var line := prefix + " '" + joined + "'";
    JoinAvoidsChar(items, "' '", ':');
    assert line == prefix + (" " + quoted);
    RemovePrefix(prefix, " " + quoted, ':');
    TrimStartOneSpace(quoted);
    var stripped := TrimStart(ReplaceAll(line, prefix, ""));
    assert stripped == quoted;
    QuotedItemsSeparated(items);
    var separated := ReplaceAll(stripped, "' '", ", ");
    assert separated == "'" + listed + "'";
    QuotesDeleted(items);
    assert ReplaceAll(separated, "'", "") == listed;
  }

  lemma TrimStartOneSpace(x: string)
    requires |x| > 0 && !IsWhiteSpace(x[0])
    ensures TrimStart(" " + x) == x
  {
    assert (" " + x)[1..] == x;
  }

  /** Trimming the space before the first quote and replacing the separators. */
  lemma QuotedItemsSeparated(items: seq<string>)
    requires |items| > 0
    requires forall i :: 0 <= i < |items| ==> |items[i]| > 0
    requires forall i :: 0 <= i < |items| ==> '\'' !in items[i] && ' ' !in items[i]
    ensures ReplaceAll("'" + Join(items, "' '") + "'", "' '", ", ") == "'" + Join(items, ", ") + "'"
  {
    var joined := Join(items, "' '");
    JoinFirstChar(items);
    assert items[0][0] in items[0];
    var quoted := "'" + (joined + "'");
    assert quoted[1] == items[0][0];
    assert !("' '" <= quoted);
    assert quoted[1..] == joined + "'";
    assert ReplaceAll(quoted, "' '", ", ") == "'" + ReplaceAll(joined + "'", "' '", ", ");
    ReplaceSeparators(items, "'");
    assert ReplaceAll("'", "' '", ", ") == "'";
    assert "'" + Join(items, "' '") + "'" == quoted;
  }

  /** Deleting the outer quotes around a quote-free list. */
  lemma QuotesDeleted(items: seq<string>)
    requires forall i :: 0 <= i < |items| ==> '\'' !in items[i]
    ensures ReplaceAll("'" + Join(items, ", ") + "'", "'", "") == Join(items, ", ")
  {
    var listed := Join(items, ", ");
    JoinAvoidsChar(items, ", ", '\'');
    MissingCharNotContained(listed, "'", '\'');
    ReplaceAbsent(listed, "'", "");
    var q := "'";
    var gone := ReplaceAll(q, q, "");
    assert gone == "" by {
      ReplaceAtPattern(q, "", "");
    }
    RemoveCharAppend(q + listed, q, '\'');
    RemoveCharAppend(q, listed, '\'');
    assert gone + listed + gone == listed;
  }

  lemma JoinFirstChar(items: seq<string>)
    requires |items| > 0 && |items[0]| > 0
    ensures |Join(items, "' '")| > 0 && Join(items, "' '")[0] == items[0][0]
  {
  }

  /** An occurrence at the front is replaced and the scan resumes after it. */
  lemma ReplaceAtPattern(pattern: string, rest: string, replacement: string)
    requires |pattern| > 0
    ensures ReplaceAll(pattern + rest, pattern, replacement) == replacement + ReplaceAll(rest, pattern, replacement)
  {
    assert pattern <= pattern + rest;
    assert (pattern + rest)[|pattern|..] == rest;
  }

  /** Every `' '` between two quote-free items becomes `, `. */
  lemma {:induction false} ReplaceSeparators(items: seq<string>, t: string)
    requires |items| > 0
    requires forall i :: 0 <= i < |items| ==> '\'' !in items[i]
    ensures ReplaceAll(Join(items, "' '") + t, "' '", ", ") == Join(items, ", ") + ReplaceAll(t, "' '", ", ")
    decreases |items|
  {
    if |items| == 1 {
      ReplaceSkipsPrefix(items[0], t, "' '", ", ");
    } else {
      var rest := Join(items[1..], "' '") + t;
      assert Join(items, "' '") + t == items[0] + ("' '" + rest);
      ReplaceSkipsPrefix(items[0], "' '" + rest, "' '", ", ");
      ReplaceAtPattern("' '", rest, ", ");
      ReplaceSeparators(items[1..], t);
    }
  }
}
