# ApkInfo badging parser, modelled in Dafny

ApkInfo is a small Windows tool that shows the metadata of an Android
package. It runs `aapt dump badging` on the package. Then `ApkDecoder` reads the
dump line by line and fills in eleven text properties:

- `AppName`, `IconPath`, `PkgName`, `AppVersion` and `AppVersionCode`;
- `MinSdk`, and `MinVersion`, the release name of that API level;
- `ScreenSupport` and `ScreenSolutions`;
- `Permissions` and `Features`.

This project models that parser: `ParseInfo`, `DoParseInfo`, `GetKeyValue`
and the `SdkMap` table.

Each line is matched against seven prefixes (`application:`, `package:`,
`sdkVersion:`, `supports-screens:`, `densities:`, `uses-permission:`,
`uses-feature:`). A matching line has values cut out of it:

- by key: the text from one character past the key (normally its opening
  `'`) up to the next `'`;
- by `Replace`/`TrimStart`;
- by taking what follows the last `.`.

The single-valued properties keep what the last line of their kind wrote. The
permission and feature lists grow by one name and a CR LF per line, and are
trimmed once all lines are read. When a key is present but no closing quote
follows it, the source's `Substring` or `IndexOf` throws and the parse ends.
The model returns `Failure(MissingQuote(line, key))` in that case.

Files:

- `wrappers.dfy`: `Option` and `Result`.
- `text.dfy`: the .NET string operations the parser uses, over `seq<char>`.
  These are ordinal `IndexOf`/`LastIndexOf`, `Replace`, `Trim`/`TrimStart`
  with the `Char.IsWhiteSpace` set, and `int.TryParse` (default integer
  style, 32-bit range). It also holds `Join`, which the source does not
  call. `Join` is the reference definition that the `+=` accumulation of
  the permission and feature lists is proved equal to, plus one trailing
  separator.
- `sdk_versions.dfy`: the API level table and the `MinVersion` lookup.
- `apk_decoder.dfy`: the properties record and the line classification.
  It also holds `GetKeyValue`, the per-line step `Step`, the fold `Scan`, and
  `DoParseInfo`/`ParseInfo` as functions. `ParseLine`/`ParseLines` are
  methods that follow the source's statements and are proved equal to the
  functions.
- `parse_properties.dfy`: what the parse promises, stated against reference
  definitions that do not mention the loop:
  - a table of the keys each branch reads (`Keys`, `LineValues`);
  - the last line of each kind (`LastOfKind`);
  - the names the list lines contribute (`Pieces`);
  - the first line that crashes (`FirstFailing`).

## Model

| member | source | states |
|---|---|---|
| SdkVersions.SdkMapDomain | ApkInfo/ApkDecoder.cs:17-37 | The API level table has exactly the keys 1 to 19, and no release name in it is empty. |
| SdkVersions.MinVersionOf | ApkInfo/ApkDecoder.cs:197-205 | `MinVersion` is non-empty exactly when `MinSdk` parses as a 32-bit integer in 1..19, and then it is that level's table entry. The guarded lookup never misses. |
| SdkVersions.MinVersionOfLevel | ApkInfo/ApkDecoder.cs:198-204 | The decimal text of level `n` gives the table entry for `n` when 1 <= n <= 19. It gives the empty string for level 0 and for any level above 19. |
| Text.TryParseSigned | ApkInfo/ApkDecoder.cs:200-201 | `int.TryParse` of number white space, an optional `+` or `-`, one or more digits and number white space gives the signed value of the digits when it fits in 32 bits, and fails when it does not. So `" 08 "` and `"+8"` both read as 8. |
| Text.TryParseShape | ApkInfo/ApkDecoder.cs:200-201 | Conversely, any text `int.TryParse` accepts is number white space around an optionally signed run of digits, and the result is that numeral's value. |
| Text.TryParseDecimalString | ApkInfo/ApkDecoder.cs:201 | `int.TryParse` reads back every non-negative 32-bit number written in decimal. |
| Text.IndexOfFrom | ApkInfo/ApkDecoder.cs:248-251 | `IndexOf` from a start index returns an occurrence with no earlier occurrence at or after the start. `None` (the source's -1) means there is no occurrence at or after the start. |
| Text.IndexOfZeroIsPrefix | ApkInfo/ApkDecoder.cs:178 | `info.IndexOf(p) == 0` holds exactly when `info` begins with `p`. |
| Text.LastIndexOf | ApkInfo/ApkDecoder.cs:225 | `LastIndexOf(c)` returns a position holding `c` with no `c` after it. `None` (-1) means `c` does not occur. |
| Text.LastIndexOfBefore | ApkInfo/ApkDecoder.cs:225 | In `head + c + tail`, where `tail` has no `c`, the last `c` is the one after `head`. |
| Text.ReplaceAbsent | ApkInfo/ApkDecoder.cs:211 | `Replace` with a pattern that does not occur returns the string unchanged. |
| Text.ReplaceAvoidsChar | ApkInfo/ApkDecoder.cs:225 | `Replace` never introduces a character found in neither the input nor the replacement. |
| Text.RemoveCharLeavesNone | ApkInfo/ApkDecoder.cs:211 | Deleting every copy of a character leaves none. |
| Text.RemoveCharAppend | ApkInfo/ApkDecoder.cs:225 | Deleting a character from a concatenation deletes it from each part separately. |
| Text.TrimIsCore | ApkInfo/ApkDecoder.cs:238 | `Trim` returns a substring of its input with only white space before and after it. The result neither begins nor ends with white space. |
| Text.TrimIgnoresSpaceSuffix | ApkInfo/ApkDecoder.cs:238 | White space appended to a string, such as the CR LF after the last list entry, does not change what `Trim` returns. |
| Text.TerminatedIsJoinThenSep | ApkInfo/ApkDecoder.cs:226 | Appending each name followed by the separator gives the names joined by the separator, plus one trailing separator. |
| ApkDecoder.Classify | ApkInfo/ApkDecoder.cs:178-230 | A line given a branch begins with that branch's prefix. A line given no branch begins with none of the seven prefixes. |
| ApkDecoder.ClassifyIsUnique | ApkInfo/ApkDecoder.cs:178-230 | A line passes the `IndexOf(prefix) == 0` test of a branch exactly when it is classified as that branch. So at most one of the seven `if`s runs for any line. |
| ApkDecoder.GetKeyValue | ApkInfo/ApkDecoder.cs:246-254 | An absent key gives the empty string. Otherwise the lookup succeeds exactly when a `'` occurs at or after one character past the key. The value is then the text from there up to that quote, and it contains no quote. A failure names the key. |
| ApkDecoder.QuoteFrom | ApkInfo/ApkDecoder.cs:251 | `IndexOf("'", start)` finds the first quote at or after `start`, or reports that none follows. |
| ParseProperties.GetKeyValueRoundTrip | ApkInfo/ApkDecoder.cs:246-254 | On a line `pre key'v'post` whose first occurrence of `key` is that one, a quote-free `v` is returned unchanged. |
| ParseProperties.GetKeyValueAt | ApkInfo/ApkDecoder.cs:248-251 | Once the key is found, any quote-free text that runs from the value's start up to a quote is exactly what `GetKeyValue` returns. |
| ApkDecoder.ScreenList | ApkInfo/ApkDecoder.cs:211-217 | `ScreenSupport` and `ScreenSolutions` never contain a `'`. |
| ParseProperties.ScreenListRoundTrip | ApkInfo/ApkDecoder.cs:208-218 | `prefix 'a' 'b' ...` becomes `a, b, ...` for non-empty items without quote, colon or space. |
| ApkDecoder.LastSegment | ApkInfo/ApkDecoder.cs:225-232 | A permission or feature name has no `'` and no `.`. It is the text after the line's last `.` (the whole line when there is none), with its quotes deleted. |
| ParseProperties.LastSegmentRoundTrip | ApkInfo/ApkDecoder.cs:220-234 | `uses-permission:'a.b.NAME'` contributes `NAME` whenever the name holds neither `.` nor `'`. |
| ParseProperties.QuotesDeleted | ApkInfo/ApkDecoder.cs:211 | Deleting the quotes of a quoted, quote-free list leaves the list. |
| ParseProperties.ReplaceSeparators | ApkInfo/ApkDecoder.cs:211 | Every `' '` between quote-free items becomes `, `, and the items are kept. |
| ApkDecoder.Step | ApkInfo/ApkDecoder.cs:172-234 | An empty or unrecognised line leaves the properties as they were. Only `application:`, `package:` and `sdkVersion:` lines can fail a key lookup. |
| ParseProperties.StepSpec | ApkInfo/ApkDecoder.cs:172-234 | One iteration throws exactly when a lookup of the key table fails, and names the failing key. A single-valued branch assigns exactly the looked-up values. A list branch appends the line's name and a CR LF to the old value, where `null` counts as empty. Every property of the other branches is left unchanged. |
| ApkDecoder.ScanStopsAtFailure | ApkInfo/ApkDecoder.cs:172-235 | Once a line throws, no later line is read. The result is that of the input up to the failing line. |
| ApkDecoder.DoParseInfo | ApkInfo/ApkDecoder.cs:169-244 | The parse fails exactly when the loop over the lines fails. After the final trimming, neither the permission list nor the feature list begins or ends with white space, so the CR LF after the last entry is gone. |
| ApkDecoder.ParseLines | ApkInfo/ApkDecoder.cs:169-244 | The loop over the lines, followed by the trimming, computes the parse. The loop stops at the first line that throws. |
| ApkDecoder.ParseInfo | ApkInfo/ApkDecoder.cs:150-160 | An empty dump leaves every property unset, and that is also what running the loop on it would give. |
| ParseProperties.LastWriterWins | ApkInfo/ApkDecoder.cs:178-218 | Each single-valued property holds what the last line of its kind assigns, or stays unset when no such line occurs. |
| ParseProperties.PermissionsAreTrimmedJoin | ApkInfo/ApkDecoder.cs:223-239 | `Permissions` is the names of the `uses-permission:` lines, in input order, joined by CR LF and trimmed. It is unset when there is no such line. |
| ParseProperties.FeaturesAreTrimmedJoin | ApkInfo/ApkDecoder.cs:230-243 | `Features` is the names of the `uses-feature:` lines, in input order, joined by CR LF and trimmed. It is unset when there is no such line. |
| ParseProperties.IgnoredLineChangesNothing | ApkInfo/ApkDecoder.cs:172-175 | Inserting an empty or unrecognised line anywhere in the dump does not change the result, whether success or failure. |
| ParseProperties.IgnoredLinesLeaveUnset | ApkInfo/ApkDecoder.cs:150-175 | A dump of only empty or unrecognised lines, an empty dump included, leaves every property unset. |
| ParseProperties.ParseFailsAtFirstBadLine | ApkInfo/ApkDecoder.cs:172-206 | Leaving `GetAppIcon` aside, the parse throws exactly when some line enters a branch with a key but no closing quote. The error reports the first such line and the first such key in it. |

## Left out

- `Decoder` (lines 97-148) is not modelled. It covers starting `cmd.exe` and `aapt`, the temporary dump file and reading it as UTF-8. The dump's lines are a parameter here.
- `GetAppIcon` (lines 256 onward), its call at line 182 and the `AppIcon` image are not modelled. They unzip a file and decode an image. `ReadApplication` keeps `IconPath` but loads nothing. `GetAppIcon` can also throw: `Path.GetFileName` on a path with invalid characters, `File.Delete`, or `Image.FromStream` on an icon that is not a bitmap (an adaptive-icon `.xml`, say). Such an exception ends the parse just as a missing quote does. The model does not include these failures, so `Step` and `ParseFailsAtFirstBadLine` describe only the failures of the key lookups.
- `GetApkSize` (lines 73-89) is not modelled. It reads the file length and formats it in floating point.
- The `GetShortPathName` P/Invoke (lines 91-95, 112-115) is not modelled. It is a foreign call.
- The constructor's thread-pool work item, and the `InfoParsedEvent` and `AaptNotFoundEvent` events (lines 43-48, 106-108, 162-167), are not modelled. They are concurrency and callbacks.
- `MainForm` and `AboutForm` (WinForms) are not part of this model.
- Text.IndexOfFrom: `string.IndexOf(string)` in .NET compares by the current culture. It is modelled as an ordinal search. All keys and prefixes are ASCII, so ordinal and culture-sensitive matching agree on them except for ignorable characters.
- Text.TryParseInt32: allows white space, a `+`/`-` sign, digits and the 32-bit range. It does not model trailing NUL characters, which .NET accepts. It does not model culture-specific sign symbols.
- ApkDecoder.GetKeyValue: strings are modelled as sequences of Unicode scalar values, not of UTF-16 code units as in .NET. The `+ 1` after the key skips one character here but one code unit in the source. So when a character outside the Basic Multilingual Plane follows the key directly, the .NET value begins with a lone low surrogate, while the model skips the whole character. aapt writes a `'` at that position, so dumps it produces do not reach this case.
- Text.IsWhiteSpace: written out from the `Char.IsWhiteSpace` table. It is not derived from the Unicode database.
- ApkDecoder.ParseLines: on a failure it returns only the error, not the properties assigned before the exception. In the source, the exception escapes a thread-pool thread and ends the process, so those values are never shown.
- ApkDecoder.ParseLine: the source's seven `if`s do not return. The method returns from the branch that runs, which `ClassifyIsUnique` shows is the only branch that can run.
