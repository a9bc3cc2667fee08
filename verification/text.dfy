/**
 The .NET string operations the badging parser relies on, defined over
 `seq<char>`: ordinal substring search, `Replace`, `Trim`/`TrimStart` and
 `int.TryParse` with the default integer number style. `Join` is not one of
 them: it is the reference definition that the parser's repeated `+=`
 accumulation is proved equal to, plus one trailing separator.
 */
module Text {
  import opened Wrappers

  /** `Char.IsWhiteSpace`: U+0009..U+000D, U+0085, and the Unicode space,
      line and paragraph separators. This is the set `Trim` and `TrimStart`
      remove. */
  predicate IsWhiteSpace(c: char) {
    || ('\t' <= c <= '\r')
    || c == ' '
    || c == '\U{0085}'
    || c == '\U{00A0}'
    || c == '\U{1680}'
    || ('\U{2000}' <= c <= '\U{200A}')
    || c == '\U{2028}'
    || c == '\U{2029}'
    || c == '\U{202F}'
    || c == '\U{205F}'
    || c == '\U{3000}'
  }

  /** The white space `int.TryParse` skips around a number: U+0009..U+000D and U+0020. */
  predicate IsNumberSpace(c: char) {
    ('\t' <= c <= '\r') || c == ' '
  }

  /** The two sets of characters the trimming operations skip. */
  datatype Spaces = WhiteSpace | NumberSpace

  predicate IsSpace(sp: Spaces, c: char) {
    match sp
    case WhiteSpace => IsWhiteSpace(c)
    case NumberSpace => IsNumberSpace(c)
  }

  predicate AllSpace(s: string, sp: Spaces) {
    forall i :: 0 <= i < |s| ==> IsSpace(sp, s[i])
  }

  // ---------------------------------------------------------------------------
  // Ordinal search
  // ---------------------------------------------------------------------------

  /** `p` occurs in `s` starting at index `i`. */
  predicate OccursAt(s: string, p: string, i: nat) {
    i + |p| <= |s| && s[i..i + |p|] == p
  }

  predicate Contains(s: string, p: string) {
    exists i: nat :: i <= |s| && OccursAt(s, p, i)
  }

  lemma OccursAtOneChar(s: string, c: char, i: nat)
    ensures OccursAt(s, [c], i) <==> i < |s| && s[i] == c
  {
    if i < |s| {
      assert s[i..i + 1] == [s[i]];
    }
  }

  /** A one-character pattern occurs exactly where that character stands. */
  lemma OneCharOccurrences(s: string, c: char)
    ensures forall j: nat :: OccursAt(s, [c], j) <==> j < |s| && s[j] == c
  {
    forall j: nat {
      OccursAtOneChar(s, c, j);
    }
  }

  /** A pattern that holds a character `s` lacks does not occur in `s`. */
  lemma MissingCharNotContained(s: string, p: string, c: char)
    requires c in p && c !in s
    ensures !Contains(s, p)
  {
    forall i: nat | i <= |s|
      ensures !OccursAt(s, p, i)
    {
      if i + |p| <= |s| {
        var k :| 0 <= k < |p| && p[k] == c;
        assert s[i..i + |p|][k] == s[i + k];
      }
    }
  }

  lemma OccursAtTail(s: string, p: string, j: nat)
    requires |s| > 0 && OccursAt(s[1..], p, j)
    ensures OccursAt(s, p, j + 1)
  {
    assert s[1..][j..j + |p|] == s[j + 1..j + 1 + |p|];
  }

  /** `s.IndexOf(p, from)` (ordinal): the first index at or after `from`
      where `p` occurs, or `None` for the source's -1. */
  function IndexOfFrom(s: string, p: string, from: nat): (r: Option<nat>)
    requires from <= |s|
    ensures r.Some? ==> from <= r.value && OccursAt(s, p, r.value)
    ensures r.Some? ==> forall j: nat :: from <= j < r.value ==> !OccursAt(s, p, j)
    ensures r.None? ==> forall j: nat :: from <= j <= |s| ==> !OccursAt(s, p, j)
    decreases |s| - from
  {
    if OccursAt(s, p, from) then Some(from)
    else if from == |s| then None
    else IndexOfFrom(s, p, from + 1)
  }

  /** `s.IndexOf(p)` (ordinal). */
  function IndexOf(s: string, p: string): Option<nat> {
    IndexOfFrom(s, p, 0)
  }

  /** Text appended after the first occurrence does not move it. */
  lemma IndexOfExtend(head: string, tail: string, p: string)
    requires IndexOf(head, p).Some?
    ensures IndexOf(head + tail, p) == IndexOf(head, p)
  {
    var i := IndexOf(head, p).value;
    var s := head + tail;
    assert s[i..i + |p|] == head[i..i + |p|];
    forall j: nat | j < i
      ensures !OccursAt(s, p, j)
    {
      assert !OccursAt(head, p, j);
      assert s[j..j + |p|] == head[j..j + |p|];
    }
    FirstOccurrence(s, p, i);
  }

  /** An occurrence with none before it is what `IndexOf` finds. */
  lemma FirstOccurrence(s: string, p: string, i: nat)
    requires OccursAt(s, p, i)
    requires forall j: nat :: j < i ==> !OccursAt(s, p, j)
    ensures IndexOf(s, p) == Some(i)
  {
    FirstOccurrenceFrom(s, p, 0, i);
  }

  lemma {:induction false} FirstOccurrenceFrom(s: string, p: string, from: nat, i: nat)
    requires from <= i && OccursAt(s, p, i)
    requires forall j: nat :: from <= j < i ==> !OccursAt(s, p, j)
    ensures IndexOfFrom(s, p, from) == Some(i)
    decreases i - from
  {
    if from < i {
      FirstOccurrenceFrom(s, p, from + 1, i);
    }
  }

  /** `s.IndexOf(p) == 0` is exactly "`s` begins with `p`". */
  lemma IndexOfZeroIsPrefix(s: string, p: string)
    ensures IndexOf(s, p) == Some(0) <==> p <= s
  {
    if p <= s {
      assert OccursAt(s, p, 0);
    }
  }

  /** `s.LastIndexOf(c)`: the last index holding `c`, or `None` for -1. */
  function LastIndexOf(s: string, c: char): (r: Option<nat>)
    ensures r.Some? ==> r.value < |s| && s[r.value] == c && c !in s[r.value + 1..]
    ensures r.None? ==> c !in s
  {
    if |s| == 0 then None
    else if s[|s| - 1] == c then Some(|s| - 1)
    else
      var r := LastIndexOf(s[..|s| - 1], c);
      if r.Some? then
        assert s[r.value + 1..] == s[..|s| - 1][r.value + 1..] + [s[|s| - 1]];
        r
      else
        assert s == s[..|s| - 1] + [s[|s| - 1]];
        r
  }

  /** The `c` in `head + [c] + tail` is the last one when `tail` has none. */
  lemma {:induction false} LastIndexOfBefore(head: string, c: char, tail: string)
    requires c !in tail
    ensures LastIndexOf(head + [c] + tail, c) == Some(|head|)
    decreases |tail|
  {
    var s := head + [c] + tail;
    if |tail| > 0 {
      var shorter := tail[..|tail| - 1];
      assert s[..|s| - 1] == head + [c] + shorter;
      assert s[|s| - 1] == tail[|tail| - 1];
      LastIndexOfBefore(head, c, shorter);
    }
  }

  // ---------------------------------------------------------------------------
  // Replace
  // ---------------------------------------------------------------------------

  /** `s.Replace(pattern, replacement)`: scans left to right and replaces every
      non-overlapping occurrence. .NET throws on an empty pattern. */
  function ReplaceAll(s: string, pattern: string, replacement: string): string
    requires |pattern| > 0
    decreases |s|
  {
    if |s| == 0 then []
    else if pattern <= s then replacement + ReplaceAll(s[|pattern|..], pattern, replacement)
    else [s[0]] + ReplaceAll(s[1..], pattern, replacement)
  }

  /** A string without the pattern comes back unchanged. */
  lemma {:induction false} ReplaceAbsent(s: string, pattern: string, replacement: string)
    requires |pattern| > 0 && !Contains(s, pattern)
    ensures ReplaceAll(s, pattern, replacement) == s
    decreases |s|
  {
    if |s| > 0 {
      assert !OccursAt(s, pattern, 0);
      assert !(pattern <= s);
      forall j: nat | j <= |s[1..]|
        ensures !OccursAt(s[1..], pattern, j)
      {
        if OccursAt(s[1..], pattern, j) {
          OccursAtTail(s, pattern, j);
        }
      }
      ReplaceAbsent(s[1..], pattern, replacement);
      assert s == [s[0]] + s[1..];
    }
  }

  /** Replacing introduces no character that neither `s` nor the replacement holds. */
  lemma {:induction false} ReplaceAvoidsChar(s: string, pattern: string, replacement: string, c: char)
    requires |pattern| > 0 && c !in s && c !in replacement
    ensures c !in ReplaceAll(s, pattern, replacement)
    decreases |s|
  {
    if |s| > 0 {
      var skip := if pattern <= s then |pattern| else 1;
      assert forall i :: 0 <= i < |s[skip..]| ==> s[skip..][i] == s[skip + i];
      ReplaceAvoidsChar(s[skip..], pattern, replacement, c);
    }
  }

  /** Deleting a single character removes every copy of it. */
  lemma {:induction false} RemoveCharLeavesNone(s: string, c: char)
    ensures c !in ReplaceAll(s, [c], "")
    decreases |s|
  {
    if |s| > 0 {
      RemoveCharLeavesNone(s[1..], c);
      if [c] <= s {
        assert s[|[c]|..] == s[1..];
      }
    }
  }

  /** Deleting a single character, one character at a time. */
  lemma RemoveCharHead(s: string, c: char)
    requires |s| > 0
    ensures ReplaceAll(s, [c], "") == (if s[0] == c then "" else [s[0]]) + ReplaceAll(s[1..], [c], "")
  {
    assert [c] <= s <==> s[0] == c;
    if s[0] == c {
      assert s[|[c]|..] == s[1..];
    }
  }

  /** Deleting a single character works piecewise over a concatenation. */
  lemma {:induction false} RemoveCharAppend(a: string, b: string, c: char)
    ensures ReplaceAll(a + b, [c], "") == ReplaceAll(a, [c], "") + ReplaceAll(b, [c], "")
    decreases |a|
  {
    if |a| == 0 {
      assert a + b == b;
    } else {
      var t := a + b;
      assert t[0] == a[0] && t[1..] == a[1..] + b;
      var head := if a[0] == c then "" else [a[0]];
      RemoveCharHead(t, c);
      RemoveCharHead(a, c);
      RemoveCharAppend(a[1..], b, c);
      var x, y := ReplaceAll(a[1..], [c], ""), ReplaceAll(b, [c], "");
      assert head + (x + y) == (head + x) + y;
    }
  }

  /** A prefix that holds no copy of the pattern's first character is copied unchanged. */
  lemma {:induction false} ReplaceSkipsPrefix(w: string, t: string, pattern: string, replacement: string)
    requires |pattern| > 0 && pattern[0] !in w
    ensures ReplaceAll(w + t, pattern, replacement) == w + ReplaceAll(t, pattern, replacement)
    decreases |w|
  {
    if |w| > 0 {
      assert (w + t)[0] == w[0];
      assert !(pattern <= w + t);
      assert (w + t)[1..] == w[1..] + t;
      ReplaceSkipsPrefix(w[1..], t, pattern, replacement);
      assert w == [w[0]] + w[1..];
    } else {
      assert w + t == t;
    }
  }

  // ---------------------------------------------------------------------------
  // Trim
  // ---------------------------------------------------------------------------

  /** How many characters at the front of `s` satisfy `space`. */
  function LeadingSpaces(s: string, space: Spaces): (n: nat)
    ensures n <= |s|
    ensures forall i :: 0 <= i < n ==> IsSpace(space, s[i])
    ensures n < |s| ==> !IsSpace(space, s[n])
  {
    if |s| > 0 && IsSpace(space, s[0]) then 1 + LeadingSpaces(s[1..], space) else 0
  }

  /** How many characters at the back of `s` satisfy `space`. */
  function TrailingSpaces(s: string, space: Spaces): (n: nat)
    ensures n <= |s|
    ensures forall i :: |s| - n <= i < |s| ==> IsSpace(space, s[i])
    ensures n < |s| ==> !IsSpace(space, s[|s| - 1 - n])
  {
    if |s| > 0 && IsSpace(space, s[|s| - 1]) then 1 + TrailingSpaces(s[..|s| - 1], space) else 0
  }

  /** Drops the leading characters that satisfy `space`. */
  function TrimStartBy(s: string, space: Spaces): (r: string)
    ensures |r| <= |s| && r == s[|s| - |r|..]
    ensures AllSpace(s[..|s| - |r|], space)
    ensures |r| > 0 ==> !IsSpace(space, r[0])
  {
    s[LeadingSpaces(s, space)..]
  }

  /** Drops the trailing characters that satisfy `space`. */
  function TrimEndBy(s: string, space: Spaces): (r: string)
    ensures |r| <= |s| && r == s[..|r|]
    ensures AllSpace(s[|r|..], space)
    ensures |r| > 0 ==> !IsSpace(space, r[|r| - 1])
  {
    s[..|s| - TrailingSpaces(s, space)]
  }

  /** `s.TrimStart()`. */
  function TrimStart(s: string): string {
    TrimStartBy(s, WhiteSpace)
  }

  /** `s.Trim()`: white space removed from both ends. */
  function Trim(s: string): (r: string)
    ensures |r| > 0 ==> !IsWhiteSpace(r[0]) && !IsWhiteSpace(r[|r| - 1])
  {
    var e := TrimEndBy(s, WhiteSpace);
    var r := TrimStartBy(e, WhiteSpace);
    assert |r| > 0 ==> r[|r| - 1] == e[|e| - 1];
    r
  }

  /** `Trim` keeps the one substring of `s` that begins and ends with a
      non-white-space character (or is empty) and has only white space
      around it, so the order in which the two ends are trimmed does not
      matter. */
  lemma TrimIsCore(s: string)
    ensures var r := Trim(s);
            exists a: nat :: a + |r| <= |s| && r == s[a..a + |r|]
                             && AllSpace(s[..a], WhiteSpace)
                             && AllSpace(s[a + |r|..], WhiteSpace)
  {
    var e := TrimEndBy(s, WhiteSpace);
    var r := TrimStartBy(e, WhiteSpace);
    var a := |e| - |r|;
    SliceOfPrefix(s, |e|, a);
    assert r == s[a..a + |r|];
    assert s[..a] == e[..a];
    assert s[a + |r|..] == s[|e|..];
  }

  lemma SliceOfPrefix(s: string, n: nat, a: nat)
    requires a <= n <= |s|
    ensures s[..n][a..] == s[a..n]
    ensures s[..n][..a] == s[..a]
  {
  }

  /** Spaces appended to a string add to its trailing spaces. */
  lemma {:induction false} TrailingSpacesAppend(x: string, w: string, space: Spaces)
    requires AllSpace(w, space)
    ensures TrailingSpaces(x + w, space) == TrailingSpaces(x, space) + |w|
    decreases |w|
  {
    if |w| == 0 {
      assert x + w == x;
    } else {
      var w' := w[..|w| - 1];
      assert (x + w)[..|x + w| - 1] == x + w';
      assert (x + w)[|x + w| - 1] == w[|w| - 1];
      TrailingSpacesAppend(x, w', space);
    }
  }

  /** Spaces prepended to a string add to its leading spaces. */
  lemma {:induction false} LeadingSpacesPrepend(w: string, x: string, space: Spaces)
    requires AllSpace(w, space)
    ensures LeadingSpaces(w + x, space) == |w| + LeadingSpaces(x, space)
    decreases |w|
  {
    if |w| == 0 {
      assert w + x == x;
    } else {
      var w' := w[1..];
      assert (w + x)[1..] == w' + x;
      assert (w + x)[0] == w[0];
      LeadingSpacesPrepend(w', x, space);
    }
  }

  /** White space appended to a string does not survive trimming. */
  lemma TrimEndIgnoresSpaceSuffix(x: string, w: string)
    requires AllSpace(w, WhiteSpace)
    ensures TrimEndBy(x + w, WhiteSpace) == TrimEndBy(x, WhiteSpace)
  {
    TrailingSpacesAppend(x, w, WhiteSpace);
    var n := |x| - TrailingSpaces(x, WhiteSpace);
    assert (x + w)[..n] == x[..n];
  }

  lemma TrimIgnoresSpaceSuffix(x: string, w: string)
    requires AllSpace(w, WhiteSpace)
    ensures Trim(x + w) == Trim(x)
  {
    TrimEndIgnoresSpaceSuffix(x, w);
  }

  // ---------------------------------------------------------------------------
  // Joining
  // ---------------------------------------------------------------------------

  /** The parts with `sep` between each two of them, as `string.Join` would
      give; the reference for the list accumulation. */
  function Join(parts: seq<string>, sep: string): string {
    if |parts| == 0 then ""
    else if |parts| == 1 then parts[0]
    else parts[0] + sep + Join(parts[1..], sep)
  }

  /** Every part followed by `sep`: what repeated `acc += part + sep` builds. */
  function Terminated(parts: seq<string>, sep: string): string {
    if |parts| == 0 then ""
    else Terminated(parts[..|parts| - 1], sep) + parts[|parts| - 1] + sep
  }

  lemma {:induction false} JoinSnoc(parts: seq<string>, p: string, sep: string)
    requires |parts| > 0
    ensures Join(parts + [p], sep) == Join(parts, sep) + sep + p
    decreases |parts|
  {
    if |parts| == 1 {
      assert parts + [p] == [parts[0], p];
      assert [parts[0], p][1..] == [p];
    } else {
      assert (parts + [p])[1..] == parts[1..] + [p];
      JoinSnoc(parts[1..], p, sep);
    }
  }

  lemma {:induction false} TerminatedIsJoinThenSep(parts: seq<string>, sep: string)
    requires |parts| > 0
    ensures Terminated(parts, sep) == Join(parts, sep) + sep
    decreases |parts|
  {
    var init := parts[..|parts| - 1];
    var last := parts[|parts| - 1];
    if |parts| == 1 {
      assert Terminated(init, sep) == "";
    } else {
      TerminatedIsJoinThenSep(init, sep);
      assert parts == init + [last];
      JoinSnoc(init, last, sep);
    }
  }

  /** A joined list in which no part holds `c` does not hold `c` unless the separator does. */
  lemma {:induction false} JoinAvoidsChar(parts: seq<string>, sep: string, c: char)
    requires forall i :: 0 <= i < |parts| ==> c !in parts[i]
    requires c !in sep
    ensures c !in Join(parts, sep)
    decreases |parts|
  {
    if |parts| > 1 {
      JoinAvoidsChar(parts[1..], sep, c);
    }
  }

  // ---------------------------------------------------------------------------
  // int.TryParse
  // ---------------------------------------------------------------------------

  const Int32Min: int := -0x8000_0000
  const Int32Max: int := 0x7FFF_FFFF

  predicate IsDigit(c: char) {
    '0' <= c <= '9'
  }

  predicate AllDigits(s: string) {
    forall i :: 0 <= i < |s| ==> IsDigit(s[i])
  }

  /** The value of a string of decimal digits, most significant first. */
  function DigitsValue(s: string): nat
    requires AllDigits(s)
  {
    if |s| == 0 then 0
    else
      assert AllDigits(s[..|s| - 1]);
      DigitsValue(s[..|s| - 1]) * 10 + (s[|s| - 1] as int - '0' as int)
  }

  /** An optional `+` or `-` followed by at least one decimal digit. */
  predicate IsNumeral(t: string) {
    var digits := if |t| > 0 && (t[0] == '-' || t[0] == '+') then t[1..] else t;
    |digits| > 0 && AllDigits(digits)
  }

  /** The value a numeral denotes, before any range check. */
  function NumeralValue(t: string): int
    requires IsNumeral(t)
  {
    if t[0] == '-' then -(DigitsValue(t[1..]) as int)
    else if t[0] == '+' then DigitsValue(t[1..])
    else DigitsValue(t)
  }

  /** `int.TryParse(s, out n)` under the default integer style: optional white
      space around an optionally signed run of decimal digits whose value fits
      in 32 bits. `None` is a `false` return. */
  function TryParseInt32(s: string): (r: Option<int>)
    ensures r.Some? ==> Int32Min <= r.value <= Int32Max
    ensures r.Some? ==> exists i: nat :: i < |s| && IsDigit(s[i])
  {
    var e := TrimEndBy(s, NumberSpace);
    var t := TrimStartBy(e, NumberSpace);
    if !IsNumeral(t) then None
    else
      var v := NumeralValue(t);
      if Int32Min <= v <= Int32Max then
        ghost var i := |e| - |t|;
        ghost var k := if t[0] == '-' || t[0] == '+' then 1 else 0;
        assert IsDigit(t[k]);
        assert t[k] == e[i + k];
        assert e[i + k] == s[i + k];
        Some(v)
      else None
  }

  /** Trimming number white space from both ends of `w1 + x + w2` leaves
      `x`, when `x` neither begins nor ends with such white space. */
  lemma TrimAroundCore(w1: string, x: string, w2: string)
    requires AllSpace(w1, NumberSpace) && AllSpace(w2, NumberSpace)
    requires |x| > 0 && !IsNumberSpace(x[0]) && !IsNumberSpace(x[|x| - 1])
    ensures TrimStartBy(TrimEndBy(w1 + x + w2, NumberSpace), NumberSpace) == x
  {
    var core := w1 + x;
    assert core[|core| - 1] == x[|x| - 1];
    assert TrailingSpaces(core, NumberSpace) == 0;
    TrailingSpacesAppend(core, w2, NumberSpace);
    assert (core + w2)[..|core|] == core;
    assert LeadingSpaces(x, NumberSpace) == 0;
    LeadingSpacesPrepend(w1, x, NumberSpace);
  }

  /** A numeral between number white space parses to its value when that
      fits in 32 bits. */
  lemma TryParseNumeral(w1: string, x: string, w2: string)
    requires AllSpace(w1, NumberSpace) && AllSpace(w2, NumberSpace) && IsNumeral(x)
    ensures TryParseInt32(w1 + x + w2)
            == if Int32Min <= NumeralValue(x) <= Int32Max then Some(NumeralValue(x)) else None
  {
    assert !IsNumberSpace(x[0]);
    var digits := if x[0] == '-' || x[0] == '+' then x[1..] else x;
    assert x[|x| - 1] == digits[|digits| - 1];
    TrimAroundCore(w1, x, w2);
  }

  /** Number white space, an optional sign, digits and number white space
      parse to the signed value of the digits when it fits in 32 bits, and
      fail when it does not. */
  lemma TryParseSigned(w1: string, sign: string, d: string, w2: string)
    requires AllSpace(w1, NumberSpace) && AllSpace(w2, NumberSpace)
    requires sign == "" || sign == "+" || sign == "-"
    requires |d| > 0 && AllDigits(d)
    ensures var v: int := if sign == "-" then -(DigitsValue(d) as int) else DigitsValue(d);
            TryParseInt32(w1 + sign + d + w2) == if Int32Min <= v <= Int32Max then Some(v) else None
  {
    var x := sign + d;
    SignedNumeral(sign, d);
    ConcatRegroup(w1, sign, d, w2);
    TryParseNumeral(w1, x, w2);
  }

  /** A sign (or none) before digits is a numeral with the signed value. */
  lemma SignedNumeral(sign: string, d: string)
    requires sign == "" || sign == "+" || sign == "-"
    requires |d| > 0 && AllDigits(d)
    ensures IsNumeral(sign + d)
    ensures NumeralValue(sign + d) == if sign == "-" then -(DigitsValue(d) as int) else DigitsValue(d)
  {
    var x := sign + d;
    if sign == "" {
      assert x == d;
    } else {
      assert x[0] == sign[0] && x[1..] == d;
    }
  }

  lemma ConcatRegroup(a: string, b: string, c: string, d: string)
    ensures a + b + c + d == a + (b + c) + d
  {
  }

  /** Conversely, text that parses is number white space around a numeral
      whose value is the result. */
  lemma TryParseShape(s: string)
    requires TryParseInt32(s).Some?
    ensures exists a: nat, b: nat :: a <= b <= |s| && AllSpace(s[..a], NumberSpace)
              && AllSpace(s[b..], NumberSpace) && IsNumeral(s[a..b])
              && TryParseInt32(s).value == NumeralValue(s[a..b])
  {
    var e := TrimEndBy(s, NumberSpace);
    var t := TrimStartBy(e, NumberSpace);
    var b := |e|;
    var a := |e| - |t|;
    SliceOfPrefix(s, b, a);
    assert t == s[a..b];
    assert IsNumeral(t);
  }

  function DigitChar(d: nat): char
    requires d < 10
  {
    ('0' as int + d) as char
  }

  /** `n.ToString()` for a non-negative `n`. */
  function DecimalString(n: nat): (r: string)
    ensures |r| > 0 && AllDigits(r)
  {
    if n < 10 then [DigitChar(n)]
    else DecimalString(n / 10) + [DigitChar(n % 10)]
  }

  lemma {:induction false} DecimalStringValue(n: nat)
    ensures DigitsValue(DecimalString(n)) == n
  {
    var s := DecimalString(n);
    if n >= 10 {
      DecimalStringValue(n / 10);
      assert s[..|s| - 1] == DecimalString(n / 10);
    }
  }

  /** A plain run of digits parses to its value. */
  lemma TryParseDigits(s: string)
    requires |s| > 0 && AllDigits(s) && DigitsValue(s) <= Int32Max
    ensures TryParseInt32(s) == Some(DigitsValue(s))
  {
    assert IsDigit(s[0]);
    assert NumeralValue(s) == DigitsValue(s);
    assert "" + s + "" == s;
    TryParseNumeral("", s, "");
  }


  /** `int.TryParse` reads back every non-negative 32-bit number it prints. */
  lemma TryParseDecimalString(n: nat)
    requires n <= Int32Max
    ensures TryParseInt32(DecimalString(n)) == Some(n)
  {
    DecimalStringValue(n);
    TryParseDigits(DecimalString(n));
  }
}
