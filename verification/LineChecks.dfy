/** The line checks of check-style-clang-format.py: each computes a verdict on one line and
    the line that should replace it. */
module LineChecks {
  import opened LicenseTexts
  import opened PyText

  const TAB_SIZE := 4

  const FORMAT_GUARD_ON := ["// clang-format on", "# cmake-format: on", "# fmt: on"]

  const FORMAT_GUARD_OFF := ["// clang-format off", "# cmake-format: off", "# fmt: off"]

  const IGNORED_WORDS := ["\\dots", "\\langle", "\\quad"]

  /** `wide` says which characters beyond ASCII the regular expression `\w` matches. */
  datatype LineCheck =
    | IncludeQuotes
    | DoxygenTags(wide: char -> bool)
    | Licenses
    | Emacs
    | Whitespace
    | Tabs

  datatype Verdict = Verdict(isLineCompliant: bool, lineFixed: string)

  predicate IsOn(line: string) {
    Strip(line) in FORMAT_GUARD_ON
  }

  predicate IsOff(line: string) {
    Strip(line) in FORMAT_GUARD_OFF
  }

  predicate IsGuard(line: string) {
    IsOn(line) || IsOff(line)
  }

  // ---------------------------------------------------------------------------------------
  // The checks
  // ---------------------------------------------------------------------------------------

  // `^#include <ns3/.*\.h>`
  predicate IncludesInAngles(line: string) {
    StartsWith(line, "#include <ns3/") && Contains(line[14..], ".h>")
  }

  function CheckIncludeQuotes(line: string): Verdict {
    if IncludesInAngles(line) then Verdict(false, Replace(Replace(line, "<", "\""), ">", "\""))
    else Verdict(true, line)
  }

  function SkipSpaces(s: string, i: nat): (k: nat)
    requires i <= |s|
    ensures i <= k <= |s|
    ensures forall j :: i <= j < k ==> IsSpace(s[j])
    ensures k < |s| ==> !IsSpace(s[k])
    decreases |s| - i
  {
    if i < |s| && IsSpace(s[i]) then SkipSpaces(s, i + 1) else i
  }

  predicate IsWord(c: char, wide: char -> bool) {
    'a' <= c <= 'z' || 'A' <= c <= 'Z' || '0' <= c <= '9' || c == '_' || (c as int >= 128 && wide(c))
  }

  function SkipWord(s: string, i: nat, wide: char -> bool): (k: nat)
    requires i <= |s|
    ensures i <= k <= |s|
    ensures forall j :: i <= j < k ==> IsWord(s[j], wide)
    ensures k < |s| ==> !IsWord(s[k], wide)
    decreases |s| - i
  {
    if i < |s| && IsWord(s[i], wide) then SkipWord(s, i + 1, wide) else i
  }

  // Length of the comment marker at `p`, one of "*", "/**" and "///"; 0 if there is none.
  function Marker(s: string, p: nat): (m: nat)
    requires p <= |s|
    ensures p + m <= |s|
  {
    if StartsWith(s[p..], "*") then 1
    else if StartsWith(s[p..], "/**") || StartsWith(s[p..], "///") then 3
    else 0
  }

  datatype Tag = NoTag | Tag(start: nat, end: nat)

  // `^\s*(?:\*|\/\*\*|\/\/\/)\s*(\\\w{3,})(?=(?:\s|$))`. Each part matches one way only, so no
  // backtracking is needed: a marker is no space, a backslash neither space nor marker.
  function FindTag(s: string, wide: char -> bool): (t: Tag)
    ensures t.Tag? ==> t.start + 4 <= t.end <= |s| && s[t.start] == '\\'
    ensures t.Tag? ==> forall j :: t.start < j < t.end ==> IsWord(s[j], wide)
    ensures t.Tag? ==> forall j :: 0 <= j < t.start ==> s[j] != '\\'
  {
    var p := SkipSpaces(s, 0);
    var m := Marker(s, p);
    if m == 0 then NoTag
    else
      var q := SkipSpaces(s, p + m);
      assert forall j :: p <= j < p + m ==> s[j] == s[p..][..m][j - p];
      if q < |s| && s[q] == '\\' then
        var e := SkipWord(s, q + 1, wide);
        if e - (q + 1) >= 3 && (e == |s| || IsSpace(s[e])) then Tag(q, e) else NoTag
      else NoTag
  }

  /** The same pattern read as a grammar: blanks, a marker, blanks, the tag, and then the end
      or a blank. */
  ghost predicate TagParts(s: string, w1: string, mark: string, w2: string, tag: string, tail: string,
                           wide: char -> bool)
  {
    && s == w1 + mark + w2 + tag + tail
    && All(w1, IsSpace) && All(w2, IsSpace)
    && mark in ["*", "/**", "///"]
    && |tag| >= 4 && tag[0] == '\\' && (forall j :: 0 < j < |tag| ==> IsWord(tag[j], wide))
    && (tail != "" ==> IsSpace(tail[0]))
  }

  lemma MarkText(s: string, p: nat)
    requires p <= |s| && Marker(s, p) > 0
    ensures s[p..p + Marker(s, p)] in ["*", "/**", "///"]
  {
    assert s[p..p + Marker(s, p)] == s[p..][..Marker(s, p)];
  }

  lemma FindTagSound(s: string, wide: char -> bool)
    returns (w1: string, mark: string, w2: string, tag: string, tail: string)
    requires FindTag(s, wide).Tag?
    ensures TagParts(s, w1, mark, w2, tag, tail, wide)
    ensures var t := FindTag(s, wide); tag == s[t.start..t.end]
    ensures tail != "" ==> !IsWord(tail[0], wide)
  {
    hide IsSpace, IsWord, Marker, SkipSpaces, SkipWord;
    var t := FindTag(s, wide);
    var p := SkipSpaces(s, 0);
    var m := Marker(s, p);
    MarkText(s, p);
    w1, mark, w2, tag, tail := s[..p], s[p..p + m], s[p + m..t.start], s[t.start..t.end], s[t.end..];
    Pieces(s, p, p + m, t.start, t.end);
    assert tail != "" ==> tail[0] == s[t.end];
  }

  lemma Pieces(s: string, i: nat, j: nat, k: nat, l: nat)
    requires i <= j <= k <= l <= |s|
    ensures s == s[..i] + s[i..j] + s[j..k] + s[k..l] + s[l..]
  {
  }

  lemma MarkerAt(w1: string, mark: string, after: string)
    requires mark in ["*", "/**", "///"]
    ensures Marker(w1 + mark + after, |w1|) == |mark|
    ensures !IsSpace(mark[0])
  {
    var u := (w1 + mark + after)[|w1|..];
    assert u == mark + after;
    assert u[..|mark|] == mark;
    if mark == "*" {
    } else {
      assert u[..1] == [u[0]];
      assert u[..3] == mark;
    }
  }

  lemma SkipsSpacesTo(s: string, i: nat, k: nat)
    requires i <= k <= |s|
    requires All(s[i..k], IsSpace) && (k < |s| ==> !IsSpace(s[k]))
    ensures SkipSpaces(s, i) == k
  {
    hide IsSpace, SkipSpaces;
    assert forall j :: i <= j < k ==> s[j] == s[i..k][j - i] && s[j] in s[i..k];
  }

  lemma SkipsWordTo(s: string, i: nat, k: nat, wide: char -> bool)
    requires i <= k <= |s|
    requires (forall j :: i <= j < k ==> IsWord(s[j], wide)) && (k < |s| ==> !IsWord(s[k], wide))
    ensures SkipWord(s, i, wide) == k
  {
    hide IsWord, SkipWord;
  }

  /** Blanks, then text that begins with something else, at any place of a string. */
  lemma SkipsBlanks(before: string, w: string, after: string)
    requires All(w, IsSpace) && (after != "" ==> !IsSpace(after[0]))
    ensures SkipSpaces(before + w + after, |before|) == |before + w|
  {
    hide IsSpace, SkipSpaces;
    var s := before + w + after;
    assert s[|before|..|before + w|] == w;
    SkipsSpacesTo(s, |before|, |before + w|);
  }

  lemma SkipsTag(before: string, tag: string, tail: string, wide: char -> bool)
    requires tag != "" && (forall j :: 0 < j < |tag| ==> IsWord(tag[j], wide))
    requires tail != "" ==> !IsWord(tail[0], wide)
    ensures SkipWord(before + tag + tail, |before| + 1, wide) == |before + tag|
  {
    hide IsWord, SkipWord;
    var s := before + tag + tail;
    assert forall j :: |before| < j < |before + tag| ==> s[j] == tag[j - |before|];
    SkipsWordTo(s, |before| + 1, |before + tag|, wide);
  }

  lemma MarkPosition(w1: string, mark: string, rest: string)
    requires All(w1, IsSpace) && mark in ["*", "/**", "///"]
    ensures SkipSpaces(w1 + mark + rest, 0) == |w1|
    ensures Marker(w1 + mark + rest, |w1|) == |mark|
  {
    hide IsSpace, SkipSpaces, Marker;
    MarkerAt(w1, mark, rest);
    SkipsBlanks("", w1, mark + rest);
    assert "" + w1 + (mark + rest) == w1 + mark + rest;
  }

  lemma Regroup(w1: string, mark: string, w2: string, tag: string, tail: string)
    ensures var s := w1 + mark + w2 + tag + tail;
            s == w1 + mark + (w2 + tag + tail) && s == (w1 + mark) + w2 + (tag + tail)
  {
  }

  /** Whenever the text reads that way, the search finds that tag. */
  lemma FindTagComplete(s: string, w1: string, mark: string, w2: string, tag: string, tail: string, wide: char -> bool)
    requires TagParts(s, w1, mark, w2, tag, tail, wide)
    requires tail != "" ==> !IsWord(tail[0], wide)
    ensures var t := FindTag(s, wide); t.Tag? && s[t.start..t.end] == tag
  {
    hide IsSpace, IsWord, SkipSpaces, SkipWord, Marker;
    Regroup(w1, mark, w2, tag, tail);
    MarkPosition(w1, mark, w2 + tag + tail);
    BackslashIsNoSpace();
    SkipsBlanks(w1 + mark, w2, tag + tail);
    SkipsTag(w1 + mark + w2, tag, tail, wide);
    TagPlace(w1 + mark + w2, tag, tail);
  }

  lemma TagPlace(before: string, tag: string, tail: string)
    requires tag != ""
    ensures var s := before + tag + tail;
            && s[|before|..|before + tag|] == tag && s[|before|] == tag[0]
            && (tail != "" ==> s[|before + tag|] == tail[0])
  {
  }

  lemma BackslashIsNoSpace()
    ensures !IsSpace('\\')
  {
  }

  function CheckDoxygenTags(line: string, wide: char -> bool): Verdict {
    var s := RStrip(line);
    match FindTag(s, wide)
    case NoTag => Verdict(true, line)
    case Tag(start, end) =>
      var tag := s[start..end];
      if tag in IGNORED_WORDS then Verdict(true, line)
      else Verdict(false, Replace(line, tag, "@" + tag[1..]))
  }

  predicate IsStar(c: char) {
    c in "*#/"
  }

  /** The line without surrounding blanks and comment characters. */
  function LicenseText(line: string): string {
    Strip(Trim(Strip(line), IsStar))
  }

  function CheckLicenses(line: string): Verdict {
    var text := LicenseText(line);
    if text in GPL_LICENSE_LINES then
      Verdict(false, if text == GPL_LICENSE_LINES[0] then Replace(line, text, SPDX_LICENSE) else "")
    else Verdict(true, line)
  }

  function CheckEmacs(line: string): Verdict {
    var s := Strip(line);
    if Contains(s, "c-file-style:") || Contains(s, "py-indent-offset:") then Verdict(false, "")
    else Verdict(true, line)
  }

  function CheckWhitespace(line: string): Verdict {
    var lineFixed := RStrip(line) + "\n";
    Verdict(lineFixed == line, lineFixed)
  }

  /** The column reached after a character, with tab stops every TAB_SIZE columns. */
  function Advance(c: char, column: nat): nat {
    if c == '\t' then column + TAB_SIZE - column % TAB_SIZE
    else if c == '\n' || c == '\r' then 0
    else column + 1
  }

  function Blanks(n: nat): string {
    seq(n, _ => ' ')
  }

  /** `expandtabs(TAB_SIZE)` on the text that begins at the given column. */
  function ExpandTabs(s: string, column: nat): string {
    if s == [] then []
    else (if s[0] == '\t' then Blanks(TAB_SIZE - column % TAB_SIZE) else [s[0]])
         + ExpandTabs(s[1..], Advance(s[0], column))
  }

  function CheckTabs(line: string): Verdict {
    if '\t' in line then Verdict(false, ExpandTabs(line, 0)) else Verdict(true, line)
  }

  function CheckLine(check: LineCheck, line: string): Verdict {
    match check
    case IncludeQuotes => CheckIncludeQuotes(line)
    case DoxygenTags(wide) => CheckDoxygenTags(line, wide)
    case Licenses => CheckLicenses(line)
    case Emacs => CheckEmacs(line)
    case Whitespace => CheckWhitespace(line)
    case Tabs => CheckTabs(line)
  }

  predicate Compliant(check: LineCheck, line: string) {
    CheckLine(check, line).isLineCompliant
  }

  function Fixed(check: LineCheck, line: string): string {
    CheckLine(check, line).lineFixed
  }

  // ---------------------------------------------------------------------------------------
  // What every check guarantees
  // ---------------------------------------------------------------------------------------

  /** The text is a line (or the line is deleted), keeps its end, gains no carriage return or
      tab, and passes the check; a compliant line is left alone; a guard stays the same guard. */
  ghost predicate GoodFix(check: LineCheck, line: string) {
    var fixed := Fixed(check, line);
    && (Compliant(check, line) ==> fixed == line)
    && (fixed != "" ==> IsLine(fixed) && Compliant(check, fixed))
    && (fixed != "" && Terminated(line) ==> Terminated(fixed))
    && ('\r' !in line ==> '\r' !in fixed)
    && ('\t' !in line ==> '\t' !in fixed)
    && (IsGuard(line) ==> fixed != "" && Strip(fixed) == Strip(line))
  }

  predicate GuardText(g: string) {
    && 9 <= |g| <= 19
    && ((g[0] == '/' && g[1] == '/' && g[2] == ' ') || (g[0] == '#' && g[1] == ' '))
    && !IsSpace(g[|g| - 1])
  }

  /** No guard has one of the marks, a control character or the letter y. */
  ghost predicate GuardChars(g: string) {
    forall c :: c in g ==> ' ' <= c && !IsMark(c) && c != 'y'
  }

  lemma OnChars(g: string)
    requires g in FORMAT_GUARD_ON
    ensures GuardChars(g)
  {
    if g == "// clang-format on" {
    } else if g == "# cmake-format: on" {
    } else {
      assert g == "# fmt: on";
    }
  }

  lemma OffChars(g: string)
    requires g in FORMAT_GUARD_OFF
    ensures GuardChars(g)
  {
    if g == "// clang-format off" {
    } else if g == "# cmake-format: off" {
    } else {
      assert g == "# fmt: off";
    }
  }

  lemma GuardShape(g: string)
    requires g in FORMAT_GUARD_ON || g in FORMAT_GUARD_OFF
    ensures GuardText(g) && GuardChars(g)
  {
    hide GuardChars;
    if g in FORMAT_GUARD_ON {
      OnChars(g);
    } else {
      OffChars(g);
    }
    if g in FORMAT_GUARD_ON {
      if g == "// clang-format on" {
      } else if g == "# cmake-format: on" {
      } else {
        assert g == "# fmt: on";
      }
    } else {
      if g == "// clang-format off" {
      } else if g == "# cmake-format: off" {
      } else {
        assert g == "# fmt: off";
      }
    }
  }

  lemma QuotesAddNothing(line: string, c: char)
    requires c != '"'
    ensures c in Replace(Replace(line, "<", "\""), ">", "\"") ==> c in Replace(line, "<", "\"") && c in line
  {
    hide Replace;
    var once := Replace(line, "<", "\"");
    if c in Replace(once, ">", "\"") {
      ReplaceChars(once, ">", "\"", c);
      ReplaceChars(line, "<", "\"", c);
    }
  }

  lemma QuotesText(line: string)
    requires IsLine(line)
    ensures var fixed := Replace(Replace(line, "<", "\""), ">", "\"");
            && IsLine(fixed) && (Terminated(line) ==> Terminated(fixed))
            && '<' !in fixed && ('\r' !in line ==> '\r' !in fixed) && ('\t' !in line ==> '\t' !in fixed)
  {
    hide Replace, IsLine, Terminated;
    ReplaceLine(line, "<", "\"");
    ReplaceLine(Replace(line, "<", "\""), ">", "\"");
    ReplaceRemovesChar(line, '<', "\"");
    QuotesAddNothing(line, '<');
    QuotesAddNothing(line, '\r');
    QuotesAddNothing(line, '\t');
  }

  lemma NoAngles(line: string)
    requires '<' !in line
    ensures !IncludesInAngles(line)
  {
    assert |line| >= 14 ==> line[9] == line[..14][9];
  }

  lemma IncludeQuotesGood(line: string)
    requires IsLine(line)
    ensures GoodFix(IncludeQuotes, line)
  {
    hide Replace, Terminated, IncludesInAngles, IsGuard;
    if IncludesInAngles(line) {
      QuotesText(line);
      NoAngles(Fixed(IncludeQuotes, line));
      NoIncludeGuard(line);
    }
  }

  lemma NoIncludeGuard(line: string)
    requires IncludesInAngles(line)
    ensures !IsGuard(line)
  {
    assert line[0] == line[..14][0] == '#';
    assert line[1] == line[..14][1] == 'i';
    assert LTrim(line, IsSpace) == line;
    var b := RTrimParts(line, IsSpace);
    assert |Strip(line)| > 1 ==> Strip(line)[1] == line[1];
    if IsGuard(line) {
      GuardShape(Strip(line));
    }
  }

  lemma SameSkip(s: string, t: string, i: nat, k: nat)
    requires i <= k < |s| && k < |t| && s[i..k] == t[i..k]
    requires SkipSpaces(s, i) >= k
    requires !IsSpace(t[k])
    ensures SkipSpaces(t, i) == k
    decreases k - i
  {
    if i < k {
      assert s[i] == s[i..k][0] == t[i..k][0] == t[i];
      assert s[i + 1..k] == s[i..k][1..] && t[i + 1..k] == t[i..k][1..];
      SameSkip(s, t, i + 1, k);
    }
  }

  /** Putting anything but a backslash where the tag began leaves nothing to find. */
  lemma NoTagLeft(s: string, t: string, wide: char -> bool)
    requires FindTag(s, wide).Tag?
    requires var q := FindTag(s, wide).start; q < |t| && t[..q] == s[..q] && t[q] != '\\' && !IsSpace(t[q])
    ensures FindTag(t, wide).NoTag?
  {
    hide IsSpace, IsWord, SkipSpaces, SkipWord;
    var q := FindTag(s, wide).start;
    var p := SkipSpaces(s, 0);
    var m := Marker(s, p);
    assert p < q;
    assert t[p] == t[..q][p] == s[..q][p] == s[p];
    assert s[0..p] == s[..q][..p] == t[..q][..p] == t[0..p];
    SameSkip(s, t, 0, p);
    assert s[p..p + m] == s[..q][p..p + m] == t[..q][p..p + m] == t[p..p + m];
    assert s[p..][..m] == s[p..p + m] && t[p..][..m] == t[p..p + m];
    assert Marker(t, p) == m;
    assert s[p + m..q] == s[..q][p + m..] == t[..q][p + m..] == t[p + m..q];
    SameSkip(s, t, p + m, q);
  }

  lemma TagText(s: string, wide: char -> bool)
    requires FindTag(s, wide).Tag?
    ensures var t := FindTag(s, wide); var tag := s[t.start..t.end];
            tag != [] && '\n' !in tag && '\n' !in tag[1..] && forall c :: c in tag[1..] ==> c in s
  {
    var t := FindTag(s, wide);
    var tag := s[t.start..t.end];
    assert forall j :: t.start < j < t.end ==> s[j] != '\n';
    assert forall j :: 0 < j < |tag| ==> tag[j] == s[t.start + j];
    assert forall j :: 0 <= j < |tag[1..]| ==> tag[1..][j] == tag[j + 1];
  }

  lemma DoxygenFixText(line: string, wide: char -> bool)
    requires IsLine(line)
    requires !Compliant(DoxygenTags(wide), line)
    ensures var fixed := Fixed(DoxygenTags(wide), line);
            && IsLine(fixed) && (Terminated(line) ==> Terminated(fixed))
            && ('\r' !in line ==> '\r' !in fixed) && ('\t' !in line ==> '\t' !in fixed)
  {
    var s := RStrip(line);
    var b := RTrimParts(line, IsSpace);
    var t := FindTag(s, wide);
    TagText(s, wide);
    var tag := s[t.start..t.end];
    var sub := "@" + tag[1..];
    ReplaceLine(line, tag, sub);
    if '\r' in Replace(line, tag, sub) {
      ReplaceChars(line, tag, sub, '\r');
    }
    if '\t' in Replace(line, tag, sub) {
      ReplaceChars(line, tag, sub, '\t');
    }
  }

  lemma DoxygenFixClean(line: string, wide: char -> bool)
    ensures Compliant(DoxygenTags(wide), Fixed(DoxygenTags(wide), line))
  {
    hide FindTag, RTrim, Replace;
    if Compliant(DoxygenTags(wide), line) {
      return;
    }
    var s := RStrip(line);
    var b := RTrimParts(line, IsSpace);
    var t := FindTag(s, wide);
    var sub := "@" + s[t.start..t.end][1..];
    ReplacedTag(line, s, b, t.start, t.end, sub);
    NoTagLeft(s, RStrip(Replace(line, s[t.start..t.end], sub)), wide);
  }

  lemma {:induction false} DoxygenTagsGood(line: string, wide: char -> bool)
    requires IsLine(line)
    ensures GoodFix(DoxygenTags(wide), line)
  {
    if !Compliant(DoxygenTags(wide), line) {
      DoxygenFixText(line, wide);
      DoxygenFixClean(line, wide);
      TagIsNoGuard(line, wide);
    }
  }

  /** The tag is replaced where it stands: nothing before it can be another occurrence. */
  lemma ReplacedTag(line: string, s: string, b: string, q: nat, e: nat, sub: string)
    requires line == s + b && RStrip(line) == s
    requires q < e <= |s| && s[q] == '\\'
    requires forall j :: 0 <= j < q ==> s[j] != '\\'
    requires sub != [] && !IsSpace(sub[0])
    ensures var r := RStrip(Replace(line, s[q..e], sub)); |r| > q && r[..q] == s[..q] && r[q] == sub[0]
  {
    hide IsSpace, RTrim;
    var tag := s[q..e];
    var rest := line[q..];
    assert line == s[..q] + rest;
    ReplaceSkips(s[..q], rest, tag, sub);
    assert StartsWith(rest, tag) by {
      assert rest[..|tag|] == tag;
    }
    var fixed := Replace(line, tag, sub);
    assert fixed[q] == sub[0] && fixed[..q] == s[..q];
    var c := RTrimParts(fixed, IsSpace);
    var r := RStrip(fixed);
    assert forall k :: |r| <= k < |fixed| ==> fixed[k] == c[k - |r|] && c[k - |r|] in c;
    assert r == fixed[..|r|];
  }

  lemma GuardHasNoMarker(g: string)
    requires g in FORMAT_GUARD_ON || g in FORMAT_GUARD_OFF
    ensures Marker(g, 0) == 0
  {
    GuardShape(g);
    assert g[0..] == g;
    assert g[..1][0] == g[0];
    assert g[..3][2] == g[2];
  }

  lemma TagIsNoGuard(line: string, wide: char -> bool)
    requires FindTag(RStrip(line), wide).Tag?
    ensures !IsGuard(line)
  {
    hide IsSpace, SkipSpaces, SkipWord, IsWord, Trim, RTrim, FORMAT_GUARD_ON, FORMAT_GUARD_OFF;
    var s := RStrip(line);
    var p := SkipSpaces(s, 0);
    var b := RTrimParts(line, IsSpace);
    assert s == s[..p] + s[p..];
    assert forall c :: c in s[..p] ==> IsSpace(c);
    TrimUnique(s[..p], s[p..], b, IsSpace);
    assert Strip(line) == s[p..] && s[p..][0..] == s[p..];
    if IsGuard(line) {
      GuardHasNoMarker(s[p..]);
    }
  }

  /** How the license text sits in its line: blanks, comment characters, blanks on each side. */
  ghost predicate Around(line: string, text: string, a: seq<string>, b: seq<string>) {
    && |a| == 3 && |b| == 3
    && line == a[0] + a[1] + a[2] + text + b[2] + b[1] + b[0]
    && All(a[0], IsSpace) && All(a[1], IsStar) && All(a[2], IsSpace)
    && All(b[0], IsSpace) && All(b[1], IsStar) && All(b[2], IsSpace)
    && (a[1] == [] ==> a[2] == []) && (b[1] == [] ==> b[2] == [])
  }

  lemma LicenseParts(line: string) returns (a: seq<string>, b: seq<string>)
    requires LicenseText(line) != []
    ensures Around(line, LicenseText(line), a, b)
    ensures |LicenseText(line)| <= |Strip(line)|
    ensures !IsSpace(LicenseText(line)[|LicenseText(line)| - 1])
  {
    hide Trim, IsSpace, IsStar;
    var stripped := Strip(line);
    var bare := Trim(stripped, IsStar);
    var a1, b1 := TrimParts(line, IsSpace);
    var a2, b2 := TrimParts(stripped, IsStar);
    var a3, b3 := TrimParts(bare, IsSpace);
    a, b := [a1, a2, a3], [b1, b2, b3];
    assert line == a1 + (a2 + (a3 + LicenseText(line) + b3) + b2) + b1;
    assert stripped == (a2 + a3) + LicenseText(line) + (b3 + b2);
    assert a3 != [] ==> a3[0] in a3;
    assert b3 != [] ==> b3[|b3| - 1] in b3;
  }

  lemma LicenseOfParts(line: string, text: string, a: seq<string>, b: seq<string>)
    requires Around(line, text, a, b)
    requires text != []
    requires !IsSpace(text[0]) && !IsStar(text[0])
    requires !IsSpace(text[|text| - 1]) && !IsStar(text[|text| - 1])
    ensures LicenseText(line) == text
  {
    var bare := a[2] + text + b[2];
    var stripped := a[1] + bare + b[1];
    assert line == a[0] + stripped + b[0];
    assert a[1] != [] ==> a[1][0] in a[1];
    assert b[1] != [] ==> b[1][|b[1]| - 1] in b[1];
    assert a[2] != [] ==> a[2][0] in a[2];
    assert b[2] != [] ==> b[2][|b[2]| - 1] in b[2];
    TrimUnique(a[0], stripped, b[0], IsSpace);
    TrimUnique(a[1], bare, b[1], IsStar);
    TrimUnique(a[2], text, b[2], IsSpace);
  }

  /** The SPDX identifier takes the place of the text and nothing else moves. */
  lemma SpdxReplacesText(line: string, a: seq<string>, b: seq<string>)
    requires Around(line, GPL_LICENSE_LINES[0], a, b)
    ensures Around(Replace(line, GPL_LICENSE_LINES[0], SPDX_LICENSE), SPDX_LICENSE, a, b)
  {
    var text := GPL_LICENSE_LINES[0];
    FirstGplText();
    var before, after := a[0] + a[1] + a[2], b[2] + b[1] + b[0];
    assert line == before + (text + after);
    assert text[0] !in before && text[0] !in after;
    ReplaceOnce(before, text, after, SPDX_LICENSE);
    assert before + (SPDX_LICENSE + after) == a[0] + a[1] + a[2] + SPDX_LICENSE + b[2] + b[1] + b[0];
  }

  lemma ReplaceOnce(before: string, text: string, after: string, sub: string)
    requires text != [] && text[0] !in before && text[0] !in after
    ensures Replace(before + (text + after), text, sub) == before + (sub + after)
  {
    ReplaceSkips(before, text + after, text, sub);
    assert (text + after)[..|text|] == text && (text + after)[|text|..] == after;
    ReplaceSkips(after, "", text, sub);
    assert after + "" == after;
  }

  lemma TextHasNoNewline(line: string, text: string, a: seq<string>, b: seq<string>)
    requires IsLine(line) && Around(line, text, a, b)
    requires text != [] && !IsSpace(text[|text| - 1])
    ensures '\n' !in text
  {
    var n := |a[0] + a[1] + a[2]|;
    assert forall i :: 0 <= i < |text| ==> text[i] == line[n + i];
  }

  lemma LicenseFix(line: string)
    requires IsLine(line) && LicenseText(line) == GPL_LICENSE_LINES[0]
    ensures var fixed := Replace(line, GPL_LICENSE_LINES[0], SPDX_LICENSE);
            && IsLine(fixed) && (Terminated(line) ==> Terminated(fixed))
            && ('\r' !in line ==> '\r' !in fixed) && ('\t' !in line ==> '\t' !in fixed)
            && LicenseText(fixed) == SPDX_LICENSE
  {
    var text := GPL_LICENSE_LINES[0];
    var fixed := Replace(line, text, SPDX_LICENSE);
    SpdxText();
    GplLength(text);
    var a, b := LicenseParts(line);
    TextHasNoNewline(line, text, a, b);
    ReplaceLine(line, text, SPDX_LICENSE);
    if '\r' in fixed {
      ReplaceChars(line, text, SPDX_LICENSE, '\r');
    }
    if '\t' in fixed {
      ReplaceChars(line, text, SPDX_LICENSE, '\t');
    }
    SpdxReplacesText(line, a, b);
    LicenseOfParts(fixed, SPDX_LICENSE, a, b);
  }

  lemma LicensesGood(line: string)
    requires IsLine(line)
    ensures GoodFix(Licenses, line)
  {
    var text := LicenseText(line);
    if text in GPL_LICENSE_LINES {
      GplLength(text);
      var a, b := LicenseParts(line);
      if IsGuard(line) {
        GuardShape(Strip(line));
      }
      if text == GPL_LICENSE_LINES[0] {
        LicenseFix(line);
        SpdxText();
        if SPDX_LICENSE in GPL_LICENSE_LINES {
          GplLength(SPDX_LICENSE);
        }
      }
    }
  }

  lemma ContainsChar(s: string, t: string, i: nat)
    requires Contains(s, t) && i < |t|
    ensures t[i] in s
  {
    var k :| 0 <= k <= |s| && StartsWith(s[k..], t);
    assert t[i] == s[k..][..|t|][i] == s[k + i];
  }

  lemma GuardIsNotEmacs(g: string)
    requires GuardChars(g)
    ensures !Contains(g, "c-file-style:") && !Contains(g, "py-indent-offset:")
  {
    if Contains(g, "c-file-style:") {
      ContainsChar(g, "c-file-style:", 9);
    }
    if Contains(g, "py-indent-offset:") {
      ContainsChar(g, "py-indent-offset:", 1);
    }
  }

  lemma EmacsGood(line: string)
    requires IsLine(line)
    ensures GoodFix(Emacs, line)
  {
    if IsGuard(line) {
      GuardShape(Strip(line));
      GuardIsNotEmacs(Strip(line));
    }
  }

  lemma StripOfRStrip(line: string)
    ensures Strip(RStrip(line) + "\n") == Strip(line)
  {
    var a, c := TrimParts(line, IsSpace);
    var g := Strip(line);
    if g == [] {
      assert All(line, IsSpace);
      assert line == "" + line;
      RTrimSkips("", line, IsSpace);
      assert RStrip(line) == "";
      LTrimSkips("\n", "", IsSpace);
      assert RStrip(line) + "\n" == "\n" + "";
    } else {
      RTrimSkips(a + g, c, IsSpace);
      TrimUnique(a, g, "\n", IsSpace);
    }
  }

  lemma WhitespaceGood(line: string)
    requires IsLine(line)
    ensures GoodFix(Whitespace, line)
  {
    hide RTrim, Trim;
    var b := RTrimParts(line, IsSpace);
    var r := RStrip(line);
    assert r == line[..|r|];
    RTrimSkips(r, "\n", IsSpace);
    StripOfRStrip(line);
  }

  // ---------------------------------------------------------------------------------------
  // Tab expansion
  // ---------------------------------------------------------------------------------------

  /** The visual column at which the text that follows `s` begins. */
  function ColumnAfter(s: string, column: nat): nat {
    if s == [] then column else ColumnAfter(s[1..], Advance(s[0], column))
  }

  lemma {:induction false} ExpandAppend(s: string, t: string, column: nat)
    ensures ExpandTabs(s + t, column) == ExpandTabs(s, column) + ExpandTabs(t, ColumnAfter(s, column))
  {
    if s == [] {
      assert s + t == t;
    } else {
      assert (s + t)[1..] == s[1..] + t;
      ExpandAppend(s[1..], t, Advance(s[0], column));
    }
  }

  lemma {:induction false} ExpandChars(s: string, column: nat)
    ensures '\t' !in ExpandTabs(s, column)
    ensures forall c :: c in ExpandTabs(s, column) ==> c == ' ' || c in s
    ensures forall c :: c in s && c != '\t' ==> c in ExpandTabs(s, column)
  {
    if s != [] {
      ExpandChars(s[1..], Advance(s[0], column));
    }
  }

  lemma {:induction false} ExpandIdle(s: string, column: nat)
    requires '\t' !in s
    ensures ExpandTabs(s, column) == s
  {
    if s != [] {
      ExpandIdle(s[1..], Advance(s[0], column));
    }
  }

  lemma ExpandOne(c: char, column: nat)
    ensures ExpandTabs([c], column) == if c == '\t' then Blanks(TAB_SIZE - column % TAB_SIZE) else [c]
  {
    assert [c][1..] == [];
  }

  /** On text with no line break the expansion is exactly as wide as the original looked. */
  lemma {:induction false} ExpandWidth(s: string, column: nat)
    requires '\n' !in s && '\r' !in s
    ensures column + |ExpandTabs(s, column)| == ColumnAfter(s, column)
  {
    if s != [] {
      ExpandWidth(s[1..], Advance(s[0], column));
    }
  }

  /** Tab expansion keeps the layout of a line: each character that is no tab stays at the
      visual column it had, and every other column of the new line is blank. */
  lemma ExpandKeepsLayout(line: string)
    requires IsLine(line) && '\r' !in line
    ensures var fixed := ExpandTabs(line, 0);
            && (forall i :: 0 <= i < |line| && line[i] != '\t' ==>
                  ColumnAfter(line[..i], 0) < |fixed| && fixed[ColumnAfter(line[..i], 0)] == line[i])
            && (forall k :: 0 <= k < |fixed| && fixed[k] != ' ' ==>
                  exists i :: 0 <= i < |line| && line[i] != '\t' && ColumnAfter(line[..i], 0) == k)
  {
    var fixed := ExpandTabs(line, 0);
    forall i | 0 <= i < |line| && line[i] != '\t'
      ensures ColumnAfter(line[..i], 0) < |fixed| && fixed[ColumnAfter(line[..i], 0)] == line[i]
    {
      CharKeepsColumn(line, i);
    }
    forall k | 0 <= k < |fixed| && fixed[k] != ' '
      ensures exists i :: 0 <= i < |line| && line[i] != '\t' && ColumnAfter(line[..i], 0) == k
    {
      var i := CharAtColumn(line, k);
    }
  }

  lemma CharKeepsColumn(line: string, i: nat)
    requires IsLine(line) && '\r' !in line
    requires i < |line| && line[i] != '\t'
    ensures ColumnAfter(line[..i], 0) < |ExpandTabs(line, 0)|
    ensures ExpandTabs(line, 0)[ColumnAfter(line[..i], 0)] == line[i]
  {
    var column := ColumnAfter(line[..i], 0);
    assert line == line[..i] + line[i..] && line[i..] == [line[i]] + line[i + 1..];
    ExpandAppend(line[..i], line[i..], 0);
    ExpandAppend([line[i]], line[i + 1..], column);
    ExpandOne(line[i], column);
    ExpandWidth(line[..i], 0);
  }

  /** Finds the character that stands at a column that is not blank. */
  lemma {:induction false} CharAtColumnFrom(line: string, n: nat, k: nat) returns (i: nat)
    requires IsLine(line) && '\r' !in line
    requires n <= |line|
    requires k < |ExpandTabs(line[..n], 0)| && ExpandTabs(line[..n], 0)[k] != ' '
    ensures i < n && line[i] != '\t' && ColumnAfter(line[..i], 0) == k
    decreases n
  {
    var m := n - 1;
    assert line[..n] == line[..m] + [line[m]];
    var column := ColumnAfter(line[..m], 0);
    ExpandAppend(line[..m], [line[m]], 0);
    ExpandOne(line[m], column);
    ExpandWidth(line[..m], 0);
    if k < column {
      i := CharAtColumnFrom(line, m, k);
    } else {
      i := m;
    }
  }

  lemma CharAtColumn(line: string, k: nat) returns (i: nat)
    requires IsLine(line) && '\r' !in line
    requires k < |ExpandTabs(line, 0)| && ExpandTabs(line, 0)[k] != ' '
    ensures i < |line| && line[i] != '\t' && ColumnAfter(line[..i], 0) == k
  {
    assert line[..|line|] == line;
    i := CharAtColumnFrom(line, |line|, k);
  }

  lemma ExpandBlanks(s: string, column: nat)
    requires All(s, IsSpace)
    ensures All(ExpandTabs(s, column), IsSpace)
  {
    ExpandChars(s, column);
  }

  /** Expanding a line keeps what stands between its surrounding blanks, if that has no tab. */
  lemma StripOfExpand(line: string)
    requires Strip(line) != [] && '\t' !in Strip(line)
    ensures Strip(ExpandTabs(line, 0)) == Strip(line)
  {
    var a, b := TrimParts(line, IsSpace);
    var g := Strip(line);
    var column := ColumnAfter(a + g, 0);
    ExpandAppend(a + g, b, 0);
    ExpandAppend(a, g, 0);
    ExpandIdle(g, ColumnAfter(a, 0));
    ExpandBlanks(a, 0);
    ExpandBlanks(b, column);
    TrimUnique(ExpandTabs(a, 0), g, ExpandTabs(b, column), IsSpace);
  }

  lemma ExpandLine(line: string)
    requires IsLine(line)
    ensures IsLine(ExpandTabs(line, 0))
    ensures Terminated(line) ==> Terminated(ExpandTabs(line, 0))
  {
    var n := |line| - 1;
    var body, last := line[..n], line[n];
    assert line == body + [last];
    ExpandAppend(body, [last], 0);
    ExpandOne(last, ColumnAfter(body, 0));
    ExpandChars(body, 0);
    assert '\n' !in body;
  }

  lemma TabsGood(line: string)
    requires IsLine(line)
    ensures GoodFix(Tabs, line)
  {
    hide ExpandTabs, Trim, IsSpace, FORMAT_GUARD_ON, FORMAT_GUARD_OFF;
    ExpandLine(line);
    ExpandChars(line, 0);
    if IsGuard(line) {
      GuardShape(Strip(line));
      StripOfExpand(line);
    }
  }

  /** Whatever the check and the line, the replacement is good. */
  lemma EveryFixIsGood(check: LineCheck, line: string)
    requires IsLine(line)
    ensures GoodFix(check, line)
  {
    match check
    case IncludeQuotes => IncludeQuotesGood(line);
    case DoxygenTags(wide) => DoxygenTagsGood(line, wide);
    case Licenses => LicensesGood(line);
    case Emacs => EmacsGood(line);
    case Whitespace => WhitespaceGood(line);
    case Tabs => TabsGood(line);
  }
}
