/** Lines that hide a license text behind a tab, told from the file as it is before a fix run, and
    why the passes before the tabs pass neither make nor lose one. */
module HiddenLicenses {
  import opened LicenseTexts
  import opened LineChecks
  import LineFixes
  import opened PyText
  import opened StyleFile
  import opened StylePipeline

  /** A tab in the line stands where a license text has a blank. */
  predicate HidesLicense(line: string) {
    '\t' in line && !Compliant(Licenses, ExpandTabs(line, 0))
  }

  /** The license check examines and accepts line `i`, and would still examine it, but reject it,
      with the tabs of the file expanded. */
  predicate HiddenAt(lines: seq<string>, i: nat)
    requires i < |lines|
  {
    && Examined(lines, i, true)
    && Examined(FixedLines(lines, true, Tabs), i, true)
    && Compliant(Licenses, lines[i])
    && HidesLicense(lines[i])
  }

  predicate HidesSomewhere(lines: seq<string>) {
    exists i :: 0 <= i < |lines| && HiddenAt(lines, i)
  }

  // ---------------------------------------------------------------------------------------
  // The question as a scan over the lines
  // ---------------------------------------------------------------------------------------

  /** After some lines: whether formatting is enabled, whether it is in the expanded file, and
      whether a line hiding a license was met. */
  datatype Scan = Scan(enabled: bool, enabledExpanded: bool, found: bool)

  function Next(enabled: bool, line: string): bool {
    if IsOn(line) then true else if IsOff(line) then false else enabled
  }

  predicate Reveals(line: string) {
    Compliant(Licenses, line) && !Compliant(Licenses, ExpandTabs(line, 0))
  }

  function Step(s: Scan, line: string): Scan {
    var on := Next(s.enabled, line);
    var examined := on || IsGuard(line);
    var expanded := if examined then ExpandTabs(line, 0) else line;
    var onExpanded := Next(s.enabledExpanded, expanded);
    Scan(on, onExpanded, s.found || (examined && (onExpanded || IsGuard(expanded)) && Reveals(line)))
  }

  function ScanOf(lines: seq<string>): Scan {
    if lines == [] then Scan(true, true, false)
    else Step(ScanOf(lines[..|lines| - 1]), lines[|lines| - 1])
  }

  lemma TabsFixIs(line: string)
    ensures Fixed(Tabs, line) == ExpandTabs(line, 0)
    ensures Compliant(Tabs, line) ==> ExpandTabs(line, 0) == line
    ensures Reveals(line) <==> Compliant(Licenses, line) && HidesLicense(line)
  {
    hide ExpandTabs, CheckLicenses;
    if '\t' !in line {
      ExpandIdle(line, 0);
    }
  }

  lemma {:induction false} ScanIs(lines: seq<string>, n: nat)
    requires n <= |lines|
    ensures ScanOf(lines[..n]) == Scan(EnabledAfter(lines, n), EnabledAfter(FixedLines(lines, true, Tabs), n),
                                       exists i :: 0 <= i < n && HiddenAt(lines, i))
  {
    hide IsOn, IsOff, CheckLine, ExpandTabs, HidesLicense, Reveals;
    if n > 0 {
      ScanIs(lines, n - 1);
      assert lines[..n][..n - 1] == lines[..n - 1];
      var line := lines[n - 1];
      TabsFixIs(line);
      var x := FixedLines(lines, true, Tabs);
      assert x[n - 1] == FixedLine(lines, n - 1, true, Tabs);
      assert HiddenAt(lines, n - 1) <==> Examined(lines, n - 1, true) && Examined(x, n - 1, true) && Reveals(line);
    }
  }

  lemma HidesSomewhereIff(lines: seq<string>)
    ensures HidesSomewhere(lines) <==> ScanOf(lines).found
  {
    ScanIs(lines, |lines|);
    assert lines[..|lines|] == lines;
  }

  // ---------------------------------------------------------------------------------------
  // Lines that make no difference to the scan
  // ---------------------------------------------------------------------------------------

  /** No guard, with its tabs or without, and no hidden license. */
  predicate Inert(line: string) {
    !IsGuard(line) && !IsGuard(ExpandTabs(line, 0)) && !Reveals(line)
  }

  lemma InertStep(s: Scan, line: string)
    requires Inert(line)
    ensures Step(s, line) == s
  {
  }

  lemma NoGuardWith(line: string, c: char)
    requires c in line && !IsSpace(c) && (IsMark(c) || c == 'y')
    ensures !IsGuard(line)
  {
    hide IsSpace, Trim;
    TrimKeeps(line, IsSpace, c);
    if IsGuard(line) {
      GuardShape(Strip(line));
    }
  }

  lemma NoLicenseWith(line: string, c: char)
    requires c in line && !IsSpace(c) && !IsStar(c) && (IsMark(c) || c == ':')
    ensures Compliant(Licenses, line)
  {
    hide IsSpace, IsStar, Trim, GPL_LICENSE_LINES;
    TrimKeeps(line, IsSpace, c);
    TrimKeeps(Strip(line), IsStar, c);
    TrimKeeps(Trim(Strip(line), IsStar), IsSpace, c);
    if LicenseText(line) in GPL_LICENSE_LINES {
      LicenseClear(LicenseText(line));
    }
  }

  /** The letter that rules out a guard and the one that rules out a license. */
  lemma InertWith(line: string, g: char, l: char)
    requires g in line && l in line
    requires !IsSpace(g) && (IsMark(g) || g == 'y')
    requires !IsSpace(l) && !IsStar(l) && (IsMark(l) || l == ':')
    ensures Inert(line)
  {
    hide IsSpace, IsStar, ExpandTabs, IsGuard, CheckLine;
    assert IsSpace('\t') by {
      TabIsSpace();
    }
    ExpandChars(line, 0);
    NoGuardWith(line, g);
    NoGuardWith(ExpandTabs(line, 0), g);
    NoLicenseWith(line, l);
    NoLicenseWith(ExpandTabs(line, 0), l);
  }

  lemma TabIsSpace()
    ensures IsSpace('\t')
  {
  }

  lemma MarksAreSolid(c: char)
    requires IsMark(c) || c == 'y' || c == ':'
    ensures !IsSpace(c) && !IsStar(c)
  {
  }

  lemma MarkedIsInert(line: string, c: char)
    requires c in line && IsMark(c)
    ensures Inert(line)
  {
    hide IsSpace, IsStar, Inert;
    MarksAreSolid(c);
    InertWith(line, c, c);
  }

  // ---------------------------------------------------------------------------------------
  // The passes
  // ---------------------------------------------------------------------------------------

  /** The fixed line does to the scan what the line does. */
  ghost predicate ScansAlike(line: string, fixed: string) {
    forall s :: Step(s, line) == if fixed == "" then s else Step(s, fixed)
  }

  lemma InertAlike(line: string, fixed: string)
    requires Inert(line) && (fixed == "" || Inert(fixed))
    ensures ScansAlike(line, fixed)
  {
    hide Inert, Step;
    forall s
      ensures Step(s, line) == if fixed == "" then s else Step(s, fixed)
    {
      InertStep(s, line);
      if fixed != "" {
        InertStep(s, fixed);
      }
    }
  }

  lemma QuotesAlike(line: string)
    requires !Compliant(IncludeQuotes, line)
    ensures ScansAlike(line, Fixed(IncludeQuotes, line))
  {
    hide Inert, ScansAlike;
    LineFixes.QuotesFixIs(line);
    var fixed := Fixed(IncludeQuotes, line);
    assert line[9] == line[..14][9] == '<';
    assert line[9] in line && fixed[9] in fixed;
    MarkedIsInert(line, '<');
    MarkedIsInert(fixed, '"');
    InertAlike(line, fixed);
  }

  lemma TagsAlike(line: string, wide: char -> bool)
    requires !Compliant(DoxygenTags(wide), line)
    ensures ScansAlike(line, Fixed(DoxygenTags(wide), line))
  {
    hide Inert, ScansAlike, FindTag, Replace, RTrim;
    LineFixes.TagFixIs(line, wide);
    var fixed, t := Fixed(DoxygenTags(wide), line), FindTag(RStrip(line), wide);
    var b := RTrimParts(line, IsSpace);
    assert line[t.start] == '\\' && line[t.start] in line;
    assert fixed[t.start] == fixed[..t.end][t.start] == '@' && fixed[t.start] in fixed;
    MarkedIsInert(line, '\\');
    MarkedIsInert(fixed, '@');
    InertAlike(line, fixed);
  }

  lemma EmacsAlike(line: string)
    requires !Compliant(Emacs, line)
    ensures ScansAlike(line, Fixed(Emacs, line))
  {
    hide Inert, ScansAlike, Trim, Contains, IsSpace;
    var s := Strip(line);
    var a, b := TrimParts(line, IsSpace);
    if Contains(s, "c-file-style:") {
      ContainsChar(s, "c-file-style:", 9);
      ContainsChar(s, "c-file-style:", 12);
    } else {
      ContainsChar(s, "py-indent-offset:", 1);
      ContainsChar(s, "py-indent-offset:", 16);
    }
    assert 'y' in line && ':' in line;
    MarksAreSolid('y');
    MarksAreSolid(':');
    InertWith(line, 'y', ':');
    InertAlike(line, "");
  }

  lemma WhitespaceAlike(line: string)
    ensures ScansAlike(line, Fixed(Whitespace, line))
  {
    hide RTrim, Trim, ExpandTabs, IsSpace;
    var r := RStrip(line);
    StripOfRStrip(line);
    RStripOfExpand(line);
    StripOfRStrip(ExpandTabs(line, 0));
    ExpandAppend(r, "\n", 0);
    ExpandOne('\n', ColumnAfter(r, 0));
    assert Strip(ExpandTabs(r + "\n", 0)) == Strip(ExpandTabs(line, 0));
  }

  lemma LicensesAlike(line: string)
    requires !Compliant(Licenses, line)
    ensures ScansAlike(line, Fixed(Licenses, line))
  {
    hide Inert, ScansAlike, LicenseText, Around, GPL_LICENSE_LINES, SPDX_LICENSE, Replace;
    var a, b := LineFixes.LicenseFixIs(line);
    LicenseLineInert(line, a, b);
    var fixed := Fixed(Licenses, line);
    if LicenseText(line) == GPL_LICENSE_LINES[0] {
      SpdxShape();
      CharsAround(fixed, SPDX_LICENSE, a, b, 'y');
      CharsAround(fixed, SPDX_LICENSE, a, b, ':');
      MarksAreSolid('y');
      MarksAreSolid(':');
      InertWith(fixed, 'y', ':');
      InertAlike(line, fixed);
    } else {
      InertAlike(line, "");
    }
  }

  lemma CharsAround(line: string, text: string, a: seq<string>, b: seq<string>, c: char)
    requires Around(line, text, a, b) && c in text
    ensures c in line
  {
    hide IsSpace, IsStar;
  }

  /** A license line is longer than any guard, and so it is with its tabs expanded. */
  lemma LicenseLineInert(line: string, a: seq<string>, b: seq<string>)
    requires !Compliant(Licenses, line) && Around(line, LicenseText(line), a, b)
    ensures Inert(line)
  {
    hide LicenseText, Around, GPL_LICENSE_LINES, ExpandTabs, IsSpace, Trim;
    var text := LicenseText(line);
    GplLength(text);
    LicenseClear(text);
    LicenseEnds(line);
    LongIsNoGuard(line, text, a, b);
    var a', b' := ExpandAround(line, text, a, b);
    LongIsNoGuard(ExpandTabs(line, 0), text, a', b');
  }

  lemma LicenseEnds(line: string)
    requires LicenseText(line) != []
    ensures var text := LicenseText(line); !IsSpace(text[0]) && !IsSpace(text[|text| - 1])
  {
    hide IsSpace, Trim;
    var a, b := TrimParts(Trim(Strip(line), IsStar), IsSpace);
  }

  lemma LongIsNoGuard(line: string, text: string, a: seq<string>, b: seq<string>)
    requires Around(line, text, a, b) && |text| >= 42
    requires !IsSpace(text[0]) && !IsSpace(text[|text| - 1])
    ensures !IsGuard(line)
  {
    hide IsSpace, Trim;
    var middle := a[1] + a[2] + text + b[2] + b[1];
    assert line == a[0] + middle + b[0];
    assert a[1] != [] ==> a[1][0] in a[1] && middle[0] == a[1][0];
    assert b[1] != [] ==> b[1][|b[1]| - 1] in b[1] && middle[|middle| - 1] == b[1][|b[1]| - 1];
    StarsAreSolid();
    TrimUnique(a[0], middle, b[0], IsSpace);
    if IsGuard(line) {
      GuardShape(Strip(line));
    }
  }

  lemma StarsAreSolid()
    ensures forall c :: IsStar(c) ==> !IsSpace(c) && c != '\t'
  {
  }

  /** Expanding the tabs of a license line only widens the blanks around the text. */
  lemma ExpandAround(line: string, text: string, a: seq<string>, b: seq<string>)
    returns (a': seq<string>, b': seq<string>)
    requires Around(line, text, a, b) && '\t' !in text
    ensures Around(ExpandTabs(line, 0), text, a', b')
  {
    hide IsSpace, IsStar, ExpandTabs;
    StarsAreSolid();
    var h1 := a[0] + a[1];
    var h2 := h1 + a[2];
    var h3 := h2 + text;
    var h4 := h3 + b[2];
    var h5 := h4 + b[1];
    ExpandAppend(a[0], a[1], 0);
    ExpandAppend(h1, a[2], 0);
    ExpandAppend(h2, text, 0);
    ExpandAppend(h3, b[2], 0);
    ExpandAppend(h4, b[1], 0);
    ExpandAppend(h5, b[0], 0);
    ExpandIdle(a[1], ColumnAfter(a[0], 0));
    ExpandIdle(text, ColumnAfter(h2, 0));
    ExpandIdle(b[1], ColumnAfter(h4, 0));
    a' := [ExpandTabs(a[0], 0), a[1], ExpandTabs(a[2], ColumnAfter(h1, 0))];
    b' := [ExpandTabs(b[0], ColumnAfter(h5, 0)), b[1], ExpandTabs(b[2], ColumnAfter(h3, 0))];
    ExpandBlanks(a[0], 0);
    ExpandBlanks(a[2], ColumnAfter(h1, 0));
    ExpandBlanks(b[2], ColumnAfter(h3, 0));
    ExpandBlanks(b[0], ColumnAfter(h5, 0));
    NothingExpands(ColumnAfter(h1, 0));
    NothingExpands(ColumnAfter(h3, 0));
  }

  lemma NothingExpands(column: nat)
    ensures ExpandTabs("", column) == ""
  {
  }

  lemma FixScansAlike(line: string, check: LineCheck)
    requires !check.Tabs? && !Compliant(check, line)
    ensures ScansAlike(line, Fixed(check, line))
  {
    hide ScansAlike, CheckIncludeQuotes, CheckDoxygenTags, CheckLicenses, CheckEmacs, CheckWhitespace;
    match check
    case IncludeQuotes => QuotesAlike(line);
    case DoxygenTags(wide) => TagsAlike(line, wide);
    case Licenses => LicensesAlike(line);
    case Emacs => EmacsAlike(line);
    case Whitespace => WhitespaceAlike(line);
  }

  lemma ScanAppend(lines: seq<string>, l: string)
    ensures ScanOf(lines + [l]) == Step(ScanOf(lines), l)
  {
    hide Step;
    assert (lines + [l])[..|lines|] == lines;
  }

  lemma NonEmptyAppend(ls: seq<string>, l: string)
    ensures NonEmpty(ls + [l]) == if l == "" then NonEmpty(ls) else NonEmpty(ls) + [l]
  {
    assert (ls + [l])[..|ls|] == ls && NonEmpty(ls) + [] == NonEmpty(ls);
  }

  /** A pass other than the tabs pass leaves the scan as it was. */
  lemma {:induction false} PassScansAlike(lines: seq<string>, n: nat, check: LineCheck)
    requires !check.Tabs? && n <= |lines| && forall i :: 0 <= i < |lines| ==> lines[i] != ""
    ensures ScanOf(NonEmpty(FixedLines(lines, RespectsGuards(check), check)[..n])) == ScanOf(lines[..n])
  {
    hide Compliant, Fixed, Step, Examined;
    var fixed := FixedLines(lines, RespectsGuards(check), check);
    if n > 0 {
      hide ScanOf, NonEmpty;
      PassScansAlike(lines, n - 1, check);
      var l, f := lines[n - 1], fixed[n - 1];
      assert fixed[..n] == fixed[..n - 1] + [f] && lines[..n] == lines[..n - 1] + [l];
      assert f == FixedLine(lines, n - 1, RespectsGuards(check), check);
      if !Compliant(check, l) {
        FixScansAlike(l, check);
      }
      NonEmptyAppend(fixed[..n - 1], f);
      ScanAppend(NonEmpty(fixed[..n - 1]), f);
      ScanAppend(lines[..n - 1], l);
    }
  }

  /** Such a pass neither makes nor loses a hidden license. */
  lemma PassKeepsHidden(lines: seq<string>, check: LineCheck)
    requires ProperLines(lines) && !check.Tabs?
    ensures HidesSomewhere(Passed(lines, check)) <==> HidesSomewhere(lines)
  {
    hide HidesSomewhere, ScanOf, FixedLine;
    PassScansAlike(lines, |lines|, check);
    var fixed := FixedLines(lines, RespectsGuards(check), check);
    assert fixed[..|lines|] == fixed && lines[..|lines|] == lines;
    HidesSomewhereIff(lines);
    HidesSomewhereIff(Passed(lines, check));
  }
}
