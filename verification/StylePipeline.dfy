/** Two passes in fix mode, the later on the file the earlier one left: does the later fix undo
    the earlier one? */
module StylePipeline {
  import opened PyText
  import opened LicenseTexts
  import opened LineChecks
  import LineFixes
  import opened StyleFile

  predicate RespectsGuards(check: LineCheck) {
    !check.Whitespace?
  }

  // ---------------------------------------------------------------------------------------
  // One later fix, one earlier check, one line
  // ---------------------------------------------------------------------------------------

  /** The later fix leaves the line in order for the earlier check. */
  ghost predicate Keeps(earlier: LineCheck, later: LineCheck, line: string) {
    Compliant(earlier, line) && !Compliant(later, line) && Fixed(later, line) != "" ==>
      Compliant(earlier, Fixed(later, line))
  }

  lemma NotAnInclude(line: string)
    requires line == "" || line[0] != '#' || (|line| > 1 && line[1] != 'i')
    ensures Compliant(IncludeQuotes, line)
  {
    if |line| >= 14 {
      assert line[0] == line[..14][0] && line[1] == line[..14][1];
    }
  }

  lemma QuotesAfterDoxygen(line: string, wide: char -> bool)
    ensures Keeps(IncludeQuotes, DoxygenTags(wide), line)
  {
    if !Compliant(DoxygenTags(wide), line) {
      TagFixStart(line, wide);
      NotAnInclude(Fixed(DoxygenTags(wide), line));
    }
  }

  lemma TagLineStart(s: string, wide: char -> bool)
    ensures FindTag(s, wide).Tag? ==> s != "" && s[0] != '#'
  {
    hide IsWord, SkipWord;
    var p := SkipSpaces(s, 0);
    assert Marker(s, p) > 0 ==> s[p] == s[p..][..Marker(s, p)][0];
  }

  lemma TagFixStart(line: string, wide: char -> bool)
    ensures var fixed := Fixed(DoxygenTags(wide), line);
            !Compliant(DoxygenTags(wide), line) ==> fixed != "" && fixed[0] != '#'
  {
    hide FindTag, RTrim, Replace;
    var b := RTrimParts(line, IsSpace);
    TagLineStart(RStrip(line), wide);
    LineFixes.TagFixIs(line, wide);
  }

  predicate IsDecoration(c: char) {
    IsSpace(c) || IsStar(c)
  }

  lemma Decorated(line: string, text: string, a: seq<string>, b: seq<string>) returns (before: string, after: string)
    requires Around(line, text, a, b)
    ensures line == before + text + after && All(before, IsDecoration) && All(after, IsDecoration)
  {
    hide IsSpace;
    before, after := a[0] + a[1] + a[2], b[2] + b[1] + b[0];
  }

  lemma DecoratedStart(before: string, text: string, after: string)
    requires All(before, IsDecoration) && All(after, IsDecoration)
    requires text != "" && text[0] == 'S'
    ensures var s := before + text + after;
            && (s[0] == '#' ==> |s| > 1 && s[1] != 'i')
            && ('\\' !in text ==> '\\' !in s)
  {
    assert !IsDecoration('i') && !IsDecoration('\\');
    assert before != "" ==> before[0] in before;
    assert |before| > 1 ==> before[1] in before;
  }

  /** After the license fix only blanks and comment characters surround the identifier. */
  lemma LicenseFixChars(line: string)
    requires LicenseText(line) == GPL_LICENSE_LINES[0]
    ensures var fixed := Fixed(Licenses, line);
            && '\\' !in fixed
            && fixed != "" && (fixed[0] == '#' ==> |fixed| > 1 && fixed[1] != 'i')
  {
    hide LicenseText, Replace, IsSpace, IsDecoration;
    GplLength(LicenseText(line));
    var a, b := LicenseParts(line);
    SpdxReplacesText(line, a, b);
    var fixed := Fixed(Licenses, line);
    var before, after := Decorated(fixed, SPDX_LICENSE, a, b);
    SpdxHasNoBackslash();
    DecoratedStart(before, SPDX_LICENSE, after);
  }

  lemma SpdxHasNoBackslash()
    ensures '\\' !in SPDX_LICENSE && SPDX_LICENSE[0] == 'S'
  {
    hide SPDX_LICENSE;
    SpdxShape();
    SpdxChars();
  }

  lemma AfterLicenses(line: string, wide: char -> bool)
    requires IsLine(line)
    ensures Keeps(IncludeQuotes, Licenses, line)
    ensures Keeps(DoxygenTags(wide), Licenses, line)
  {
    hide IsSpace, LicenseText, Replace, SPDX_LICENSE, FREE_SOFTWARE;
    if LicenseText(line) == GPL_LICENSE_LINES[0] {
      var fixed := Fixed(Licenses, line);
      LicenseFixChars(line);
      NotAnInclude(fixed);
      var b := RTrimParts(fixed, IsSpace);
      assert '\\' !in RStrip(fixed);
    }
  }

  lemma QuotesAfterWhitespace(line: string)
    ensures Keeps(IncludeQuotes, Whitespace, line)
  {
    hide RTrim;
    var b := RTrimParts(line, IsSpace);
    var r := RStrip(line);
    var fixed := r + "\n";
    if StartsWith(fixed, "#include <ns3/") && Contains(fixed[14..], ".h>") {
      assert fixed[13] == fixed[..14][13];
      assert r[..14] == fixed[..14] == line[..14];
      var k :| 0 <= k <= |fixed[14..]| && StartsWith(fixed[14..][k..], ".h>");
      var w := fixed[14..][k..][..3];
      assert w[2] == fixed[14 + k + 2];
      assert line[14..][k..][..3] == w;
      assert StartsWith(line[14..][k..], ".h>");
    }
  }

  lemma DoxygenAfterWhitespace(line: string, wide: char -> bool)
    ensures Keeps(DoxygenTags(wide), Whitespace, line)
  {
    hide FindTag, RTrim, Replace;
    RStripTwice(line);
  }

  lemma LicensesAfterWhitespace(line: string)
    ensures Keeps(Licenses, Whitespace, line)
  {
    hide Trim, RTrim, Replace;
    StripOfRStrip(line);
  }

  lemma EmacsAfterWhitespace(line: string)
    ensures Keeps(Emacs, Whitespace, line)
  {
    hide Trim, RTrim, Contains;
    StripOfRStrip(line);
  }

  lemma RStripTwice(line: string)
    ensures RStrip(RStrip(line) + "\n") == RStrip(line)
  {
    var b := RTrimParts(line, IsSpace);
    RTrimSkips(RStrip(line), "\n", IsSpace);
  }

  // ---------------------------------------------------------------------------------------
  // Tab expansion and the other checks
  // ---------------------------------------------------------------------------------------

  /** Text without blanks reads the same in the expanded line as in the original. */
  lemma {:induction false} StartsExpanded(s: string, column: nat, t: string)
    requires ' ' !in t && '\t' !in t
    ensures StartsWith(ExpandTabs(s, column), t) <==> StartsWith(s, t)
    decreases |t|
  {
    if t != [] && s != [] {
      var x := ExpandTabs(s, column);
      var u := ExpandTabs(s[1..], Advance(s[0], column));
      StartsExpanded(s[1..], Advance(s[0], column), t[1..]);
      assert t == [t[0]] + t[1..] && t[0] in t;
      assert |x| >= |t| ==> x[..|t|][0] == x[0];
      assert |s| >= |t| ==> s[..|t|] == [s[0]] + s[1..][..|t| - 1];
      if s[0] != '\t' {
        assert x == [s[0]] + u;
        assert |x| >= |t| ==> x[..|t|] == [s[0]] + u[..|t| - 1];
      }
    }
  }

  lemma {:induction false} ContainsExpanded(s: string, column: nat, t: string)
    requires t != [] && ' ' !in t && '\t' !in t
    requires Contains(ExpandTabs(s, column), t)
    ensures Contains(s, t)
  {
    var x := ExpandTabs(s, column);
    var k :| 0 <= k <= |x| && StartsWith(x[k..], t);
    if s == [] {
      assert false;
    } else {
      var block := if s[0] == '\t' then Blanks(TAB_SIZE - column % TAB_SIZE) else [s[0]];
      var u := ExpandTabs(s[1..], Advance(s[0], column));
      assert x == block + u;
      if k >= |block| {
        assert x[k..] == u[k - |block|..];
        ContainsExpanded(s[1..], Advance(s[0], column), t);
        var j :| 0 <= j <= |s[1..]| && StartsWith(s[1..][j..], t);
        assert s[1..][j..] == s[j + 1..];
      } else {
        assert t[0] == x[k..][..|t|][0] == x[k] == block[k];
        assert t[0] in t;
        assert k == 0 && x[0..] == x && s[0..] == s;
        StartsExpanded(s, column, t);
      }
    }
  }

  /** A first part without tabs is found in the line where it is in the expanded line. */
  lemma HeadExpanded(line: string, column: nat, head: string) returns (rest: string)
    requires ' ' !in head && '\t' !in head && '\n' !in head && '\r' !in head
    requires StartsWith(ExpandTabs(line, column), head)
    ensures line == head + rest
    ensures ExpandTabs(line, column) == head + ExpandTabs(rest, column + |head|)
  {
    StartsExpanded(line, column, head);
    rest := line[|head|..];
    assert line == head + rest;
    ExpandAppend(head, rest, column);
    ExpandIdle(head, column);
    ExpandWidth(head, column);
  }

  lemma QuotesAfterTabs(line: string)
    ensures Keeps(IncludeQuotes, Tabs, line)
  {
    hide Replace, ExpandTabs, Contains;
    var fixed := ExpandTabs(line, 0);
    if IncludesInAngles(fixed) {
      var last := IncludeExpanded(line);
      ContainsExpanded(last, 14, ".h>");
    }
  }

  /** No tab can stand for a character of the beginning of an include line. */
  lemma IncludeExpanded(line: string) returns (last: string)
    requires StartsWith(ExpandTabs(line, 0), "#include <ns3/")
    ensures ExpandTabs(line, 0)[14..] == ExpandTabs(last, 14)
    ensures StartsWith(line, "#include <ns3/") && line[14..] == last
  {
    hide ExpandTabs;
    var fixed := ExpandTabs(line, 0);
    assert StartsWith(fixed, "#include") by {
      assert fixed[..8] == fixed[..14][..8];
    }
    var rest := HeadExpanded(line, 0, "#include");
    assert ExpandTabs(rest, 8)[..6] == fixed[..14][8..] == " <ns3/";
    var tail := BlankExpanded(rest, 8, "<ns3/");
    last := HeadExpanded(tail, 9, "<ns3/");
    assert fixed[14..] == ExpandTabs(last, 14);
    assert line == "#include <ns3/" + last;
  }

  /** A tab would leave more than one blank before what follows here. */
  lemma BlankExpanded(rest: string, column: nat, t: string) returns (tail: string)
    requires t != [] && t[0] != ' ' && column % TAB_SIZE == 0
    requires StartsWith(ExpandTabs(rest, column), " " + t)
    ensures rest == " " + tail
    ensures ExpandTabs(rest, column) == " " + ExpandTabs(tail, column + 1)
    ensures StartsWith(ExpandTabs(tail, column + 1), t)
  {
    var x := ExpandTabs(rest, column);
    assert x[0] == x[..|t| + 1][0] == ' ' && x[1] == x[..|t| + 1][1] == t[0];
    tail := rest[1..];
    assert x[1..][..|t|] == x[..|t| + 1][1..];
  }

  lemma ContainsInStrip(s: string, t: string)
    requires t != [] && forall c :: c in t ==> !IsSpace(c)
    ensures Contains(s, t) <==> Contains(Strip(s), t)
  {
    hide Trim, IsSpace, StartsWith;
    var a, b := TrimParts(s, IsSpace);
    var g := Strip(s);
    if Contains(s, t) {
      var k :| 0 <= k <= |s| && StartsWith(s[k..], t);
      FoundInside(a, g, b, t, k);
    }
    if Contains(g, t) {
      var k :| 0 <= k <= |g| && StartsWith(g[k..], t);
      FoundOutside(a, g, b, t, k);
    }
  }

  lemma FoundInside(a: string, g: string, b: string, t: string, k: nat)
    requires t != [] && (forall c :: c in t ==> !IsSpace(c))
    requires All(a, IsSpace) && All(b, IsSpace)
    requires k <= |a + g + b| && StartsWith((a + g + b)[k..], t)
    ensures |a| <= k <= |a| + |g| && StartsWith(g[k - |a|..], t)
  {
    hide IsSpace;
    var s := a + g + b;
    assert t[0] in t && t[|t| - 1] in t;
    assert s[k] == s[k..][..|t|][0] && s[k + |t| - 1] == s[k..][..|t|][|t| - 1];
    assert forall i :: 0 <= i < |a| ==> s[i] == a[i] && a[i] in a;
    assert forall i :: |a + g| <= i < |s| ==> s[i] == b[i - |a + g|] && b[i - |a + g|] in b;
    assert g[k - |a|..][..|t|] == s[k..][..|t|];
  }

  lemma FoundOutside(a: string, g: string, b: string, t: string, k: nat)
    requires k <= |g| && StartsWith(g[k..], t)
    ensures StartsWith((a + g + b)[|a| + k..], t)
  {
    assert (a + g + b)[|a| + k..][..|t|] == g[k..][..|t|];
  }

  lemma EmacsWord(line: string, t: string)
    requires t != [] && forall c :: c in t ==> !IsSpace(c)
    requires Contains(Strip(ExpandTabs(line, 0)), t)
    ensures Contains(Strip(line), t)
  {
    ContainsInStrip(ExpandTabs(line, 0), t);
    assert ' ' !in t && '\t' !in t;
    ContainsExpanded(line, 0, t);
    ContainsInStrip(line, t);
  }

  lemma EmacsAfterTabs(line: string)
    ensures Keeps(Emacs, Tabs, line)
  {
    hide Trim, Contains;
    var fixed := ExpandTabs(line, 0);
    if Contains(Strip(fixed), "c-file-style:") {
      EmacsWord(line, "c-file-style:");
    }
    if Contains(Strip(fixed), "py-indent-offset:") {
      EmacsWord(line, "py-indent-offset:");
    }
  }

  /** Expanding tabs and dropping trailing blanks commute. */
  lemma RStripOfExpand(line: string)
    ensures RStrip(ExpandTabs(line, 0)) == ExpandTabs(RStrip(line), 0)
  {
    var b := RTrimParts(line, IsSpace);
    var r := RStrip(line);
    ExpandAppend(r, b, 0);
    ExpandBlanks(b, ColumnAfter(r, 0));
    if r != [] {
      var body, c := r[..|r| - 1], r[|r| - 1];
      assert r == body + [c];
      ExpandAppend(body, [c], 0);
      ExpandOne(c, ColumnAfter(body, 0));
    }
    RTrimSkips(ExpandTabs(r, 0), ExpandTabs(b, ColumnAfter(r, 0)), IsSpace);
  }

  /** Applying the whitespace fix and then the tabs fix leaves no trailing whitespace. */
  lemma WhitespaceAfterTabs(line: string)
    requires IsLine(line)
    ensures Keeps(Whitespace, Tabs, line)
  {
    hide RTrim;
    var r := RStrip(line);
    RStripOfExpand(line);
    if line == r + "\n" {
      ExpandAppend(r, "\n", 0);
      ExpandOne('\n', ColumnAfter(r, 0));
    }
  }

  lemma {:induction false} SplitExpanded(s: string, column: nat, before: string, after: string)
    returns (u: string, v: string)
    requires ExpandTabs(s, column) == before + after
    requires after != "" && after[0] != ' '
    ensures s == u + v
    ensures ExpandTabs(u, column) == before && ExpandTabs(v, ColumnAfter(u, column)) == after
    decreases |s|
  {
    if before == "" {
      u, v := "", s;
      assert before + after == after;
    } else {
      var rest := BlockExpanded(s, column, before, after);
      u, v := SplitExpanded(s[1..], Advance(s[0], column), rest, after);
      u := [s[0]] + u;
      assert u[1..] == u[1..] && s == [s[0]] + s[1..];
    }
  }

  lemma BlockExpanded(s: string, column: nat, before: string, after: string) returns (rest: string)
    requires s != "" && before != "" && after != "" && after[0] != ' '
    requires ExpandTabs(s, column) == before + after
    ensures ExpandTabs(s[1..], Advance(s[0], column)) == rest + after
    ensures before == ExpandTabs([s[0]], column) + rest
  {
    var block := if s[0] == '\t' then Blanks(TAB_SIZE - column % TAB_SIZE) else [s[0]];
    var x := before + after;
    var u := ExpandTabs(s[1..], Advance(s[0], column));
    assert x == block + u;
    ExpandOne(s[0], column);
    assert x[|before|] == after[0];
    assert forall i :: 0 <= i < |block| ==> x[i] == block[i];
    assert |block| <= |before|;
    rest := before[|block|..];
    assert before == x[..|before|] && u == x[|block|..];
  }

  lemma PartsExpanded(r: string, w1: string, mark: string, w2: string, tag: string, tail: string)
    returns (u1: string, u2: string, end: string)
    requires ExpandTabs(r, 0) == w1 + (mark + (w2 + (tag + tail)))
    requires mark != "" && tag != ""
    requires forall c :: c in mark || c in tag ==> c !in " \t\n\r"
    ensures r == u1 + mark + u2 + tag + end
    ensures exists a: nat :: ExpandTabs(u1, a) == w1
    ensures exists a: nat :: ExpandTabs(u2, a) == w2
    ensures exists a: nat :: ExpandTabs(end, a) == tail
  {
    hide ExpandTabs;
    var r1, r2, r3;
    assert mark[0] in mark && tag[0] in tag;
    u1, r1 := SplitExpanded(r, 0, w1, mark + (w2 + (tag + tail)));
    var column := ColumnAfter(u1, 0);
    r2 := AfterHead(r1, column, mark, w2 + (tag + tail));
    u2, r3 := SplitExpanded(r2, column + |mark|, w2, tag + tail);
    end := AfterHead(r3, ColumnAfter(u2, column + |mark|), tag, tail);
    assert r == u1 + mark + u2 + tag + end;
  }

  /** A tag found in the expanded line was there, letter for letter, before the expansion. */
  lemma TagExpanded(r: string, wide: char -> bool)
    requires FindTag(ExpandTabs(r, 0), wide).Tag?
    ensures FindTag(r, wide).Tag?
    ensures var x := ExpandTabs(r, 0); var t := FindTag(x, wide); var u := FindTag(r, wide);
            r[u.start..u.end] == x[t.start..t.end]
  {
    hide FindTag, IsSpace, IsWord, ExpandTabs;
    var w1, mark, w2, tag, tail := FindTagSound(ExpandTabs(r, 0), wide);
    PartsAreSolid(ExpandTabs(r, 0), w1, mark, w2, tag, tail, wide);
    assert w1 + mark + w2 + tag + tail == w1 + (mark + (w2 + (tag + tail)));
    var u1, u2, end := PartsExpanded(r, w1, mark, w2, tag, tail);
    var a1: nat :| ExpandTabs(u1, a1) == w1;
    var a2: nat :| ExpandTabs(u2, a2) == w2;
    var a3: nat :| ExpandTabs(end, a3) == tail;
    BlankBefore(u1, a1);
    BlankBefore(u2, a2);
    TailBefore(end, a3, wide);
    FindTagComplete(r, u1, mark, u2, tag, end, wide);
  }

  lemma PartsAreSolid(s: string, w1: string, mark: string, w2: string, tag: string, tail: string, wide: char -> bool)
    requires TagParts(s, w1, mark, w2, tag, tail, wide)
    ensures forall c :: c in mark || c in tag ==> c !in " \t\n\r"
  {
    forall c | c in tag
      ensures c !in " \t\n\r"
    {
      var j :| 0 <= j < |tag| && tag[j] == c;
    }
  }

  lemma AfterHead(s: string, column: nat, head: string, after: string) returns (rest: string)
    requires forall c :: c in head ==> c !in " \t\n\r"
    requires ExpandTabs(s, column) == head + after
    ensures s == head + rest && ExpandTabs(rest, column + |head|) == after
  {
    assert ' ' !in head && '\t' !in head && '\n' !in head && '\r' !in head by {
      assert ' ' in " \t\n\r" && '\t' in " \t\n\r" && '\n' in " \t\n\r" && '\r' in " \t\n\r";
    }
    assert ExpandTabs(s, column)[..|head|] == head;
    rest := HeadExpanded(s, column, head);
  }

  lemma BlankBefore(s: string, column: nat)
    requires All(ExpandTabs(s, column), IsSpace)
    ensures All(s, IsSpace)
  {
    ExpandChars(s, column);
    assert IsSpace('\t');
  }

  lemma TailBefore(s: string, column: nat, wide: char -> bool)
    requires var x := ExpandTabs(s, column); x != "" ==> IsSpace(x[0]) && !IsWord(x[0], wide)
    ensures s != "" ==> IsSpace(s[0]) && !IsWord(s[0], wide)
  {
  }

  lemma DoxygenAfterTabs(line: string, wide: char -> bool)
    ensures Keeps(DoxygenTags(wide), Tabs, line)
  {
    hide FindTag, RTrim, Replace, ExpandTabs;
    RStripOfExpand(line);
    if FindTag(RStrip(ExpandTabs(line, 0)), wide).Tag? {
      TagExpanded(RStrip(line), wide);
    }
  }

  // ---------------------------------------------------------------------------------------
  // One later pass, one earlier check, a whole file
  // ---------------------------------------------------------------------------------------

  /** The lines of a file as `readlines()` gives them. */
  ghost predicate ProperLines(lines: seq<string>) {
    IsLines(lines) && forall i :: 0 <= i < |lines| ==> '\r' !in lines[i]
  }

  function Passed(lines: seq<string>, check: LineCheck): seq<string> {
    NonEmpty(FixedLines(lines, RespectsGuards(check), check))
  }

  predicate Accepts(check: LineCheck, lines: seq<string>) {
    FileCompliant(lines, RespectsGuards(check), check)
  }

  /** Where a pass leaves a guard there was one, or the line was examined. */
  lemma GuardsStay(line: string, later: LineCheck)
    requires IsLine(line)
    ensures IsGuard(line) ==> Fixed(later, line) != "" && Strip(Fixed(later, line)) == Strip(line)
    ensures later.Whitespace? ==> Strip(Fixed(later, line)) == Strip(line) && Fixed(later, line) != ""
  {
    EveryFixIsGood(later, line);
    StripOfRStrip(line);
  }

  lemma {:induction false} PassKeepsPrefix(lines: seq<string>, n: nat, earlier: LineCheck, later: LineCheck)
    requires IsLines(lines) && n <= |lines|
    requires Accepts(earlier, lines)
    requires forall i :: 0 <= i < |lines| && Offends(lines, i, RespectsGuards(later), later) ==>
               Keeps(earlier, later, lines[i])
    ensures var kept := NonEmpty(FixedLines(lines, RespectsGuards(later), later)[..n]);
            && Accepts(earlier, kept)
            && (EnabledAfter(kept, |kept|) ==> EnabledAfter(lines, n))
  {
    hide Compliant, Fixed, Strip, IsSpace, FORMAT_GUARD_ON, FORMAT_GUARD_OFF;
    var fixed := FixedLines(lines, RespectsGuards(later), later);
    if n == 0 {
      assert fixed[..0] == [];
    } else {
      var before := NonEmpty(fixed[..n - 1]);
      var l, f := lines[n - 1], fixed[n - 1];
      PassKeepsPrefix(lines, n - 1, earlier, later);
      assert fixed[..n][..n - 1] == fixed[..n - 1];
      assert f == FixedLine(lines, n - 1, RespectsGuards(later), later);
      GuardsStay(l, later);
      OnIsNotOff(l);
      assert !Offends(lines, n - 1, RespectsGuards(earlier), earlier);
      if f == "" {
        assert NonEmpty(fixed[..n]) == before;
      } else {
        EnabledPrefix(before, before + [f], |before|);
        SamePrefix(before, f, RespectsGuards(earlier), earlier);
        assert NonEmpty(fixed[..n]) == before + [f];
      }
    }
  }

  lemma PassKeeps(lines: seq<string>, earlier: LineCheck, later: LineCheck)
    requires IsLines(lines)
    requires Accepts(earlier, lines)
    requires forall i :: 0 <= i < |lines| && Offends(lines, i, RespectsGuards(later), later) ==>
               Keeps(earlier, later, lines[i])
    ensures Accepts(earlier, Passed(lines, later))
  {
    PassKeepsPrefix(lines, |lines|, earlier, later);
    var fixed := FixedLines(lines, RespectsGuards(later), later);
    assert fixed[..|lines|] == fixed;
  }

  lemma FixedLineProper(lines: seq<string>, i: nat, check: LineCheck)
    requires ProperLines(lines) && i < |lines|
    ensures var f := FixedLine(lines, i, RespectsGuards(check), check);
            && (f == "" || IsLine(f))
            && (f == "" || !Terminated(lines[i]) || Terminated(f))
            && '\r' !in f
  {
    hide CheckLine;
    EveryFixIsGood(check, lines[i]);
  }

  lemma PassIsProper(lines: seq<string>, check: LineCheck)
    requires ProperLines(lines)
    ensures ProperLines(Passed(lines, check))
  {
    hide FixedLine;
    var fixed := FixedLines(lines, RespectsGuards(check), check);
    forall i | 0 <= i < |lines|
      ensures (fixed[i] == "" || IsLine(fixed[i])) && '\r' !in fixed[i]
      ensures fixed[i] == "" || !Terminated(lines[i]) || Terminated(fixed[i])
    {
      FixedLineProper(lines, i, check);
    }
    NonEmptyIsLines(fixed);
    NonEmptyFrom(fixed);
    forall k | 0 <= k < |NonEmpty(fixed)|
      ensures '\r' !in NonEmpty(fixed)[k]
    {
      assert NonEmpty(fixed)[k] in fixed;
    }
  }

  /** A pass accepts its own output. */
  lemma PassAccepts(lines: seq<string>, check: LineCheck)
    requires ProperLines(lines)
    ensures Accepts(check, Passed(lines, check)) && ProperLines(Passed(lines, check))
  {
    hide FixedLine, FileCompliant;
    PassIsProper(lines, check);
    var fixed := FixedLines(lines, RespectsGuards(check), check);
    FixedPrefix(lines, |lines|, RespectsGuards(check), check);
    assert fixed[..|lines|] == fixed;
  }

  lemma {:induction false} NonEmptyFrom(ls: seq<string>)
    ensures forall l :: l in NonEmpty(ls) ==> l in ls
    ensures (forall i :: 0 <= i < |ls| ==> ls[i] != "") ==> NonEmpty(ls) == ls
  {
    if ls != [] {
      NonEmptyFrom(ls[..|ls| - 1]);
      assert ls == ls[..|ls| - 1] + [ls[|ls| - 1]];
    }
  }

  /** The line laws above, by pair of checks; the one pair missing is licenses before tabs. */
  lemma KeepsWhenever(earlier: LineCheck, later: LineCheck, line: string)
    requires IsLine(line)
    requires Place(earlier) < Place(later)
    requires !(earlier.Licenses? && later.Tabs?)
    ensures Keeps(earlier, later, line)
  {
    hide CheckDoxygenTags, CheckIncludeQuotes, CheckLicenses, CheckWhitespace, CheckTabs;
    match later
    case DoxygenTags(wide) => QuotesAfterDoxygen(line, wide);
    case Licenses => AfterLicenses(line, if earlier.DoxygenTags? then earlier.wide else _ => false);
    case Emacs =>
    case Whitespace =>
      match earlier {
        case IncludeQuotes => QuotesAfterWhitespace(line);
        case DoxygenTags(wide) => DoxygenAfterWhitespace(line, wide);
        case Licenses => LicensesAfterWhitespace(line);
        case Emacs => EmacsAfterWhitespace(line);
      }
    case Tabs =>
      match earlier {
        case IncludeQuotes => QuotesAfterTabs(line);
        case DoxygenTags(wide) => DoxygenAfterTabs(line, wide);
        case Emacs => EmacsAfterTabs(line);
        case Whitespace => WhitespaceAfterTabs(line);
      }
  }

  /** The place of a check in CHECKS. */
  function Place(check: LineCheck): nat {
    match check
    case IncludeQuotes => 1
    case DoxygenTags(_) => 2
    case Licenses => 3
    case Emacs => 4
    case Whitespace => 5
    case Tabs => 6
  }

  lemma LaterKeepsEarlier(lines: seq<string>, earlier: LineCheck, later: LineCheck)
    requires ProperLines(lines)
    requires Place(earlier) < Place(later)
    requires !(earlier.Licenses? && later.Tabs?)
    requires Accepts(earlier, lines)
    ensures Accepts(earlier, Passed(lines, later))
  {
    hide Keeps, Accepts, Passed, Offends;
    forall i | 0 <= i < |lines|
      ensures Keeps(earlier, later, lines[i])
    {
      KeepsWhenever(earlier, later, lines[i]);
    }
    PassKeeps(lines, earlier, later);
  }

  method OnePass(file: SourceFile, check: LineCheck)
    modifies file
    ensures ReadLines(file.raw) == Passed(ReadLines(old(file.raw)), check)
  {
    hide CheckLine, ReadLines;
    ReadBack(file.raw, RespectsGuards(check), check);
    ProperRead(file.raw);
    if Accepts(check, ReadLines(file.raw)) {
      CompliantUnchanged(ReadLines(file.raw), check);
    }
    var compliant, flagged := file.CheckManually(true, false, RespectsGuards(check), check);
  }

  lemma ProperRead(raw: string)
    ensures ProperLines(ReadLines(raw))
  {
    TranslateNoCr(raw);
    LinesShape(Translate(raw));
  }

  lemma CompliantUnchanged(lines: seq<string>, check: LineCheck)
    requires ProperLines(lines) && Accepts(check, lines)
    ensures Passed(lines, check) == lines
  {
    hide CheckLine;
    assert forall i :: 0 <= i < |lines| ==> FixedLine(lines, i, RespectsGuards(check), check) == lines[i];
    assert FixedLines(lines, RespectsGuards(check), check) == lines;
    NonEmptyFrom(lines);
  }
}
