/** A whole run in fix mode: the enabled checks that apply to the file's type, one after the other
    in the order of CHECKS, each on the file the one before it left. */
module FixRuns {
  import opened HiddenLicenses
  import opened LicenseTexts
  import opened LineChecks
  import opened PyText
  import opened StyleFile
  import opened StylePipeline

  /** Any selection of the checks, in the order of CHECKS. */
  predicate InOrder(checks: seq<LineCheck>) {
    forall i, j :: 0 <= i < j < |checks| ==> Place(checks[i]) < Place(checks[j])
  }

  function AllChecks(wide: char -> bool): seq<LineCheck> {
    [IncludeQuotes, DoxygenTags(wide), Licenses, Emacs, Whitespace, Tabs]
  }

  function FixRun(lines: seq<string>, checks: seq<LineCheck>): seq<string> {
    if checks == [] then lines
    else Passed(FixRun(lines, checks[..|checks| - 1]), checks[|checks| - 1])
  }

  lemma InOrderPrefix(checks: seq<LineCheck>)
    requires InOrder(checks) && checks != []
    ensures InOrder(checks[..|checks| - 1])
    ensures Tabs !in checks[..|checks| - 1]
    ensures forall c :: c in checks ==> c in checks[..|checks| - 1] || c == checks[|checks| - 1]
    ensures forall c :: c in checks[..|checks| - 1] ==> c in checks && Place(c) < Place(checks[|checks| - 1])
  {
    var before, last := checks[..|checks| - 1], checks[|checks| - 1];
    forall c | c in before
      ensures c in checks && Place(c) < Place(last)
    {
      var i :| 0 <= i < |before| && before[i] == c;
      assert checks[i] == c;
    }
    assert checks == before + [last];
  }

  /** After the run every check that took part accepts the file, if no tabs pass came after it or
      it is not the license check. */
  lemma {:induction false} RunAccepts(lines: seq<string>, checks: seq<LineCheck>)
    requires ProperLines(lines) && InOrder(checks)
    ensures ProperLines(FixRun(lines, checks))
    ensures forall c :: c in checks && !(c.Licenses? && Tabs in checks) ==> Accepts(c, FixRun(lines, checks))
  {
    hide Accepts, Passed, ProperLines, Place, InOrder;
    if checks != [] {
      var before, last := checks[..|checks| - 1], checks[|checks| - 1];
      InOrderPrefix(checks);
      RunAccepts(lines, before);
      var b := FixRun(lines, before);
      PassAccepts(b, last);
      forall c | c in checks && !(c.Licenses? && Tabs in checks)
        ensures Accepts(c, FixRun(lines, checks))
      {
        if c in before {
          assert last in checks;
          LaterKeepsEarlier(b, c, last);
        }
      }
    }
  }

  lemma {:induction false} RunKeepsHidden(lines: seq<string>, checks: seq<LineCheck>)
    requires ProperLines(lines) && InOrder(checks) && Tabs !in checks
    ensures HidesSomewhere(FixRun(lines, checks)) <==> HidesSomewhere(lines)
  {
    hide Passed, ProperLines, InOrder, HidesSomewhere;
    if checks != [] {
      var before, last := checks[..|checks| - 1], checks[|checks| - 1];
      InOrderPrefix(checks);
      RunAccepts(lines, before);
      RunKeepsHidden(lines, before);
      assert last in checks;
      PassKeepsHidden(FixRun(lines, before), last);
    }
  }

  lemma TabsDeleteNothing(lines: seq<string>)
    requires IsLines(lines)
    ensures Passed(lines, Tabs) == FixedLines(lines, true, Tabs)
  {
    var fixed := FixedLines(lines, true, Tabs);
    forall i | 0 <= i < |fixed|
      ensures fixed[i] != ""
    {
      ExpandLine(lines[i]);
    }
    NonEmptyFrom(fixed);
  }

  /** The tabs pass alone: it turns an accepted file into one the license check would change exactly
      when a line hides a license. */
  lemma LicensesAfterTabs(lines: seq<string>)
    requires IsLines(lines) && Accepts(Licenses, lines)
    ensures Accepts(Licenses, Passed(lines, Tabs)) <==> !HidesSomewhere(lines)
  {
    hide CheckLicenses, ExpandTabs, Examined;
    TabsDeleteNothing(lines);
    var out := Passed(lines, Tabs);
    if !HidesSomewhere(lines) {
      forall i | 0 <= i < |out|
        ensures !Offends(out, i, true, Licenses)
      {
        assert out[i] == FixedLine(lines, i, true, Tabs);
        assert !Offends(lines, i, true, Licenses);
        assert !HiddenAt(lines, i);
        if out[i] == lines[i] && Examined(out, i, true) {
          StillExamined(lines, i);
        }
      }
    }
    if i :| 0 <= i < |lines| && HiddenAt(lines, i) {
      assert Offends(lines, i, true, Tabs);
      assert out[i] == ExpandTabs(lines[i], 0);
      assert Offends(out, i, true, Licenses);
    }
  }

  lemma {:induction false} EnabledStays(lines: seq<string>, n: nat)
    requires IsLines(lines) && n <= |lines|
    ensures EnabledAfter(FixedLines(lines, true, Tabs), n) ==> EnabledAfter(lines, n)
  {
    hide Strip;
    if n > 0 {
      EnabledStays(lines, n - 1);
      GuardsStay(lines[n - 1], Tabs);
      OnIsNotOff(lines[n - 1]);
      assert FixedLines(lines, true, Tabs)[n - 1] == FixedLine(lines, n - 1, true, Tabs);
    }
  }

  lemma StillExamined(lines: seq<string>, i: nat)
    requires IsLines(lines) && i < |lines|
    requires FixedLines(lines, true, Tabs)[i] == lines[i]
    requires Examined(FixedLines(lines, true, Tabs), i, true)
    ensures Examined(lines, i, true)
  {
    EnabledStays(lines, i + 1);
  }

  /** After a fix run with any selection of the checks over any file, every one of them accepts the
      result, save that the license check does so after a tabs pass exactly when no line of the file
      given hides a license. */
  lemma {:induction false} FixRunAccepts(lines: seq<string>, checks: seq<LineCheck>)
    requires ProperLines(lines) && InOrder(checks)
    ensures var out := FixRun(lines, checks);
            && (forall c :: c in checks && !c.Licenses? ==> Accepts(c, out))
            && (Licenses in checks ==> (Accepts(Licenses, out) <==> Tabs !in checks || !HidesSomewhere(lines)))
  {
    hide Accepts, Passed, ProperLines, InOrder, HidesSomewhere;
    RunAccepts(lines, checks);
    if Licenses in checks && Tabs in checks {
      var before := checks[..|checks| - 1];
      InOrderPrefix(checks);
      RunAccepts(lines, before);
      RunKeepsHidden(lines, before);
      ProperAreLines(FixRun(lines, before));
      LicensesAfterTabs(FixRun(lines, before));
    }
  }

  lemma ProperAreLines(lines: seq<string>)
    requires ProperLines(lines)
    ensures IsLines(lines)
  {
  }

  /** A file without tabs comes out of any fix run in order for every check that took part. */
  lemma {:induction false} WithoutTabsAllAccept(lines: seq<string>, checks: seq<LineCheck>)
    requires ProperLines(lines) && InOrder(checks)
    requires forall i :: 0 <= i < |lines| ==> '\t' !in lines[i]
    ensures forall c :: c in checks ==> Accepts(c, FixRun(lines, checks))
  {
    hide Accepts, FixRun, InOrder, Examined, Compliant, ProperLines;
    FixRunAccepts(lines, checks);
  }

  /** The passes of `check_style_clang_format` on one file in fix mode. */
  method FixFile(file: SourceFile, checks: seq<LineCheck>)
    modifies file
    ensures ReadLines(file.raw) == FixRun(ReadLines(old(file.raw)), checks)
    ensures ProperLines(ReadLines(old(file.raw)))
  {
    hide Passed, ReadLines, FixedLines, FileCompliant;
    ProperRead(file.raw);
    for i := 0 to |checks|
      invariant ReadLines(file.raw) == FixRun(ReadLines(old(file.raw)), checks[..i])
    {
      assert checks[..i + 1][..i] == checks[..i];
      OnePass(file, checks[i]);
    }
    assert checks[..|checks|] == checks;
  }

  // ---------------------------------------------------------------------------------------
  // The pair of checks that does not commute
  // ---------------------------------------------------------------------------------------

  const REST := "by the Free Software Foundation;"

  const DISGUISED := "* published" + "\t" + REST + "\n"

  const REVEALED := "* published" + " " + REST + "\n"

  lemma CommentedText(line: string, gap: string)
    requires |gap| == 1 && line == "* published" + gap + REST + "\n"
    ensures LicenseText(line) == "published" + gap + REST
  {
    var text := "published" + gap + REST;
    assert text[|text| - 1] == REST[|REST| - 1] == ';';
    assert text[0] == 'p';
    assert Around(line, text, ["", "*", " "], ["\n", "", ""]) by {
      assert "" + "*" + " " + text + "" + "" + "\n" == line;
    }
    LicenseOfParts(line, text, ["", "*", " "], ["\n", "", ""]);
  }

  lemma TabbedIsNoLicense(text: string)
    requires text == "published" + "\t" + REST
    ensures text !in GPL_LICENSE_LINES
  {
    assert |text| == 42 && text[9] == '\t';
    assert GPL_LICENSE_LINES[2][9] == ' ';
  }

  lemma BlankIsLicense()
    ensures "published" + " " + REST in GPL_LICENSE_LINES
  {
    assert "published" + " " + REST == GPL_LICENSE_LINES[2] by {
      BlankText();
    }
  }

  lemma BlankText()
    ensures "published" + " " + REST == GPL_LICENSE_LINES[2]
  {
    hide FREE_SOFTWARE, UNDER_THE_TERMS, DISTRIBUTED_IN_HOPE, WITHOUT_ANY_WARRANTY;
    hide FITNESS, MORE_DETAILS, RECEIVED_A_COPY, ALONG_WITH, FOUNDATION;
  }

  lemma RestShape()
    ensures REST != "" && '\n' !in REST && '\r' !in REST && REST[|REST| - 1] == ';'
  {
    assert REST[|REST| - 1] == ';';
  }

  lemma DisguisedLine(line: string, gap: char)
    requires gap in "\t " && line == "* published" + [gap] + REST + "\n"
    ensures IsLine(line) && '\r' !in line && !IsGuard(line)
  {
    hide Trim, FORMAT_GUARD_ON, FORMAT_GUARD_OFF, REST;
    RestShape();
    assert line[|line| - 1] == '\n';
    var body := "* published" + [gap] + REST;
    assert line == "" + body + "\n";
    assert body[|body| - 1] == REST[|REST| - 1];
    TrimUnique("", body, "\n", IsSpace);
    if IsGuard(line) {
      GuardShape(Strip(line));
    }
  }

  lemma OneTab(head: string, tail: string)
    requires '\t' !in head && '\n' !in head && '\r' !in head && '\t' !in tail
    requires |head| % TAB_SIZE == TAB_SIZE - 1
    ensures ExpandTabs(head + "\t" + tail, 0) == head + " " + tail
  {
    hide ExpandTabs;
    assert head + "\t" + tail == head + ("\t" + tail);
    ExpandAppend(head, "\t" + tail, 0);
    ExpandIdle(head, 0);
    ExpandWidth(head, 0);
    ExpandAppend("\t", tail, |head|);
    ExpandOne('\t', |head|);
    ExpandIdle(tail, ColumnAfter("\t", |head|));
    assert Blanks(1) == " ";
    assert head + " " + tail == head + (" " + tail);
  }

  lemma DisguisedExpands()
    ensures ExpandTabs(DISGUISED, 0) == REVEALED
    ensures '\t' in DISGUISED
  {
    hide ExpandTabs;
    var head, tail := "* published", REST + "\n";
    assert '\t' !in REST;
    OneTab(head, tail);
    assert DISGUISED == head + "\t" + tail && REVEALED == head + " " + tail;
    assert '\t' in "\t";
  }

  /** A file of one line, a tab standing for a blank of the license: every check but the tabs check
      accepts it, and after a whole fix run the license check does not. */
  lemma {:induction false} TabsRevealLicense(wide: char -> bool)
    ensures ProperLines([DISGUISED]) && Accepts(Licenses, [DISGUISED])
    ensures Passed([DISGUISED], Tabs) == [REVEALED] && !Accepts(Licenses, [REVEALED])
    ensures !Accepts(Licenses, FixRun([DISGUISED], AllChecks(wide)))
  {
    hide FixRun, HidesSomewhere, Accepts, Passed, InOrder;
    DisguisedHides();
    AllInOrder(wide);
    var checks := AllChecks(wide);
    assert checks[2] == Licenses && checks[5] == Tabs;
    FixRunAccepts([DISGUISED], checks);
  }

  lemma AllInOrder(wide: char -> bool)
    ensures InOrder(AllChecks(wide))
  {
  }

  lemma {:induction false} DisguisedHides()
    ensures ProperLines([DISGUISED]) && HidesSomewhere([DISGUISED])
    ensures Accepts(Licenses, [DISGUISED])
    ensures Passed([DISGUISED], Tabs) == [REVEALED] && !Accepts(Licenses, [REVEALED])
  {
    hide IsGuard, Accepts, Passed, FixedLines, IsLine, HidesSomewhere, CheckLine, REST;
    DisguisedLine(DISGUISED, '\t');
    DisguisedLine(REVEALED, ' ');
    DisguisedVerdicts();
    assert IsLines([DISGUISED]);
    TabsDeleteNothing([DISGUISED]);
    OneLineFile(DISGUISED);
    OneLineFile(REVEALED);
    LicensesAfterTabs([DISGUISED]);
  }

  lemma DisguisedVerdicts()
    ensures Compliant(Licenses, DISGUISED) && !Compliant(Licenses, REVEALED)
    ensures Fixed(Tabs, DISGUISED) == REVEALED
  {
    hide LicenseText, ExpandTabs, Replace, GPL_LICENSE_LINES, REST;
    CommentedText(DISGUISED, "\t");
    CommentedText(REVEALED, " ");
    TabbedIsNoLicense(LicenseText(DISGUISED));
    BlankIsLicense();
    DisguisedExpands();
  }

  /** A line that is no guard is examined in a file of its own. */
  lemma OneLineFile(line: string)
    requires !IsGuard(line)
    ensures forall check :: Accepts(check, [line]) <==> Compliant(check, line)
    ensures FixedLines([line], true, Tabs) == [Fixed(Tabs, line)]
  {
    hide CheckLine, IsOn, IsOff;
    assert EnabledAfter([line], 1);
    forall check
      ensures Accepts(check, [line]) <==> Compliant(check, line)
    {
      assert Offends([line], 0, RespectsGuards(check), check) <==> !Compliant(check, line);
    }
    TabsCompliant(line);
  }

  lemma TabsCompliant(line: string)
    ensures Compliant(Tabs, line) ==> Fixed(Tabs, line) == line
  {
  }
}
