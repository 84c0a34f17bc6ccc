/** Which lines each check rejects and which lines are guards, said of the text itself. */
module LineVerdicts {
  import opened LicenseTexts
  import opened LineChecks
  import opened PyText
  import opened StyleFile
  import opened StylePipeline

  lemma ContainsIff(s: string, t: string)
    ensures Contains(s, t) <==> exists p, q :: s == p + t + q
  {
    if Contains(s, t) {
      var p, q := SplitAt(s, t);
    }
    if p, q :| s == p + t + q {
      FoundAfter(p, t, q);
    }
  }

  lemma SplitAt(s: string, t: string) returns (p: string, q: string)
    requires Contains(s, t)
    ensures s == p + t + q
  {
    var k :| 0 <= k <= |s| && StartsWith(s[k..], t);
    var u := s[k..];
    p, q := s[..k], u[|t|..];
    Rejoin(s, k);
    Rejoin(u, |t|);
    assert p + (t + q) == p + t + q;
  }

  lemma Rejoin(s: string, k: nat)
    requires k <= |s|
    ensures s[..k] + s[k..] == s
  {
  }

  lemma FoundAfter(p: string, t: string, q: string)
    ensures Contains(p + t + q, t)
  {
    var s := p + t + q;
    assert s[|p|..] == t + q;
    assert s[|p|..][..|t|] == t;
    assert StartsWith(s[|p|..], t);
  }

  lemma QuotesSplit(line: string) returns (name: string, rest: string)
    requires IsLine(line) && IncludesInAngles(line)
    ensures '\n' !in name && line == "#include <ns3/" + name + ".h>" + rest
  {
    name, rest := SplitAt(line[14..], ".h>");
    assert line == line[..14] + line[14..];
    assert forall i :: 0 <= i < |name| ==> name[i] == line[14 + i];
  }

  lemma QuotesFound(name: string, rest: string)
    ensures IncludesInAngles("#include <ns3/" + name + ".h>" + rest)
  {
    hide Contains;
    var head, tail := "#include <ns3/", name + ".h>" + rest;
    var line := head + name + ".h>" + rest;
    assert line == head + tail && line[..14] == head && line[14..] == tail;
    FoundAfter(name, ".h>", rest);
  }

  /** Angle brackets around an ns-3 header at the beginning of the line. */
  lemma QuotesVerdict(line: string)
    requires IsLine(line)
    ensures !Compliant(IncludeQuotes, line)
            <==> exists name, rest :: '\n' !in name && line == "#include <ns3/" + name + ".h>" + rest
  {
    hide IncludesInAngles, IsLine, Replace;
    if IncludesInAngles(line) {
      var name, rest := QuotesSplit(line);
    }
    if name, rest :| '\n' !in name && line == "#include <ns3/" + name + ".h>" + rest {
      QuotesFound(name, rest);
    }
  }

  /** A Doxygen tag with a backslash, other than the three words ignored, at the place the pattern
      asks for. */
  lemma TagVerdict(line: string, wide: char -> bool)
    ensures !Compliant(DoxygenTags(wide), line)
            <==> exists w1, mark, w2, tag, tail ::
                   && TagParts(RStrip(line), w1, mark, w2, tag, tail, wide)
                   && (tail != "" ==> !IsWord(tail[0], wide))
                   && tag !in ["\\dots", "\\langle", "\\quad"]
  {
    hide FindTag, TagParts, RTrim, IsWord, Replace;
    var s := RStrip(line);
    if FindTag(s, wide).Tag? {
      var w1, mark, w2, tag, tail := FindTagSound(s, wide);
    }
    if w1, mark, w2, tag, tail :|
      && TagParts(s, w1, mark, w2, tag, tail, wide)
      && (tail != "" ==> !IsWord(tail[0], wide))
      && tag !in ["\\dots", "\\langle", "\\quad"]
    {
      FindTagComplete(s, w1, mark, w2, tag, tail, wide);
    }
  }

  /** A line of the license, with blanks and comment characters around it. */
  lemma LicenseVerdict(line: string)
    ensures !Compliant(Licenses, line)
            <==> exists k, a, b :: 0 <= k < |GPL_LICENSE_LINES| && Around(line, GPL_LICENSE_LINES[k], a, b)
  {
    hide LicenseText, Around, GPL_LICENSE_LINES;
    if LicenseText(line) in GPL_LICENSE_LINES {
      GplLength(LicenseText(line));
      var a, b := LicenseParts(line);
      var k :| 0 <= k < |GPL_LICENSE_LINES| && GPL_LICENSE_LINES[k] == LicenseText(line);
      assert Around(line, GPL_LICENSE_LINES[k], a, b);
    }
    if k, a, b :| 0 <= k < |GPL_LICENSE_LINES| && Around(line, GPL_LICENSE_LINES[k], a, b) {
      var text := GPL_LICENSE_LINES[k];
      LicenseEndsSolid(text);
      SolidIsNeither(text[0]);
      SolidIsNeither(text[|text| - 1]);
      LicenseOfParts(line, text, a, b);
    }
  }

  lemma SolidIsNeither(c: char)
    requires IsSolid(c)
    ensures !IsSpace(c) && !IsStar(c)
  {
  }

  /** One of the two editor settings anywhere in the line; such a line is deleted. */
  lemma EmacsVerdict(line: string)
    ensures !Compliant(Emacs, line) ==> Fixed(Emacs, line) == ""
    ensures !Compliant(Emacs, line)
            <==> exists p, q :: line == p + "c-file-style:" + q || line == p + "py-indent-offset:" + q
  {
    hide Contains, Trim;
    ContainsIff(line, "c-file-style:");
    ContainsIff(line, "py-indent-offset:");
    WordsAreSolid();
    ContainsInStrip(line, "c-file-style:");
    ContainsInStrip(line, "py-indent-offset:");
  }

  lemma WordsAreSolid()
    ensures forall c :: c in "c-file-style:" || c in "py-indent-offset:" ==> !IsSpace(c)
  {
  }

  /** The line must end with a newline, and no blank may stand before it. */
  lemma WhitespaceVerdict(line: string)
    ensures Compliant(Whitespace, line)
            <==> line != "" && line[|line| - 1] == '\n' && (|line| > 1 ==> !IsSpace(line[|line| - 2]))
  {
    hide IsSpace, RTrim;
    var b := RTrimParts(line, IsSpace);
    var r := RStrip(line);
    assert |line| > 0 && line == r + "\n" ==> line[|line| - 1] == '\n' && |r| == |line| - 1 && r == line[..|r|];
    if line != "" && line[|line| - 1] == '\n' && (|line| > 1 ==> !IsSpace(line[|line| - 2])) {
      var kept := line[..|line| - 1];
      assert line == kept + "\n";
      RStripOfEnded(kept);
    }
  }

  lemma RStripOfEnded(kept: string)
    requires kept != "" ==> !IsSpace(kept[|kept| - 1])
    ensures RStrip(kept + "\n") == kept
  {
    hide IsSpace, RTrim;
    NewlineIsSpace();
    RTrimSkips(kept, "\n", IsSpace);
  }

  lemma NewlineIsSpace()
    ensures IsSpace('\n')
  {
  }

  lemma TabsVerdict(line: string)
    ensures Compliant(Tabs, line) <==> forall i :: 0 <= i < |line| ==> line[i] != '\t'
  {
  }

  /** A tab goes to the next column that is a multiple of four, a line end to the first, and any
      other character to the next. */
  lemma TabStops(c: char, column: nat)
    ensures c == '\t' ==> Advance(c, column) % 4 == 0 && column < Advance(c, column) <= column + 4
    ensures c == '\n' || c == '\r' ==> Advance(c, column) == 0
    ensures c !in "\t\n\r" ==> Advance(c, column) == column + 1
  {
  }

  /** The character classes of the patterns, by code; beyond ASCII words are as given. */
  lemma ClassesAre(c: char, wide: char -> bool)
    ensures IsStar(c) <==> c as int == 35 || c as int == 42 || c as int == 47
    ensures c as int < 128 ==> (IsSpace(c) <==> 9 <= c as int <= 13 || 28 <= c as int <= 32)
    ensures c as int >= 128 ==>
              (IsSpace(c)
               <==> c as int in {0x85, 0xA0, 0x1680, 0x2000, 0x2001, 0x2002, 0x2003, 0x2004, 0x2005, 0x2006, 0x2007,
                                 0x2008, 0x2009, 0x200A, 0x2028, 0x2029, 0x202F, 0x205F, 0x3000})
    ensures c as int < 128 ==>
              (IsWord(c, wide)
               <==> 48 <= c as int <= 57 || 65 <= c as int <= 90 || c as int == 95 || 97 <= c as int <= 122)
    ensures c as int >= 128 ==> (IsWord(c, wide) <==> wide(c))
  {
  }

  // ---------------------------------------------------------------------------------------
  // Guards
  // ---------------------------------------------------------------------------------------

  lemma GuardIs(line: string, g: string)
    requires g in FORMAT_GUARD_ON || g in FORMAT_GUARD_OFF
    ensures Strip(line) == g <==> exists a, b :: line == a + g + b && All(a, IsSpace) && All(b, IsSpace)
  {
    hide IsSpace, Trim;
    if Strip(line) == g {
      var a, b := TrimParts(line, IsSpace);
    }
    if a, b :| line == a + g + b && All(a, IsSpace) && All(b, IsSpace) {
      GuardShape(g);
      SlashIsNoSpace();
      TrimUnique(a, g, b, IsSpace);
    }
  }

  lemma SlashIsNoSpace()
    ensures !IsSpace('/') && !IsSpace('#')
  {
  }

  /** A line switches formatting on or off when nothing but blanks stands around one of these texts. */
  lemma GuardsAre(line: string)
    ensures IsOn(line) <==> exists a, b, g :: line == a + g + b && All(a, IsSpace) && All(b, IsSpace)
                                              && g in ["// clang-format on", "# cmake-format: on", "# fmt: on"]
    ensures IsOff(line) <==> exists a, b, g :: line == a + g + b && All(a, IsSpace) && All(b, IsSpace)
                                               && g in ["// clang-format off", "# cmake-format: off", "# fmt: off"]
  {
    hide IsSpace, Trim;
    GuardsAmong(line, FORMAT_GUARD_ON);
    GuardsAmong(line, FORMAT_GUARD_OFF);
  }

  lemma GuardsAmong(line: string, guards: seq<string>)
    requires guards == FORMAT_GUARD_ON || guards == FORMAT_GUARD_OFF
    ensures Strip(line) in guards
            <==> exists a, b, g :: line == a + g + b && All(a, IsSpace) && All(b, IsSpace) && g in guards
  {
    hide IsSpace, Trim, All, FORMAT_GUARD_ON, FORMAT_GUARD_OFF;
    if Strip(line) in guards {
      var g := Strip(line);
      GuardIs(line, g);
      var a, b :| line == a + g + b && All(a, IsSpace) && All(b, IsSpace);
    }
    if a, b, g :| line == a + g + b && All(a, IsSpace) && All(b, IsSpace) && g in guards {
      GuardIs(line, g);
    }
  }

  /** No guard, and after some guard that switched formatting off none has switched it on. */
  ghost predicate Protected(lines: seq<string>, i: nat)
    requires i < |lines|
  {
    && !IsOn(lines[i]) && !IsOff(lines[i])
    && exists k :: 0 <= k < i && IsOff(lines[k]) && forall m :: k < m < i ==> !IsOn(lines[m])
  }

  /** The whitespace check must accept every line, the others every line that is not protected. */
  lemma AcceptsMeans(check: LineCheck, lines: seq<string>)
    ensures Accepts(check, lines)
            <==> forall i :: 0 <= i < |lines| ==>
                   Compliant(check, lines[i]) || (check != Whitespace && Protected(lines, i))
  {
    hide CheckLine, Examined, Protected;
    forall i | 0 <= i < |lines|
      ensures Offends(lines, i, RespectsGuards(check), check)
              <==> !Compliant(check, lines[i]) && (check == Whitespace || !Protected(lines, i))
    {
      ExaminedMeans(lines, i);
    }
  }

  /** A pass fixes every line that is not protected, and leaves the protected ones as they are. */
  lemma FixedMeans(check: LineCheck, lines: seq<string>, i: nat)
    requires i < |lines|
    ensures FixedLines(lines, RespectsGuards(check), check)[i]
            == if check != Whitespace && Protected(lines, i) then lines[i] else Fixed(check, lines[i])
  {
    hide Examined, Protected;
    ExaminedMeans(lines, i);
    CompliantStays(check, lines[i]);
  }

  lemma CompliantStays(check: LineCheck, line: string)
    ensures Compliant(check, line) ==> Fixed(check, line) == line
  {
    hide LicenseText, FindTag, Replace, Contains, Trim, RTrim, IncludesInAngles, ExpandTabs;
  }

  lemma ExaminedMeans(lines: seq<string>, i: nat)
    requires i < |lines|
    ensures Examined(lines, i, true) <==> !Protected(lines, i)
    ensures Examined(lines, i, false)
  {
    hide IsOn, IsOff;
    EnabledMeans(lines, i);
    if EnabledAfter(lines, i) {
      forall k | 0 <= k < i && IsOff(lines[k])
        ensures exists m :: k < m < i && IsOn(lines[m])
      {
      }
    }
  }
}
