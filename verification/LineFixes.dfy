/** What each fix of a line changes, and that it changes nothing else. */
module LineFixes {
  import opened LicenseTexts
  import opened LineChecks
  import opened PyText

  /** Where text is replaced by text that differs only in its first character, every character
      stays where it is, and only that first character ever changes. */
  lemma {:induction false} ReplaceHead(s: string, pat: string, sub: string)
    requires pat != [] && |sub| == |pat| && sub[1..] == pat[1..]
    ensures |Replace(s, pat, sub)| == |s|
    ensures var r := Replace(s, pat, sub);
            forall i :: 0 <= i < |s| ==> r[i] == s[i] || (s[i] == pat[0] && r[i] == sub[0])
    decreases |s|
  {
    if s == [] {
    } else if StartsWith(s, pat) {
      var rest := s[|pat|..];
      ReplaceHead(rest, pat, sub);
      var r := Replace(s, pat, sub);
      assert r == sub + Replace(rest, pat, sub);
      forall i | 0 <= i < |s|
        ensures r[i] == s[i] || (s[i] == pat[0] && r[i] == sub[0])
      {
        if i < |pat| {
          assert s[i] == s[..|pat|][i];
          assert i > 0 ==> sub[i] == sub[1..][i - 1] == pat[1..][i - 1];
        } else {
          assert s[i] == rest[i - |pat|] && r[i] == Replace(rest, pat, sub)[i - |pat|];
        }
      }
    } else {
      ReplaceHead(s[1..], pat, sub);
    }
  }

  lemma ReplaceChar(s: string, c: char, d: char)
    requires c != d
    ensures |Replace(s, [c], [d])| == |s|
    ensures forall i :: 0 <= i < |s| ==> Replace(s, [c], [d])[i] == if s[i] == c then d else s[i]
  {
    hide Replace;
    ReplaceHead(s, [c], [d]);
    ReplaceRemovesChar(s, c, [d]);
    var r := Replace(s, [c], [d]);
    forall i | 0 <= i < |s|
      ensures r[i] == if s[i] == c then d else s[i]
    {
      assert r[i] in r;
    }
  }

  /** Every angle bracket becomes a quote, and no other character changes. */
  lemma QuotesFixIs(line: string)
    requires !Compliant(IncludeQuotes, line)
    ensures var fixed := Fixed(IncludeQuotes, line);
            && |fixed| == |line|
            && forall i :: 0 <= i < |line| ==> fixed[i] == if line[i] == '<' || line[i] == '>' then '"' else line[i]
  {
    hide Replace, IncludesInAngles;
    ReplaceChar(line, '<', '"');
    ReplaceChar(Replace(line, "<", "\""), '>', '"');
  }

  /** The tag found gets its at sign; elsewhere too nothing but a backslash may have become one. */
  lemma TagFixIs(line: string, wide: char -> bool)
    ensures var fixed := Fixed(DoxygenTags(wide), line); var t := FindTag(RStrip(line), wide);
            !Compliant(DoxygenTags(wide), line) ==>
              && t.Tag? && |fixed| == |line| && t.end <= |line|
              && fixed[..t.end] == line[..t.start] + "@" + line[t.start + 1..t.end]
              && forall i :: 0 <= i < |line| ==> fixed[i] == line[i] || (line[i] == '\\' && fixed[i] == '@')
  {
    hide FindTag, RTrim, Replace;
    if !Compliant(DoxygenTags(wide), line) {
      var s := RStrip(line);
      var b := RTrimParts(line, IsSpace);
      var t := FindTag(s, wide);
      var tag := s[t.start..t.end];
      var sub := "@" + tag[1..];
      ReplaceHead(line, tag, sub);
      ReplacedPrefix(line, s, b, t.start, t.end, sub);
      assert line[t.start + 1..t.end] == tag[1..];
      assert s[..t.start] == line[..t.start];
    }
  }

  lemma ReplacedPrefix(line: string, s: string, b: string, q: nat, e: nat, sub: string)
    requires line == s + b && q < e <= |s| && s[q] == '\\'
    requires forall j :: 0 <= j < q ==> s[j] != '\\'
    requires |sub| == e - q
    ensures |Replace(line, s[q..e], sub)| >= e
    ensures Replace(line, s[q..e], sub)[..e] == s[..q] + sub
  {
    var tag, rest := s[q..e], line[q..];
    assert line == s[..q] + rest;
    ReplaceSkips(s[..q], rest, tag, sub);
    assert rest[..|tag|] == tag;
  }

  /** The line loses its trailing blanks, and nothing before them. */
  lemma WhitespaceFixIs(line: string) returns (kept: string, blanks: string)
    ensures line == kept + blanks && All(blanks, IsSpace)
    ensures kept != "" ==> !IsSpace(kept[|kept| - 1])
    ensures Fixed(Whitespace, line) == kept + "\n"
    ensures Compliant(Whitespace, line) <==> blanks == "\n"
  {
    blanks := RTrimParts(line, IsSpace);
    kept := RStrip(line);
    assert Compliant(Whitespace, line) <==> kept + "\n" == kept + blanks;
    assert (kept + blanks)[|kept|..] == blanks && (kept + "\n")[|kept|..] == "\n";
  }

  /** The first line of the license gives way to the identifier, comment characters around it
      staying; the others are deleted. */
  lemma LicenseFixIs(line: string) returns (a: seq<string>, b: seq<string>)
    requires !Compliant(Licenses, line)
    ensures LicenseText(line) in GPL_LICENSE_LINES && Around(line, LicenseText(line), a, b)
    ensures if LicenseText(line) == GPL_LICENSE_LINES[0] then Around(Fixed(Licenses, line), SPDX_LICENSE, a, b)
            else Fixed(Licenses, line) == ""
  {
    hide Around, GPL_LICENSE_LINES, SPDX_LICENSE, Trim, Replace, LicenseText;
    LicenseTextNotEmpty(line);
    a, b := LicenseParts(line);
    if LicenseText(line) == GPL_LICENSE_LINES[0] {
      SpdxReplacesText(line, a, b);
    }
  }

  lemma LicenseTextNotEmpty(line: string)
    requires LicenseText(line) in GPL_LICENSE_LINES
    ensures LicenseText(line) != []
  {
    GplLength(LicenseText(line));
  }
}
