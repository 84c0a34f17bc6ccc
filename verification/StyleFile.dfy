/** The engine of check-style-clang-format.py: it applies one line check to the lines of a
    file that no clang-format guard protects, and rewrites the file in fix mode. */
module StyleFile {
  import opened PyText
  import opened LineChecks

  // ---------------------------------------------------------------------------------------
  // What the engine examines, declared
  // ---------------------------------------------------------------------------------------

  /** Whether clang-format is enabled once the first `n` lines are read. */
  function EnabledAfter(lines: seq<string>, n: nat): bool
    requires n <= |lines|
  {
    if n == 0 then true
    else if IsOn(lines[n - 1]) then true
    else if IsOff(lines[n - 1]) then false
    else EnabledAfter(lines, n - 1)
  }

  lemma OnIsNotOff(line: string)
    ensures !(IsOn(line) && IsOff(line))
  {
    var g := Strip(line);
    if g in FORMAT_GUARD_ON {
      assert g[|g| - 1] == 'n';
    }
    if g in FORMAT_GUARD_OFF {
      assert g[|g| - 1] == 'f';
    }
  }

  /** Enabled means: every guard that switched formatting off was followed by one that
      switched it on. */
  lemma {:induction false} EnabledMeans(lines: seq<string>, n: nat)
    requires n <= |lines|
    ensures EnabledAfter(lines, n)
            <==> forall k :: 0 <= k < n && IsOff(lines[k]) ==> exists m :: k < m < n && IsOn(lines[m])
  {
    if n > 0 {
      EnabledMeans(lines, n - 1);
      OnIsNotOff(lines[n - 1]);
      if IsOn(lines[n - 1]) {
        assert forall k :: 0 <= k < n && IsOff(lines[k]) ==> k < n - 1 < n && IsOn(lines[n - 1]);
      } else if IsOff(lines[n - 1]) {
        assert 0 <= n - 1 < n;
      } else {
        assert forall k :: 0 <= k < n && IsOff(lines[k]) ==> k < n - 1;
        assert forall m :: 0 <= m < n && IsOn(lines[m]) ==> m < n - 1;
      }
    }
  }

  predicate Examined(lines: seq<string>, i: nat, respectGuards: bool)
    requires i < |lines|
  {
    respectGuards ==> EnabledAfter(lines, i + 1) || IsGuard(lines[i])
  }

  predicate Offends(lines: seq<string>, i: nat, respectGuards: bool, check: LineCheck)
    requires i < |lines|
  {
    Examined(lines, i, respectGuards) && !Compliant(check, lines[i])
  }

  predicate FileCompliant(lines: seq<string>, respectGuards: bool, check: LineCheck) {
    forall i :: 0 <= i < |lines| ==> !Offends(lines, i, respectGuards, check)
  }

  function FixedLine(lines: seq<string>, i: nat, respectGuards: bool, check: LineCheck): string
    requires i < |lines|
  {
    if Offends(lines, i, respectGuards, check) then Fixed(check, lines[i]) else lines[i]
  }

  function FixedLines(lines: seq<string>, respectGuards: bool, check: LineCheck): (r: seq<string>)
    ensures |r| == |lines|
  {
    seq(|lines|, i requires 0 <= i < |lines| => FixedLine(lines, i, respectGuards, check))
  }

  /** The numbers of the offending lines among the first `n`. */
  function OffendersBefore(lines: seq<string>, n: nat, respectGuards: bool, check: LineCheck): seq<nat>
    requires n <= |lines|
  {
    if n == 0 then []
    else
      OffendersBefore(lines, n - 1, respectGuards, check)
      + (if Offends(lines, n - 1, respectGuards, check) then [n - 1] else [])
  }

  lemma {:induction false} OffendersAre(lines: seq<string>, n: nat, respectGuards: bool, check: LineCheck)
    requires n <= |lines|
    ensures var r := OffendersBefore(lines, n, respectGuards, check);
            && (forall k :: k in r <==> 0 <= k < n && Offends(lines, k, respectGuards, check))
            && (forall a, b :: 0 <= a < b < |r| ==> r[a] < r[b])
  {
    hide Offends;
    if n > 0 {
      OffendersAre(lines, n - 1, respectGuards, check);
      var before := OffendersBefore(lines, n - 1, respectGuards, check);
      assert forall a :: 0 <= a < |before| ==> before[a] in before;
    }
  }

  // ---------------------------------------------------------------------------------------
  // The engine
  // ---------------------------------------------------------------------------------------

  /** The guard part of the loop: the new state, and whether the line is passed over. */
  method ReadGuard(line: string, respectGuards: bool, enabled: bool, ghost lines: seq<string>, ghost i: nat)
    returns (clangFormatEnabled: bool, skip: bool)
    requires i < |lines| && line == lines[i]
    requires respectGuards ==> enabled == EnabledAfter(lines, i)
    ensures respectGuards ==> clangFormatEnabled == EnabledAfter(lines, i + 1)
    ensures skip <==> !Examined(lines, i, respectGuards)
  {
    hide Strip;
    clangFormatEnabled, skip := enabled, false;
    if respectGuards {
      var stripped := Strip(line);
      if stripped in FORMAT_GUARD_ON {
        clangFormatEnabled := true;
      } else if stripped in FORMAT_GUARD_OFF {
        clangFormatEnabled := false;
      }
      skip := !clangFormatEnabled && stripped !in FORMAT_GUARD_ON + FORMAT_GUARD_OFF;
    }
  }

  lemma EnabledAtStart(lines: seq<string>)
    ensures EnabledAfter(lines, 0)
  {
  }

  class SourceFile {
    var raw: string

    constructor (raw: string)
      ensures this.raw == raw
    {
      this.raw := raw;
    }

    method CheckManually(fix: bool, verbose: bool, respectGuards: bool, check: LineCheck)
      returns (isFileCompliant: bool, flagged: seq<nat>)
      modifies this
      ensures isFileCompliant == FileCompliant(ReadLines(old(raw)), respectGuards, check)
      ensures raw == if fix && !isFileCompliant then Join(FixedLines(ReadLines(old(raw)), respectGuards, check))
                     else old(raw)
      ensures var all := OffendersBefore(ReadLines(old(raw)), |ReadLines(old(raw))|, respectGuards, check);
              flagged == if fix || verbose || all == [] then all else [all[0]]
    {
      hide CheckLine, ReadLines, Examined, EnabledAfter;
      isFileCompliant, flagged := true, [];
      var clangFormatEnabled := true;
      EnabledAtStart(ReadLines(raw));
      ghost var lines := ReadLines(raw);
      var read := ReadLines(raw);
      var fileLines := new string[|read|](i requires 0 <= i < |read| => read[i]);
      var i := 0;
      while i < fileLines.Length
        invariant 0 <= i <= fileLines.Length == |lines|
        invariant respectGuards ==> clangFormatEnabled == EnabledAfter(lines, i)
        invariant flagged == OffendersBefore(lines, i, respectGuards, check)
        invariant isFileCompliant <==> flagged == []
        invariant !fix && !verbose ==> isFileCompliant
        invariant forall k :: 0 <= k < i ==> fileLines[k] == FixedLine(lines, k, respectGuards, check)
        invariant forall k :: i <= k < |lines| ==> fileLines[k] == lines[k]
        invariant raw == old(raw)
      {
        var line := fileLines[i];
        var skip;
        clangFormatEnabled, skip := ReadGuard(line, respectGuards, clangFormatEnabled, lines, i);
        if skip {
          i := i + 1;
          continue;
        }
        var verdict := CheckLine(check, line);
        if !verdict.isLineCompliant {
          isFileCompliant := false;
          fileLines[i] := verdict.lineFixed;
          flagged := flagged + [i];
          if !fix && !verbose {
            FirstOffender(lines, i, respectGuards, check);
            return;
          }
        }
        i := i + 1;
      }
      NoOffender(lines, respectGuards, check);
      if fix && !isFileCompliant {
        assert fileLines[..] == FixedLines(lines, respectGuards, check);
        raw := Join(fileLines[..]);
      }
    }
  }

  lemma NoOffender(lines: seq<string>, respectGuards: bool, check: LineCheck)
    ensures FileCompliant(lines, respectGuards, check) <==> OffendersBefore(lines, |lines|, respectGuards, check) == []
  {
    hide Offends;
    var all := OffendersBefore(lines, |lines|, respectGuards, check);
    OffendersAre(lines, |lines|, respectGuards, check);
    if all != [] {
      assert all[0] in all;
    }
  }

  lemma FirstOffender(lines: seq<string>, i: nat, respectGuards: bool, check: LineCheck)
    requires i < |lines| && Offends(lines, i, respectGuards, check)
    requires OffendersBefore(lines, i, respectGuards, check) == []
    ensures OffendersBefore(lines, |lines|, respectGuards, check) != []
    ensures OffendersBefore(lines, |lines|, respectGuards, check)[0] == i
    ensures !FileCompliant(lines, respectGuards, check)
  {
    hide Offends;
    var all := OffendersBefore(lines, |lines|, respectGuards, check);
    OffendersAre(lines, |lines|, respectGuards, check);
    OffendersAre(lines, i, respectGuards, check);
    assert i in all;
    var k :| 0 <= k < |all| && all[k] == i;
    assert all[0] in all;
    assert all[0] !in OffendersBefore(lines, i, respectGuards, check);
  }

  // ---------------------------------------------------------------------------------------
  // Rewriting the file and reading it again
  // ---------------------------------------------------------------------------------------

  function NonEmpty(ls: seq<string>): seq<string> {
    if ls == [] then []
    else NonEmpty(ls[..|ls| - 1]) + (if ls[|ls| - 1] == "" then [] else [ls[|ls| - 1]])
  }

  lemma {:induction false} JoinAppend(a: seq<string>, b: seq<string>)
    ensures Join(a + b) == Join(a) + Join(b)
  {
    if a == [] {
      assert a + b == b;
    } else {
      assert (a + b)[1..] == a[1..] + b;
      JoinAppend(a[1..], b);
    }
  }

  lemma {:induction false} JoinNonEmpty(ls: seq<string>)
    ensures Join(NonEmpty(ls)) == Join(ls)
  {
    if ls != [] {
      var a, l := ls[..|ls| - 1], ls[|ls| - 1];
      assert ls == a + [l];
      JoinNonEmpty(a);
      JoinAppend(a, [l]);
      JoinAppend(NonEmpty(a), [l]);
      assert [l][1..] == [];
      assert NonEmpty(a) + [] == NonEmpty(a);
    }
  }

  lemma {:induction false} NonEmptyIsLines(ls: seq<string>)
    requires forall i :: 0 <= i < |ls| ==> ls[i] == "" || IsLine(ls[i])
    requires forall i :: 0 <= i < |ls| - 1 ==> ls[i] == "" || Terminated(ls[i])
    ensures IsLines(NonEmpty(ls))
    ensures (forall i :: 0 <= i < |ls| ==> ls[i] == "" || Terminated(ls[i])) ==>
              forall i :: 0 <= i < |NonEmpty(ls)| ==> Terminated(NonEmpty(ls)[i])
  {
    if ls != [] {
      NonEmptyIsLines(ls[..|ls| - 1]);
    }
  }

  lemma {:induction false} JoinNoCr(ls: seq<string>)
    requires forall i :: 0 <= i < |ls| ==> '\r' !in ls[i]
    ensures '\r' !in Join(ls)
  {
    if ls != [] {
      JoinNoCr(ls[1..]);
    }
  }

  /** What the second run reads: the fixed lines, without the deleted ones. */
  lemma ReadBack(raw: string, respectGuards: bool, check: LineCheck)
    ensures var fixed := FixedLines(ReadLines(raw), respectGuards, check);
            ReadLines(Join(fixed)) == NonEmpty(fixed)
  {
    var lines := ReadLines(raw);
    var fixed := FixedLines(lines, respectGuards, check);
    TranslateNoCr(raw);
    LinesShape(Translate(raw));
    forall i | 0 <= i < |lines|
      ensures fixed[i] == "" || IsLine(fixed[i])
      ensures fixed[i] == "" || !Terminated(lines[i]) || Terminated(fixed[i])
      ensures '\r' !in fixed[i]
    {
      EveryFixIsGood(check, lines[i]);
    }
    JoinNoCr(fixed);
    TranslateIdle(Join(fixed));
    JoinNonEmpty(fixed);
    NonEmptyIsLines(fixed);
    LinesOfJoin(NonEmpty(fixed));
  }

  // ---------------------------------------------------------------------------------------
  // Fixing is final
  // ---------------------------------------------------------------------------------------

  lemma {:induction false} EnabledPrefix(a: seq<string>, b: seq<string>, n: nat)
    requires n <= |a| <= |b| && b[..|a|] == a
    ensures EnabledAfter(b, n) == EnabledAfter(a, n)
  {
    if n > 0 {
      assert b[n - 1] == b[..|a|][n - 1];
      EnabledPrefix(a, b, n - 1);
    }
  }

  lemma SamePrefix(a: seq<string>, l: string, respectGuards: bool, check: LineCheck)
    requires FileCompliant(a, respectGuards, check)
    requires !Offends(a + [l], |a|, respectGuards, check)
    ensures FileCompliant(a + [l], respectGuards, check)
  {
    hide IsOn, IsOff, Compliant;
    forall i | 0 <= i < |a|
      ensures !Offends(a + [l], i, respectGuards, check)
    {
      EnabledPrefix(a, a + [l], i + 1);
      assert !Offends(a, i, respectGuards, check);
    }
  }

  /** The fixed file may have guards the original had not, but only ever protects more: where
      the second run examines a line, the first did, and left it compliant. */
  lemma {:induction false} FixedPrefix(lines: seq<string>, n: nat, respectGuards: bool, check: LineCheck)
    requires IsLines(lines) && n <= |lines|
    ensures var kept := NonEmpty(FixedLines(lines, respectGuards, check)[..n]);
            && FileCompliant(kept, respectGuards, check)
            && (respectGuards && EnabledAfter(kept, |kept|) ==> EnabledAfter(lines, n))
  {
    hide CheckLine, Strip;
    var fixed := FixedLines(lines, respectGuards, check);
    if n == 0 {
      assert fixed[..0] == [];
    } else {
      var before := NonEmpty(fixed[..n - 1]);
      var l, f := lines[n - 1], fixed[n - 1];
      FixedPrefix(lines, n - 1, respectGuards, check);
      assert fixed[..n][..n - 1] == fixed[..n - 1];
      EveryFixIsGood(check, l);
      OnIsNotOff(l);
      assert f == FixedLine(lines, n - 1, respectGuards, check);
      if f != "" {
        EnabledPrefix(before, before + [f], |before|);
        SamePrefix(before, f, respectGuards, check);
        assert NonEmpty(fixed[..n]) == before + [f];
      } else {
        assert NonEmpty(fixed[..n]) == before;
      }
    }
  }

  /** Running a check in fix mode leaves a file on which the same check finds nothing, for
      every check and every file: guards created by expanding tabs and deleted lines included. */
  lemma {:induction false} FixIsFinal(raw: string, respectGuards: bool, check: LineCheck)
    ensures FileCompliant(ReadLines(Join(FixedLines(ReadLines(raw), respectGuards, check))), respectGuards, check)
  {
    hide FileCompliant, FixedLine;
    var lines := ReadLines(raw);
    var fixed := FixedLines(lines, respectGuards, check);
    LinesShape(Translate(raw));
    ReadBack(raw, respectGuards, check);
    FixedPrefix(lines, |lines|, respectGuards, check);
    assert fixed[..|lines|] == fixed;
  }

  /** Two runs in fix mode: the second reports a compliant file and writes nothing. */
  method FixTwice(file: SourceFile, respectGuards: bool, check: LineCheck) returns (again: bool)
    modifies file
    ensures again
    ensures file.raw == if FileCompliant(ReadLines(old(file.raw)), respectGuards, check) then old(file.raw)
                        else Join(FixedLines(ReadLines(old(file.raw)), respectGuards, check))
  {
    FixIsFinal(file.raw, respectGuards, check);
    var once, flagged := file.CheckManually(true, false, respectGuards, check);
    again, flagged := file.CheckManually(true, false, respectGuards, check);
  }
}
