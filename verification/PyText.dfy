/** The Python string and text-file operations the style checker relies on, and what the
    proofs need to know of them. */
module PyText {

  /** `str.isspace` on one character; what `strip` removes and `\s` matches. */
  predicate IsSpace(c: char) {
    var n := c as int;
    || 0x09 <= n <= 0x0D || 0x1C <= n <= 0x20 || n == 0x85 || n == 0xA0 || n == 0x1680
    || 0x2000 <= n <= 0x200A || n == 0x2028 || n == 0x2029 || n == 0x202F || n == 0x205F || n == 0x3000
  }

  predicate All(s: string, p: char -> bool) {
    forall c :: c in s ==> p(c)
  }

  // ---------------------------------------------------------------------------------------
  // strip
  // ---------------------------------------------------------------------------------------

  function LTrim(s: string, p: char -> bool): string {
    if s != [] && p(s[0]) then LTrim(s[1..], p) else s
  }

  function RTrim(s: string, p: char -> bool): string {
    if s != [] && p(s[|s| - 1]) then RTrim(s[..|s| - 1], p) else s
  }

  function Trim(s: string, p: char -> bool): string {
    RTrim(LTrim(s, p), p)
  }

  function RStrip(s: string): string {
    RTrim(s, IsSpace)
  }

  function Strip(s: string): string {
    Trim(s, IsSpace)
  }

  lemma {:induction false} LTrimParts(s: string, p: char -> bool) returns (a: string)
    ensures s == a + LTrim(s, p) && All(a, p)
    ensures LTrim(s, p) != [] ==> !p(LTrim(s, p)[0])
  {
    if s != [] && p(s[0]) {
      var b := LTrimParts(s[1..], p);
      a := [s[0]] + b;
      assert s == [s[0]] + (b + LTrim(s[1..], p));
    } else {
      a := [];
    }
  }

  lemma {:induction false} RTrimParts(s: string, p: char -> bool) returns (b: string)
    ensures s == RTrim(s, p) + b && All(b, p)
    ensures RTrim(s, p) != [] ==> !p(RTrim(s, p)[|RTrim(s, p)| - 1])
  {
    if s != [] && p(s[|s| - 1]) {
      var c := RTrimParts(s[..|s| - 1], p);
      b := c + [s[|s| - 1]];
      assert s == (RTrim(s[..|s| - 1], p) + c) + [s[|s| - 1]];
    } else {
      b := [];
    }
  }

  /** `strip` removes a prefix and a suffix of strippable characters and leaves a core that
      neither begins nor ends with one. */
  lemma TrimParts(s: string, p: char -> bool) returns (a: string, b: string)
    ensures s == a + Trim(s, p) + b && All(a, p) && All(b, p)
    ensures Trim(s, p) != [] ==> !p(Trim(s, p)[0]) && !p(Trim(s, p)[|Trim(s, p)| - 1])
  {
    a := LTrimParts(s, p);
    b := RTrimParts(LTrim(s, p), p);
  }

  lemma {:induction false} LTrimSkips(a: string, g: string, p: char -> bool)
    requires All(a, p)
    requires g == [] || !p(g[0])
    ensures LTrim(a + g, p) == g
  {
    if a == [] {
      assert a + g == g;
    } else {
      assert a[0] in a;
      assert (a + g)[1..] == a[1..] + g;
      LTrimSkips(a[1..], g, p);
    }
  }

  lemma {:induction false} RTrimSkips(g: string, b: string, p: char -> bool)
    requires All(b, p)
    requires g == [] || !p(g[|g| - 1])
    ensures RTrim(g + b, p) == g
  {
    if b == [] {
      assert g + b == g;
    } else {
      assert b[|b| - 1] in b;
      assert (g + b)[..|g + b| - 1] == g + b[..|b| - 1];
      RTrimSkips(g, b[..|b| - 1], p);
    }
  }

  /** The decomposition of TrimParts is the only one: it determines what `strip` returns. */
  lemma TrimUnique(a: string, g: string, b: string, p: char -> bool)
    requires All(a, p) && All(b, p)
    requires g != [] && !p(g[0]) && !p(g[|g| - 1])
    ensures Trim(a + g + b, p) == g
  {
    assert a + g + b == a + (g + b);
    LTrimSkips(a, g + b, p);
    RTrimSkips(g, b, p);
  }

  lemma TrimKeeps(s: string, p: char -> bool, c: char)
    requires c in s && !p(c)
    ensures c in Trim(s, p)
  {
    var a, b := TrimParts(s, p);
  }

  // ---------------------------------------------------------------------------------------
  // str.replace
  // ---------------------------------------------------------------------------------------

  predicate StartsWith(s: string, t: string) {
    |t| <= |s| && s[..|t|] == t
  }

  predicate Contains(s: string, t: string) {
    exists k :: 0 <= k <= |s| && StartsWith(s[k..], t)
  }

  /** Leftmost, non-overlapping replacement. */
  function Replace(s: string, pat: string, sub: string): string
    requires pat != []
    decreases |s|
  {
    if s == [] then []
    else if StartsWith(s, pat) then sub + Replace(s[|pat|..], pat, sub)
    else [s[0]] + Replace(s[1..], pat, sub)
  }

  lemma {:induction false} ReplaceChars(s: string, pat: string, sub: string, c: char)
    requires pat != []
    requires c in Replace(s, pat, sub)
    ensures c in s || c in sub
    decreases |s|
  {
    if s == [] {
    } else if StartsWith(s, pat) {
      if c !in sub {
        ReplaceChars(s[|pat|..], pat, sub, c);
      }
    } else if c != s[0] {
      ReplaceChars(s[1..], pat, sub, c);
    }
  }

  lemma {:induction false} ReplaceRemovesChar(s: string, c: char, sub: string)
    requires c !in sub
    ensures c !in Replace(s, [c], sub)
    decreases |s|
  {
    if s == [] {
    } else if StartsWith(s, [c]) {
      ReplaceRemovesChar(s[1..], c, sub);
    } else {
      assert s[..1] == [s[0]];
      ReplaceRemovesChar(s[1..], c, sub);
    }
  }

  /** Up to the first place the old text can begin, nothing changes. */
  lemma {:induction false} ReplaceSkips(a: string, s: string, pat: string, sub: string)
    requires pat != [] && pat[0] !in a
    ensures Replace(a + s, pat, sub) == a + Replace(s, pat, sub)
  {
    if a == [] {
      assert a + s == s;
    } else {
      assert (a + s)[1..] == a[1..] + s;
      assert (a + s)[0] in a;
      assert forall n :: 0 < n <= |a + s| ==> (a + s)[..n][0] == (a + s)[0];
      ReplaceSkips(a[1..], s, pat, sub);
    }
  }

  // ---------------------------------------------------------------------------------------
  // Lines
  // ---------------------------------------------------------------------------------------

  /** One element of `readlines()`: not empty, and a newline only at its end. */
  predicate IsLine(s: string) {
    s != [] && forall i :: 0 <= i < |s| - 1 ==> s[i] != '\n'
  }

  predicate Terminated(s: string) {
    s != [] && s[|s| - 1] == '\n'
  }

  /** What `readlines()` may return: every line but the last ends with a newline. */
  predicate IsLines(ls: seq<string>) {
    && (forall i :: 0 <= i < |ls| ==> IsLine(ls[i]))
    && (forall i :: 0 <= i < |ls| - 1 ==> Terminated(ls[i]))
  }

  function FirstLine(t: string): (n: nat)
    requires t != []
    ensures 0 < n <= |t|
    ensures IsLine(t[..n])
    ensures n < |t| ==> Terminated(t[..n])
  {
    if t[0] == '\n' || |t| == 1 then 1
    else
      var n := 1 + FirstLine(t[1..]);
      assert forall i :: 1 <= i < n ==> t[..n][i] == t[1..][..n - 1][i - 1];
      n
  }

  function Lines(t: string): seq<string>
    decreases |t|
  {
    if t == [] then [] else var n := FirstLine(t); [t[..n]] + Lines(t[n..])
  }

  function Join(ls: seq<string>): string {
    if ls == [] then [] else ls[0] + Join(ls[1..])
  }

  lemma {:induction false} LinesShape(t: string)
    ensures IsLines(Lines(t))
    ensures Join(Lines(t)) == t
    ensures forall i :: 0 <= i < |Lines(t)| ==> forall c :: c in Lines(t)[i] ==> c in t
    decreases |t|
  {
    if t != [] {
      var n := FirstLine(t);
      LinesShape(t[n..]);
      assert t == t[..n] + t[n..];
      assert Lines(t)[1..] == Lines(t[n..]);
      if |Lines(t)| > 1 {
        assert n < |t|;
      }
    }
  }

  lemma FirstLineOf(l: string, rest: string)
    requires IsLine(l) && (rest == [] || Terminated(l))
    ensures FirstLine(l + rest) == |l|
  {
    var t := l + rest;
    var n := FirstLine(t);
    assert forall i :: 0 <= i < n ==> t[..n][i] == t[i];
    assert forall i :: 0 <= i < |l| ==> l[i] == t[i];
    assert n < |t| ==> t[n - 1] == '\n';
    assert |l| < |t| ==> t[|l| - 1] == '\n';
  }

  /** Writing lines with `writelines` and reading them back gives the same lines. */
  lemma {:induction false} LinesOfJoin(ls: seq<string>)
    requires IsLines(ls)
    ensures Lines(Join(ls)) == ls
  {
    if ls != [] {
      var rest := Join(ls[1..]);
      assert |ls| == 1 ==> rest == [];
      FirstLineOf(ls[0], rest);
      assert (ls[0] + rest)[..|ls[0]|] == ls[0] && (ls[0] + rest)[|ls[0]|..] == rest;
      LinesOfJoin(ls[1..]);
    }
  }

  /** Universal newlines: what opening a file in text mode makes of its characters. */
  function Translate(raw: string): string
    decreases |raw|
  {
    if raw == [] then []
    else if raw[0] == '\r' then
      ['\n'] + Translate(if |raw| > 1 && raw[1] == '\n' then raw[2..] else raw[1..])
    else [raw[0]] + Translate(raw[1..])
  }

  lemma {:induction false} TranslateNoCr(raw: string)
    ensures '\r' !in Translate(raw)
    decreases |raw|
  {
    if raw == [] {
    } else if raw[0] == '\r' {
      TranslateNoCr(if |raw| > 1 && raw[1] == '\n' then raw[2..] else raw[1..]);
    } else {
      TranslateNoCr(raw[1..]);
    }
  }

  lemma {:induction false} TranslateIdle(t: string)
    requires '\r' !in t
    ensures Translate(t) == t
  {
    if t != [] {
      TranslateIdle(t[1..]);
    }
  }

  /** Lines one after the other, each with the given ending. */
  function WithEnding(ls: seq<string>, ending: string): string {
    if ls == [] then "" else ls[0] + ending + WithEnding(ls[1..], ending)
  }

  lemma {:induction false} TranslateSkips(a: string, b: string)
    requires '\r' !in a
    ensures Translate(a + b) == a + Translate(b)
  {
    if a == [] {
      assert a + b == b;
    } else {
      assert (a + b)[1..] == a[1..] + b;
      TranslateSkips(a[1..], b);
    }
  }

  /** Whichever of the three line endings a file has, it reads the same. */
  lemma {:induction false} EndingsAlike(ls: seq<string>, ending: string)
    requires ending in ["\n", "\r\n", "\r"]
    requires forall i :: 0 <= i < |ls| ==> '\n' !in ls[i] && '\r' !in ls[i]
    ensures Translate(WithEnding(ls, ending)) == WithEnding(ls, "\n")
  {
    if ls != [] {
      var rest := WithEnding(ls[1..], ending);
      EndingsAlike(ls[1..], ending);
      assert ls[0] + ending + rest == ls[0] + (ending + rest);
      TranslateSkips(ls[0], ending + rest);
      assert rest == "" || rest[0] != '\n' || ending[0] == '\n' by {
        StartsWithLine(ls[1..], ending);
      }
      OneEnding(ending, rest);
      assert ls[0] + "\n" + WithEnding(ls[1..], "\n") == ls[0] + ("\n" + WithEnding(ls[1..], "\n"));
    }
  }

  lemma StartsWithLine(ls: seq<string>, ending: string)
    requires ending != "" && forall i :: 0 <= i < |ls| ==> '\n' !in ls[i]
    ensures var t := WithEnding(ls, ending); t == "" || t[0] != '\n' || ending[0] == '\n'
  {
  }

  lemma OneEnding(ending: string, rest: string)
    requires ending in ["\n", "\r\n", "\r"]
    requires rest == "" || rest[0] != '\n' || ending[0] == '\n'
    ensures Translate(ending + rest) == "\n" + Translate(rest)
  {
    var t := ending + rest;
    if ending == "\r\n" {
      assert t[2..] == rest;
    } else {
      assert t[1..] == rest;
    }
  }

  function ReadLines(raw: string): seq<string> {
    Lines(Translate(raw))
  }

  lemma {:induction false} ReplaceLine(s: string, pat: string, sub: string)
    requires pat != [] && '\n' !in pat && '\n' !in sub && sub != []
    requires IsLine(s)
    ensures IsLine(Replace(s, pat, sub))
    ensures Terminated(s) ==> Terminated(Replace(s, pat, sub))
    decreases |s|
  {
    var k := if StartsWith(s, pat) then |pat| else 1;
    var u := s[k..];
    var r := Replace(u, pat, sub);
    var h := if StartsWith(s, pat) then sub else [s[0]];
    assert Replace(s, pat, sub) == h + r;
    if u == [] {
      assert r == [];
      assert s[|s| - 1] in s;
      assert h + r == h;
    } else {
      assert IsLine(u) by {
        assert forall i :: 0 <= i < |u| - 1 ==> u[i] == s[i + k];
      }
      ReplaceLine(u, pat, sub);
    }
  }
}
