/** The recorded entries and their order: what `Uniquefy` makes of a list of them. */
module EntryOrder {

  datatype Entry = Entry(tid: nat, path: string)

  /** `operator<` on strings and on pairs. */
  predicate TextLess(a: string, b: string) {
    b != "" && (a == "" || a[0] < b[0] || (a[0] == b[0] && TextLess(a[1..], b[1..])))
  }

  predicate Less(e: Entry, f: Entry) {
    e.tid < f.tid || (e.tid == f.tid && TextLess(e.path, f.path))
  }

  lemma {:induction false} TextOrder(a: string, b: string, c: string)
    ensures !TextLess(a, a)
    ensures a == b || TextLess(a, b) || TextLess(b, a)
    ensures TextLess(a, b) && TextLess(b, c) ==> TextLess(a, c)
    decreases |a|
  {
    if a != "" {
      var b', c' := if b == "" then "" else b[1..], if c == "" then "" else c[1..];
      TextOrder(a[1..], b', c');
      assert b != "" && a[0] == b[0] && a[1..] == b[1..] ==> a == [a[0]] + a[1..] == [b[0]] + b[1..] == b;
    }
  }

  /** The order is that of dictionaries: by the first place where the texts differ, a beginning of a
      text before the text. */
  lemma {:induction false} TextLessMeans(a: string, b: string)
    ensures TextLess(a, b)
            <==> exists k :: 0 <= k <= |a| && k < |b| && a[..k] == b[..k] && (k == |a| || a[k] < b[k])
    decreases |a|
  {
    if TextLess(a, b) {
      if a == "" || a[0] < b[0] {
        assert a[..0] == b[..0];
      } else {
        TextLessMeans(a[1..], b[1..]);
        var k :| 0 <= k <= |a[1..]| && k < |b[1..]| && a[1..][..k] == b[1..][..k]
                 && (k == |a[1..]| || a[1..][k] < b[1..][k]);
        assert a[..k + 1] == [a[0]] + a[1..][..k] && b[..k + 1] == [b[0]] + b[1..][..k];
      }
    }
    if k :| 0 <= k <= |a| && k < |b| && a[..k] == b[..k] && (k == |a| || a[k] < b[k]) {
      if k > 0 {
        assert a[0] == a[..k][0] == b[..k][0] == b[0];
        assert a[1..][..k - 1] == a[..k][1..] && b[1..][..k - 1] == b[..k][1..];
        TextLessMeans(a[1..], b[1..]);
      }
    }
  }

  lemma LessOrder(e: Entry, f: Entry, g: Entry)
    ensures !Less(e, e)
    ensures e == f || Less(e, f) || Less(f, e)
    ensures Less(e, f) && Less(f, g) ==> Less(e, g)
  {
    TextOrder(e.path, f.path, g.path);
  }

  predicate Ascending(s: seq<Entry>) {
    forall i, j :: 0 <= i < j < |s| ==> !Less(s[j], s[i])
  }

  predicate StrictlyAscending(s: seq<Entry>) {
    forall i, j :: 0 <= i < j < |s| ==> Less(s[i], s[j])
  }

  method Insert(s: seq<Entry>, e: Entry) returns (r: seq<Entry>)
    requires Ascending(s)
    ensures Ascending(r) && multiset(r) == multiset(s) + multiset{e}
  {
    hide Less;
    var k := 0;
    while k < |s| && !Less(e, s[k])
      invariant k <= |s| && forall i :: 0 <= i < k ==> !Less(e, s[i])
    {
      k := k + 1;
    }
    r := s[..k] + [e] + s[k..];
    assert s == s[..k] + s[k..];
    forall j | k <= j < |s|
      ensures !Less(s[j], e)
    {
      LessOrder(s[j], e, s[k]);
      LessOrder(e, s[k], e);
    }
  }

  /** `std::sort`. */
  method Sort(t: seq<Entry>) returns (s: seq<Entry>)
    ensures Ascending(s) && multiset(s) == multiset(t)
  {
    s := [];
    for n := 0 to |t|
      invariant Ascending(s) && multiset(s) == multiset(t[..n])
    {
      assert t[..n + 1] == t[..n] + [t[n]];
      s := Insert(s, t[n]);
    }
    assert t[..|t|] == t;
  }

  /** `std::unique` and `erase`: of neighbours that agree the first stays. */
  method Unique(s: seq<Entry>) returns (u: seq<Entry>)
    requires Ascending(s)
    ensures StrictlyAscending(u)
    ensures forall e :: e in u <==> e in s
  {
    hide Less;
    u := [];
    for n := 0 to |s|
      invariant StrictlyAscending(u)
      invariant forall e :: e in u <==> e in s[..n]
      invariant |u| <= n
      invariant n > 0 ==> u != [] && u[|u| - 1] == s[n - 1]
    {
      assert s[..n + 1] == s[..n] + [s[n]];
      if n == 0 || u[|u| - 1] != s[n] {
        forall i | 0 <= i < |u|
          ensures Less(u[i], s[n])
        {
          LessOrder(s[n - 1], s[n], s[n]);
          LessOrder(u[i], s[n - 1], s[n]);
        }
        u := u + [s[n]];
      }
    }
    assert s[..|s|] == s;
  }

  /** Sorts and shortens its parameter, which is a copy of the caller's list, and is given up. */
  method Uniquefy(t: seq<Entry>) returns (u: seq<Entry>)
    ensures StrictlyAscending(u)
    ensures forall e :: e in u <==> e in t
  {
    var sorted := Sort(t);
    u := Unique(sorted);
    forall e
      ensures e in sorted <==> e in t
    {
      assert e in multiset(sorted) <==> e in multiset(t);
    }
  }
}
