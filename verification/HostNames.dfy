/** Text operations on host patterns, as used by the policy compiler (src/aidast/cli.py).
    Case folding is that of ASCII. */
module HostNames {
  import opened Orders

  function LowerChar(c: char): char {
    if 'A' <= c <= 'Z' then (c as int + 32) as char else c
  }

  function Lower(s: string): string {
    seq(|s|, i requires 0 <= i < |s| => LowerChar(s[i]))
  }

  /** Without trailing dots. */
  function RStripDots(s: string): string {
    if s != "" && s[|s| - 1] == '.' then RStripDots(s[..|s| - 1]) else s
  }

  predicate IsSpace(c: char) {
    c == ' ' || c == '\t' || c == '\n' || c == '\r'
  }

  function Strip(s: string): string {
    if s != "" && IsSpace(s[0]) then Strip(s[1..])
    else if s != "" && IsSpace(s[|s| - 1]) then Strip(s[..|s| - 1])
    else s
  }

  /** Without one leading "*.". */
  function DropStar(s: string): string {
    if |s| >= 2 && s[..2] == "*." then s[2..] else s
  }

  predicate EndsWith(s: string, suffix: string) {
    |suffix| <= |s| && s[|s| - |suffix|..] == suffix
  }

  function Normal(s: string): string {
    RStripDots(Lower(s))
  }

  predicate IsAlnum(c: char) {
    'a' <= c <= 'z' || '0' <= c <= '9'
  }

  /** Letters, digits, dots and dashes, starting and ending with a letter or digit. */
  predicate IsHostname(s: string) {
    s != "" && IsAlnum(s[0]) && IsAlnum(s[|s| - 1]) && forall c :: c in s ==> IsAlnum(c) || c == '.' || c == '-'
  }

  /** Lower-case and without a trailing dot. */
  predicate IsNormal(s: string) {
    (forall i :: 0 <= i < |s| ==> LowerChar(s[i]) == s[i]) && (s == "" || s[|s| - 1] != '.')
  }

  lemma {:induction false} RStripPrefix(s: string)
    ensures RStripDots(s) <= s && (RStripDots(s) == "" || RStripDots(s)[|RStripDots(s)| - 1] != '.')
  {
    if s == "" {
    } else if s[|s| - 1] == '.' {
      RStripPrefix(s[..|s| - 1]);
    }
  }

  function Dots(n: nat): string {
    seq(n, _ => '.')
  }

  lemma {:induction false} RStripMeaning(s: string) returns (n: nat)
    ensures s == RStripDots(s) + Dots(n)
  {
    if s == "" || s[|s| - 1] != '.' {
      n := 0;
    } else {
      var m := RStripMeaning(s[..|s| - 1]);
      n := m + 1;
      assert s == s[..|s| - 1] + ".";
      assert Dots(m) + "." == Dots(n);
    }
  }

  /** The normal form is the lower-cased name without the dots at its end. */
  lemma NormalMeaning(s: string) returns (n: nat)
    ensures Lower(s) == Normal(s) + Dots(n)
    ensures Normal(s) == "" || Normal(s)[|Normal(s)| - 1] != '.'
    ensures |Normal(s)| <= |s| && forall i :: 0 <= i < |Normal(s)| ==>
              Normal(s)[i] == if 'A' <= s[i] <= 'Z' then (s[i] as int + 32) as char else s[i]
  {
    n := RStripMeaning(Lower(s));
    RStripPrefix(Lower(s));
  }

  lemma NormalIsNormal(s: string)
    ensures IsNormal(Normal(s))
  {
    RStripPrefix(Lower(s));
  }

  lemma NormalFixes(s: string)
    requires IsNormal(s)
    ensures Normal(s) == s
  {
    assert Lower(s) == s;
  }

  lemma DropStarNormal(s: string)
    requires IsNormal(s)
    ensures IsNormal(DropStar(s))
  {
  }

  /** Prefixing "*." to a normal name never gives that name back. */
  lemma StarDiffers(c: string)
    requires IsNormal(c)
    ensures Normal("*." + c) != c
  {
    var starred := "*." + c;
    assert Lower(starred) == starred by {
      assert forall i :: 0 <= i < |starred| ==> LowerChar(starred[i]) == starred[i];
    }
    if c == "" {
      assert starred == "*." && starred[..1] == "*";
      assert RStripDots(starred) == RStripDots("*") == "*";
    } else {
      assert starred[|starred| - 1] == c[|c| - 1];
    }
  }

  // ----- Sorting text -----

  predicate Precedes(a: string, b: string) {
    if b == "" then false
    else if a == "" then true
    else if a[0] != b[0] then a[0] < b[0]
    else Precedes(a[1..], b[1..])
  }

  lemma {:induction false} PrecedesTotal(a: string, b: string)
    ensures !Precedes(a, a)
    ensures a != b ==> Precedes(a, b) || Precedes(b, a)
  {
    if a == "" {
    } else {
      PrecedesTotal(a[1..], if b != "" then b[1..] else "");
      if b != "" && a[0] == b[0] && a[1..] == b[1..] {
        assert a == [a[0]] + a[1..] == b;
      }
    }
  }

  lemma {:induction false} PrecedesTransitive(a: string, b: string, c: string)
    requires Precedes(a, b) && Precedes(b, c)
    ensures Precedes(a, c)
  {
    if a == "" {
    } else if a[0] == b[0] && b[0] == c[0] {
      PrecedesTransitive(a[1..], b[1..], c[1..]);
    }
  }

  lemma PrecedesOrders(dom: set<string>)
    ensures StrictTotalOn(Precedes, dom)
  {
    forall a, b
      ensures !Precedes(a, a) && (a != b ==> Precedes(a, b) || Precedes(b, a))
    {
      PrecedesTotal(a, b);
    }
    forall a, b, c | Precedes(a, b) && Precedes(b, c)
      ensures Precedes(a, c)
    {
      PrecedesTransitive(a, b, c);
    }
  }

  /** The members of a list, each once, in text order. */
  function SortedDistinct(s: seq<string>): seq<string> {
    Sort(Precedes, Distinct(s))
  }

  lemma SortedDistinctMembers(s: seq<string>)
    ensures Elems(SortedDistinct(s)) == Elems(s) && SortedBy(Precedes, SortedDistinct(s))
  {
    DistinctElems(s);
    PrecedesOrders(Elems(Distinct(s)));
    SortSorts(Precedes, Distinct(s));
  }

  /** It depends only on which members there are. */
  lemma SortedDistinctCanonical(a: seq<string>, b: seq<string>)
    requires Elems(a) == Elems(b)
    ensures SortedDistinct(a) == SortedDistinct(b)
  {
    SortedDistinctMembers(a);
    SortedDistinctMembers(b);
    PrecedesOrders(Elems(SortedDistinct(a)));
    SortedUnique(Precedes, SortedDistinct(a), SortedDistinct(b));
  }
}
