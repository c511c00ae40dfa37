/** Strictly sorted sequences.  A strict total order has exactly one sorted
    arrangement of a given set, so whatever algorithm a library sort uses, its
    answer on distinct elements is the sequence described here. */
module Orders {

  /** The elements of a sequence, without order or multiplicity. */
  function Elems<T(==)>(s: seq<T>): set<T> {
    set x | x in s
  }

  ghost predicate NoDuplicates<T>(s: seq<T>) {
    forall i, j :: 0 <= i < j < |s| ==> s[i] != s[j]
  }

  /** First occurrences, in order. */
  function Distinct<T(==)>(s: seq<T>): seq<T> {
    if s == [] then []
    else
      var k := |s| - 1;
      if s[k] in s[..k] then Distinct(s[..k]) else Distinct(s[..k]) + [s[k]]
  }

  lemma {:induction false} DistinctElems<T>(s: seq<T>)
    ensures Elems(Distinct(s)) == Elems(s) && NoDuplicates(Distinct(s))
  {
    if s == [] {
    } else {
      var k := |s| - 1;
      DistinctElems(s[..k]);
      assert s == s[..k] + [s[k]];
      var d := Distinct(s[..k]);
      assert forall x :: x in d <==> x in Elems(d);
      assert forall x :: x in s[..k] <==> x in Elems(s[..k]);
      assert Elems(s) == Elems(s[..k]) + {s[k]};
      assert Elems(Distinct(s)) == Elems(d) + {s[k]};
    }
  }

  lemma {:induction false} SubsetSize<T>(a: set<T>, b: set<T>)
    requires a <= b
    ensures |a| <= |b| && (a != b ==> |a| < |b|)
  {
    if a == {} {
    } else {
      var x :| x in a;
      SubsetSize(a - {x}, b - {x});
    }
  }

  /** "lt" orders the members of "dom" strictly and totally. */
  ghost predicate StrictTotalOn<T>(lt: (T, T) -> bool, dom: set<T>) {
    && (forall x :: x in dom ==> !lt(x, x))
    && (forall x, y :: x in dom && y in dom && x != y ==> lt(x, y) || lt(y, x))
    && (forall x, y, z :: x in dom && y in dom && z in dom && lt(x, y) && lt(y, z) ==> lt(x, z))
  }

  ghost predicate SortedBy<T>(lt: (T, T) -> bool, s: seq<T>) {
    forall i, j :: 0 <= i < j < |s| ==> lt(s[i], s[j])
  }

  function Insert<T>(lt: (T, T) -> bool, x: T, s: seq<T>): seq<T> {
    if s == [] then [x]
    else if lt(x, s[0]) then [x] + s
    else [s[0]] + Insert(lt, x, s[1..])
  }

  function Sort<T>(lt: (T, T) -> bool, s: seq<T>): seq<T> {
    if s == [] then [] else Insert(lt, s[0], Sort(lt, s[1..]))
  }

  lemma ElemsOfCons<T>(x: T, s: seq<T>)
    ensures Elems([x] + s) == {x} + Elems(s)
  {
  }

  lemma {:induction false} InsertElems<T>(lt: (T, T) -> bool, x: T, s: seq<T>)
    ensures Elems(Insert(lt, x, s)) == {x} + Elems(s) && |Insert(lt, x, s)| == |s| + 1
  {
    ElemsOfCons(x, s);
    if s == [] {
    } else {
      var first, rest := s[0], s[1..];
      assert s == [first] + rest;
      InsertElems(lt, x, rest);
      ElemsOfCons(first, rest);
      ElemsOfCons(first, Insert(lt, x, rest));
    }
  }

  lemma PrependSorted<T>(lt: (T, T) -> bool, x: T, s: seq<T>)
    requires SortedBy(lt, s) && forall y :: y in Elems(s) ==> lt(x, y)
    ensures SortedBy(lt, [x] + s)
  {
    var r := [x] + s;
    forall i, j | 0 <= i < j < |r|
      ensures lt(r[i], r[j])
    {
      assert r[j] == s[j - 1] && s[j - 1] in Elems(s);
      assert i > 0 ==> r[i] == s[i - 1];
    }
  }

  /** The head of a sorted sequence is its least element. */
  lemma HeadIsLeast<T>(lt: (T, T) -> bool, s: seq<T>, x: T)
    requires SortedBy(lt, s) && x in Elems(s)
    ensures s != [] && (s[0] == x || lt(s[0], x))
  {
    var i :| 0 <= i < |s| && s[i] == x;
  }

  lemma InsertFirst<T>(lt: (T, T) -> bool, x: T, s: seq<T>)
    requires StrictTotalOn(lt, {x} + Elems(s)) && s != [] && SortedBy(lt, s) && lt(x, s[0])
    ensures SortedBy(lt, [x] + s)
  {
    forall y | y in Elems(s)
      ensures lt(x, y)
    {
      HeadIsLeast(lt, s, y);
      assert s[0] in Elems(s);
    }
    PrependSorted(lt, x, s);
  }

  lemma SubTotal<T>(lt: (T, T) -> bool, dom: set<T>, sub: set<T>)
    requires StrictTotalOn(lt, dom) && sub <= dom
    ensures StrictTotalOn(lt, sub)
  {
  }

  lemma {:induction false} InsertSorted<T>(lt: (T, T) -> bool, x: T, s: seq<T>)
    requires StrictTotalOn(lt, {x} + Elems(s)) && x !in s && SortedBy(lt, s)
    ensures SortedBy(lt, Insert(lt, x, s))
  {
    if s == [] {
    } else if lt(x, s[0]) {
      InsertFirst(lt, x, s);
    } else {
      var first, rest := s[0], s[1..];
      assert s == [first] + rest && first in Elems(s) && x in {x} + Elems(s);
      assert lt(first, x);
      SubTotal(lt, {x} + Elems(s), {x} + Elems(rest));
      InsertSorted(lt, x, rest);
      InsertElems(lt, x, rest);
      forall y | y in Elems(rest)
        ensures lt(first, y)
      {
        var k :| 0 <= k < |rest| && rest[k] == y;
        assert s[k + 1] == y;
      }
      PrependSorted(lt, first, Insert(lt, x, rest));
    }
  }

  /** Sorting distinct elements rearranges them into the sorted order. */
  lemma {:induction false} SortSorts<T>(lt: (T, T) -> bool, s: seq<T>)
    requires StrictTotalOn(lt, Elems(s)) && NoDuplicates(s)
    ensures SortedBy(lt, Sort(lt, s))
    ensures Elems(Sort(lt, s)) == Elems(s)
    ensures |Sort(lt, s)| == |s|
  {
    if s == [] {
    } else {
      assert s == [s[0]] + s[1..];
      assert Elems(s) == {s[0]} + Elems(s[1..]);
      SortSorts(lt, s[1..]);
      var rest := Sort(lt, s[1..]);
      assert s[0] !in Elems(rest);
      InsertSorted(lt, s[0], rest);
      InsertElems(lt, s[0], rest);
    }
  }

  lemma NoElems<T>(s: seq<T>)
    ensures Elems(s) == {} <==> s == []
  {
    if s != [] {
      assert s[0] in Elems(s);
    }
  }

  /** No two members of "dom" come before each other. */
  ghost predicate Asymmetric<T>(lt: (T, T) -> bool, dom: set<T>) {
    forall x, y :: x in dom && y in dom && lt(x, y) ==> !lt(y, x)
  }

  lemma SameHead<T>(lt: (T, T) -> bool, a: seq<T>, b: seq<T>)
    requires a != [] && Asymmetric(lt, Elems(a)) && SortedBy(lt, a) && SortedBy(lt, b) && Elems(a) == Elems(b)
    ensures b != [] && a[0] == b[0]
  {
    assert a[0] in Elems(a);
    HeadIsLeast(lt, b, a[0]);
    assert b[0] in Elems(b);
    HeadIsLeast(lt, a, b[0]);
  }

  lemma {:induction false} AsymmetricUnique<T>(lt: (T, T) -> bool, a: seq<T>, b: seq<T>)
    requires Asymmetric(lt, Elems(a)) && SortedBy(lt, a) && SortedBy(lt, b) && Elems(a) == Elems(b)
    ensures a == b
  {
    NoElems(a);
    NoElems(b);
    if a == [] {
    } else {
      SameHead(lt, a, b);
      TailElems(lt, a);
      TailElems(lt, b);
      AsymmetricUnique(lt, a[1..], b[1..]);
      assert a == [a[0]] + a[1..] && b == [b[0]] + b[1..];
    }
  }

  /** A set has one sorted arrangement. */
  lemma SortedUnique<T>(lt: (T, T) -> bool, a: seq<T>, b: seq<T>)
    requires StrictTotalOn(lt, Elems(a))
    requires SortedBy(lt, a) && SortedBy(lt, b) && Elems(a) == Elems(b)
    ensures a == b
  {
    TotalIsAsymmetric(lt, Elems(a));
    AsymmetricUnique(lt, a, b);
  }

  lemma TotalIsAsymmetric<T>(lt: (T, T) -> bool, dom: set<T>)
    requires StrictTotalOn(lt, dom)
    ensures Asymmetric(lt, dom)
  {
  }

  lemma TailElems<T>(lt: (T, T) -> bool, s: seq<T>)
    requires s != [] && Asymmetric(lt, Elems(s)) && SortedBy(lt, s)
    ensures Elems(s[1..]) == Elems(s) - {s[0]}
  {
    assert s == [s[0]] + s[1..];
    forall k | 0 < k < |s|
      ensures s[k] != s[0]
    {
      assert s[0] in Elems(s) && lt(s[0], s[k]);
    }
  }

  /** The last "n" elements, or all of them when there are fewer: JavaScript's slice(-n) for n > 0. */
  function Last<T>(s: seq<T>, n: nat): (r: seq<T>)
    ensures |r| == if |s| <= n then |s| else n
  {
    if |s| <= n then s else s[|s| - n..]
  }

  /** In a sorted sequence the last "n" elements are the "n" greatest ones. */
  lemma LastAreGreatest<T>(lt: (T, T) -> bool, s: seq<T>, n: nat)
    requires SortedBy(lt, s)
    ensures SortedBy(lt, Last(s, n))
    ensures forall x, y :: x in s && x !in Last(s, n) && y in Last(s, n) ==> lt(x, y)
  {
    var r := Last(s, n);
    var d := |s| - |r|;
    assert r == s[d..];
    forall x, y | x in s && x !in r && y in r
      ensures lt(x, y)
    {
      var i :| 0 <= i < |s| && s[i] == x;
      var j :| 0 <= j < |r| && r[j] == y;
      assert forall k :: 0 <= k < |r| ==> r[k] == s[d + k];
      assert forall k :: d <= k < |s| ==> s[k] == r[k - d];
      assert i < d;
    }
  }
}
