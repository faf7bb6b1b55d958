/** Options, results and the sorting and counting facts that the other modules share. */
module Wrappers {

  datatype Option<+T> = None | Some(value: T)

  datatype Result<+T, +E> = Ok(value: T) | Err(error: E)
}

module Sorting {

  ghost predicate TotalPreorder<T(!new)>(le: (T, T) -> bool) {
    && (forall x, y :: le(x, y) || le(y, x))
    && (forall x, y, z :: le(x, y) && le(y, z) ==> le(x, z))
  }

  ghost predicate SortedBy<T>(le: (T, T) -> bool, s: seq<T>) {
    forall i, j :: 0 <= i < j < |s| ==> le(s[i], s[j])
  }

  method Insert<T(!new)>(le: (T, T) -> bool, x: T, s: seq<T>) returns (r: seq<T>)
    requires TotalPreorder(le) && SortedBy(le, s)
    ensures SortedBy(le, r)
    ensures multiset(r) == multiset(s) + multiset{x}
  {
    var k := 0;
    assert forall y: T :: !le(y, x) ==> le(x, y);
    while k < |s| && le(s[k], x)
      invariant 0 <= k <= |s|
      invariant forall i :: 0 <= i < k ==> le(s[i], x)
    {
      k := k + 1;
    }
    r := s[..k] + [x] + s[k..];
    InsertedAt(le, x, s, k);
    assert s == s[..k] + s[k..];
  }

  lemma InsertedAt<T(!new)>(le: (T, T) -> bool, x: T, s: seq<T>, k: nat)
    requires TotalPreorder(le) && SortedBy(le, s) && k <= |s|
    requires (forall i :: 0 <= i < k ==> le(s[i], x)) && (k < |s| ==> le(x, s[k]))
    ensures SortedBy(le, s[..k] + [x] + s[k..])
  {
    hide TotalPreorder, SortedBy;
    var front, back := s[..k], s[k..];
    SortedParts(le, s, k);
    forall j | 0 <= j < |back| ensures le(x, back[j]) {
      if j > 0 {
        SortedPair(le, back, 0, j);
        LeTransitive(le, x, back[0], back[j]);
      }
    }
    SortedOne(le, x);
    SortedConcat(le, front, [x]);
    SortedConcat(le, front + [x], back);
  }

  lemma SortedParts<T>(le: (T, T) -> bool, s: seq<T>, k: nat)
    requires SortedBy(le, s) && k <= |s|
    ensures s == s[..k] + s[k..] && SortedBy(le, s[..k]) && SortedBy(le, s[k..])
    ensures forall i, j :: 0 <= i < k <= j < |s| ==> le(s[i], s[j])
  {
  }

  lemma SortedPair<T>(le: (T, T) -> bool, s: seq<T>, i: nat, j: nat)
    requires SortedBy(le, s) && i < j < |s|
    ensures le(s[i], s[j])
  {
  }

  lemma SortedOne<T>(le: (T, T) -> bool, x: T)
    ensures SortedBy(le, [x])
  {
  }

  lemma SortedConcat<T>(le: (T, T) -> bool, a: seq<T>, b: seq<T>)
    requires SortedBy(le, a) && SortedBy(le, b)
    requires forall i, j :: 0 <= i < |a| && 0 <= j < |b| ==> le(a[i], b[j])
    ensures SortedBy(le, a + b)
  {
  }

  lemma LeTransitive<T(!new)>(le: (T, T) -> bool, x: T, y: T, z: T)
    requires TotalPreorder(le) && le(x, y) && le(y, z)
    ensures le(x, z)
  {
  }

  /** The library sort: some sorted permutation; nothing is said about the order of equal elements. */
  method Sort<T(!new)>(le: (T, T) -> bool, s: seq<T>) returns (r: seq<T>)
    requires TotalPreorder(le)
    ensures SortedBy(le, r)
    ensures multiset(r) == multiset(s)
  {
    r := [];
    for n := 0 to |s|
      invariant SortedBy(le, r)
      invariant multiset(r) == multiset(s[..n])
    {
      r := Insert(le, s[n], r);
      assert s[..n + 1] == s[..n] + [s[n]];
    }
    assert s[..|s|] == s;
  }

  lemma DistinctSnoc<T>(s: seq<T>, x: T)
    ensures Distinct(s + [x]) <==> Distinct(s) && x !in s
  {
    var r := s + [x];
    if Distinct(r) {
      forall i, j | 0 <= i < j < |s| ensures s[i] != s[j] {
        assert r[i] != r[j];
      }
      forall i | 0 <= i < |s| ensures s[i] != x {
        assert r[i] != r[|s|];
      }
    }
  }

  lemma DistinctTail<T>(s: seq<T>)
    requires s != [] && Distinct(s)
    ensures Distinct(s[1..]) && forall x :: x in s[1..] <==> x in s && x != s[0]
  {
    assert s == [s[0]] + s[1..];
    forall i, j | 0 <= i < j < |s[1..]| ensures s[1..][i] != s[1..][j] {
      assert s[i + 1] != s[j + 1];
    }
    forall i | 0 <= i < |s[1..]| ensures s[1..][i] != s[0] {
      assert s[0] != s[i + 1];
    }
  }

  lemma DistinctConcat<T>(s: seq<T>, r: seq<T>)
    requires Distinct(s) && Distinct(r) && forall x :: x in r ==> x !in s
    ensures Distinct(s + r)
  {
    forall i, j | 0 <= i < j < |s + r| ensures (s + r)[i] != (s + r)[j] {
      if i < |s| && j >= |s| {
        assert r[j - |s|] in r;
      }
    }
  }

  /** The last n at most. */
  function Last<T>(s: seq<T>, n: nat): seq<T> {
    if |s| > n then s[|s| - n..] else s
  }

  lemma LastSnoc<T>(s: seq<T>, x: T, n: nat)
    ensures Last(Last(s, n) + [x], n) == Last(s + [x], n)
    ensures |s| < n ==> Last(s, n) + [x] == Last(s + [x], n)
    ensures |s| >= n > 0 ==> Last(s, n)[1..] + [x] == Last(s + [x], n)
  {
  }

  function Without<T>(s: seq<T>, i: nat): (r: seq<T>)
    requires i < |s|
    ensures |r| == |s| - 1
  {
    s[..i] + s[i + 1..]
  }

  lemma WithoutCount<T>(s: seq<T>, i: nat)
    requires i < |s|
    ensures multiset(s) == multiset(Without(s, i)) + multiset{s[i]}
  {
    assert s == s[..i] + ([s[i]] + s[i + 1..]);
  }

  lemma WithoutMembers<T>(s: seq<T>, i: nat)
    requires i < |s| && Distinct(s)
    ensures Distinct(Without(s, i))
    ensures forall x :: x in Without(s, i) <==> x in s && x != s[i]
  {
    var r := Without(s, i);
    forall j, k | 0 <= j < k < |r| ensures r[j] != r[k] {
      assert s[if j < i then j else j + 1] != s[if k < i then k else k + 1];
    }
    forall x ensures x in r <==> x in s && x != s[i] {
      if x in r {
        var j :| 0 <= j < |r| && r[j] == x;
        assert s[if j < i then j else j + 1] == x;
      }
    }
  }

  /** Equal multisets mean equal length and equal membership. */
  lemma SamePermutation<T>(r: seq<T>, s: seq<T>)
    requires multiset(r) == multiset(s)
    ensures |r| == |s|
    ensures forall x :: x in r <==> x in s
  {
    assert |multiset(r)| == |r| && |multiset(s)| == |s|;
    assert forall x :: x in r <==> x in multiset(r);
    assert forall x :: x in s <==> x in multiset(s);
  }

  ghost predicate Distinct<T>(s: seq<T>) {
    forall i, j :: 0 <= i < j < |s| ==> s[i] != s[j]
  }

  ghost function Elements<T>(s: seq<T>): set<T> {
    set x | x in s
  }

  lemma ElementsSnoc<T>(s: seq<T>, x: T)
    ensures Elements(s + [x]) == Elements(s) + {x}
  {
  }

  lemma {:induction false} DistinctCount<T>(s: seq<T>)
    requires Distinct(s)
    ensures |Elements(s)| == |s|
  {
    if s == [] {
      assert Elements(s) == {};
    } else {
      var init, last := s[..|s| - 1], s[|s| - 1];
      DistinctCount(init);
      ElementsSnoc(init, last);
      assert s == init + [last];
      assert last !in Elements(init);
    }
  }

  lemma SubsetCount<T>(a: set<T>, b: set<T>)
    requires a <= b
    ensures |a| <= |b|
    ensures |a| == |b| ==> a == b
  {
    assert b == a + (b - a);
    assert |b| == |a| + |b - a|;
  }

  /** Pigeonhole: a sequence longer than the set it draws from repeats an element. */
  lemma Pigeonhole<T>(s: seq<T>, universe: set<T>)
    requires forall x :: x in s ==> x in universe
    requires |s| > |universe|
    ensures exists i, j :: 0 <= i < j < |s| && s[i] == s[j]
  {
    if Distinct(s) {
      DistinctCount(s);
      SubsetCount(Elements(s), universe);
    }
  }

  /** Distinct elements stay distinct in any permutation. */
  lemma DistinctPermutation<T>(r: seq<T>, s: seq<T>)
    requires multiset(r) == multiset(s) && Distinct(s)
    ensures Distinct(r)
  {
    forall i, j | 0 <= i < j < |r| ensures r[i] != r[j] {
      if r[i] == r[j] {
        DistinctMultiplicity(s, r[i]);
        RepeatedMultiplicity(r, i, j);
        assert false;
      }
    }
  }

  lemma RepeatedMultiplicity<T>(s: seq<T>, i: nat, j: nat)
    requires i < j < |s| && s[i] == s[j]
    ensures multiset(s)[s[i]] >= 2
  {
    assert s == s[..j] + ([s[j]] + s[j + 1..]);
    assert s[i] in s[..j];
  }

  lemma {:induction false} DistinctMultiplicity<T>(s: seq<T>, x: T)
    requires Distinct(s)
    ensures multiset(s)[x] <= 1
  {
    if s != [] {
      var init := s[..|s| - 1];
      assert s == init + [s[|s| - 1]];
      DistinctMultiplicity(init, x);
      if s[|s| - 1] == x {
        assert x !in init;
      }
    }
  }

  /** Go's order on strings: element by element. */
  predicate StringLe(a: string, b: string) {
    a == [] || (b != [] && (a[0] < b[0] || (a[0] == b[0] && StringLe(a[1..], b[1..]))))
  }

  lemma {:induction false} StringLeTotal(a: string, b: string)
    ensures StringLe(a, b) || StringLe(b, a)
    ensures StringLe(a, b) && StringLe(b, a) ==> a == b
  {
    if a != [] && b != [] && a[0] == b[0] {
      StringLeTotal(a[1..], b[1..]);
    }
  }

  lemma {:induction false} StringLeTransitive(a: string, b: string, c: string)
    requires StringLe(a, b) && StringLe(b, c)
    ensures StringLe(a, c)
  {
    if a != [] && a[0] == b[0] == c[0] {
      StringLeTransitive(a[1..], b[1..], c[1..]);
    }
  }

  lemma StringLePreorder()
    ensures TotalPreorder(StringLe)
  {
    forall a, b ensures StringLe(a, b) || StringLe(b, a) {
      StringLeTotal(a, b);
    }
    forall a, b, c | StringLe(a, b) && StringLe(b, c) ensures StringLe(a, c) {
      StringLeTransitive(a, b, c);
    }
  }

  /** In strictly ascending order. */
  ghost predicate Ascending(s: seq<string>) {
    SortedBy(StringLe, s) && Distinct(s)
  }

  lemma AscendingSnoc(s: seq<string>, x: string)
    requires Ascending(s) && forall y :: y in s ==> StringLe(y, x) && y != x
    ensures Ascending(s + [x])
  {
    DistinctSnoc(s, x);
    var r := s + [x];
    forall i, j | 0 <= i < j < |r| ensures StringLe(r[i], r[j]) {
      assert r[i] == s[i] && s[i] in s;
    }
  }

  /** What is among the first i comes before number i. */
  lemma AscendingBefore(s: seq<string>, i: nat)
    requires Ascending(s) && i < |s|
    ensures forall y :: y in s[..i] ==> StringLe(y, s[i]) && y != s[i]
  {
  }

  lemma {:induction false} AscendingUnique(a: seq<string>, b: seq<string>)
    requires Ascending(a) && Ascending(b) && forall x :: x in a <==> x in b
    ensures a == b
  {
    hide Ascending, StringLe;
    assert forall i :: 0 <= i < |a| ==> a[i] in b;
    assert forall i :: 0 <= i < |b| ==> b[i] in a;
    if a != [] && b != [] {
      AscendingFirst(a, b);
      AscendingFirst(b, a);
      StringLeTotal(a[0], b[0]);
      AscendingTail(a);
      AscendingTail(b);
      AscendingUnique(a[1..], b[1..]);
      Headed(a, b);
    }
  }

  lemma Headed<T>(a: seq<T>, b: seq<T>)
    requires a != [] && b != [] && a[0] == b[0] && a[1..] == b[1..]
    ensures a == b
  {
    assert a == [a[0]] + a[1..] && b == [b[0]] + b[1..];
  }

  lemma AscendingFirst(a: seq<string>, b: seq<string>)
    requires Ascending(a) && a != [] && b != [] && b[0] in a
    ensures StringLe(a[0], b[0])
  {
    var j :| 0 <= j < |a| && a[j] == b[0];
    StringLeTotal(a[0], a[0]);
    assert j > 0 ==> StringLe(a[0], a[j]);
  }

  lemma AscendingTail(s: seq<string>)
    requires s != [] && Ascending(s)
    ensures Ascending(s[1..]) && forall x :: x in s[1..] <==> x in s && x != s[0]
  {
    DistinctTail(s);
    forall i, j | 0 <= i < j < |s[1..]| ensures StringLe(s[1..][i], s[1..][j]) {
      assert StringLe(s[i + 1], s[j + 1]);
    }
  }

  method SortStrings(s: seq<string>) returns (r: seq<string>)
    ensures SortedBy(StringLe, r)
    ensures multiset(r) == multiset(s)
  {
    StringLePreorder();
    r := Sort(StringLe, s);
  }
}
