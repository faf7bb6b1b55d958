/** Splitting, joining and replacing as Go's strings package does it. */
module Texts {

  /** strings.Split by one character. */
  function Split(s: string, sep: char): (r: seq<string>)
    ensures |r| > 0
  {
    if s == [] then [[]] else Lead(s[0], Split(s[1..], sep), sep)
  }

  /** One more character before these segments. */
  function Lead(c: char, rest: seq<string>, sep: char): (r: seq<string>)
    requires |rest| > 0
    ensures |r| > 0
  {
    if c == sep then [[]] + rest else [[c] + rest[0]] + rest[1..]
  }

  /** strings.Join. */
  function Join(parts: seq<string>, sep: string): string {
    if parts == [] then [] else if |parts| == 1 then parts[0] else parts[0] + (sep + Join(parts[1..], sep))
  }

  /** strings.ReplaceAll, of one character by another. */
  function ReplaceChar(s: string, from: char, to: char): (r: string)
    ensures |r| == |s|
  {
    seq(|s|, i requires 0 <= i < |s| => if s[i] == from then to else s[i])
  }

  predicate Free(s: string, c: char) {
    forall i :: 0 <= i < |s| ==> s[i] != c
  }

  ghost predicate AllFree(parts: seq<string>, c: char) {
    forall i :: 0 <= i < |parts| ==> Free(parts[i], c)
  }

  lemma {:induction false} SplitNone(s: string, sep: char)
    ensures |Split(s, sep)| == 1 <==> Free(s, sep)
    ensures Free(s, sep) ==> Split(s, sep) == [s]
  {
    if s != [] {
      SplitNone(s[1..], sep);
      assert s == [s[0]] + s[1..];
    }
  }

  /** A separator between two texts splits them from each other. */
  lemma {:induction false} SplitAppend(a: string, b: string, sep: char)
    ensures Split(a + ([sep] + b), sep) == Split(a, sep) + Split(b, sep)
  {
    hide Lead;
    var s := a + ([sep] + b);
    if a == [] {
      assert s[1..] == b && s[0] == sep;
      LeadSeparator(Split(b, sep), sep);
    } else {
      SplitAppend(a[1..], b, sep);
      assert s[1..] == a[1..] + ([sep] + b);
      LeadAppend(a[0], Split(a[1..], sep), Split(b, sep), sep);
    }
  }

  lemma LeadSeparator(rest: seq<string>, sep: char)
    requires |rest| > 0
    ensures Lead(sep, rest, sep) == [[]] + rest
  {
  }

  lemma LeadAppend(c: char, r: seq<string>, more: seq<string>, sep: char)
    requires |r| > 0
    ensures Lead(c, r + more, sep) == Lead(c, r, sep) + more
  {
    if c != sep {
      assert (r + more)[1..] == r[1..] + more;
    }
  }

  function SplitAll(parts: seq<string>, sep: char): seq<string> {
    if parts == [] then [] else Split(parts[0], sep) + SplitAll(parts[1..], sep)
  }

  lemma {:induction false} SplitJoined(parts: seq<string>, sep: char)
    requires parts != []
    ensures Split(Join(parts, [sep]), sep) == SplitAll(parts, sep)
  {
    hide Split;
    if |parts| == 1 {
      assert SplitAll(parts[1..], sep) == [];
    } else {
      SplitAppend(parts[0], Join(parts[1..], [sep]), sep);
      SplitJoined(parts[1..], sep);
    }
  }

  /** Each part gives a segment at least, and exactly its own when no separator is in any of them. */
  lemma {:induction false} SplitAllCount(parts: seq<string>, sep: char)
    ensures |SplitAll(parts, sep)| >= |parts|
    ensures |SplitAll(parts, sep)| == |parts| <==> AllFree(parts, sep)
    ensures AllFree(parts, sep) ==> SplitAll(parts, sep) == parts
  {
    hide Split, Free;
    if parts != [] {
      SplitAllCount(parts[1..], sep);
      SplitNone(parts[0], sep);
      assert parts == [parts[0]] + parts[1..];
      assert AllFree(parts, sep) <==> Free(parts[0], sep) && AllFree(parts[1..], sep);
    }
  }

  /** Splitting undoes joining just when no part has the separator in it. */
  lemma SplitJoin(parts: seq<string>, sep: char)
    requires parts != []
    ensures Split(Join(parts, [sep]), sep) == parts <==> AllFree(parts, sep)
    ensures |Split(Join(parts, [sep]), sep)| == |parts| <==> AllFree(parts, sep)
  {
    hide *;
    SplitJoined(parts, sep);
    SplitAllCount(parts, sep);
  }

  lemma {:induction false} JoinSplit(s: string, sep: char)
    ensures Join(Split(s, sep), [sep]) == s && AllFree(Split(s, sep), sep)
  {
    if s != [] {
      hide Join, AllFree, Lead;
      JoinSplit(s[1..], sep);
      assert s == [s[0]] + s[1..];
      JoinLead(s[0], Split(s[1..], sep), sep);
    }
  }

  lemma JoinLead(c: char, rest: seq<string>, sep: char)
    requires |rest| > 0 && AllFree(rest, sep)
    ensures Join(Lead(c, rest, sep), [sep]) == [c] + Join(rest, [sep]) && AllFree(Lead(c, rest, sep), sep)
  {
    LeadFree(c, rest, sep);
    hide AllFree, Join;
    if c == sep {
      JoinCons([], rest, [sep]);
    } else {
      HeadTail(rest);
      JoinHead(c, rest[0], rest[1..], [sep]);
    }
  }

  lemma JoinHead(c: char, head: string, more: seq<string>, sep: string)
    ensures Join([[c] + head] + more, sep) == [c] + Join([head] + more, sep)
  {
    JoinCons([c] + head, more, sep);
    JoinCons(head, more, sep);
    hide Join;
    Assoc([c], head, sep + Join(more, sep));
  }

  lemma HeadTail<T>(s: seq<T>)
    requires s != []
    ensures s == [s[0]] + s[1..]
  {
  }

  lemma Assoc(a: string, b: string, c: string)
    ensures (a + b) + c == a + (b + c)
  {
  }

  lemma JoinCons(part: string, more: seq<string>, sep: string)
    ensures Join([part] + more, sep) == if more == [] then part else part + (sep + Join(more, sep))
  {
    assert ([part] + more)[1..] == more;
  }

  lemma LeadFree(c: char, rest: seq<string>, sep: char)
    requires |rest| > 0 && AllFree(rest, sep)
    ensures AllFree(Lead(c, rest, sep), sep)
  {
    assert Free(rest[0], sep);
    forall i | 0 <= i < |Lead(c, rest, sep)| ensures Free(Lead(c, rest, sep)[i], sep) {
      if c == sep {
        assert i > 0 ==> Lead(c, rest, sep)[i] == rest[i - 1];
      } else {
        assert i > 0 ==> Lead(c, rest, sep)[i] == rest[i];
      }
    }
  }

  /** Replacing a character and putting it back gives the text back just when the other was not in it before. */
  lemma ReplaceBack(s: string, from: char, to: char)
    requires from != to
    ensures ReplaceChar(ReplaceChar(s, from, to), to, from) == s <==> Free(s, to)
    ensures Free(ReplaceChar(s, from, to), from)
  {
    var r := ReplaceChar(ReplaceChar(s, from, to), to, from);
    if !Free(s, to) {
      var i :| 0 <= i < |s| && s[i] == to;
      assert r[i] == from;
    }
  }
}
