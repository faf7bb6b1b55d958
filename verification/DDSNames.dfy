/**
 * Type names as DDS has them, rosmsg.go 18-26 and transport/rmwzenoh/parse.go 77-83.
 */
module DDSNames {
  import opened Texts

  /** strings.Split by two colons, which looks for the first pair from the left. */
  function SplitPairs(s: string): (r: seq<string>)
    ensures |r| > 0
  {
    if s == [] then [[]]
    else if |s| >= 2 && s[0] == ':' && s[1] == ':' then [[]] + SplitPairs(s[2..])
    else Onto(s[0], SplitPairs(s[1..]))
  }

  /** One more character before the first segment. */
  function Onto(c: char, rest: seq<string>): (r: seq<string>)
    requires |rest| > 0
    ensures |r| == |rest|
  {
    [[c] + rest[0]] + rest[1..]
  }

  /** strings.ReplaceAll of two colons by a slash. */
  function ReplacePairs(s: string): string {
    if s == [] then []
    else if |s| >= 2 && s[0] == ':' && s[1] == ':' then ['/'] + ReplacePairs(s[2..])
    else [s[0]] + ReplacePairs(s[1..])
  }

  /** strings.ReplaceAll of a slash by two colons. */
  function ReplaceSlashes(s: string): string {
    if s == [] then [] else (if s[0] == '/' then "::" else [s[0]]) + ReplaceSlashes(s[1..])
  }

  predicate EndsWith(s: string, c: char) {
    s != [] && s[|s| - 1] == c
  }

  /** The DDS type name of an interface. */
  function DDSType(name: string): string {
    var parts := Split(name, '/');
    if |parts| != 3 then ReplaceSlashes(name) else parts[0] + "::" + parts[1] + "::dds_::" + parts[2] + "_"
  }

  /** Four segments as the convention has them. */
  predicate Conventional(parts: seq<string>) {
    |parts| == 4 && parts[2] == "dds_" && EndsWith(parts[3], '_')
  }

  /** The interface a DDS type name stands for. */
  function TypeFromDDS(dds: string): string {
    var parts := SplitPairs(dds);
    if Conventional(parts) then parts[0] + "/" + parts[1] + "/" + parts[3][..|parts[3]| - 1] else ReplacePairs(dds)
  }

  // ----- both as splitting and joining -----

  lemma {:induction false} ReplacePairsIsJoin(s: string)
    ensures ReplacePairs(s) == Join(SplitPairs(s), "/")
  {
    if s != [] {
      if |s| >= 2 && s[0] == ':' && s[1] == ':' {
        ReplacePairsIsJoin(s[2..]);
        assert ([[]] + SplitPairs(s[2..]))[1..] == SplitPairs(s[2..]);
      } else {
        ReplacePairsIsJoin(s[1..]);
        JoinOnto(s[0], SplitPairs(s[1..]), "/");
      }
    }
  }

  lemma JoinOnto(c: char, rest: seq<string>, sep: string)
    requires |rest| > 0
    ensures Join(Onto(c, rest), sep) == [c] + Join(rest, sep)
  {
    assert Onto(c, rest)[1..] == rest[1..];
  }

  lemma {:induction false} ReplaceSlashesIsJoin(s: string)
    ensures ReplaceSlashes(s) == Join(Split(s, '/'), "::")
  {
    if s != [] {
      var rest := Split(s[1..], '/');
      ReplaceSlashesIsJoin(s[1..]);
      if s[0] == '/' {
        assert ([[]] + rest)[1..] == rest;
        assert Join([[]] + rest, "::") == [] + ("::" + Join(rest, "::"));
      } else {
        assert Lead(s[0], rest, '/') == Onto(s[0], rest);
        JoinOnto(s[0], rest, "::");
      }
    }
  }

  /** The segments of the DDS name. */
  function Outward(parts: seq<string>): seq<string> {
    if |parts| == 3 then [parts[0], parts[1], "dds_", parts[2] + "_"] else parts
  }

  /** The segments of the interface name. */
  function Inward(parts: seq<string>): seq<string> {
    if Conventional(parts) then [parts[0], parts[1], parts[3][..|parts[3]| - 1]] else parts
  }

  lemma Join3(a: string, b: string, c: string, sep: string)
    ensures Join([a, b, c], sep) == a + (sep + (b + (sep + c)))
  {
    assert [a, b, c][1..] == [b, c] && [b, c][1..] == [c];
    assert Join([b, c], sep) == b + (sep + c);
  }

  lemma DDSTypeJoined(name: string)
    ensures DDSType(name) == Join(Outward(Split(name, '/')), "::")
  {
    hide Split;
    var p := Split(name, '/');
    if |p| == 3 {
      var out := [p[0], p[1], "dds_", p[2] + "_"];
      Join3(p[1], "dds_", p[2] + "_", "::");
      assert out[1..] == [p[1], "dds_", p[2] + "_"];
      assert Join(out, "::") == p[0] + ("::" + (p[1] + ("::" + ("dds_" + ("::" + (p[2] + "_"))))));
      assert "::" + ("dds_" + ("::" + (p[2] + "_"))) == "::dds_::" + (p[2] + "_");
    } else {
      ReplaceSlashesIsJoin(name);
    }
  }

  lemma TypeFromDDSJoined(dds: string)
    ensures TypeFromDDS(dds) == Join(Inward(SplitPairs(dds)), "/")
  {
    hide SplitPairs, ReplacePairs;
    var p := SplitPairs(dds);
    ReplacePairsIsJoin(dds);
    if Conventional(p) {
      Join3(p[0], p[1], p[3][..|p[3]| - 1], "/");
    }
  }

  // ----- where the two undo each other -----

  /** Two colons in a row, or a colon before a slash: text that splitting by colons cuts elsewhere. */
  predicate Misleading(s: string) {
    exists i :: 0 <= i < |s| - 1 && s[i] == ':' && (s[i + 1] == ':' || s[i + 1] == '/')
  }

  predicate Tidy(part: string, last: bool) {
    !Misleading(part) && Free(part, '/') && (last || !EndsWith(part, ':'))
  }

  ghost predicate AllTidy(parts: seq<string>) {
    forall i :: 0 <= i < |parts| ==> Tidy(parts[i], i == |parts| - 1)
  }

  lemma AllTidyCons(part: string, rest: seq<string>)
    requires rest != []
    ensures AllTidy([part] + rest) <==> Tidy(part, false) && AllTidy(rest)
  {
    hide Tidy;
    var all := [part] + rest;
    if AllTidy(all) {
      forall i | 0 <= i < |rest| ensures Tidy(rest[i], i == |rest| - 1) {
        assert Tidy(all[i + 1], i + 1 == |all| - 1);
      }
      assert Tidy(all[0], false);
    }
  }

  lemma MisleadingConcat(a: string, b: string)
    ensures Misleading(a + b) <==>
      Misleading(a) || Misleading(b) || (EndsWith(a, ':') && b != [] && (b[0] == ':' || b[0] == '/'))
  {
    var s := a + b;
    if i :| 0 <= i < |a| - 1 && a[i] == ':' && (a[i + 1] == ':' || a[i + 1] == '/') {
      assert s[i] == ':' && s[i + 1] == a[i + 1];
    }
    if i :| 0 <= i < |b| - 1 && b[i] == ':' && (b[i + 1] == ':' || b[i + 1] == '/') {
      assert s[|a| + i] == ':' && s[|a| + i + 1] == b[i + 1];
    }
    if EndsWith(a, ':') && b != [] && (b[0] == ':' || b[0] == '/') {
      assert s[|a| - 1] == ':' && s[|a|] == b[0];
    }
  }

  /** Joined by slashes, segments without slashes are misleading just when they are not tidy. */
  lemma {:induction false} MisleadingJoin(parts: seq<string>)
    requires parts != [] && AllFree(parts, '/')
    ensures Misleading(Join(parts, "/")) <==> !AllTidy(parts)
  {
    if |parts| == 1 {
      assert Free(parts[0], '/');
      assert AllTidy(parts) <==> Tidy(parts[0], true);
    } else {
      var rest := parts[1..];
      forall i | 0 <= i < |rest| ensures Free(rest[i], '/') {
        assert Free(parts[i + 1], '/');
      }
      assert Free(parts[0], '/') && parts == [parts[0]] + rest;
      MisleadingJoin(rest);
      AllTidyCons(parts[0], rest);
      MisleadingConcat(parts[0], "/" + Join(rest, "/"));
      MisleadingConcat("/", Join(rest, "/"));
    }
  }

  /** A tidy segment in front is cut off where it ends. */
  lemma {:induction false} SplitPairsFront(part: string, rest: string)
    requires Tidy(part, false)
    ensures SplitPairs(part + ("::" + rest)) == [part] + SplitPairs(rest)
  {
    var s := part + ("::" + rest);
    if part == [] {
      assert s[2..] == rest;
    } else {
      TidyTail(part, false);
      SplitPairsFront(part[1..], rest);
      assert s[1..] == part[1..] + ("::" + rest);
      assert part == [part[0]] + part[1..];
      TidyStart(part, rest);
      hide Tidy;
      assert SplitPairs(s) == Onto(s[0], SplitPairs(s[1..]));
      hide SplitPairs;
      OntoFront(part[0], part[1..], SplitPairs(rest));
    }
  }

  lemma TidyStart(part: string, rest: string)
    requires part != [] && Tidy(part, false)
    ensures var s := part + ("::" + rest); !(s[0] == ':' && s[1] == ':')
  {
    TidyTail(part, false);
  }

  lemma OntoFront(c: char, part: string, rest: seq<string>)
    ensures Onto(c, [part] + rest) == [[c] + part] + rest
  {
    assert ([part] + rest)[1..] == rest;
  }

  lemma TidyTail(part: string, last: bool)
    requires part != [] && Tidy(part, last)
    ensures Tidy(part[1..], last) && (|part| > 1 ==> !(part[0] == ':' && part[1] == ':'))
  {
    assert part == [part[0]] + part[1..];
    MisleadingConcat([part[0]], part[1..]);
    assert part[1..] != [] ==> part[1..][|part| - 2] == part[|part| - 1];
  }

  lemma {:induction false} SplitPairsLast(part: string)
    requires Tidy(part, true)
    ensures SplitPairs(part) == [part]
  {
    if part != [] {
      TidyTail(part, true);
      SplitPairsLast(part[1..]);
      assert part == [part[0]] + part[1..];
    }
  }

  /** Tidy segments, joined by colons, are what the split finds. */
  lemma {:induction false} SplitPairsJoin(parts: seq<string>)
    requires parts != [] && AllTidy(parts)
    ensures SplitPairs(Join(parts, "::")) == parts
  {
    if |parts| == 1 {
      assert Tidy(parts[0], true);
      SplitPairsLast(parts[0]);
    } else {
      assert parts == [parts[0]] + parts[1..];
      AllTidyCons(parts[0], parts[1..]);
      SplitPairsJoin(parts[1..]);
      SplitPairsFront(parts[0], Join(parts[1..], "::"));
    }
  }

  /** What the split finds is tidy always, as far as there was no slash before. */
  lemma {:induction false} SplitPairsTidy(s: string)
    requires Free(s, '/')
    ensures AllTidy(SplitPairs(s))
    ensures SplitPairs(s)[0] != [] ==> s != [] && SplitPairs(s)[0][0] == s[0]
    ensures SplitPairs(s)[0] == [] ==> s == [] || (|s| >= 2 && s[0] == ':' && s[1] == ':')
  {
    if s == [] {
      assert Tidy([], true);
    } else if |s| >= 2 && s[0] == ':' && s[1] == ':' {
      SplitPairsTidy(s[2..]);
      AllTidyCons([], SplitPairs(s[2..]));
    } else {
      SplitPairsTidy(s[1..]);
      OntoTidy(s, SplitPairs(s[1..]));
    }
  }

  lemma OntoTidy(s: string, rest: seq<string>)
    requires s != [] && s[0] != '/' && !(|s| >= 2 && s[0] == ':' && s[1] == ':')
    requires |rest| > 0 && AllTidy(rest)
    requires rest[0] != [] ==> |s| > 1 && rest[0][0] == s[1]
    requires rest[0] == [] ==> |s| == 1 || (|s| >= 3 && s[1] == ':' && s[2] == ':')
    requires |s| == 1 ==> |rest| == 1
    ensures AllTidy(Onto(s[0], rest))
  {
    var first := [s[0]] + rest[0];
    assert Tidy(rest[0], 0 == |rest| - 1);
    MisleadingConcat([s[0]], rest[0]);
    assert Onto(s[0], rest) == [first] + rest[1..];
    if |rest| > 1 {
      assert rest == [rest[0]] + rest[1..];
      AllTidyCons(rest[0], rest[1..]);
      AllTidyCons(first, rest[1..]);
    } else {
      assert Onto(s[0], rest) == [first];
    }
  }

  lemma {:induction false} JoinFree(parts: seq<string>, sep: string, c: char)
    requires AllFree(parts, c) && Free(sep, c)
    ensures Free(Join(parts, sep), c)
  {
    if |parts| > 1 {
      forall i | 0 <= i < |parts[1..]| ensures Free(parts[1..][i], c) {
        assert Free(parts[i + 1], c);
      }
      JoinFree(parts[1..], sep, c);
      assert Free(parts[0], c);
    } else if |parts| == 1 {
      assert Free(parts[0], c);
    }
  }

  lemma TidyFree(parts: seq<string>)
    requires AllTidy(parts)
    ensures AllFree(parts, '/')
  {
    forall i | 0 <= i < |parts| ensures Free(parts[i], '/') {
      assert Tidy(parts[i], i == |parts| - 1);
    }
  }

  lemma OutwardTidy(parts: seq<string>)
    requires AllTidy(parts)
    ensures AllTidy(Outward(parts))
  {
    if |parts| == 3 {
      assert Tidy(parts[0], false) && Tidy(parts[1], false) && Tidy(parts[2], true);
      MisleadingConcat(parts[2], "_");
      assert Tidy("dds_", false) && Tidy(parts[2] + "_", true);
    }
  }

  lemma OutwardFree(parts: seq<string>)
    requires AllFree(parts, '/')
    ensures AllFree(Outward(parts), '/')
  {
    if |parts| == 3 {
      assert Free(parts[0], '/') && Free(parts[1], '/') && Free(parts[2], '/');
    }
  }

  lemma InwardTidy(parts: seq<string>)
    requires AllTidy(parts)
    ensures AllTidy(Inward(parts))
  {
    if Conventional(parts) {
      var last := parts[3][..|parts[3]| - 1];
      assert Tidy(parts[0], false) && Tidy(parts[1], false) && Tidy(parts[3], true);
      assert parts[3] == last + "_";
      MisleadingConcat(last, "_");
      assert Tidy(last, true);
    }
  }

  lemma InwardOutward(parts: seq<string>)
    ensures Inward(Outward(parts)) == parts <==> !Conventional(parts)
  {
    if |parts| == 3 {
      assert (parts[2] + "_")[..|parts[2]|] == parts[2];
    }
  }

  lemma InwardCount(parts: seq<string>)
    ensures parts != [] ==> Inward(parts) != []
    ensures Conventional(parts) ==> |Inward(parts)| == 3
  {
  }

  /** A name that is not misleading comes back, but for four segments that look like the convention. */
  lemma TidyNameBack(name: string)
    requires !Misleading(name)
    ensures TypeFromDDS(DDSType(name)) == name <==> !Conventional(Split(name, '/'))
  {
    hide *;
    var parts := Split(name, '/');
    JoinSplit(name, '/');
    MisleadingJoin(parts);
    OutwardTidy(parts);
    DDSTypeJoined(name);
    OutwardSome(parts);
    SplitPairsJoin(Outward(parts));
    TypeFromDDSJoined(DDSType(name));
    InwardOutward(parts);
    if TypeFromDDS(DDSType(name)) == name {
      var back := Inward(Outward(parts));
      InwardTidy(Outward(parts));
      TidyFree(back);
      InwardCount(Outward(parts));
      SplitJoin(back, '/');
    }
  }

  lemma OutwardSome(parts: seq<string>)
    ensures parts != [] ==> Outward(parts) != []
  {
  }

  /** What the conversion back gives is never misleading. */
  lemma BackIsTidy(name: string)
    ensures !Misleading(TypeFromDDS(DDSType(name)))
  {
    hide *;
    var parts := Split(name, '/');
    JoinSplit(name, '/');
    OutwardFree(parts);
    DDSTypeJoined(name);
    assert Free("::", '/') by {
      PairFree();
    }
    JoinFree(Outward(parts), "::", '/');
    SplitPairsTidy(DDSType(name));
    var q := SplitPairs(DDSType(name));
    TypeFromDDSJoined(DDSType(name));
    InwardTidy(q);
    TidyFree(Inward(q));
    InwardCount(q);
    MisleadingJoin(Inward(q));
  }

  lemma PairFree()
    ensures Free("::", '/')
  {
  }

  /** The interface name comes back from its DDS name exactly if it has no colon before a colon or a slash, and
      does not have four segments that look like a DDS name already. */
  lemma DDSRoundTrip(name: string)
    ensures TypeFromDDS(DDSType(name)) == name <==> !Misleading(name) && !Conventional(Split(name, '/'))
  {
    hide *;
    BackIsTidy(name);
    if !Misleading(name) {
      TidyNameBack(name);
    }
  }
}
