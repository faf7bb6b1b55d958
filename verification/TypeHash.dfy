/**
 * The text that a RIHS01 hash is taken of, internal/msggen/typedesc.go: a type description in canonical JSON.
 */
module TypeHash {
  import opened Wrappers
  import opened Decimals
  import opened MsgGen

  // ----- strings in JSON -----

  function Hex(d: nat): (c: char)
    requires d < 16
  {
    "0123456789abcdef"[d]
  }

  /** Characters that become \u and four hex digits: controls, those that HTML gives meaning to, and two line ends. */
  predicate Coded(c: char) {
    c as int < 0x20 || c == '<' || c == '>' || c == '&' || c as int == 0x2028 || c as int == 0x2029
  }

  /** Characters that become a backslash and a letter, with that letter. */
  function Letter(c: char): Option<char> {
    if c == '\"' then Some('\"')
    else if c == '\\' then Some('\\')
    else if c == '\n' then Some('n')
    else if c == '\r' then Some('r')
    else if c == '\t' then Some('t')
    else if c as int == 8 then Some('b')
    else if c as int == 12 then Some('f')
    else None
  }

  function Escape(c: char): (s: string)
    ensures s != []
  {
    if Letter(c).Some? then ['\\', Letter(c).value]
    else if Coded(c) then
      var n := c as int;
      ['\\', 'u', Hex(n / 4096 % 16), Hex(n / 256 % 16), Hex(n / 16 % 16), Hex(n % 16)]
    else [c]
  }

  function Escaped(s: string): string {
    if s == [] then [] else Escape(s[0]) + Escaped(s[1..])
  }

  /** jsonString. */
  function Quoted(s: string): string {
    ['\"'] + Escaped(s) + ['\"']
  }

  lemma HexApart(a: nat, b: nat)
    requires a < 16 && b < 16 && Hex(a) == Hex(b)
    ensures a == b
  {
    assert Hex(a) == "0123456789abcdef"[a] && Hex(b) == "0123456789abcdef"[b];
  }

  lemma HexDigits(m: nat, n: nat)
    requires m < 65536 && n < 65536
    requires Hex(m / 4096 % 16) == Hex(n / 4096 % 16) && Hex(m / 256 % 16) == Hex(n / 256 % 16)
    requires Hex(m / 16 % 16) == Hex(n / 16 % 16) && Hex(m % 16) == Hex(n % 16)
    ensures m == n
  {
    HexApart(m / 4096 % 16, n / 4096 % 16);
    HexApart(m / 256 % 16, n / 256 % 16);
    HexApart(m / 16 % 16, n / 16 % 16);
    HexApart(m % 16, n % 16);
    Nibbles(m);
    Nibbles(n);
  }

  lemma Nibbles(m: nat)
    requires m < 65536
    ensures m == 4096 * (m / 4096 % 16) + 256 * (m / 256 % 16) + 16 * (m / 16 % 16) + m % 16
  {
    var a := m / 16;
    var b := a / 16;
    var c := b / 16;
    assert b == m / 256 && c == m / 4096;
    assert m == 16 * a + m % 16 && a == 16 * b + a % 16 && b == 16 * c + b % 16 && c % 16 == c;
  }

  /** The code of a character can be read from the front of a text, and is never a closing quote. */
  lemma EscapesApart(c: char, d: char, x: string, y: string)
    requires Escape(c) + x == Escape(d) + y
    ensures c == d && x == y
  {
    hide Hex;
    var s, t := Escape(c) + x, Escape(d) + y;
    assert s[0] == t[0] && x == s[|Escape(c)|..] && y == t[|Escape(d)|..];
    if s[0] == '\\' {
      assert s[1] == Escape(c)[1] && t[1] == Escape(d)[1];
      if s[1] == 'u' {
        assert s[2] == Escape(c)[2] == Escape(d)[2] && s[3] == Escape(c)[3] == Escape(d)[3];
        assert s[4] == Escape(c)[4] == Escape(d)[4] && s[5] == Escape(c)[5] == Escape(d)[5];
        HexDigits(c as int, d as int);
      }
    }
  }

  lemma EscapeStart(c: char)
    ensures Escape(c)[0] != '\"'
  {
  }

  lemma {:induction false} EscapedApart(a: string, b: string, x: string, y: string)
    requires Escaped(a) + (['\"'] + x) == Escaped(b) + (['\"'] + y)
    ensures a == b && x == y
  {
    hide Escape;
    if a == [] || b == [] {
      EscapedEnds(a, b, x, y);
    } else {
      EscapedFront(a, ['\"'] + x);
      EscapedFront(b, ['\"'] + y);
      EscapesApart(a[0], b[0], Escaped(a[1..]) + (['\"'] + x), Escaped(b[1..]) + (['\"'] + y));
      EscapedApart(a[1..], b[1..], x, y);
      assert a == [a[0]] + a[1..] && b == [b[0]] + b[1..];
    }
  }

  lemma EscapedFront(a: string, x: string)
    requires a != []
    ensures Escaped(a) + x == Escape(a[0]) + (Escaped(a[1..]) + x)
  {
  }

  lemma EscapedFirst(a: string, x: string)
    ensures (Escaped(a) + (['\"'] + x))[0] == '\"' <==> a == []
  {
    if a != [] {
      EscapedFront(a, ['\"'] + x);
      EscapeStart(a[0]);
    }
  }

  lemma EscapedEnds(a: string, b: string, x: string, y: string)
    requires (a == [] || b == []) && Escaped(a) + (['\"'] + x) == Escaped(b) + (['\"'] + y)
    ensures a == b && x == y
  {
    EscapedFirst(a, x);
    EscapedFirst(b, y);
    assert (Escaped(a) + (['\"'] + x))[1..] == x;
    assert (Escaped(b) + (['\"'] + y))[1..] == y;
  }

  lemma QuotedApart(a: string, b: string, x: string, y: string)
    requires Quoted(a) + x == Quoted(b) + y
    ensures a == b && x == y
  {
    hide Escaped;
    assert (Quoted(a) + x)[1..] == Escaped(a) + (['\"'] + x);
    assert (Quoted(b) + y)[1..] == Escaped(b) + (['\"'] + y);
    EscapedApart(a, b, x, y);
  }

  // ----- texts put together -----

  lemma Peel(p: string, x: string, y: string)
    requires p + x == p + y
    ensures x == y
  {
    assert x == (p + x)[|p|..] && y == (p + y)[|p|..];
  }

  /** One field, and whatever follows it. */
  function FieldThen(f: DescField, rest: string): string {
    "{\"name\": " + (Quoted(f.name) + (", \"type\": {\"type_id\": "
      + (Itoa(f.typeID) + (", \"capacity\": " + (Itoa(f.capacity)
    + (", \"string_capacity\": " + (Itoa(f.stringCapacity)
      + (", \"nested_type_name\": " + (Quoted(f.nested) + ("}}" + rest))))))))))
  }

  lemma FieldsApart(f: DescField, g: DescField, x: string, y: string)
    requires FieldThen(f, x) == FieldThen(g, y)
    ensures f == g && x == y
  {
    hide Quoted, Itoa;
    var f5 := ", \"nested_type_name\": " + (Quoted(f.nested) + ("}}" + x));
    var g5 := ", \"nested_type_name\": " + (Quoted(g.nested) + ("}}" + y));
    var f4 := ", \"string_capacity\": " + (Itoa(f.stringCapacity) + f5);
    var g4 := ", \"string_capacity\": " + (Itoa(g.stringCapacity) + g5);
    var f3, g3 := ", \"capacity\": " + (Itoa(f.capacity) + f4), ", \"capacity\": " + (Itoa(g.capacity) + g4);
    var f2 := ", \"type\": {\"type_id\": " + (Itoa(f.typeID) + f3);
    var g2 := ", \"type\": {\"type_id\": " + (Itoa(g.typeID) + g3);
    Peel("{\"name\": ", Quoted(f.name) + f2, Quoted(g.name) + g2);
    QuotedApart(f.name, g.name, f2, g2);
    Peel(", \"type\": {\"type_id\": ", Itoa(f.typeID) + f3, Itoa(g.typeID) + g3);
    NumbersApart(f.typeID, g.typeID, f3, g3);
    Peel(", \"capacity\": ", Itoa(f.capacity) + f4, Itoa(g.capacity) + g4);
    NumbersApart(f.capacity, g.capacity, f4, g4);
    Peel(", \"string_capacity\": ", Itoa(f.stringCapacity) + f5, Itoa(g.stringCapacity) + g5);
    NumbersApart(f.stringCapacity, g.stringCapacity, f5, g5);
    Peel(", \"nested_type_name\": ", Quoted(f.nested) + ("}}" + x), Quoted(g.nested) + ("}}" + y));
    QuotedApart(f.nested, g.nested, "}}" + x, "}}" + y);
    Peel("}}", x, y);
  }

  /** The end of a list, or the rest of it. */
  function MoreFields(fs: seq<DescField>, rest: string): string {
    if fs == [] then "]}" + rest else ", " + FieldThen(fs[0], MoreFields(fs[1..], rest))
  }

  function FieldsThen(fs: seq<DescField>, rest: string): string {
    if fs == [] then "]}" + rest else FieldThen(fs[0], MoreFields(fs[1..], rest))
  }

  function IndividualThen(ind: Individual, rest: string): string {
    "{\"type_name\": " + (Quoted(ind.typeName) + (", \"fields\": [" + FieldsThen(ind.fields, rest)))
  }

  function MoreTypes(ds: seq<Individual>, rest: string): string {
    if ds == [] then "]}" + rest else ", " + IndividualThen(ds[0], MoreTypes(ds[1..], rest))
  }

  function TypesThen(ds: seq<Individual>, rest: string): string {
    if ds == [] then "]}" + rest else IndividualThen(ds[0], MoreTypes(ds[1..], rest))
  }

  /** hashableJSON. */
  function Text(td: TypeDescription): string {
    "{\"type_description\": "
    + IndividualThen(td.individual, ", \"referenced_type_descriptions\": [" + TypesThen(td.referenced, ""))
  }

  lemma {:induction false} MoreFieldsApart(a: seq<DescField>, b: seq<DescField>, x: string, y: string)
    requires MoreFields(a, x) == MoreFields(b, y)
    ensures a == b && x == y
  {
    hide FieldThen;
    assert MoreFields(a, x)[0] == (if a == [] then ']' else ',')
      && MoreFields(b, y)[0] == (if b == [] then ']' else ',');
    if a == [] {
      Peel("]}", x, y);
    } else {
      Peel(", ", FieldThen(a[0], MoreFields(a[1..], x)), FieldThen(b[0], MoreFields(b[1..], y)));
      FieldsApart(a[0], b[0], MoreFields(a[1..], x), MoreFields(b[1..], y));
      MoreFieldsApart(a[1..], b[1..], x, y);
      assert a == [a[0]] + a[1..] && b == [b[0]] + b[1..];
    }
  }

  lemma FieldStart(f: DescField, x: string)
    ensures FieldThen(f, x) != [] && FieldThen(f, x)[0] == '{'
  {
    assert "{\"name\": "[0] == '{';
  }

  lemma FieldListsApart(a: seq<DescField>, b: seq<DescField>, x: string, y: string)
    requires FieldsThen(a, x) == FieldsThen(b, y)
    ensures a == b && x == y
  {
    hide FieldThen, MoreFields;
    if a != [] {
      FieldStart(a[0], MoreFields(a[1..], x));
    }
    if b != [] {
      FieldStart(b[0], MoreFields(b[1..], y));
    }
    assert FieldsThen(a, x)[0] == (if a == [] then ']' else '{')
      && FieldsThen(b, y)[0] == (if b == [] then ']' else '{');
    if a == [] {
      Peel("]}", x, y);
    } else {
      FieldsApart(a[0], b[0], MoreFields(a[1..], x), MoreFields(b[1..], y));
      MoreFieldsApart(a[1..], b[1..], x, y);
      assert a == [a[0]] + a[1..] && b == [b[0]] + b[1..];
    }
  }

  lemma IndividualsApart(a: Individual, b: Individual, x: string, y: string)
    requires IndividualThen(a, x) == IndividualThen(b, y)
    ensures a == b && x == y
  {
    hide Quoted, FieldsThen;
    var f, g := ", \"fields\": [" + FieldsThen(a.fields, x), ", \"fields\": [" + FieldsThen(b.fields, y);
    Peel("{\"type_name\": ", Quoted(a.typeName) + f, Quoted(b.typeName) + g);
    QuotedApart(a.typeName, b.typeName, f, g);
    Peel(", \"fields\": [", FieldsThen(a.fields, x), FieldsThen(b.fields, y));
    FieldListsApart(a.fields, b.fields, x, y);
  }

  lemma IndividualStart(d: Individual, x: string)
    ensures IndividualThen(d, x) != [] && IndividualThen(d, x)[0] == '{'
  {
    assert "{\"type_name\": "[0] == '{';
  }

  lemma {:induction false} MoreTypesApart(a: seq<Individual>, b: seq<Individual>, x: string, y: string)
    requires MoreTypes(a, x) == MoreTypes(b, y)
    ensures a == b && x == y
  {
    hide IndividualThen;
    assert MoreTypes(a, x)[0] == (if a == [] then ']' else ',') && MoreTypes(b, y)[0] == (if b == [] then ']' else ',');
    if a == [] {
      Peel("]}", x, y);
    } else {
      Peel(", ", IndividualThen(a[0], MoreTypes(a[1..], x)), IndividualThen(b[0], MoreTypes(b[1..], y)));
      IndividualsApart(a[0], b[0], MoreTypes(a[1..], x), MoreTypes(b[1..], y));
      MoreTypesApart(a[1..], b[1..], x, y);
      assert a == [a[0]] + a[1..] && b == [b[0]] + b[1..];
    }
  }

  lemma TypeListsApart(a: seq<Individual>, b: seq<Individual>, x: string, y: string)
    requires TypesThen(a, x) == TypesThen(b, y)
    ensures a == b && x == y
  {
    hide IndividualThen, MoreTypes;
    if a != [] {
      IndividualStart(a[0], MoreTypes(a[1..], x));
    }
    if b != [] {
      IndividualStart(b[0], MoreTypes(b[1..], y));
    }
    assert TypesThen(a, x)[0] == (if a == [] then ']' else '{') && TypesThen(b, y)[0] == (if b == [] then ']' else '{');
    if a == [] {
      Peel("]}", x, y);
    } else {
      IndividualsApart(a[0], b[0], MoreTypes(a[1..], x), MoreTypes(b[1..], y));
      MoreTypesApart(a[1..], b[1..], x, y);
      assert a == [a[0]] + a[1..] && b == [b[0]] + b[1..];
    }
  }

  /** The text that is hashed tells any two type descriptions apart, whatever names they have in them. */
  lemma TextInjective(a: TypeDescription, b: TypeDescription)
    ensures Text(a) == Text(b) <==> a == b
  {
    hide IndividualThen, TypesThen;
    if Text(a) == Text(b) {
      var x := ", \"referenced_type_descriptions\": [" + TypesThen(a.referenced, "");
      var y := ", \"referenced_type_descriptions\": [" + TypesThen(b.referenced, "");
      Peel("{\"type_description\": ", IndividualThen(a.individual, x), IndividualThen(b.individual, y));
      IndividualsApart(a.individual, b.individual, x, y);
      Peel(", \"referenced_type_descriptions\": [", TypesThen(a.referenced, ""), TypesThen(b.referenced, ""));
      TypeListsApart(a.referenced, b.referenced, "", "");
    }
  }

  // ----- the text as it is written -----

  /** A field is written without looking at what follows. */
  lemma FieldWritten(f: DescField, rest: string)
    ensures FieldThen(f, rest) == FieldThen(f, "") + rest
  {
    hide Quoted, Itoa;
    var q, r := Quoted(f.nested) + ("}}" + rest), Quoted(f.nested) + ("}}" + "");
    assert q == r + rest;
    var q1 := ", \"string_capacity\": " + (Itoa(f.stringCapacity) + (", \"nested_type_name\": " + q));
    var r1 := ", \"string_capacity\": " + (Itoa(f.stringCapacity) + (", \"nested_type_name\": " + r));
    assert q1 == r1 + rest;
    var q2, r2 := ", \"capacity\": " + (Itoa(f.capacity) + q1), ", \"capacity\": " + (Itoa(f.capacity) + r1);
    assert q2 == r2 + rest;
    var q3 := ", \"type\": {\"type_id\": " + (Itoa(f.typeID) + q2);
    var r3 := ", \"type\": {\"type_id\": " + (Itoa(f.typeID) + r2);
    assert q3 == r3 + rest;
  }

  /** What is left to write of a list of fields when i of them are written. */
  function FieldsLeft(fs: seq<DescField>, i: nat): string
    requires i <= |fs|
  {
    if i == 0 then FieldsThen(fs, "") else MoreFields(fs[i..], "")
  }

  lemma FieldsLeftNext(fs: seq<DescField>, i: nat)
    requires i < |fs|
    ensures FieldsLeft(fs, i) == (if i > 0 then ", " else "") + (FieldThen(fs[i], "") + FieldsLeft(fs, i + 1))
  {
    hide FieldThen;
    FieldWritten(fs[i], FieldsLeft(fs, i + 1));
    assert fs[i..][1..] == fs[i + 1..] && fs[0..] == fs;
  }

  /** writeIndividual. */
  method WriteIndividual(b: string, ind: Individual) returns (out: string)
    ensures out == b + IndividualThen(ind, "")
  {
    hide Quoted, FieldThen, FieldsThen;
    ghost var whole := b + IndividualThen(ind, "");
    out := b + "{\"type_name\": ";
    out := out + Quoted(ind.typeName);
    out := out + ", \"fields\": [";
    for i := 0 to |ind.fields|
      invariant out + FieldsLeft(ind.fields, i) == whole
    {
      FieldsLeftNext(ind.fields, i);
      if i > 0 {
        out := out + ", ";
      }
      out := out + FieldThen(ind.fields[i], "");
    }
    FieldsDone(ind.fields);
    out := out + "]}";
  }

  lemma FieldsDone(fs: seq<DescField>)
    ensures FieldsLeft(fs, |fs|) == "]}"
  {
    assert fs[|fs|..] == [] && "]}" + "" == "]}";
  }

  lemma {:induction false} FieldsWritten(fs: seq<DescField>, rest: string)
    ensures MoreFields(fs, rest) == MoreFields(fs, "") + rest
    ensures FieldsThen(fs, rest) == FieldsThen(fs, "") + rest
  {
    hide FieldThen;
    if fs == [] {
      assert "]}" + rest == ("]}" + "") + rest;
    } else {
      FieldsWritten(fs[1..], rest);
      FieldWritten(fs[0], MoreFields(fs[1..], rest));
      FieldWritten(fs[0], MoreFields(fs[1..], ""));
      assert ", " + (FieldThen(fs[0], "") + (MoreFields(fs[1..], "") + rest)) ==
        (", " + (FieldThen(fs[0], "") + MoreFields(fs[1..], ""))) + rest;
    }
  }

  lemma IndividualWritten(d: Individual, rest: string)
    ensures IndividualThen(d, rest) == IndividualThen(d, "") + rest
  {
    hide Quoted, FieldsThen;
    FieldsWritten(d.fields, rest);
  }

  function TypesLeft(ds: seq<Individual>, i: nat): string
    requires i <= |ds|
  {
    if i == 0 then TypesThen(ds, "") else MoreTypes(ds[i..], "")
  }

  lemma TypesLeftNext(ds: seq<Individual>, i: nat)
    requires i < |ds|
    ensures TypesLeft(ds, i) == (if i > 0 then ", " else "") + (IndividualThen(ds[i], "") + TypesLeft(ds, i + 1))
  {
    hide IndividualThen;
    IndividualWritten(ds[i], TypesLeft(ds, i + 1));
    assert ds[i..][1..] == ds[i + 1..] && ds[0..] == ds;
  }

  lemma TypesStart(ds: seq<Individual>)
    ensures TypesLeft(ds, 0) == TypesThen(ds, "")
  {
  }

  lemma TypesDone(ds: seq<Individual>)
    ensures TypesLeft(ds, |ds|) == "]}"
  {
    assert ds[|ds|..] == [] && "]}" + "" == "]}";
  }

  /** hashableJSON. */
  method HashableJSON(td: TypeDescription) returns (out: string)
    ensures out == Text(td)
  {
    hide IndividualThen, TypesThen, TypesLeft;
    TypesStart(td.referenced);
    IndividualWritten(td.individual, ", \"referenced_type_descriptions\": [" + TypesThen(td.referenced, ""));
    out := "{\"type_description\": ";
    out := WriteIndividual(out, td.individual);
    out := out + ", \"referenced_type_descriptions\": [";
    for i := 0 to |td.referenced|
      invariant out + TypesLeft(td.referenced, i) == Text(td)
    {
      TypesLeftNext(td.referenced, i);
      if i > 0 {
        out := out + ", ";
      }
      out := WriteIndividual(out, td.referenced[i]);
    }
    TypesDone(td.referenced);
    out := out + "]}";
  }
}
