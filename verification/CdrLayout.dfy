/**
 * Two readings of the encoding that do not follow the nesting of types: the condition for survival
 * over a schema, and the flat sequence of aligned primitives.
 */
module CdrLayout {
  import opened Wrappers
  import opened CdrSpec
  import opened CdrProofs

  // ----- schemas on which survival is a matter of the leaves -----

  /** Every value of the type takes at least one byte. */
  predicate HasBytes(t: Type) {
    match t
    case Array(n, elem) => n > 0 && HasBytes(elem)
    case Struct(fields) => exists i :: 0 <= i < |fields| && HasBytes(fields[i])
    case Unsupported => false
    case _ => true
  }

  /** Every sequence has elements of at least one byte. */
  predicate Regular(t: Type) {
    match t
    case Slice(elem) => HasBytes(elem) && Regular(elem)
    case Array(n, elem) => Regular(elem)
    case Struct(fields) => forall i :: 0 <= i < |fields| ==> Regular(fields[i])
    case _ => true
  }

  /** Every stamp, duration, string and sequence in v fits the wire format. */
  ghost predicate Representable(t: Type, v: Value)
    requires Encodable(t, v)
  {
    match t
    case String => |v.s| + 1 < Base(W4)
    case Time => FaithfulTime(v)
    case Duration => FaithfulDuration(v.ns)
    case Slice(elem) => |v.vs| < Base(W4) && forall x :: x in v.vs ==> Representable(elem, x)
    case Array(n, elem) => forall x :: x in v.vs ==> Representable(elem, x)
    case Struct(fields) => forall i :: 0 <= i < |fields| ==> Representable(fields[i], v.vs[i])
    case _ => true
  }

  lemma {:induction false} EncodeNonempty(t: Type, v: Value, off: nat)
    requires Encodable(t, v) && HasBytes(t)
    ensures Encode(t, v, off) != []
    decreases t, 0
  {
    match t
    case Array(n, elem) => ElemsCount(elem, v.vs, off);
    case Struct(fields) =>
      var i :| 0 <= i < |fields| && HasBytes(fields[i]);
      FieldsNonempty(fields, v.vs, off, i);
    case _ =>
  }

  lemma {:induction false} ElemsCount(elem: Type, vs: seq<Value>, off: nat)
    requires HasBytes(elem) && forall x :: x in vs ==> Encodable(elem, x)
    ensures |EncodeElems(elem, vs, off)| >= |vs|
    decreases elem, |vs| + 1
  {
    hide Encode;
    hide Encodable;
    if vs != [] {
      EncodeNonempty(elem, vs[0], off);
      ElemsCount(elem, vs[1..], off + |Encode(elem, vs[0], off)|);
    }
  }

  lemma {:induction false} FieldsNonempty(fields: seq<Type>, vs: seq<Value>, off: nat, i: nat)
    requires |fields| == |vs| && forall i :: 0 <= i < |fields| ==> Encodable(fields[i], vs[i])
    requires i < |fields| && HasBytes(fields[i])
    ensures EncodeFields(fields, vs, off) != []
    decreases fields, 0
  {
    hide Encode;
    hide Encodable;
    if i == 0 {
      EncodeNonempty(fields[0], vs[0], off);
    } else {
      FieldsNonempty(fields[1..], vs[1..], off + |Encode(fields[0], vs[0], off)|, i - 1);
    }
  }

  /** Over a regular schema a value survives wherever it is placed, exactly when it is representable. */
  lemma {:induction false} RegularFaithful(t: Type, v: Value, off: nat, total: nat)
    requires Encodable(t, v) && Regular(t)
    requires off + |Encode(t, v, off)| <= total
    ensures Faithful(t, v, off, total) <==> Representable(t, v)
    decreases t, 0
  {
    hide EncodeUint, EncodePair, EncodeElems, EncodeFields, FaithfulElems, FaithfulFields, FaithfulTime,
      FaithfulDuration, HasBytes, Wrap;
    match t
    case Slice(elem) =>
      var at := off + |EncodeUint(W4, Wrap(W4, |v.vs|), off)|;
      ElemsCount(elem, v.vs, at);
      RegularElems(elem, v.vs, at, total);
    case Array(n, elem) => RegularElems(elem, v.vs, off, total);
    case Struct(fields) => RegularFields(fields, v.vs, off, total);
    case _ =>
  }

  lemma {:induction false} RegularElems(elem: Type, vs: seq<Value>, off: nat, total: nat)
    requires forall x :: x in vs ==> Encodable(elem, x)
    requires Regular(elem) && off + |EncodeElems(elem, vs, off)| <= total
    ensures FaithfulElems(elem, vs, off, total) <==> forall x :: x in vs ==> Representable(elem, x)
    decreases elem, |vs| + 1
  {
    hide Encode;
    hide Encodable;
    hide Faithful;
    hide Representable;
    if vs != [] {
      var mid := off + |Encode(elem, vs[0], off)|;
      RegularFaithful(elem, vs[0], off, total);
      RegularElems(elem, vs[1..], mid, total);
      assert vs == [vs[0]] + vs[1..];
    }
  }

  lemma {:induction false} RegularFields(fields: seq<Type>, vs: seq<Value>, off: nat, total: nat)
    requires |fields| == |vs| && forall i :: 0 <= i < |fields| ==> Encodable(fields[i], vs[i])
    requires (forall i :: 0 <= i < |fields| ==> Regular(fields[i])) && off + |EncodeFields(fields, vs, off)| <= total
    ensures FaithfulFields(fields, vs, off, total) <==> forall i :: 0 <= i < |fields| ==>
      Representable(fields[i], vs[i])
    decreases fields, 0
  {
    hide Encode;
    hide Encodable;
    hide Faithful;
    hide Representable;
    if vs != [] {
      var mid := off + |Encode(fields[0], vs[0], off)|;
      RegularFaithful(fields[0], vs[0], off, total);
      RegularFields(fields[1..], vs[1..], mid, total);
      if forall i :: 0 <= i < |fields[1..]| ==> Representable(fields[1..][i], vs[1..][i]) {
        forall i | 1 <= i < |fields| ensures Representable(fields[i], vs[i]) {
          assert Representable(fields[1..][i - 1], vs[1..][i - 1]);
        }
      } else {
        var i :| 0 <= i < |fields[1..]| && !Representable(fields[1..][i], vs[1..][i]);
        assert !Representable(fields[i + 1], vs[i + 1]);
      }
    }
  }

  // ----- the flat layout -----

  /** A primitive of the wire format: its width and its bits. */
  datatype Prim = Prim(w: Width, x: nat)

  function Octets(s: seq<byte>): (r: seq<Prim>)
    ensures |r| == |s|
  {
    if s == [] then [] else [Prim(W1, s[0])] + Octets(s[1..])
  }

  /** The primitives of a value, in order, whatever the nesting. */
  function Prims(t: Type, v: Value): seq<Prim>
    requires Encodable(t, v)
    decreases t, 0
  {
    match t
    case Bool => [Prim(W1, if v.b then 1 else 0)]
    case Signed(w) => [Prim(w, Wrap(w, v.i))]
    case Unsigned(w) => [Prim(w, v.i)]
    case Float(w) => [Prim(w, v.i)]
    case String => [Prim(W4, Wrap(W4, |v.s| + 1))] + (Octets(v.s) + [Prim(W1, 0)])
    case Time =>
      if IsZeroTime(v) then [Prim(W4, 0), Prim(W4, 0)] else [Prim(W4, Wrap(W4, v.sec)), Prim(W4, v.nsec)]
    case Duration => [Prim(W4, Wrap(W4, Seconds(v.ns))), Prim(W4, Wrap(W4, Nanos(v.ns)))]
    case Slice(elem) => [Prim(W4, Wrap(W4, |v.vs|))] + ElemPrims(elem, v.vs)
    case Array(n, elem) => ElemPrims(elem, v.vs)
    case Struct(fields) => FieldPrims(fields, v.vs)
  }

  function ElemPrims(elem: Type, vs: seq<Value>): seq<Prim>
    requires forall x :: x in vs ==> Encodable(elem, x)
    decreases elem, |vs| + 1
  {
    if vs == [] then [] else Prims(elem, vs[0]) + ElemPrims(elem, vs[1..])
  }

  function FieldPrims(fields: seq<Type>, vs: seq<Value>): seq<Prim>
    requires |fields| == |vs| && forall i :: 0 <= i < |fields| ==> Encodable(fields[i], vs[i])
    decreases fields, 0
  {
    if vs == [] then [] else Prims(fields[0], vs[0]) + FieldPrims(fields[1..], vs[1..])
  }

  /** Primitives one after another, each aligned to its own size. */
  function Lay(ps: seq<Prim>, off: nat): seq<byte> {
    if ps == [] then []
    else
      var first := EncodeUint(ps[0].w, ps[0].x, off);
      first + Lay(ps[1..], off + |first|)
  }

  /** Where the bytes of each primitive begin. */
  function Starts(ps: seq<Prim>, off: nat): (r: seq<nat>)
    ensures |r| == |ps|
  {
    if ps == [] then []
    else [off + Gap(off, Size(ps[0].w))] + Starts(ps[1..], off + |EncodeUint(ps[0].w, ps[0].x, off)|)
  }

  lemma {:induction false} LayConcat(ps: seq<Prim>, qs: seq<Prim>, off: nat)
    ensures Lay(ps + qs, off) == Lay(ps, off) + Lay(qs, off + |Lay(ps, off)|)
    decreases |ps|
  {
    hide EncodeUint;
    if ps == [] {
      assert ps + qs == qs;
    } else {
      var first := EncodeUint(ps[0].w, ps[0].x, off);
      LayConcat(ps[1..], qs, off + |first|);
      assert (ps + qs)[1..] == ps[1..] + qs;
    }
  }

  lemma {:induction false} LayOctets(s: seq<byte>, off: nat)
    ensures Lay(Octets(s), off) == s
    decreases |s|
  {
    if s != [] {
      LayOctets(s[1..], off + 1);
      LayByte(s[0], off);
    }
  }

  lemma LayByte(x: byte, off: nat)
    ensures EncodeUint(W1, x, off) == [x]
  {
    assert LittleEndian(x, 1) == [x % 256] + LittleEndian(x / 256, 0);
  }

  lemma LayOne(p: Prim, off: nat)
    ensures Lay([p], off) == EncodeUint(p.w, p.x, off)
  {
    hide EncodeUint;
    assert [p][1..] == [];
  }

  lemma LayTwo(x: nat, y: nat, off: nat)
    ensures Lay([Prim(W4, x), Prim(W4, y)], off) == EncodePair(x, y, off)
  {
    hide EncodeUint;
    assert [Prim(W4, x), Prim(W4, y)][1..] == [Prim(W4, y)];
    LayOne(Prim(W4, y), off + |EncodeUint(W4, x, off)|);
  }

  lemma LayString(s: seq<byte>, off: nat)
    ensures Lay(Prims(String, VString(s)), off) == Encode(String, VString(s), off)
  {
    hide EncodeUint;
    hide Lay;
    hide Wrap;
    StringShape(s, [], off);
    var n := Prim(W4, Wrap(W4, |s| + 1));
    var at := off + |EncodeUint(W4, n.x, off)|;
    LayOne(n, off);
    LayConcat([n], Octets(s) + [Prim(W1, 0)], off);
    LayConcat(Octets(s), [Prim(W1, 0)], at);
    LayOctets(s, at);
    LayOne(Prim(W1, 0), at + |s|);
    LayByte(0, at + |s|);
  }

  /** Nesting adds no bytes: the encoding is the flat layout of the primitives. */
  lemma {:induction false} EncodeIsLayout(t: Type, v: Value, off: nat)
    requires Encodable(t, v)
    ensures Encode(t, v, off) == Lay(Prims(t, v), off)
    decreases t, 0
  {
    hide Lay;
    hide Wrap;
    hide EncodeUint;
    hide EncodePair;
    hide EncodeElems;
    hide EncodeFields;
    hide ElemPrims;
    hide FieldPrims;
    match t
    case Bool => LayByte(if v.b then 1 else 0, off); LayOne(Prim(W1, if v.b then 1 else 0), off);
    case Signed(w) => LayOne(Prim(w, Wrap(w, v.i)), off);
    case Unsigned(w) => LayOne(Prim(w, v.i), off);
    case Float(w) => LayOne(Prim(w, v.i), off);
    case String => LayString(v.s, off);
    case Time => LayTwo(if IsZeroTime(v) then 0 else Wrap(W4, v.sec), if IsZeroTime(v) then 0 else v.nsec, off);
    case Duration => LayTwo(Wrap(W4, Seconds(v.ns)), Wrap(W4, Nanos(v.ns)), off);
    case Slice(elem) =>
      var n := Prim(W4, Wrap(W4, |v.vs|));
      LayOne(n, off);
      LayConcat([n], ElemPrims(elem, v.vs), off);
      ElemsLayout(elem, v.vs, off + |EncodeUint(W4, n.x, off)|);
    case Array(n, elem) => ElemsLayout(elem, v.vs, off);
    case Struct(fields) => FieldsLayout(fields, v.vs, off);
  }

  lemma LayNothing(off: nat)
    ensures Lay([], off) == []
  {
  }

  lemma {:induction false} ElemsLayout(elem: Type, vs: seq<Value>, off: nat)
    requires forall x :: x in vs ==> Encodable(elem, x)
    ensures EncodeElems(elem, vs, off) == Lay(ElemPrims(elem, vs), off)
    decreases elem, |vs| + 1
  {
    hide Encode, Encodable, Prims, Lay;
    if vs == [] {
      LayNothing(off);
    } else {
      EncodeIsLayout(elem, vs[0], off);
      ElemsLayout(elem, vs[1..], off + |Encode(elem, vs[0], off)|);
      LayConcat(Prims(elem, vs[0]), ElemPrims(elem, vs[1..]), off);
    }
  }

  lemma {:induction false} FieldsLayout(fields: seq<Type>, vs: seq<Value>, off: nat)
    requires |fields| == |vs| && forall i :: 0 <= i < |fields| ==> Encodable(fields[i], vs[i])
    ensures EncodeFields(fields, vs, off) == Lay(FieldPrims(fields, vs), off)
    decreases fields, 0
  {
    hide Encode;
    hide Encodable;
    hide Prims;
    if vs != [] {
      EncodeIsLayout(fields[0], vs[0], off);
      FieldsLayout(fields[1..], vs[1..], off + |Encode(fields[0], vs[0], off)|);
      LayConcat(Prims(fields[0], vs[0]), FieldPrims(fields[1..], vs[1..]), off);
    }
  }

  /** Every primitive stands at a multiple of its size, as its own little-endian bytes. */
  lemma {:induction false} LayoutAligned(ps: seq<Prim>, off: nat, k: nat)
    requires k < |ps|
    ensures var at := Starts(ps, off)[k];
      && at % Size(ps[k].w) == 0 && at >= off
      && At(Lay(ps, off), at - off, LittleEndian(ps[k].x, Size(ps[k].w)))
    decreases k
  {
    hide EncodeUint;
    hide LittleEndian;
    hide Gap;
    hide At;
    var p := ps[0];
    var first := EncodeUint(p.w, p.x, off);
    var mid, rest := off + |first|, Lay(ps[1..], off + |first|);
    GapAligns(off, p.w);
    UintAt(p.w, p.x, off, rest);
    if k > 0 {
      LayoutAligned(ps[1..], mid, k - 1);
      var at := Starts(ps[1..], mid)[k - 1];
      AtShift(first, rest, at - mid, LittleEndian(ps[k].x, Size(ps[k].w)));
    }
  }

  lemma UintAt(w: Width, x: nat, off: nat, rest: seq<byte>)
    ensures At(EncodeUint(w, x, off) + rest, Gap(off, Size(w)), LittleEndian(x, Size(w)))
  {
    var s := EncodeUint(w, x, off) + rest;
    assert s == Zeros(Gap(off, Size(w))) + LittleEndian(x, Size(w)) + rest;
  }

  lemma Gap2(off: nat)
    ensures (off + Gap(off, 2)) % 2 == 0 && Gap(off, 2) < 2
  {
  }

  lemma Gap4(off: nat)
    ensures (off + Gap(off, 4)) % 4 == 0 && Gap(off, 4) < 4
  {
  }

  lemma Gap8(off: nat)
    ensures (off + Gap(off, 8)) % 8 == 0 && Gap(off, 8) < 8
  {
  }

  lemma GapAligns(off: nat, w: Width)
    ensures (off + Gap(off, Size(w))) % Size(w) == 0 && Gap(off, Size(w)) < Size(w)
  {
    match w
    case W1 =>
    case W2 => hide Gap; Gap2(off);
    case W4 => hide Gap; Gap4(off);
    case W8 => hide Gap; Gap8(off);
  }

  lemma AtShift(d: seq<byte>, e: seq<byte>, off: nat, s: seq<byte>)
    requires At(e, off, s)
    ensures At(d + e, |d| + off, s)
  {
    assert (d + e)[|d| + off..|d| + off + |s|] == e[off..off + |s|];
  }
}
