/**
 * The encoder and decoder of cdr/cdr.go as they work: a buffer appended to, an offset that advances.
 */
module Cdr {
  import opened Wrappers
  import opened CdrSpec
  import opened CdrProofs
  import opened CdrLayout

  class Encoder {
    var buf: seq<byte>

    constructor ()
      ensures buf == []
    {
      buf := [];
    }

    method Align(w: Width)
      modifies this
      ensures buf == old(buf) + Zeros(Gap(|old(buf)|, Size(w)))
    {
      hide Gap;
      ghost var start, end := |buf|, |buf| + Gap(|buf|, Size(w));
      while |buf| % Size(w) != 0
        invariant start <= |buf| <= end
        invariant buf == old(buf) + Zeros(|buf| - start)
        decreases end - |buf|
      {
        GapStep(start, |buf|, w);
        buf := buf + [0];
      }
      GapStep(start, |buf|, w);
    }

    method AppendUint(w: Width, x: nat)
      modifies this
      ensures buf == old(buf) + EncodeUint(w, x, |old(buf)|)
    {
      Align(w);
      buf := buf + LittleEndian(x, Size(w));
    }

    method AppendPair(x: nat, y: nat)
      modifies this
      ensures buf == old(buf) + EncodePair(x, y, |old(buf)|)
    {
      AppendUint(W4, x);
      AppendUint(W4, y);
    }

    /** value: appends v, or reports the unsupported type it met. */
    method Value(t: Type, v: Value) returns (ok: bool)
      requires WellTyped(t, v)
      modifies this
      ensures ok <==> Encodable(t, v)
      ensures ok ==> buf == old(buf) + Encode(t, v, |old(buf)|)
      decreases t, 0
    {
      hide EncodeUint, EncodePair, EncodeElems, EncodeFields, Seconds, Nanos;
      match t
      case Bool =>
        buf := buf + [if v.b then 1 else 0];
        ok := true;
      case Signed(w) =>
        AppendUint(w, Wrap(w, v.i));
        ok := true;
      case Unsigned(w) =>
        AppendUint(w, v.i);
        ok := true;
      case Float(w) =>
        AppendUint(w, v.i);
        ok := true;
      case String =>
        AppendUint(W4, Wrap(W4, |v.s| + 1));
        buf := buf + v.s;
        buf := buf + [0];
        ok := true;
      case Time =>
        var sec, nsec := 0, 0;
        if !IsZeroTime(v) {
          sec, nsec := v.sec, v.nsec;
        }
        AppendPair(Wrap(W4, sec), nsec);
        ok := true;
      case Duration =>
        AppendPair(Wrap(W4, Seconds(v.ns)), Wrap(W4, Nanos(v.ns)));
        ok := true;
      case Slice(elem) =>
        AppendUint(W4, Wrap(W4, |v.vs|));
        ok := Elems(elem, v.vs);
      case Array(n, elem) =>
        ok := Elems(elem, v.vs);
      case Struct(fields) =>
        ok := Fields(fields, v.vs);
      case Unsupported =>
        ok := false;
    }

    method Elems(elem: Type, vs: seq<Value>) returns (ok: bool)
      requires forall x :: x in vs ==> WellTyped(elem, x)
      modifies this
      ensures ok <==> forall x :: x in vs ==> Encodable(elem, x)
      ensures ok ==> buf == old(buf) + EncodeElems(elem, vs, |old(buf)|)
      decreases elem, 1
    {
      hide Encode, Encodable, WellTyped, WrittenTo;
      ghost var start := buf;
      NoneWritten(elem, vs, start);
      for i := 0 to |vs|
        invariant WrittenTo(elem, vs, i, start, buf)
      {
        ghost var before := buf;
        ok := Value(elem, vs[i]);
        if !ok {
          return false;
        }
        OneWritten(elem, vs, i, start, before);
      }
      AllWritten(elem, vs, start, buf);
      ok := true;
    }

    method Fields(fields: seq<Type>, vs: seq<Value>) returns (ok: bool)
      requires |fields| == |vs| && forall i :: 0 <= i < |fields| ==> WellTyped(fields[i], vs[i])
      modifies this
      ensures ok <==> forall i :: 0 <= i < |fields| ==> Encodable(fields[i], vs[i])
      ensures ok ==> buf == old(buf) + EncodeFields(fields, vs, |old(buf)|)
      decreases fields, 0
    {
      hide Encode;
      hide Encodable;
      hide WellTyped;
      for i := 0 to |fields|
        invariant forall j :: 0 <= j < i ==> Encodable(fields[j], vs[j])
        invariant buf == old(buf) + EncodeFields(fields[..i], vs[..i], |old(buf)|)
      {
        ok := Value(fields[i], vs[i]);
        if !ok {
          return false;
        }
        assert vs[..i + 1] == vs[..i] + [vs[i]] && fields[..i + 1] == fields[..i] + [fields[i]];
        EncodeFieldsSnoc(fields[..i], vs[..i], fields[i], vs[i], |old(buf)|);
      }
      assert vs[..|vs|] == vs && fields[..|fields|] == fields;
      ok := true;
    }
  }

  /** The first i elements stand in now, after what was there at start. */
  ghost predicate WrittenTo(elem: Type, vs: seq<Value>, i: nat, start: seq<byte>, now: seq<byte>) {
    && i <= |vs| && (forall x :: x in vs[..i] ==> Encodable(elem, x))
    && now == start + EncodeElems(elem, vs[..i], |start|)
  }

  lemma NoneWritten(elem: Type, vs: seq<Value>, start: seq<byte>)
    ensures WrittenTo(elem, vs, 0, start, start)
  {
    hide Encode, Encodable;
    assert vs[..0] == [];
    NoElems(elem, |start|);
  }

  lemma OneWritten(elem: Type, vs: seq<Value>, i: nat, start: seq<byte>, now: seq<byte>)
    requires WrittenTo(elem, vs, i, start, now) && i < |vs| && Encodable(elem, vs[i])
    ensures WrittenTo(elem, vs, i + 1, start, now + Encode(elem, vs[i], |now|))
  {
    hide Encode, Encodable, EncodeElems;
    var front := vs[..i];
    assert vs[..i + 1] == front + [vs[i]];
    EncodeElemsSnoc(elem, front, vs[i], |start|);
    Assoc(start, EncodeElems(elem, front, |start|), Encode(elem, vs[i], |now|));
  }

  lemma AllWritten(elem: Type, vs: seq<Value>, start: seq<byte>, now: seq<byte>)
    requires WrittenTo(elem, vs, |vs|, start, now)
    ensures (forall x :: x in vs ==> Encodable(elem, x)) && now == start + EncodeElems(elem, vs, |start|)
  {
    hide Encode, Encodable, EncodeElems;
    assert vs[..|vs|] == vs;
  }

  /** Counting up from start, the first multiple of the width is Gap away. */
  lemma GapStep(start: nat, len: nat, w: Width)
    requires start <= len <= start + Gap(start, Size(w))
    ensures len % Size(w) == 0 <==> len == start + Gap(start, Size(w))
  {
    match w
    case W1 =>
    case W2 => GapStep2(start, len);
    case W4 => GapStep4(start, len);
    case W8 => GapStep8(start, len);
  }

  lemma GapStep2(start: nat, len: nat)
    requires start <= len <= start + Gap(start, 2)
    ensures len % 2 == 0 <==> len == start + Gap(start, 2)
  {
  }

  lemma GapStep4(start: nat, len: nat)
    requires start <= len <= start + Gap(start, 4)
    ensures len % 4 == 0 <==> len == start + Gap(start, 4)
  {
  }

  lemma GapStep8(start: nat, len: nat)
    requires start <= len <= start + Gap(start, 8)
    ensures len % 8 == 0 <==> len == start + Gap(start, 8)
  {
  }

  lemma {:induction false} EncodeElemsSnoc(elem: Type, vs: seq<Value>, v: Value, off: nat)
    requires (forall x :: x in vs ==> Encodable(elem, x)) && Encodable(elem, v)
    ensures EncodeElems(elem, vs + [v], off) ==
      var front := EncodeElems(elem, vs, off); front + Encode(elem, v, off + |front|)
    decreases |vs|
  {
    hide Encode, Encodable, EncodeElems;
    var all := vs + [v];
    EncodeElemsFirst(elem, all, off);
    NoElems(elem, off);
    if vs == [] {
      NoElems(elem, off + |Encode(elem, v, off)|);
      assert all[1..] == [];
    } else {
      assert all[0] == vs[0] && all[1..] == vs[1..] + [v];
      EncodeElemsFirst(elem, vs, off);
      var first := Encode(elem, vs[0], off);
      var front := EncodeElems(elem, vs[1..], off + |first|);
      EncodeElemsSnoc(elem, vs[1..], v, off + |first|);
      Assoc(first, front, Encode(elem, v, off + |first| + |front|));
    }
  }

  lemma Assoc(a: seq<byte>, b: seq<byte>, c: seq<byte>)
    ensures a + (b + c) == (a + b) + c && |a + b| == |a| + |b|
  {
  }

  lemma NoElems(elem: Type, off: nat)
    ensures EncodeElems(elem, [], off) == []
  {
  }

  lemma EncodeElemsFirst(elem: Type, vs: seq<Value>, off: nat)
    requires vs != [] && forall x :: x in vs ==> Encodable(elem, x)
    ensures var first := Encode(elem, vs[0], off);
      EncodeElems(elem, vs, off) == first + EncodeElems(elem, vs[1..], off + |first|)
  {
    hide Encode, Encodable;
  }

  lemma {:induction false} EncodeFieldsSnoc(fields: seq<Type>, vs: seq<Value>, t: Type, v: Value, off: nat)
    requires |fields| == |vs| && (forall i :: 0 <= i < |fields| ==> Encodable(fields[i], vs[i])) && Encodable(t, v)
    ensures EncodeFields(fields + [t], vs + [v], off) ==
      var front := EncodeFields(fields, vs, off); front + Encode(t, v, off + |front|)
    decreases |vs|
  {
    hide Encode;
    hide Encodable;
    if vs == [] {
      assert (vs + [v])[1..] == [] && (fields + [t])[1..] == [];
    } else {
      assert (vs + [v])[1..] == vs[1..] + [v] && (fields + [t])[1..] == fields[1..] + [t];
      EncodeFieldsSnoc(fields[1..], vs[1..], t, v, off + |Encode(fields[0], vs[0], off)|);
    }
  }

  // ----- decoding -----

  class Decoder {
    const buf: seq<byte>
    var off: nat

    constructor (buf: seq<byte>)
      ensures this.buf == buf && off == 0
    {
      this.buf := buf;
      off := 0;
    }

    /** alignAndNeed: step to the next multiple, and check that n bytes follow. */
    method AlignAndNeed(w: Width, n: nat) returns (ok: bool)
      modifies this
      ensures off == old(off) + Gap(old(off), Size(w))
      ensures ok <==> off + n <= |buf|
    {
      hide Gap;
      ghost var end := off + Gap(off, Size(w));
      while off % Size(w) != 0
        invariant old(off) <= off <= end
        decreases end - off
      {
        GapStep(old(off), off, w);
        off := off + 1;
      }
      GapStep(old(off), off, w);
      ok := off + n <= |buf|;
    }

    method ReadUint(w: Width) returns (r: Result<nat, Error>)
      modifies this
      ensures Reads(r, DecodeUint(w, buf, old(off)), off) && off >= old(off)
    {
      var ok := AlignAndNeed(w, Size(w));
      if !ok {
        return Err(Truncated);
      }
      r := Ok(FromLittleEndian(buf[off..off + Size(w)]));
      off := off + Size(w);
    }

    method ReadPair() returns (r: Result<(nat, nat), Error>)
      modifies this
      ensures Reads(r, DecodePair(buf, old(off)), off) && off >= old(off)
    {
      var x := ReadUint(W4);
      if x.Err? {
        return Err(x.error);
      }
      var y := ReadUint(W4);
      r := if y.Err? then Err(y.error) else Ok((x.value, y.value));
    }

    method ReadString() returns (r: Result<Value, Error>)
      modifies this
      ensures Reads(r, Decode(String, buf, old(off)), off) && off >= old(off)
    {
      hide DecodeUint, StripNul;
      var n := ReadUint(W4);
      if n.Err? {
        return Err(n.error);
      }
      var ok := AlignAndNeed(W1, n.value);
      if !ok {
        return Err(Truncated);
      }
      r := Ok(VString(StripNul(buf[off..off + n.value])));
      off := off + n.value;
    }

    method ReadTime() returns (r: Result<Value, Error>)
      modifies this
      ensures Reads(r, Decode(Time, buf, old(off)), off) && off >= old(off)
    {
      hide DecodePair, UnixTime, AsSigned;
      var p := ReadPair();
      if p.Err? {
        return Err(p.error);
      }
      var (sec, nsec) := p.value;
      if sec == 0 && nsec == 0 {
        return Ok(VTime(ZERO_SEC, 0));
      }
      r := Ok(UnixTime(AsSigned(W4, sec), nsec));
    }

    /** value: what stands at the offset, which moves past it; where nothing can be read it never moves back. */
    method Value(t: Type) returns (r: Result<Value, Error>)
      modifies this
      ensures Reads(r, Decode(t, buf, old(off)), off) && off >= old(off)
      decreases t, 0
    {
      hide DecodeUint;
      hide DecodePair;
      hide DecodeElems;
      hide DecodeFields;
      match t
      case Bool =>
        var ok := AlignAndNeed(W1, 1);
        if !ok {
          return Err(Truncated);
        }
        r := Ok(VBool(buf[off] != 0));
        off := off + 1;
      case Signed(w) =>
        var x := ReadUint(w);
        r := if x.Err? then Err(x.error) else Ok(VInt(AsSigned(w, x.value)));
      case Unsigned(w) =>
        var x := ReadUint(w);
        r := if x.Err? then Err(x.error) else Ok(VInt(x.value));
      case Float(w) =>
        var x := ReadUint(w);
        r := if x.Err? then Err(x.error) else Ok(VInt(x.value));
      case String =>
        r := ReadString();
      case Time =>
        r := ReadTime();
      case Duration =>
        var p := ReadPair();
        r := if p.Err? then Err(p.error) else Ok(VDuration(AsSigned(W4, p.value.0) * SECOND + p.value.1));
      case Slice(elem) =>
        var n := ReadUint(W4);
        if n.Err? {
          return Err(n.error);
        }
        if n.value > |buf| - off {
          return Err(SequenceTooLong);
        }
        var vs := Elems(elem, n.value);
        r := if vs.Err? then Err(vs.error) else Ok(VList(vs.value));
      case Array(n, elem) =>
        var vs := Elems(elem, n);
        r := if vs.Err? then Err(vs.error) else Ok(VList(vs.value));
      case Struct(fields) =>
        var vs := Fields(fields);
        r := if vs.Err? then Err(vs.error) else Ok(VList(vs.value));
      case Unsupported =>
        r := Err(UnsupportedType);
    }

    method Elems(elem: Type, n: nat) returns (r: Result<seq<Value>, Error>)
      modifies this
      ensures Reads(r, DecodeElems(elem, n, buf, old(off)), off) && off >= old(off)
      decreases elem, 1
    {
      hide Decode, DecodeElems, Prepend;
      var vs: seq<Value> := [];
      PrependNil(DecodeElems(elem, n, buf, off));
      for i := 0 to n
        invariant |vs| == i
        invariant off >= old(off)
        invariant DecodeElems(elem, n, buf, old(off)) == Prepend(vs, DecodeElems(elem, n - i, buf, off))
      {
        ElemsStep(vs, elem, n - i, buf, off);
        var v := Value(elem);
        if v.Err? {
          return Err(v.error);
        }
        vs := vs + [v.value];
      }
      ElemsDone(vs, elem, buf, off);
      r := Ok(vs);
    }

    method Fields(fields: seq<Type>) returns (r: Result<seq<Value>, Error>)
      modifies this
      ensures Reads(r, DecodeFields(fields, buf, old(off)), off) && off >= old(off)
      decreases fields, 0
    {
      hide Decode;
      var vs: seq<Value> := [];
      assert fields[0..] == fields;
      PrependNil(DecodeFields(fields, buf, off));
      for i := 0 to |fields|
        invariant |vs| == i
        invariant off >= old(off)
        invariant DecodeFields(fields, buf, old(off)) == Prepend(vs, DecodeFields(fields[i..], buf, off))
      {
        var v := Value(fields[i]);
        if v.Err? {
          return Err(v.error);
        }
        assert fields[i..][1..] == fields[i + 1..];
        PrependSnoc(vs, v.value, DecodeFields(fields[i + 1..], buf, off));
        vs := vs + [v.value];
      }
      PrependNil(DecodeFields([], buf, off));
      r := Ok(vs);
    }
  }

  /** A reader's answer and final offset are those of the specification. */
  predicate Reads<T(==)>(r: Result<T, Error>, d: Decoded<T>, off: nat) {
    match d
    case Got(v, end) => r == Ok(v) && off == end
    case Fail(e) => r == Err(e)
  }

  function Prepend(vs: seq<Value>, d: Decoded<seq<Value>>): Decoded<seq<Value>> {
    match d
    case Got(xs, end) => Got(vs + xs, end)
    case Fail(e) => Fail(e)
  }

  /** One more element. */
  lemma ElemsStep(vs: seq<Value>, elem: Type, k: nat, buf: seq<byte>, off: nat)
    requires k > 0
    ensures Prepend(vs, DecodeElems(elem, k, buf, off)) ==
      match Decode(elem, buf, off)
      case Fail(e) => Fail(e)
      case Got(v, mid) => Prepend(vs + [v], DecodeElems(elem, k - 1, buf, mid))
  {
    hide Decode;
    var d := Decode(elem, buf, off);
    if d.Got? {
      PrependSnoc(vs, d.value, DecodeElems(elem, k - 1, buf, d.off));
    }
  }

  lemma ElemsDone(vs: seq<Value>, elem: Type, buf: seq<byte>, off: nat)
    ensures Prepend(vs, DecodeElems(elem, 0, buf, off)) == Got(vs, off)
  {
    PrependNil(DecodeElems(elem, 0, buf, off));
  }

  lemma PrependNil(d: Decoded<seq<Value>>)
    ensures Prepend([], d) == d
    ensures d.Got? && d.value == [] ==> forall vs :: Prepend(vs, d) == Got(vs, d.off)
  {
    if d.Got? {
      assert [] + d.value == d.value;
      forall vs: seq<Value> ensures vs + [] == vs {
      }
    }
  }

  lemma PrependSnoc(vs: seq<Value>, v: Value, d: Decoded<seq<Value>>)
    ensures Prepend(vs, Prepend([v], d)) == Prepend(vs + [v], d)
  {
    if d.Got? {
      assert vs + ([v] + d.value) == vs + [v] + d.value;
    }
  }

  // ----- Marshal and Unmarshal -----

  const ENCAPSULATION: seq<byte> := [0, 1, 0, 0]

  /** The payload of v: the header, the body, and zeros up to a multiple of four. */
  function Payload(t: Type, v: Value): seq<byte>
    requires Encodable(t, v)
  {
    var body := Encode(t, v, 0);
    ENCAPSULATION + (body + Zeros(Gap(|body|, 4)))
  }

  method Marshal(t: Type, v: Value) returns (r: Result<seq<byte>, Error>)
    requires WellTyped(t, v)
    ensures r == if Encodable(t, v) then Ok(Payload(t, v)) else Err(UnsupportedType)
  {
    hide Encode;
    var e := new Encoder();
    var ok := e.Value(t, v);
    if !ok {
      return Err(UnsupportedType);
    }
    assert e.buf == Encode(t, v, 0);
    e.Align(W4);
    r := Ok(ENCAPSULATION + e.buf);
  }

  /** What Unmarshal makes of a payload: its header is checked, bytes after the value are not looked at. */
  function Unmarshaled(t: Type, data: seq<byte>): Result<Value, Error> {
    if |data| < 4 then Err(ShortPayload)
    else if data[0] != 0 || data[1] != 1 then Err(BadEncapsulation)
    else
      match Decode(t, data[4..], 0)
      case Got(v, end) => Ok(v)
      case Fail(e) => Err(e)
  }

  method Unmarshal(t: Type, data: seq<byte>) returns (r: Result<Value, Error>)
    ensures r == Unmarshaled(t, data)
  {
    if |data| < 4 {
      return Err(ShortPayload);
    }
    if data[0] != 0 || data[1] != 1 {
      return Err(BadEncapsulation);
    }
    var d := new Decoder(data[4..]);
    r := d.Value(t);
  }

  /** The payload is a multiple of four bytes long. */
  lemma PayloadLength(t: Type, v: Value)
    requires Encodable(t, v)
    ensures |Payload(t, v)| % 4 == 0
  {
    hide Encode;
    hide Encodable;
    hide Gap;
    Gap4(|Encode(t, v, 0)|);
  }

  /** Its bytes: the little-endian header, the body, and as few zeros as make it so. */
  lemma PayloadShape(t: Type, v: Value) returns (pad: nat)
    requires Encodable(t, v)
    ensures Payload(t, v) == [0, 1, 0, 0] + (Encode(t, v, 0) + seq(pad, _ => 0))
    ensures pad < 4 && (|Encode(t, v, 0)| + pad) % 4 == 0
  {
    hide Encode, Encodable;
    pad := Gap(|Encode(t, v, 0)|, 4);
    Gap4(|Encode(t, v, 0)|);
  }

  /** Unmarshalling what was marshalled gives v back exactly when v is faithful, for every schema. */
  lemma MarshalRoundTrip(t: Type, v: Value)
    requires Encodable(t, v)
    ensures Unmarshaled(t, Payload(t, v)) == Ok(v) <==> Faithful(t, v, 0, |Payload(t, v)| - 4)
  {
    hide Encode;
    hide Decode;
    hide Encodable;
    hide Faithful;
    var body := Encode(t, v, 0);
    var buf := body + Zeros(Gap(|body|, 4));
    assert Payload(t, v)[4..] == buf;
    assert buf[0..|body|] == body;
    RoundTrip(t, v, buf, 0);
  }

  /** Over a schema whose sequence elements take at least a byte, that is a matter of the leaves alone. */
  lemma RegularRoundTrip(t: Type, v: Value)
    requires Encodable(t, v) && Regular(t)
    ensures Unmarshaled(t, Payload(t, v)) == Ok(v) <==> Representable(t, v)
  {
    hide *;
    MarshalRoundTrip(t, v);
    PayloadHolds(t, v);
    RegularFaithful(t, v, 0, |Payload(t, v)| - 4);
  }

  // ----- what comes back of the times and durations that do not fit -----

  /** Unmarshalling a payload is decoding where the value was encoded. */
  lemma Body(t: Type, v: Value) returns (buf: seq<byte>)
    requires Encodable(t, v)
    ensures At(buf, 0, Encode(t, v, 0))
    ensures Unmarshaled(t, Payload(t, v)) == match Decode(t, buf, 0) case Got(x, end) => Ok(x) case Fail(e) => Err(e)
  {
    hide Encode, Decode, Encodable;
    var body := Encode(t, v, 0);
    buf := body + Zeros(Gap(|body|, 4));
    assert Payload(t, v)[4..] == buf;
    assert buf[0..|body|] == body;
  }

  lemma DurationDecoded(ns: int, buf: seq<byte>)
    requires Encodable(Duration, VDuration(ns)) && At(buf, 0, Encode(Duration, VDuration(ns), 0))
    ensures Decode(Duration, buf, 0).Got?
    ensures Decode(Duration, buf, 0).value ==
      VDuration(AsSigned(W4, Wrap(W4, Seconds(ns))) * SECOND + Wrap(W4, Nanos(ns)))
  {
    hide EncodePair, DecodePair, At, Wrap, AsSigned, Seconds, Nanos, Encodable;
    PairRoundTrip(Wrap(W4, Seconds(ns)), Wrap(W4, Nanos(ns)), buf, 0);
  }

  /** Both halves of a duration come back by themselves. */
  lemma DurationBack(ns: int)
    requires WellTyped(Duration, VDuration(ns))
    ensures Encodable(Duration, VDuration(ns))
    ensures Unmarshaled(Duration, Payload(Duration, VDuration(ns))) ==
      Ok(VDuration(AsSigned(W4, Wrap(W4, Seconds(ns))) * SECOND + Wrap(W4, Nanos(ns))))
  {
    assert Encodable(Duration, VDuration(ns));
    hide *;
    var buf := Body(Duration, VDuration(ns));
    DurationDecoded(ns, buf);
  }

  lemma TimeDecoded(sec: int, nsec: int, buf: seq<byte>)
    requires Encodable(Time, VTime(sec, nsec)) && !IsZeroTime(VTime(sec, nsec)) && 0 <= nsec < SECOND
    requires At(buf, 0, Encode(Time, VTime(sec, nsec), 0))
    ensures Decode(Time, buf, 0).Got?
    ensures Decode(Time, buf, 0).value ==
      if Wrap(W4, sec) == 0 && nsec == 0 then VTime(ZERO_SEC, 0) else VTime(AsSigned(W4, Wrap(W4, sec)), nsec)
  {
    hide EncodePair, DecodePair, At, Wrap, AsSigned, Encodable;
    PairRoundTrip(Wrap(W4, sec), nsec, buf, 0);
    assert nsec / SECOND == 0 && nsec % SECOND == nsec;
  }

  lemma TimeBack(sec: int, nsec: int)
    requires WellTyped(Time, VTime(sec, nsec)) && !IsZeroTime(VTime(sec, nsec))
    ensures Encodable(Time, VTime(sec, nsec))
    ensures Unmarshaled(Time, Payload(Time, VTime(sec, nsec))) ==
      Ok(if Wrap(W4, sec) == 0 && nsec == 0 then VTime(ZERO_SEC, 0) else VTime(AsSigned(W4, Wrap(W4, sec)), nsec))
  {
    assert Encodable(Time, VTime(sec, nsec)) && 0 <= nsec < SECOND;
    hide *;
    var buf := Body(Time, VTime(sec, nsec));
    TimeDecoded(sec, nsec, buf);
  }

  lemma Unfaithful(t: Type, v: Value)
    requires Encodable(t, v) && ((t.Duration? && !FaithfulDuration(v.ns)) || (t.Time? && !FaithfulTime(v)))
    ensures !Representable(t, v)
  {
    hide FaithfulDuration, FaithfulTime;
  }

  /** A negative duration that is not whole seconds comes back later by 2^32 nanoseconds. */
  lemma NegativeDuration(ns: int)
    requires WellTyped(Duration, VDuration(ns)) && InSigned(W4, Seconds(ns)) && ns < 0 && ns % SECOND != 0
    ensures !Representable(Duration, VDuration(ns))
    ensures Unmarshaled(Duration, Payload(Duration, VDuration(ns))) == Ok(VDuration(ns + Base(W4)))
  {
    hide Payload, Unmarshaled, Representable, Encodable;
    DurationBack(ns);
    NegativeFraction(ns);
    Unfaithful(Duration, VDuration(ns));
    hide Seconds, Nanos, FaithfulDuration;
  }

  lemma NegativeFraction(ns: int)
    requires InSigned(W4, Seconds(ns)) && ns < 0 && ns % SECOND != 0
    ensures !FaithfulDuration(ns)
    ensures AsSigned(W4, Wrap(W4, Seconds(ns))) * SECOND + Wrap(W4, Nanos(ns)) == ns + Base(W4)
  {
    assert -SECOND < Nanos(ns) < 0;
    SignedRoundTrip(W4, Seconds(ns));
    assert Wrap(W4, Nanos(ns)) == Nanos(ns) + Base(W4);
  }

  lemma MinusOneNanosecond()
    ensures WellTyped(Duration, VDuration(-1)) && !Representable(Duration, VDuration(-1))
    ensures Unmarshaled(Duration, Payload(Duration, VDuration(-1))) == Ok(VDuration(4_294_967_295))
  {
    NegativeDuration(-1);
  }

  /** 2^31 seconds come back as as many before zero. */
  lemma DurationPast32Bits()
    ensures var ns := 0x8000_0000 * SECOND;
      && WellTyped(Duration, VDuration(ns)) && !Representable(Duration, VDuration(ns))
      && Unmarshaled(Duration, Payload(Duration, VDuration(ns))) == Ok(VDuration(-ns))
  {
    hide Payload, Unmarshaled, Representable, Encodable;
    var ns := 0x8000_0000 * SECOND;
    assert Seconds(ns) == 0x8000_0000 && Nanos(ns) == 0;
    hide Seconds, Nanos;
    DurationBack(ns);
    Unfaithful(Duration, VDuration(ns));
  }

  /** The first second past 32 bits, in 2038, comes back as one in 1901. */
  lemma TimePast32Bits(nsec: nat)
    requires nsec < SECOND
    ensures WellTyped(Time, VTime(0x8000_0000, nsec)) && !Representable(Time, VTime(0x8000_0000, nsec))
    ensures Unmarshaled(Time, Payload(Time, VTime(0x8000_0000, nsec))) == Ok(VTime(-0x8000_0000, nsec))
  {
    hide Payload, Unmarshaled, Representable, Encodable;
    TimeBack(0x8000_0000, nsec);
    Unfaithful(Time, VTime(0x8000_0000, nsec));
  }

  /** The Unix epoch comes back as the zero time. */
  lemma EpochBack()
    ensures WellTyped(Time, VTime(0, 0)) && !Representable(Time, VTime(0, 0))
    ensures Unmarshaled(Time, Payload(Time, VTime(0, 0))) == Ok(VTime(ZERO_SEC, 0))
  {
    hide Payload, Unmarshaled, Representable, Encodable;
    TimeBack(0, 0);
    Unfaithful(Time, VTime(0, 0));
  }

  lemma PayloadHolds(t: Type, v: Value)
    requires Encodable(t, v)
    ensures |Encode(t, v, 0)| <= |Payload(t, v)| - 4
  {
    hide Encode;
  }
}
