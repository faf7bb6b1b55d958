/**
 * What the codec promises: when a value survives the wire, and where its bytes land.
 */
module CdrProofs {
  import opened Wrappers
  import opened CdrSpec

  // ----- bytes -----

  lemma {:induction false} LittleEndianRoundTrip(x: nat, k: nat)
    requires x < Power(k)
    ensures FromLittleEndian(LittleEndian(x, k)) == x
  {
    if k > 0 {
      assert x / 256 < Power(k - 1);
      LittleEndianRoundTrip(x / 256, k - 1);
    }
  }

  /** The bytes e stand in buf at off. */
  predicate At(buf: seq<byte>, off: nat, e: seq<byte>) {
    off + |e| <= |buf| && buf[off..off + |e|] == e
  }

  lemma AtConcat(buf: seq<byte>, off: nat, d: seq<byte>, e: seq<byte>)
    requires At(buf, off, d + e)
    ensures At(buf, off, d) && At(buf, off + |d|, e)
  {
    var s := buf[off..off + |d + e|];
    assert s[..|d|] == d && s[|d|..] == e;
    assert buf[off..off + |d|] == s[..|d|];
    assert buf[off + |d|..off + |d| + |e|] == s[|d|..];
  }

  lemma UintRoundTrip(w: Width, x: nat, buf: seq<byte>, off: nat)
    requires x < Base(w) && At(buf, off, EncodeUint(w, x, off))
    ensures DecodeUint(w, buf, off) == Got(x, off + |EncodeUint(w, x, off)|)
  {
    hide LittleEndian, FromLittleEndian, At, Gap;
    AtConcat(buf, off, Zeros(Gap(off, Size(w))), LittleEndian(x, Size(w)));
    Powers(w);
    LittleEndianRoundTrip(x, Size(w));
    AtIs(buf, off + Gap(off, Size(w)), LittleEndian(x, Size(w)));
  }

  lemma Powers(w: Width)
    ensures Power(Size(w)) == Base(w)
  {
    Below([]);
  }

  lemma AtIs(buf: seq<byte>, off: nat, e: seq<byte>)
    requires At(buf, off, e)
    ensures off + |e| <= |buf| && buf[off..off + |e|] == e
  {
  }

  lemma PairRoundTrip(x: nat, y: nat, buf: seq<byte>, off: nat)
    requires x < Base(W4) && y < Base(W4) && At(buf, off, EncodePair(x, y, off))
    ensures DecodePair(buf, off) == Got((x, y), off + |EncodePair(x, y, off)|)
  {
    var first := EncodeUint(W4, x, off);
    AtConcat(buf, off, first, EncodeUint(W4, y, off + |first|));
    UintRoundTrip(W4, x, buf, off);
    UintRoundTrip(W4, y, buf, off + |first|);
  }

  lemma SignedRoundTrip(w: Width, i: int)
    ensures AsSigned(w, Wrap(w, i)) == i <==> InSigned(w, i)
  {
  }

  // ----- which values survive -----

  /** A leaf that the wire format can hold: seconds in 32 bits, no negative fraction, counts in 32 bits. */
  predicate FaithfulTime(v: Value)
    requires v.VTime?
  {
    IsZeroTime(v) || (InSigned(W4, v.sec) && !(v.sec == 0 && v.nsec == 0))
  }

  predicate FaithfulDuration(ns: int) {
    InSigned(W4, Seconds(ns)) && (ns >= 0 || ns % SECOND == 0)
  }

  /** The exact condition for v to survive in a body of total bytes: every count, stamp and length fits,
      and no sequence announces more elements than there are bytes after its count. */
  ghost predicate Faithful(t: Type, v: Value, off: nat, total: nat)
    requires Encodable(t, v)
    decreases t, 0
  {
    match t
    case String => |v.s| + 1 < Base(W4)
    case Time => FaithfulTime(v)
    case Duration => FaithfulDuration(v.ns)
    case Slice(elem) =>
      var at := off + |EncodeUint(W4, Wrap(W4, |v.vs|), off)|;
      |v.vs| < Base(W4) && at + |v.vs| <= total && FaithfulElems(elem, v.vs, at, total)
    case Array(n, elem) => FaithfulElems(elem, v.vs, off, total)
    case Struct(fields) => FaithfulFields(fields, v.vs, off, total)
    case _ => true
  }

  ghost predicate FaithfulElems(elem: Type, vs: seq<Value>, off: nat, total: nat)
    requires forall x :: x in vs ==> Encodable(elem, x)
    decreases elem, |vs| + 1
  {
    vs == [] ||
    (Faithful(elem, vs[0], off, total) && FaithfulElems(elem, vs[1..], off + |Encode(elem, vs[0], off)|, total))
  }

  ghost predicate FaithfulFields(fields: seq<Type>, vs: seq<Value>, off: nat, total: nat)
    requires |fields| == |vs| && forall i :: 0 <= i < |fields| ==> Encodable(fields[i], vs[i])
    decreases fields, 0
  {
    vs == [] ||
    (Faithful(fields[0], vs[0], off, total)
     && FaithfulFields(fields[1..], vs[1..], off + |Encode(fields[0], vs[0], off)|, total))
  }

  lemma TimeSurvives(v: Value)
    requires WellTyped(Time, v)
    ensures var sec, nsec := if IsZeroTime(v) then 0 else Wrap(W4, v.sec), if IsZeroTime(v) then 0 else v.nsec;
      FaithfulTime(v) <==>
      v == if sec == 0 && nsec == 0 then VTime(ZERO_SEC, 0) else UnixTime(AsSigned(W4, sec), nsec)
  {
    SignedRoundTrip(W4, v.sec);
  }

  lemma DurationSurvives(ns: int)
    requires InSigned(W8, ns)
    ensures FaithfulDuration(ns) <==>
      AsSigned(W4, Wrap(W4, Seconds(ns))) * SECOND + Wrap(W4, Nanos(ns)) == ns
  {
    SignedRoundTrip(W4, Seconds(ns));
    assert ns == Seconds(ns) * SECOND + Nanos(ns);
    assert -SECOND < Nanos(ns) < SECOND;
    assert ns < 0 ==> Nanos(ns) <= 0;
    assert Nanos(ns) == 0 <==> ns % SECOND == 0;
    assert Wrap(W4, Nanos(ns)) == if Nanos(ns) >= 0 then Nanos(ns) else Nanos(ns) + Base(W4);
  }

  /** The value that survives: decoding stops where encoding stopped, with v. Otherwise it is not v. */
  ghost predicate Survives<T>(faithful: bool, r: Decoded<T>, v: T, end: nat) {
    (faithful ==> r == Got(v, end)) && (!faithful ==> r.Fail? || r.value != v)
  }

  lemma StringShape(s: seq<byte>, buf: seq<byte>, off: nat)
    ensures Encode(String, VString(s), off) ==
      var length := EncodeUint(W4, Wrap(W4, |s| + 1), off); length + (s + [0])
    ensures Decode(String, buf, off) ==
      match DecodeUint(W4, buf, off)
      case Fail(e) => Fail(e)
      case Got(n, at) => if at + n > |buf| then Fail(Truncated) else Got(VString(StripNul(buf[at..at + n])), at + n)
  {
    hide EncodeUint;
    hide DecodeUint;
    hide Wrap;
    hide StripNul;
    var length := EncodeUint(W4, Wrap(W4, |s| + 1), off);
    assert length + s + [0] == length + (s + [0]);
  }

  lemma StringRoundTrip(s: seq<byte>, buf: seq<byte>, off: nat)
    requires At(buf, off, Encode(String, VString(s), off))
    ensures Survives(|s| + 1 < Base(W4), Decode(String, buf, off), VString(s), off + |Encode(String, VString(s), off)|)
  {
    hide EncodeUint;
    hide DecodeUint;
    hide Encode;
    hide Decode;
    hide At;
    hide Wrap;
    hide Base;
    hide StripNul;
    StringShape(s, buf, off);
    var n := Wrap(W4, |s| + 1);
    var length := EncodeUint(W4, n, off);
    AtConcat(buf, off, length, s + [0]);
    UintRoundTrip(W4, n, buf, off);
    StringTail(s, buf, off + |length|, n);
  }

  lemma StringTail(s: seq<byte>, buf: seq<byte>, at: nat, n: nat)
    requires At(buf, at, s + [0]) && n == Wrap(W4, |s| + 1)
    ensures |s| + 1 < Base(W4) ==> at + n <= |buf| && n == |s| + 1 && StripNul(buf[at..at + n]) == s
    ensures |s| + 1 >= Base(W4) && at + n <= |buf| ==> StripNul(buf[at..at + n]) != s
  {
    StripNulBack(s);
    if |s| + 1 >= Base(W4) && at + n <= |buf| {
      TooLong(|s|);
      assert |StripNul(buf[at..at + n])| <= n;
    }
  }

  lemma StripNulBack(s: seq<byte>)
    ensures StripNul(s + [0]) == s
  {
  }

  /** A wrapped length is never the length itself. */
  lemma TooLong(n: nat)
    requires n + 1 >= Base(W4)
    ensures Wrap(W4, n + 1) < n
  {
  }

  lemma LeafRoundTrip(t: Type, v: Value, buf: seq<byte>, off: nat)
    requires Encodable(t, v) && At(buf, off, Encode(t, v, off))
    requires t.Bool? || t.Signed? || t.Unsigned? || t.Float? || t.Time? || t.Duration?
    ensures Survives(Faithful(t, v, off, |buf|), Decode(t, buf, off), v, off + |Encode(t, v, off)|)
  {
    hide EncodeUint;
    hide DecodeUint;
    hide EncodePair;
    hide DecodePair;
    hide Wrap;
    hide AsSigned;
    hide UnixTime;
    hide Seconds;
    hide Nanos;
    hide FaithfulTime;
    hide FaithfulDuration;
    match t
    case Bool =>
      assert buf[off..off + 1][0] == buf[off];
    case Signed(w) =>
      UintRoundTrip(w, Wrap(w, v.i), buf, off);
      SignedRoundTrip(w, v.i);
    case Unsigned(w) => UintRoundTrip(w, v.i, buf, off);
    case Float(w) => UintRoundTrip(w, v.i, buf, off);
    case Time => TimeRoundTrip(v, buf, off);
    case Duration => DurationRoundTrip(v, buf, off);
  }

  lemma TimeRoundTrip(v: Value, buf: seq<byte>, off: nat)
    requires Encodable(Time, v) && At(buf, off, Encode(Time, v, off))
    ensures Survives(Faithful(Time, v, off, |buf|), Decode(Time, buf, off), v, off + |Encode(Time, v, off)|)
  {
    hide EncodePair, DecodePair, Wrap, AsSigned, UnixTime, FaithfulTime, At;
    TimeSurvives(v);
    PairRoundTrip(if IsZeroTime(v) then 0 else Wrap(W4, v.sec), if IsZeroTime(v) then 0 else v.nsec, buf, off);
  }

  lemma DurationRoundTrip(v: Value, buf: seq<byte>, off: nat)
    requires Encodable(Duration, v) && At(buf, off, Encode(Duration, v, off))
    ensures Survives(Faithful(Duration, v, off, |buf|), Decode(Duration, buf, off), v, off + |Encode(Duration, v, off)|)
  {
    hide EncodePair, DecodePair, Wrap, AsSigned, Seconds, Nanos, FaithfulDuration, At;
    DurationSurvives(v.ns);
    PairRoundTrip(Wrap(W4, Seconds(v.ns)), Wrap(W4, Nanos(v.ns)), buf, off);
  }

  /** A list survives when its head and its tail do. */
  lemma ConsSurvives(vs: seq<Value>, faithful: bool, head: Decoded<Value>, mid: nat,
                     rest: bool, tail: Decoded<seq<Value>>, all: Decoded<seq<Value>>, end: nat)
    requires vs != [] && Survives(faithful, head, vs[0], mid)
    requires faithful ==> Survives(rest, tail, vs[1..], end)
    requires head.Fail? ==> all.Fail?
    requires head.Got? && faithful ==>
      all == match tail case Fail(e) => Fail(e) case Got(xs, o) => Got([head.value] + xs, o)
    requires head.Got? && all.Got? ==> all.value != [] && all.value[0] == head.value
    ensures Survives(faithful && rest, all, vs, end)
  {
    if faithful && tail.Got? {
      assert ([head.value] + tail.value)[1..] == tail.value;
      assert [vs[0]] + vs[1..] == vs;
    }
  }

  lemma WrapSmall(w: Width, n: nat)
    ensures Wrap(w, n) == n <==> n < Base(w)
  {
  }

  lemma SliceRoundTrip(elem: Type, vs: seq<Value>, buf: seq<byte>, off: nat)
    requires forall x :: x in vs ==> Encodable(elem, x)
    requires Encodable(Slice(elem), VList(vs)) && At(buf, off, Encode(Slice(elem), VList(vs), off))
    requires var at := off + |EncodeUint(W4, Wrap(W4, |vs|), off)|;
      At(buf, at, EncodeElems(elem, vs, at)) ==>
      Survives(FaithfulElems(elem, vs, at, |buf|), DecodeElems(elem, |vs|, buf, at), vs,
        at + |EncodeElems(elem, vs, at)|)
    ensures Survives(Faithful(Slice(elem), VList(vs), off, |buf|), Decode(Slice(elem), buf, off), VList(vs),
                     off + |Encode(Slice(elem), VList(vs), off)|)
  {
    hide WellTyped;
    hide Encodable;
    hide EncodeUint;
    hide DecodeUint;
    hide FaithfulElems;
    hide EncodeElems;
    hide DecodeElems;
    hide At;
    hide Wrap;
    WrapSmall(W4, |vs|);
    var n := Wrap(W4, |vs|);
    var length := EncodeUint(W4, n, off);
    assert Encode(Slice(elem), VList(vs), off) == length + EncodeElems(elem, vs, off + |length|);
    AtConcat(buf, off, length, EncodeElems(elem, vs, off + |length|));
    UintRoundTrip(W4, n, buf, off);
  }

  /** Every value at every offset: it survives exactly when it is faithful. */
  lemma {:induction false} RoundTrip(t: Type, v: Value, buf: seq<byte>, off: nat)
    requires Encodable(t, v) && At(buf, off, Encode(t, v, off))
    ensures Survives(Faithful(t, v, off, |buf|), Decode(t, buf, off), v, off + |Encode(t, v, off)|)
    decreases t, 0
  {
    hide EncodeUint;
    hide DecodeUint;
    hide EncodePair;
    hide DecodePair;
    hide EncodeElems;
    hide DecodeElems;
    hide FaithfulElems;
    hide EncodeFields;
    hide DecodeFields;
    hide FaithfulFields;
    hide At;
    hide Wrap;
    match t
    case String => StringRoundTrip(v.s, buf, off);
    case Slice(elem) =>
      var at := off + |EncodeUint(W4, Wrap(W4, |v.vs|), off)|;
      if At(buf, at, EncodeElems(elem, v.vs, at)) {
        RoundTripElems(elem, v.vs, buf, at);
      }
      SliceRoundTrip(elem, v.vs, buf, off);
    case Array(n, elem) => RoundTripElems(elem, v.vs, buf, off);
    case Struct(fields) => RoundTripFields(fields, v.vs, buf, off);
    case _ => LeafRoundTrip(t, v, buf, off);
  }

  lemma {:induction false} RoundTripElems(elem: Type, vs: seq<Value>, buf: seq<byte>, off: nat)
    requires forall x :: x in vs ==> Encodable(elem, x)
    requires At(buf, off, EncodeElems(elem, vs, off))
    ensures Survives(FaithfulElems(elem, vs, off, |buf|), DecodeElems(elem, |vs|, buf, off), vs,
      off + |EncodeElems(elem, vs, off)|)
    decreases elem, |vs| + 1
  {
    hide Encode;
    hide Decode;
    hide Faithful;
    hide Encodable;
    hide At;
    if vs != [] {
      hide Survives;
      var first := Encode(elem, vs[0], off);
      var mid := off + |first|;
      var rest := EncodeElems(elem, vs[1..], mid);
      ElemsShape(elem, vs, buf, off);
      hide EncodeElems, DecodeElems, FaithfulElems;
      AtConcat(buf, off, first, rest);
      RoundTrip(elem, vs[0], buf, off);
      RoundTripElems(elem, vs[1..], buf, mid);
      ElemsSurvive(elem, vs, buf, off);
    }
  }

  lemma ElemsSurvive(elem: Type, vs: seq<Value>, buf: seq<byte>, off: nat)
    requires vs != [] && forall x :: x in vs ==> Encodable(elem, x)
    requires var mid := off + |Encode(elem, vs[0], off)|;
      && Survives(Faithful(elem, vs[0], off, |buf|), Decode(elem, buf, off), vs[0], mid)
      && Survives(FaithfulElems(elem, vs[1..], mid, |buf|), DecodeElems(elem, |vs| - 1, buf, mid), vs[1..],
           mid + |EncodeElems(elem, vs[1..], mid)|)
    ensures Survives(FaithfulElems(elem, vs, off, |buf|), DecodeElems(elem, |vs|, buf, off), vs,
      off + |EncodeElems(elem, vs, off)|)
  {
    hide Encode, Decode, Faithful, Encodable;
    ElemsShape(elem, vs, buf, off);
    hide EncodeElems, DecodeElems, FaithfulElems;
    var mid := off + |Encode(elem, vs[0], off)|;
    ConsSurvives(vs, Faithful(elem, vs[0], off, |buf|), Decode(elem, buf, off), mid,
                 FaithfulElems(elem, vs[1..], mid, |buf|), DecodeElems(elem, |vs| - 1, buf, mid),
                 DecodeElems(elem, |vs|, buf, off), mid + |EncodeElems(elem, vs[1..], mid)|);
  }

  lemma ElemsShape(elem: Type, vs: seq<Value>, buf: seq<byte>, off: nat)
    requires vs != [] && forall x :: x in vs ==> Encodable(elem, x)
    ensures var first := Encode(elem, vs[0], off); var mid := off + |first|;
      && EncodeElems(elem, vs, off) == first + EncodeElems(elem, vs[1..], mid)
      && (FaithfulElems(elem, vs, off, |buf|) <==>
        Faithful(elem, vs[0], off, |buf|) && FaithfulElems(elem, vs[1..], mid, |buf|))
    ensures DecodeElems(elem, |vs|, buf, off) ==
      match Decode(elem, buf, off)
      case Fail(e) => Fail(e)
      case Got(v, mid) =>
        match DecodeElems(elem, |vs| - 1, buf, mid)
        case Fail(e) => Fail(e)
        case Got(xs, end) => Got([v] + xs, end)
  {
    hide Encode, Decode, Faithful, Encodable;
  }

  lemma {:induction false} RoundTripFields(fields: seq<Type>, vs: seq<Value>, buf: seq<byte>, off: nat)
    requires |fields| == |vs| && forall i :: 0 <= i < |fields| ==> Encodable(fields[i], vs[i])
    requires At(buf, off, EncodeFields(fields, vs, off))
    ensures Survives(FaithfulFields(fields, vs, off, |buf|), DecodeFields(fields, buf, off), vs,
      off + |EncodeFields(fields, vs, off)|)
    decreases fields, 0
  {
    hide Encode;
    hide Decode;
    hide Faithful;
    hide Encodable;
    hide At;
    if vs != [] {
      hide Survives;
      var first := Encode(fields[0], vs[0], off);
      var mid := off + |first|;
      var rest := EncodeFields(fields[1..], vs[1..], mid);
      assert EncodeFields(fields, vs, off) == first + rest;
      AtConcat(buf, off, first, rest);
      RoundTrip(fields[0], vs[0], buf, off);
      RoundTripFields(fields[1..], vs[1..], buf, mid);
      ConsSurvives(vs, Faithful(fields[0], vs[0], off, |buf|), Decode(fields[0], buf, off), mid,
                   FaithfulFields(fields[1..], vs[1..], mid, |buf|), DecodeFields(fields[1..], buf, mid),
                   DecodeFields(fields, buf, off), mid + |rest|);
    }
  }
}
