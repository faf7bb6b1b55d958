/**
 * The CDR codec of cdr/cdr.go: PLAIN_CDR, little-endian (section 7.4.1.1 of DDS-XTypes 1.3).
 *
 * A schema stands for the Go type that the source reads by reflection; a struct lists its exported
 * fields.  Floats are their IEEE bit patterns, strings are bytes, a time is its Unix seconds and
 * nanoseconds, a duration its nanoseconds.
 */
module CdrSpec {
  import opened Wrappers

  type byte = x: int | 0 <= x < 256

  datatype Width = W1 | W2 | W4 | W8

  datatype Type =
    | Bool
    | Signed(w: Width)
    | Unsigned(w: Width)
    | Float(w: Width)
    | String
    | Time
    | Duration
    | Slice(elem: Type)
    | Array(n: nat, elem: Type)
    | Struct(fields: seq<Type>)
    | Unsupported

  datatype Value =
    | VBool(b: bool)
    | VInt(i: int)
    | VString(s: seq<byte>)
    | VTime(sec: int, nsec: int)
    | VDuration(ns: int)
    | VList(vs: seq<Value>)
    | VOther

  datatype Error = Truncated | SequenceTooLong | UnsupportedType | ShortPayload | BadEncapsulation

  function Size(w: Width): nat {
    match w case W1 => 1 case W2 => 2 case W4 => 4 case W8 => 8
  }

  /** Two to the number of bits. */
  function Base(w: Width): nat {
    match w case W1 => 0x100 case W2 => 0x1_0000 case W4 => 0x1_0000_0000 case W8 => 0x1_0000_0000_0000_0000
  }

  const SECOND := 1_000_000_000
  /** The zero time.Time, the first instant of year 1, in Unix seconds. */
  const ZERO_SEC := -62135596800

  predicate InSigned(w: Width, i: int) {
    -(Base(w) / 2) <= i < Base(w) / 2
  }

  /** v is a value of the Go type that t stands for. */
  ghost predicate WellTyped(t: Type, v: Value) {
    match t
    case Bool => v.VBool?
    case Signed(w) => v.VInt? && InSigned(w, v.i)
    case Unsigned(w) => v.VInt? && 0 <= v.i < Base(w)
    case Float(w) => v.VInt? && 0 <= v.i < Base(w)
    case String => v.VString?
    case Time => v.VTime? && InSigned(W8, v.sec) && 0 <= v.nsec < SECOND
    case Duration => v.VDuration? && InSigned(W8, v.ns)
    case Slice(elem) => v.VList? && forall x :: x in v.vs ==> WellTyped(elem, x)
    case Array(n, elem) => v.VList? && |v.vs| == n && forall x :: x in v.vs ==> WellTyped(elem, x)
    case Struct(fields) => v.VList? && |v.vs| == |fields| && forall i :: 0 <= i < |fields| ==>
      WellTyped(fields[i], v.vs[i])
    case Unsupported => v.VOther?
  }

  /** No value of an unsupported type is reached. */
  ghost predicate Encodable(t: Type, v: Value) {
    WellTyped(t, v) &&
    match t
    case Slice(elem) => forall x :: x in v.vs ==> Encodable(elem, x)
    case Array(n, elem) => forall x :: x in v.vs ==> Encodable(elem, x)
    case Struct(fields) => forall i :: 0 <= i < |fields| ==> Encodable(fields[i], v.vs[i])
    case Unsupported => false
    case _ => true
  }

  // ----- bytes -----

  function Zeros(n: nat): (r: seq<byte>)
    ensures |r| == n
  {
    seq(n, _ => 0)
  }

  /** How far off is from the next multiple of n. */
  function Gap(off: nat, n: nat): nat
    requires n > 0
  {
    (n - off % n) % n
  }

  function LittleEndian(x: nat, k: nat): (r: seq<byte>)
    ensures |r| == k
  {
    if k == 0 then [] else [x % 256] + LittleEndian(x / 256, k - 1)
  }

  function FromLittleEndian(s: seq<byte>): nat {
    if s == [] then 0 else s[0] + 256 * FromLittleEndian(s[1..])
  }

  /** Go's conversion of an integer to an unsigned one of width w. */
  function Wrap(w: Width, i: int): (r: nat)
    ensures r < Base(w)
  {
    i % Base(w)
  }

  /** Go's conversion of an unsigned integer to the signed one of the same width. */
  function AsSigned(w: Width, x: nat): int {
    if x < Base(w) / 2 then x else x - Base(w)
  }

  /** Go's integer division and remainder by a second, which truncate toward zero. */
  function Seconds(ns: int): int {
    if ns >= 0 then ns / SECOND else -((-ns) / SECOND)
  }

  function Nanos(ns: int): int {
    ns - Seconds(ns) * SECOND
  }

  // ----- encoding -----

  function EncodeUint(w: Width, x: nat, off: nat): seq<byte> {
    Zeros(Gap(off, Size(w))) + LittleEndian(x, Size(w))
  }

  function EncodePair(x: nat, y: nat, off: nat): seq<byte> {
    var first := EncodeUint(W4, x, off);
    first + EncodeUint(W4, y, off + |first|)
  }

  predicate IsZeroTime(v: Value)
    requires v.VTime?
  {
    v.sec == ZERO_SEC && v.nsec == 0
  }

  /** The bytes of v when it starts at offset off of the body. */
  function Encode(t: Type, v: Value, off: nat): seq<byte>
    requires Encodable(t, v)
    decreases t, 0
  {
    match t
    case Bool => [if v.b then 1 else 0]
    case Signed(w) => EncodeUint(w, Wrap(w, v.i), off)
    case Unsigned(w) => EncodeUint(w, v.i, off)
    case Float(w) => EncodeUint(w, v.i, off)
    case String =>
      var length := EncodeUint(W4, Wrap(W4, |v.s| + 1), off);
      length + v.s + [0]
    case Time =>
      if IsZeroTime(v) then EncodePair(0, 0, off) else EncodePair(Wrap(W4, v.sec), v.nsec, off)
    case Duration => EncodePair(Wrap(W4, Seconds(v.ns)), Wrap(W4, Nanos(v.ns)), off)
    case Slice(elem) =>
      var length := EncodeUint(W4, Wrap(W4, |v.vs|), off);
      length + EncodeElems(elem, v.vs, off + |length|)
    case Array(n, elem) => EncodeElems(elem, v.vs, off)
    case Struct(fields) => EncodeFields(fields, v.vs, off)
  }

  function EncodeElems(elem: Type, vs: seq<Value>, off: nat): seq<byte>
    requires forall x :: x in vs ==> Encodable(elem, x)
    decreases elem, |vs| + 1
  {
    if vs == [] then []
    else
      var first := Encode(elem, vs[0], off);
      first + EncodeElems(elem, vs[1..], off + |first|)
  }

  function EncodeFields(fields: seq<Type>, vs: seq<Value>, off: nat): seq<byte>
    requires |fields| == |vs| && forall i :: 0 <= i < |fields| ==> Encodable(fields[i], vs[i])
    decreases fields, 0
  {
    if vs == [] then []
    else
      var first := Encode(fields[0], vs[0], off);
      first + EncodeFields(fields[1..], vs[1..], off + |first|)
  }

  // ----- decoding -----

  datatype Decoded<+T> = Got(value: T, off: nat) | Fail(error: Error)

  function DecodeUint(w: Width, buf: seq<byte>, off: nat): (r: Decoded<nat>)
    ensures r.Got? ==> off < r.off <= |buf| && r.value < Base(w)
  {
    var at := off + Gap(off, Size(w));
    if at + Size(w) > |buf| then Fail(Truncated)
    else
      FromLittleEndianBound(buf[at..at + Size(w)], w);
      Got(FromLittleEndian(buf[at..at + Size(w)]), at + Size(w))
  }

  lemma FromLittleEndianBound(s: seq<byte>, w: Width)
    requires |s| == Size(w)
    ensures FromLittleEndian(s) < Base(w)
  {
    Below(s);
  }

  function Power(k: nat): nat {
    if k == 0 then 1 else 256 * Power(k - 1)
  }

  lemma {:induction false} Below(s: seq<byte>)
    ensures FromLittleEndian(s) < Power(|s|)
    ensures Power(1) == Base(W1) && Power(2) == Base(W2) && Power(4) == Base(W4) && Power(8) == Base(W8)
  {
    if s != [] {
      Below(s[1..]);
    }
  }

  function DecodePair(buf: seq<byte>, off: nat): (r: Decoded<(nat, nat)>)
    ensures r.Got? ==> off < r.off <= |buf| && r.value.0 < Base(W4) && r.value.1 < Base(W4)
  {
    match DecodeUint(W4, buf, off)
    case Fail(e) => Fail(e)
    case Got(x, mid) =>
      match DecodeUint(W4, buf, mid)
      case Fail(e) => Fail(e)
      case Got(y, end) => Got((x, y), end)
  }

  function StripNul(s: seq<byte>): seq<byte> {
    if |s| > 0 && s[|s| - 1] == 0 then s[..|s| - 1] else s
  }

  /** Reading a value of type t at offset off: it ends within the buffer, never before where it began. */
  function Decode(t: Type, buf: seq<byte>, off: nat): (r: Decoded<Value>)
    ensures r.Got? && off <= |buf| ==> off <= r.off <= |buf|
    decreases t, 0
  {
    match t
    case Bool =>
      if off + 1 > |buf| then Fail(Truncated) else Got(VBool(buf[off] != 0), off + 1)
    case Signed(w) =>
      (match DecodeUint(w, buf, off)
       case Fail(e) => Fail(e)
       case Got(x, end) => Got(VInt(AsSigned(w, x)), end))
    case Unsigned(w) =>
      (match DecodeUint(w, buf, off)
       case Fail(e) => Fail(e)
       case Got(x, end) => Got(VInt(x), end))
    case Float(w) =>
      (match DecodeUint(w, buf, off)
       case Fail(e) => Fail(e)
       case Got(x, end) => Got(VInt(x), end))
    case String =>
      (match DecodeUint(W4, buf, off)
       case Fail(e) => Fail(e)
       case Got(n, at) =>
         if at + n > |buf| then Fail(Truncated) else Got(VString(StripNul(buf[at..at + n])), at + n))
    case Time =>
      (match DecodePair(buf, off)
       case Fail(e) => Fail(e)
       case Got((sec, nsec), end) =>
         Got(if sec == 0 && nsec == 0 then VTime(ZERO_SEC, 0) else UnixTime(AsSigned(W4, sec), nsec), end))
    case Duration =>
      (match DecodePair(buf, off)
       case Fail(e) => Fail(e)
       case Got((sec, nsec), end) => Got(VDuration(AsSigned(W4, sec) * SECOND + nsec), end))
    case Slice(elem) =>
      (match DecodeUint(W4, buf, off)
       case Fail(e) => Fail(e)
       case Got(n, at) =>
         if n > |buf| - at then Fail(SequenceTooLong)
         else
           match DecodeElems(elem, n, buf, at)
           case Fail(e) => Fail(e)
           case Got(vs, end) => Got(VList(vs), end))
    case Array(n, elem) =>
      (match DecodeElems(elem, n, buf, off)
       case Fail(e) => Fail(e)
       case Got(vs, end) => Got(VList(vs), end))
    case Struct(fields) =>
      (match DecodeFields(fields, buf, off)
       case Fail(e) => Fail(e)
       case Got(vs, end) => Got(VList(vs), end))
    case Unsupported => Fail(UnsupportedType)
  }

  /** time.Unix carries nanoseconds beyond a second over into the seconds. */
  function UnixTime(sec: int, nsec: nat): Value {
    VTime(sec + nsec / SECOND, nsec % SECOND)
  }

  function DecodeElems(elem: Type, n: nat, buf: seq<byte>, off: nat): (r: Decoded<seq<Value>>)
    ensures r.Got? ==> |r.value| == n
    ensures r.Got? && off <= |buf| ==> off <= r.off <= |buf|
    decreases elem, n + 1
  {
    if n == 0 then Got([], off)
    else
      match Decode(elem, buf, off)
      case Fail(e) => Fail(e)
      case Got(v, mid) =>
        match DecodeElems(elem, n - 1, buf, mid)
        case Fail(e) => Fail(e)
        case Got(vs, end) => Got([v] + vs, end)
  }

  function DecodeFields(fields: seq<Type>, buf: seq<byte>, off: nat): (r: Decoded<seq<Value>>)
    ensures r.Got? ==> |r.value| == |fields|
    ensures r.Got? && off <= |buf| ==> off <= r.off <= |buf|
    decreases fields, 0
  {
    if fields == [] then Got([], off)
    else
      match Decode(fields[0], buf, off)
      case Fail(e) => Fail(e)
      case Got(v, mid) =>
        match DecodeFields(fields[1..], buf, mid)
        case Fail(e) => Fail(e)
        case Got(vs, end) => Got([v] + vs, end)
  }
}
