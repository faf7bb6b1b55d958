/**
 * What rides along with each message, transport/rmwzenoh/rmwzenoh.go 86-147: the attachment that rmw_zenoh
 * defines, and the trace context that Conductor appends to it.
 */
module Attachments {
  import opened Wrappers
  import opened CdrSpec
  import CdrProofs

  datatype Fields = Fields(number: int, timestamp: int, gid: seq<byte>)

  datatype TraceContext = TraceContext(traceID: seq<byte>, spanID: seq<byte>, sampled: bool)

  datatype AttachmentError = TooShort | GidTruncated

  const MAGIC: seq<byte> := [0x43, 0x44, 0x54, 0x52]
  const EXTENSION := 4 + 16 + 8 + 1

  predicate IsInt64(i: int) {
    InSigned(W8, i)
  }

  /** The attachment, byte by byte; the length of the gid has one byte, whatever it is. */
  function Attachment(f: Fields): seq<byte> {
    LittleEndian(Wrap(W8, f.number), 8) + LittleEndian(Wrap(W8, f.timestamp), 8) + [|f.gid| % 256] + f.gid
  }

  function Extended(att: seq<byte>, c: TraceContext): seq<byte> {
    att + MAGIC + c.traceID + c.spanID + [if c.sampled then 1 else 0]
  }

  /** Numbers of 64 bits, and a gid whose length fits its byte. */
  predicate Fits(f: Fields) {
    IsInt64(f.number) && IsInt64(f.timestamp) && |f.gid| <= 255
  }

  /** What is written reads back exactly if the gid is not too long. */
  method EncodeAttachment(f: Fields) returns (buf: seq<byte>)
    requires IsInt64(f.number) && IsInt64(f.timestamp)
    ensures buf == Attachment(f) && |buf| == 17 + |f.gid|
    ensures Read(buf) == Ok(f) <==> |f.gid| <= 255
  {
    hide Read, LittleEndian, Wrap;
    ReadsBack(f);
    buf := [];
    buf := buf + LittleEndian(Wrap(W8, f.number), 8);
    buf := buf + LittleEndian(Wrap(W8, f.timestamp), 8);
    buf := buf + [|f.gid| % 256];
    buf := buf + f.gid;
  }

  /** The fields whose attachment b begins with, if there are any. */
  method DecodeAttachment(b: seq<byte>) returns (r: Result<Fields, AttachmentError>)
    ensures r == Read(b)
    ensures forall f :: r == Ok(f) <==> Fits(f) && Attachment(f) <= b
    ensures r == Err(TooShort) <==> |b| < 17
  {
    ReadsPrefix(b);
    if |b| < 17 {
      return Err(TooShort);
    }
    var s := AsSigned(W8, FromLittleEndian(b[..8]));
    var ts := AsSigned(W8, FromLittleEndian(b[8..16]));
    var n: int := b[16];
    if |b| < 17 + n {
      return Err(GidTruncated);
    }
    return Ok(Fields(s, ts, b[17..17 + n]));
  }

  function Read(b: seq<byte>): Result<Fields, AttachmentError> {
    if |b| < 17 then Err(TooShort)
    else if |b| < 17 + (b[16] as int) then Err(GidTruncated)
    else Ok(Fields(AsSigned(W8, FromLittleEndian(b[..8])), AsSigned(W8, FromLittleEndian(b[8..16])),
      b[17..17 + (b[16] as int)]))
  }

  /** The context can be taken off again, and what the attachment says does not change. */
  method AppendTraceContext(att: seq<byte>, c: TraceContext) returns (out: seq<byte>)
    requires |c.traceID| == 16 && |c.spanID| == 8
    ensures out == Extended(att, c) && att <= out && |out| == |att| + EXTENSION
    ensures TraceOf(out) == Some(c)
    ensures Read(att).Ok? ==> Read(out) == Read(att)
  {
    ExtractAppended(att, c);
    ReadsOn(att, Extended(att, c));
    out := att + MAGIC;
    out := out + c.traceID;
    out := out + c.spanID;
    var flags: byte := 0;
    if c.sampled {
      flags := 1;
    }
    out := out + [flags];
  }

  /** The last bytes are a context with this flag. */
  predicate EndsWith(att: seq<byte>, c: TraceContext, flag: byte) {
    && |c.traceID| == 16 && |c.spanID| == 8 && (c.sampled <==> flag == 1)
    && |att| >= EXTENSION && att[|att| - EXTENSION..] == MAGIC + c.traceID + c.spanID + [flag]
  }

  /** The context that the attachment ends with, if it does with any. */
  method ExtractTraceContext(att: seq<byte>) returns (r: Option<TraceContext>)
    ensures r == TraceOf(att)
    ensures forall c :: r == Some(c) <==> exists flag :: EndsWith(att, c, flag)
    ensures forall before, c: TraceContext :: |c.traceID| == 16 && |c.spanID| == 8 && att == Extended(before, c) ==>
      r == Some(c)
  {
    ExtractsEnd(att);
    if |att| < EXTENSION {
      return None;
    }
    var ext := att[|att| - EXTENSION..];
    if ext[..4] != MAGIC {
      return None;
    }
    var traceID, spanID := ext[4..20], ext[20..28];
    return Some(TraceContext(traceID, spanID, ext[28] == 1));
  }

  function TraceOf(att: seq<byte>): Option<TraceContext> {
    if |att| < EXTENSION then None
    else
      var ext := att[|att| - EXTENSION..];
      if ext[..4] != MAGIC then None else Some(TraceContext(ext[4..20], ext[20..28], ext[28] == 1))
  }

  lemma ExtractsEnd(att: seq<byte>)
    ensures forall c :: TraceOf(att) == Some(c) <==> exists flag :: EndsWith(att, c, flag)
    ensures forall before, c: TraceContext ::
      |c.traceID| == 16 && |c.spanID| == 8 && att == Extended(before, c) ==> TraceOf(att) == Some(c)
  {
    forall c ensures TraceOf(att) == Some(c) <==> exists flag :: EndsWith(att, c, flag) {
      if TraceOf(att) == Some(c) {
        Ends(att, c);
      }
      forall flag | EndsWith(att, c, flag) ensures TraceOf(att) == Some(c) {
        EndIsRead(att, c, flag);
      }
    }
    forall before, c: TraceContext | |c.traceID| == 16 && |c.spanID| == 8 && att == Extended(before, c)
      ensures TraceOf(att) == Some(c)
    {
      ExtractAppended(before, c);
    }
  }

  lemma Ends(att: seq<byte>, c: TraceContext)
    requires TraceOf(att) == Some(c)
    ensures EndsWith(att, c, att[|att| - 1])
  {
    var ext := att[|att| - EXTENSION..];
    assert ext == ext[..4] + ext[4..20] + ext[20..28] + [ext[28]];
  }

  lemma EndIsRead(att: seq<byte>, c: TraceContext, flag: byte)
    requires EndsWith(att, c, flag)
    ensures TraceOf(att) == Some(c)
  {
    var ext := att[|att| - EXTENSION..];
    assert ext[..4] == MAGIC && ext[4..20] == c.traceID && ext[20..28] == c.spanID;
  }

  // ----- numbers on the wire -----

  lemma Int64RoundTrip(i: int)
    requires IsInt64(i)
    ensures AsSigned(W8, FromLittleEndian(LittleEndian(Wrap(W8, i), 8))) == i
  {
    CdrProofs.Powers(W8);
    CdrProofs.LittleEndianRoundTrip(Wrap(W8, i), 8);
    CdrProofs.SignedRoundTrip(W8, i);
  }

  lemma AttachmentParts(f: Fields, rest: seq<byte>)
    ensures var b := Attachment(f) + rest;
      && |b| == 17 + |f.gid| + |rest| && b[16] == |f.gid| % 256 && b[17..17 + |f.gid|] == f.gid
      && b[..8] == LittleEndian(Wrap(W8, f.number), 8) && b[8..16] == LittleEndian(Wrap(W8, f.timestamp), 8)
  {
    hide LittleEndian, Wrap;
  }

  /** Decoding gives back what was encoded, and does not mind what follows, exactly if the gid's length fits
      its byte. */
  lemma DecodeEncode(f: Fields, rest: seq<byte>)
    requires IsInt64(f.number) && IsInt64(f.timestamp)
    ensures Read(Attachment(f) + rest) == Ok(f) <==> |f.gid| <= 255
    ensures |f.gid| > 255 ==> Read(Attachment(f) + rest) == Ok(f.(gid := f.gid[..|f.gid| % 256]))
  {
    hide Attachment, LittleEndian, FromLittleEndian;
    AttachmentParts(f, rest);
    Int64RoundTrip(f.number);
    Int64RoundTrip(f.timestamp);
    var b, n := Attachment(f) + rest, |f.gid| % 256;
    assert b[17..17 + n] == b[17..17 + |f.gid|][..n];
    if |f.gid| <= 255 {
      assert f.gid[..n] == f.gid;
    }
  }

  /** Reading finds the fields whose attachment stands at the front. */
  lemma ReadsPrefix(b: seq<byte>)
    ensures forall f :: Read(b) == Ok(f) <==> Fits(f) && Attachment(f) <= b
  {
    forall f ensures Read(b) == Ok(f) <==> Fits(f) && Attachment(f) <= b {
      hide Attachment, LittleEndian, FromLittleEndian;
      if Fits(f) && Attachment(f) <= b {
        DecodeEncode(f, b[|Attachment(f)|..]);
        assert b == Attachment(f) + b[|Attachment(f)|..];
      }
      if Read(b) == Ok(f) {
        ReadIsWritten(b, f);
      }
    }
  }

  lemma ReadIsWritten(b: seq<byte>, f: Fields)
    requires Read(b) == Ok(f)
    ensures Fits(f) && Attachment(f) <= b
  {
    hide LittleEndian, FromLittleEndian;
    Int64Bytes(b[..8]);
    Int64Bytes(b[8..16]);
    assert Attachment(f) == b[..17 + |f.gid|];
  }

  lemma Int64Bytes(s: seq<byte>)
    requires |s| == 8
    ensures var i := AsSigned(W8, FromLittleEndian(s)); IsInt64(i) && LittleEndian(Wrap(W8, i), 8) == s
  {
    hide LittleEndian, FromLittleEndian;
    FromLittleEndianBound(s, W8);
    LittleEndianBack(s);
    WrapBack(FromLittleEndian(s));
  }

  lemma WrapBack(x: nat)
    requires x < Base(W8)
    ensures IsInt64(AsSigned(W8, x)) && Wrap(W8, AsSigned(W8, x)) == x
  {
  }

  lemma {:induction false} LittleEndianBack(s: seq<byte>)
    ensures LittleEndian(FromLittleEndian(s), |s|) == s
  {
    if s != [] {
      LittleEndianBack(s[1..]);
      assert FromLittleEndian(s) % 256 == s[0] && FromLittleEndian(s) / 256 == FromLittleEndian(s[1..]);
    }
  }

  /** What can be read can be read with more after it. */
  lemma ReadsOn(b: seq<byte>, more: seq<byte>)
    requires b <= more
    ensures Read(b).Ok? ==> Read(more) == Read(b)
  {
    hide FromLittleEndian;
    if Read(b).Ok? {
      var end := 17 + (b[16] as int);
      assert b[..8] == more[..8] && b[8..16] == more[8..16] && b[17..end] == more[17..end];
    }
  }

  lemma ReadsBack(f: Fields)
    requires IsInt64(f.number) && IsInt64(f.timestamp)
    ensures |Attachment(f)| == 17 + |f.gid| && (Read(Attachment(f)) == Ok(f) <==> |f.gid| <= 255)
  {
    hide Read, Attachment;
    AttachmentParts(f, []);
    DecodeEncode(f, []);
    assert Attachment(f) + [] == Attachment(f);
  }

  /** An attachment decodes the same with a trace context after it. */
  lemma DecodeExtended(f: Fields, c: TraceContext)
    requires IsInt64(f.number) && IsInt64(f.timestamp)
    ensures Read(Extended(Attachment(f), c)) == Ok(f) <==> |f.gid| <= 255
  {
    hide Attachment, Read;
    var rest := MAGIC + c.traceID + c.spanID + [if c.sampled then 1 else 0];
    assert Extended(Attachment(f), c) == Attachment(f) + rest;
    DecodeEncode(f, rest);
  }

  /** The trace context comes back from whatever it was appended to. */
  lemma ExtractAppended(att: seq<byte>, c: TraceContext)
    requires |c.traceID| == 16 && |c.spanID| == 8
    ensures TraceOf(Extended(att, c)) == Some(c)
  {
    var ext := MAGIC + c.traceID + c.spanID + [if c.sampled then 1 else 0];
    assert Extended(att, c) == att + ext;
    assert Extended(att, c)[|att|..] == ext;
    assert ext[..4] == MAGIC && ext[4..20] == c.traceID && ext[20..28] == c.spanID;
  }

  /** The upper half of a number is in the upper half of its bytes. */
  lemma UpperHalf(x: nat)
    requires x < Base(W8)
    ensures FromLittleEndian(LittleEndian(x, 8)[4..]) == x / Base(W4)
  {
    var b, c := x / 256 / 256, x / 256 / 256 / 256 / 256;
    TwoBytes(x, 8);
    TwoBytes(b, 6);
    assert LittleEndian(x, 8)[4..] == LittleEndian(x, 8)[2..][2..];
    assert c == b / 65536 == x / Base(W4);
    CdrProofs.Powers(W4);
    CdrProofs.LittleEndianRoundTrip(c, 4);
  }

  lemma TwoBytes(x: nat, k: nat)
    requires k >= 2
    ensures LittleEndian(x, k)[2..] == LittleEndian(x / 256 / 256, k - 2)
  {
    var s := LittleEndian(x / 256, k - 1);
    assert LittleEndian(x, k)[1..] == s && s[1..] == LittleEndian(x / 256 / 256, k - 2);
    assert LittleEndian(x, k)[2..] == s[1..];
  }

  lemma {:induction false} SameBytes(a: seq<byte>, b: seq<byte>)
    requires |a| == |b| && FromLittleEndian(a) == FromLittleEndian(b)
    ensures a == b
  {
    if a != [] {
      SameBytes(a[1..], b[1..]);
      assert a == [a[0]] + a[1..] && b == [b[0]] + b[1..];
    }
  }

  const MAGIC_NUMBER := 0x52544443

  /** A plain attachment with a gid of 16 bytes is taken for one with a trace context exactly if the upper 32
      bits of its sequence number happen to spell the magic. */
  lemma PlainMistaken(f: Fields)
    requires IsInt64(f.number) && |f.gid| == 16
    ensures TraceOf(Attachment(f)).Some? <==> Wrap(W8, f.number) / Base(W4) == MAGIC_NUMBER
  {
    var b := Attachment(f);
    AttachmentParts(f, []);
    assert b + [] == b;
    var upper := LittleEndian(Wrap(W8, f.number), 8)[4..];
    assert b[4..][..4] == upper by {
      assert b[..8][4..] == b[4..8];
    }
    UpperHalf(Wrap(W8, f.number));
    MagicNumber();
    if FromLittleEndian(upper) == MAGIC_NUMBER {
      SameBytes(upper, MAGIC);
    }
  }

  lemma MagicNumber()
    ensures FromLittleEndian(MAGIC) == MAGIC_NUMBER
  {
    assert MAGIC[1..] == [0x44, 0x54, 0x52] && MAGIC[1..][1..] == [0x54, 0x52] && MAGIC[1..][1..][1..] == [0x52];
    assert MAGIC[1..][1..][1..][1..] == [];
    assert FromLittleEndian(MAGIC[1..][1..][1..]) == 0x52;
    assert FromLittleEndian(MAGIC[1..][1..]) == 0x54 + 256 * 0x52;
    assert FromLittleEndian(MAGIC[1..]) == 0x44 + 256 * (0x54 + 256 * 0x52);
  }
}
