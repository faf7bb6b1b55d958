/**
 * Samples of what goes over the wire, most of them as the repository's tests have them from live ROS 2 traffic and from
 * Fast CDR.
 */
module Samples {
  import opened Wrappers
  import C = CdrSpec
  import Cdr
  import A = Attachments
  import D = Decimals
  import K = Keyexprs
  import T = Texts
  import N = DDSNames
  import M = MsgGen
  import H = TypeHash

  // ----- cdr/cdr_test.go -----

  /** bool_true. */
  lemma BoolTrue()
    ensures Cdr.Payload(C.Bool, C.VBool(true)) == [0, 1, 0, 0, 1, 0, 0, 0]
  {
  }

  lemma SmallUint(x: nat, off: nat)
    requires x < 256 && off % 4 == 0
    ensures C.EncodeUint(C.W4, x, off) == [x, 0, 0, 0]
  {
    assert C.LittleEndian(0, 0) == [];
    assert C.LittleEndian(0, 1) == [0] && C.LittleEndian(0, 2) == [0, 0] && C.LittleEndian(0, 3) == [0, 0, 0];
  }

  lemma SmallPair(x: nat, y: nat, off: nat)
    requires x < 256 && y < 256 && off % 4 == 0
    ensures C.EncodePair(x, y, off) == [x, 0, 0, 0] + [y, 0, 0, 0]
  {
    hide C.EncodeUint;
    SmallUint(x, off);
    SmallUint(y, off + 4);
  }

  /** A stamp, as in posestamped: seconds before nanoseconds. */
  lemma StampBytes(sec: nat, nsec: nat, off: nat)
    requires sec < 256 && nsec < 256 && off % 4 == 0
    ensures C.Encode(C.Time, C.VTime(sec, nsec), off) == [sec, 0, 0, 0] + [nsec, 0, 0, 0]
  {
    hide C.EncodePair;
    SmallPair(sec, nsec, off);
  }

  /** A text, as string_hello: its length with the final zero, its bytes, the zero. */
  lemma TextBytes(text: seq<C.byte>, off: nat)
    requires |text| < 255 && off % 4 == 0
    ensures C.Encode(C.String, C.VString(text), off) == [|text| + 1, 0, 0, 0] + text + [0]
  {
    hide C.EncodeUint;
    SmallUint(|text| + 1, off);
  }

  /** A duration: whole seconds, then the nanoseconds past them. */
  lemma DurationBytes(sec: nat, nsec: nat, off: nat)
    requires sec < 256 && nsec < 256 && off % 4 == 0
    ensures C.Encode(C.Duration, C.VDuration(1_000_000_000 * sec + nsec), off) == [sec, 0, 0, 0] + [nsec, 0, 0, 0]
  {
    hide C.EncodePair;
    SmallPair(sec, nsec, off);
    assert C.Seconds(1_000_000_000 * sec + nsec) == sec;
  }

  /** A sequence: how many elements, then the elements. */
  lemma SequenceBytes(elem: C.Type, vs: seq<C.Value>, off: nat)
    requires C.Encodable(C.Slice(elem), C.VList(vs)) && |vs| < 256 && off % 4 == 0
    ensures C.Encode(C.Slice(elem), C.VList(vs), off) == [|vs|, 0, 0, 0] + C.EncodeElems(elem, vs, off + 4)
  {
    hide C.EncodeUint, C.EncodeElems, C.EncodeFields;
    SmallUint(|vs|, off);
  }

  // ----- transport/rmwzenoh/rmwzenoh_test.go -----

  lemma Depths()
    ensures D.Itoa(10) == "10" && D.Itoa(5) == "5" && D.Itoa(1) == "1" && D.Itoa(0) == "0" && D.Itoa(4) == "4"
  {
    assert D.Digits(1) == "1" && D.Digits(10) == "10";
  }

  /** The quality of service of the three profiles. */
  lemma ProfileTexts()
    ensures K.QoSKeyexpr(K.PROFILES[0]) == "::,10:,:,:,,"
    ensures K.QoSKeyexpr(K.PROFILES[1]) == "2::,5:,:,:,,"
    ensures K.QoSKeyexpr(K.PROFILES[2]) == ":1:,1:,:,:,,"
  {
    Depths();
    hide D.Itoa;
  }

  lemma Replaced(s: string, from: char, to: char)
    requires T.Free(s, from)
    ensures T.ReplaceChar(s, from, to) == s
  {
  }

  /** The token of the publisher of /chatter, whatever its session, node, type and hash. */
  lemma PublisherToken(zid: string, node: string, dds: string, hash: string)
    requires T.Free(dds, '/') && T.Free(hash, '/')
    ensures K.EndpointToken(K.Endpoint(0, zid, 0, 4, "MP", node, "/chatter", dds, hash, K.PROFILES[0])) ==
      "@ros2_lv/0/" + (zid + ("/0/4/MP/%/%/" + (node + ("/%chatter/" + (dds + ("/" + (hash + "/::,10:,:,:,,")))))))
  {
    Depths();
    ProfileTexts();
    Replaced(dds, '/', '%');
    Replaced(hash, '/', '%');
    Chatter();
    hide D.Itoa, K.QoSKeyexpr, K.Mangle, K.StripName;
    Segments(zid, node, dds, hash);
    hide T.Join;
  }

  lemma Chatter()
    ensures K.Mangle("/" + K.StripName("/chatter")) == "%chatter"
  {
    assert K.TrimLeft("chatter") == "chatter" && K.TrimLeft("/chatter") == "chatter";
    assert K.TrimRight("chatter") == "chatter";
  }

  lemma Joined(part: string, more: seq<string>)
    requires more != []
    ensures T.Join([part] + more, "/") == part + ("/" + T.Join(more, "/"))
  {
    T.JoinCons(part, more, "/");
  }

  lemma Segments(zid: string, node: string, dds: string, hash: string)
    ensures var parts := ["@ros2_lv", "0", zid, "0", "4", "MP", "%", "%", node, "%chatter", dds, hash, "::,10:,:,:,,"];
      T.Join(parts, "/") ==
      "@ros2_lv/0/" + (zid + ("/0/4/MP/%/%/" + (node + ("/%chatter/" + (dds + ("/" + (hash + "/::,10:,:,:,,")))))))
  {
    var qos := ["::,10:,:,:,,"];
    assert T.Join(qos, "/") == qos[0];
    hide T.Join;
    var last := [dds] + ([hash] + qos);
    Joined(hash, qos);
    Joined(dds, [hash] + qos);
    assert "/" + qos[0] == "/::,10:,:,:,,";
    var middle := ["0"] + (["4"] + (["MP"] + (["%"] + (["%"] + ([node] + (["%chatter"] + last))))));
    Middle(node, last);
    Joined(zid, middle);
    Joined("0", [zid] + middle);
    Joined("@ros2_lv", ["0"] + ([zid] + middle));
    Prefixed(zid + ("/" + T.Join(middle, "/")));
    Listed(zid, node, dds, hash, qos[0]);
  }

  lemma Listed(zid: string, node: string, dds: string, hash: string, qos: string)
    ensures ["@ros2_lv"] + (["0"] + ([zid] + (["0"] + (["4"] + (["MP"] + (["%"] + (["%"] + ([node] + (["%chatter"]
        + ([dds] + ([hash] + [qos]))))))))))) ==
      ["@ros2_lv", "0", zid, "0", "4", "MP", "%", "%", node, "%chatter", dds, hash, qos]
  {
  }

  lemma Prefixed(x: string)
    ensures "@ros2_lv" + ("/" + ("0" + ("/" + x))) == "@ros2_lv/0/" + x
  {
  }

  lemma Middle(node: string, last: seq<string>)
    requires last != []
    ensures "/" + T.Join(["0"] + (["4"] + (["MP"] + (["%"] + (["%"] + ([node] + (["%chatter"] + last)))))), "/") ==
      "/0/4/MP/%/%/" + (node + ("/%chatter/" + T.Join(last, "/")))
  {
    hide T.Join;
    Joined("%chatter", last);
    var x := T.Join(["%chatter"] + last, "/");
    assert "/" + x == "/%chatter/" + T.Join(last, "/");
    Joined(node, ["%chatter"] + last);
    var y := [node] + (["%chatter"] + last);
    Joined("%", y);
    Joined("%", ["%"] + y);
    Joined("MP", ["%"] + (["%"] + y));
    Joined("4", ["MP"] + (["%"] + (["%"] + y)));
    Joined("0", ["4"] + (["MP"] + (["%"] + (["%"] + y))));
    Regrouped(T.Join(y, "/"));
  }

  lemma Regrouped(x: string)
    ensures "/" + ("0" + ("/" + ("4" + ("/" + ("MP" + ("/" + ("%" + ("/" + ("%" + ("/" + x)))))))))) ==
      "/0/4/MP/%/%/" + x
  {
  }

  /** The attachment of a message: number, time and gid, each in its place. */
  lemma AttachmentSample(gid: seq<C.byte>)
    requires |gid| == 16
    ensures A.Attachment(A.Fields(0x1b, 0x18c67c893ac5a140, gid)) ==
      [0x1b, 0, 0, 0, 0, 0, 0, 0] + [0x40, 0xa1, 0xc5, 0x3a, 0x89, 0x7c, 0xc6, 0x18] + [16] + gid
  {
    NumberBytes();
    TimeBytes();
    hide C.LittleEndian;
  }

  lemma NumberBytes()
    ensures C.LittleEndian(0x1b, 8) == [0x1b, 0, 0, 0, 0, 0, 0, 0]
  {
  }

  lemma TimeBytes()
    ensures C.LittleEndian(0x18c67c893ac5a140, 8) == [0x40, 0xa1, 0xc5, 0x3a, 0x89, 0x7c, 0xc6, 0x18]
  {
    assert C.LittleEndian(0x18c67c89, 4) == [0x89, 0x7c, 0xc6, 0x18];
  }

  /** Explicit codes for the defaults, which rmw_zenoh does not print, are read like empty ones. */
  lemma ExplicitDefaults(rel: string, dur: string, history: string)
    requires T.Free(rel, ':') && T.Free(dur, ':') && T.Free(history, ':')
    ensures K.QoSFrom(T.Join(["1", dur, history], ":")) == K.QoSFrom(T.Join(["", dur, history], ":"))
    ensures K.QoSFrom(T.Join([rel, "2", history], ":")) == K.QoSFrom(T.Join([rel, "", history], ":"))
  {
    hide T.Split, T.Join, T.Free, K.DepthFrom, K.ProfileOf;
    Sections("1", dur, history);
    Sections("", dur, history);
    Sections(rel, "2", history);
    Sections(rel, "", history);
  }

  lemma Sections(rel: string, dur: string, history: string)
    requires rel == "1" || rel == "" || T.Free(rel, ':')
    requires dur == "2" || dur == "" || T.Free(dur, ':')
    requires T.Free(history, ':')
    ensures T.Split(T.Join([rel, dur, history], ":"), ':') == [rel, dur, history]
  {
    T.SplitJoin([rel, dur, history], ':');
    hide T.Split, T.Join;
  }

  /** The DDS name of a package's type, as std_msgs::msg::dds_::String_. */
  lemma DDSName(package: string, kind: string, name: string)
    requires T.Free(package, '/') && T.Free(kind, '/') && T.Free(name, '/')
    ensures N.DDSType(T.Join([package, kind, name], "/")) == package + "::" + kind + "::dds_::" + name + "_"
  {
    T.SplitJoin([package, kind, name], '/');
    hide T.Split, T.Join;
  }

  // ----- internal/msggen -----

  /** The number of a type in type_description_interfaces/msg/FieldType: that of its container and its own. */
  lemma FieldTypeNumbers(ft: M.FieldType)
    ensures var n := M.TypeID(ft) - (match ft.kind case Scalar => 0 case Array => 48 case BoundedSeq => 96
                                                   case UnboundedSeq => 144);
      if ft.nested != "" then n == 1
      else if ft.strCapacity > 0 then n == 21
      else
        && (ft.builtin == "int8" ==> n == 2) && (ft.builtin == "uint8" ==> n == 3)
        && (ft.builtin == "int16" ==> n == 4) && (ft.builtin == "uint16" ==> n == 5)
        && (ft.builtin == "int32" ==> n == 6) && (ft.builtin == "uint32" ==> n == 7)
        && (ft.builtin == "int64" ==> n == 8) && (ft.builtin == "uint64" ==> n == 9)
        && (ft.builtin == "float32" ==> n == 10) && (ft.builtin == "float64" ==> n == 11)
        && (ft.builtin == "bool" ==> n == 15) && (ft.builtin == "byte" ==> n == 16)
        && (ft.builtin == "string" ==> n == 17) && (ft.builtin == "wstring" ==> n == 18)
  {
  }

  /** These fields, in this order, and each of that message or service. */
  ghost predicate Fields(ind: M.Individual, names: seq<string>, of: seq<string>) {
    && |ind.fields| == |names| == |of|
    && forall i :: 0 <= i < |names| ==> ind.fields[i].name == names[i] && ind.fields[i].nested == of[i]
  }

  /** What a service and an action are described as. */
  lemma InterfaceFields(s: M.Service, a: M.Action)
    ensures Fields(M.ServiceIndividual(s), ["request_message", "response_message", "event_message"],
                   [s.request.name, s.response.name, s.event.name])
    ensures Fields(M.ActionIndividual(a),
                   ["goal", "result", "feedback", "send_goal_service", "get_result_service", "feedback_message"],
                   [a.goal.name, a.result.name, a.feedback.name, a.sendGoal.name, a.getResult.name,
                    a.feedbackMessage.name])
  {
  }

  /** A field's text, and what follows it. */
  function FieldText(f: M.DescField, rest: string): string {
    "{\"name\": " + (H.Quoted(f.name) + (", \"type\": {\"type_id\": " + (D.Itoa(f.typeID)
    + (", \"capacity\": " + (D.Itoa(f.capacity) + (", \"string_capacity\": " + (D.Itoa(f.stringCapacity)
    + (", \"nested_type_name\": " + (H.Quoted(f.nested) + ("}}" + rest))))))))))
  }

  lemma TwoFieldTexts(a: M.DescField, b: M.DescField, rest: string)
    ensures H.FieldsThen([a, b], rest) == FieldText(a, ", " + FieldText(b, "]}" + rest))
  {
    assert [a, b][1..] == [b] && [b][1..] == [];
    assert H.MoreFields([], rest) == "]}" + rest;
    assert H.FieldThen(b, "]}" + rest) == FieldText(b, "]}" + rest);
    var more := H.MoreFields([b], rest);
    assert H.FieldThen(a, more) == FieldText(a, more);
    hide H.FieldThen, FieldText;
  }

  lemma OneTypeText(other: string)
    ensures H.TypesThen([M.Individual(other, [])], "") ==
      "{\"type_name\": " + (H.Quoted(other) + ", \"fields\": []}]}")
  {
    var d := M.Individual(other, []);
    assert [d][1..] == [] && H.MoreTypes([], "") == "]}" + "";
    assert "]}" + "" == "]}";
    assert H.FieldsThen([], "]}") == "]}" + "]}";
    assert ", \"fields\": [" + ("]}" + "]}") == ", \"fields\": []}]}";
    hide H.Quoted;
  }

  /** The text of a type with two fields that refers to one type without any. */
  lemma DescriptionText(a: M.DescField, b: M.DescField, name: string, other: string)
    ensures H.Text(M.TypeDescription(M.Individual(name, [a, b]), [M.Individual(other, [])])) ==
      "{\"type_description\": " + ("{\"type_name\": " + (H.Quoted(name) + (", \"fields\": ["
      + FieldText(a, ", " + FieldText(b, "]}" + (", \"referenced_type_descriptions\": ["
        + ("{\"type_name\": " + (H.Quoted(other) + ", \"fields\": []}]}"))))))))
  {
    OneTypeText(other);
    TwoFieldTexts(a, b, ", \"referenced_type_descriptions\": [" + H.TypesThen([M.Individual(other, [])], ""));
    hide H.Quoted, FieldText, H.FieldsThen, H.TypesThen;
  }
}
