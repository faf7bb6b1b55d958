/**
 * The texts by which rmw_zenoh tells the graph what is there, transport/rmwzenoh: liveliness tokens of nodes
 * and endpoints, the quality of service inside them, and the parser that reads them back.
 */
module Keyexprs {
  import opened Wrappers
  import opened Decimals
  import opened Texts
  import opened DDSNames

  datatype Reliability = Reliable | BestEffort

  datatype Durability = Volatile | TransientLocal

  datatype QoS = QoS(name: string, reliability: Reliability, durability: Durability, depth: int)

  datatype Entity = Entity(
    domain: int, zid: string, nid: int, eid: int, kind: string, enclave: string, namespace: string, node: string,
    topic: string, ddsType: string, ty: string, hash: string, qos: QoS)

  datatype TokenError =
    | NotAToken | BadDomain | BadNodeID | BadEntityID | NodeSegments | UnknownKind | EndpointSegments
    | QoSSections | UnknownReliability | UnknownDurability | BadDepth

  const ADMIN_SPACE := "@ros2_lv"
  const NODE := "NN"

  predicate EndpointKind(kind: string) {
    kind == "MP" || kind == "MS" || kind == "SS" || kind == "SC"
  }

  /** What an entity has in the fields its token does not give. */
  const NO_QOS := QoS("", Reliable, Volatile, 0)

  // ----- names -----

  function Mangle(s: string): string {
    ReplaceChar(s, '/', '%')
  }

  function Demangle(s: string): string {
    ReplaceChar(s, '%', '/')
  }

  function TrimLeft(s: string): string {
    if s != [] && s[0] == '/' then TrimLeft(s[1..]) else s
  }

  function TrimRight(s: string): string {
    if s != [] && s[|s| - 1] == '/' then TrimRight(s[..|s| - 1]) else s
  }

  function StripName(s: string): string {
    TrimRight(TrimLeft(s))
  }

  lemma {:induction false} TrimLeftFree(s: string)
    ensures Free(TrimLeft(s), '%') <==> Free(s, '%')
  {
    if s != [] && s[0] == '/' {
      TrimLeftFree(s[1..]);
      assert s == [s[0]] + s[1..];
    }
  }

  lemma {:induction false} TrimRightFree(s: string)
    ensures Free(TrimRight(s), '%') <==> Free(s, '%')
  {
    if s != [] && s[|s| - 1] == '/' {
      TrimRightFree(s[..|s| - 1]);
      assert s == s[..|s| - 1] + [s[|s| - 1]];
    }
  }

  /** The absolute name of a topic survives mangling just when there is no percent sign in it. */
  lemma TopicBack(topic: string)
    ensures Demangle(Mangle("/" + StripName(topic))) == "/" + StripName(topic) <==> Free(topic, '%')
  {
    var t := "/" + StripName(topic);
    ReplaceBack(t, '/', '%');
    TrimLeftFree(topic);
    TrimRightFree(TrimLeft(topic));
    assert t[1..] == StripName(topic);
  }

  // ----- quality of service -----

  function ReliabilityCode(r: Reliability): string {
    if r == BestEffort then "2" else ""
  }

  function DurabilityCode(d: Durability): string {
    if d == TransientLocal then "1" else ""
  }

  function QoSKeyexpr(q: QoS): string {
    ReliabilityCode(q.reliability) + (":" + (DurabilityCode(q.durability) + (":," + (Itoa(q.depth) + ":,:,:,,"))))
  }

  const PROFILES: seq<QoS> := [
    QoS("reliable", Reliable, Volatile, 10),
    QoS("sensor", BestEffort, Volatile, 5),
    QoS("transient", Reliable, TransientLocal, 1)]

  /** The name of the profile that reliability and durability make, or none. */
  function ProfileOf(r: Reliability, d: Durability): string {
    if r == Reliable && d == Volatile then "reliable"
    else if r == BestEffort && d == Volatile then "sensor"
    else if r == Reliable && d == TransientLocal then "transient"
    else ""
  }

  /** profileName. */
  method ProfileName(q: QoS) returns (name: string)
    ensures name == ProfileOf(q.reliability, q.durability)
  {
    for i := 0 to |PROFILES|
      invariant forall j :: 0 <= j < i ==>
        PROFILES[j].reliability != q.reliability || PROFILES[j].durability != q.durability
    {
      if PROFILES[i].reliability == q.reliability && PROFILES[i].durability == q.durability {
        return PROFILES[i].name;
      }
    }
    assert PROFILES[0].durability == Volatile && PROFILES[1].durability == Volatile
      && PROFILES[2].durability == TransientLocal;
    return "";
  }

  function ReliabilityFrom(s: string): Option<Reliability> {
    if s == "" || s == "1" then Some(Reliable) else if s == "2" then Some(BestEffort) else None
  }

  function DurabilityFrom(s: string): Option<Durability> {
    if s == "" || s == "2" then Some(Volatile) else if s == "1" then Some(TransientLocal) else None
  }

  /** The depth that a history section gives; 0 where it gives none. */
  function DepthFrom(s: string): Option<int> {
    var history := Split(s, ',');
    if |history| > 1 && history[1] != "" then Atoi(history[1]) else Some(0)
  }

  function QoSFrom(s: string): Result<QoS, TokenError> {
    var sections := Split(s, ':');
    if |sections| < 3 then Err(QoSSections)
    else if ReliabilityFrom(sections[0]).None? then Err(UnknownReliability)
    else if DurabilityFrom(sections[1]).None? then Err(UnknownDurability)
    else if DepthFrom(sections[2]).None? then Err(BadDepth)
    else
      var r, d := ReliabilityFrom(sections[0]).value, DurabilityFrom(sections[1]).value;
      Ok(QoS(ProfileOf(r, d), r, d, DepthFrom(sections[2]).value))
  }

  /** A printed quality of service is read back, under the name of its profile. */
  method ParseQoSKeyexpr(s: string) returns (r: Result<QoS, TokenError>)
    ensures r == QoSFrom(s)
    ensures forall q: QoS :: IsInt(q.depth) && s == QoSKeyexpr(q) ==>
      r == Ok(q.(name := ProfileOf(q.reliability, q.durability)))
  {
    QoSReadBack(s);
    hide Split, QoSKeyexpr;
    var sections := Split(s, ':');
    if |sections| < 3 {
      return Err(QoSSections);
    }
    var q := QoS("", Reliable, Volatile, 0);
    if sections[0] == "" {
    } else if sections[0] == "1" {
      q := q.(reliability := Reliable);
    } else if sections[0] == "2" {
      q := q.(reliability := BestEffort);
    } else {
      return Err(UnknownReliability);
    }
    if sections[1] == "" {
    } else if sections[1] == "1" {
      q := q.(durability := TransientLocal);
    } else if sections[1] == "2" {
      q := q.(durability := Volatile);
    } else {
      return Err(UnknownDurability);
    }
    var history := Split(sections[2], ',');
    if |history| > 1 && history[1] != "" {
      var depth := Atoi(history[1]);
      if depth.None? {
        return Err(BadDepth);
      }
      q := q.(depth := depth.value);
    }
    var name := ProfileName(q);
    q := q.(name := name);
    return Ok(q);
  }

  /** Decimal numbers have no separators in them. */
  lemma ItoaFree(i: int, c: char)
    requires !IsDigit(c) && c != '-'
    ensures Free(Itoa(i), c)
  {
    hide Digits;
  }

  lemma QoSJoined(q: QoS)
    ensures QoSKeyexpr(q) == Join([ReliabilityCode(q.reliability), DurabilityCode(q.durability), "," + Itoa(q.depth),
      ",", ",", ",,"], ":")
  {
    hide Itoa;
    var rel, dur, depth := ReliabilityCode(q.reliability), DurabilityCode(q.durability), "," + Itoa(q.depth);
    var parts := [rel, dur, depth, ",", ",", ",,"];
    assert parts[1..] == [dur, depth, ",", ",", ",,"] && [dur, depth, ",", ",", ",,"][1..] == [depth, ",", ",", ",,"];
    assert [depth, ",", ",", ",,"][1..] == [",", ",", ",,"] && [",", ",", ",,"][1..] == [",", ",,"]
      && [",", ",,"][1..] == [",,"];
    assert Join([",,"], ":") == ",,";
    assert Join([",", ",,"], ":") == "," + (":" + ",,");
    assert Join([",", ",", ",,"], ":") == "," + (":" + ("," + (":" + ",,")));
    assert Join([depth, ",", ",", ",,"], ":") == depth + (":" + ("," + (":" + ("," + (":" + ",,")))));
    assert depth + (":" + ("," + (":" + ("," + (":" + ",,"))))) == "," + (Itoa(q.depth) + ":,:,:,,");
    assert Join([dur, depth, ",", ",", ",,"], ":") == dur + (":" + ("," + (Itoa(q.depth) + ":,:,:,,")));
    assert ":" + ("," + (Itoa(q.depth) + ":,:,:,,")) == ":," + (Itoa(q.depth) + ":,:,:,,");
  }

  /** Parsing a QoS section gives back reliability, durability and depth, and the name of their profile. */
  lemma QoSRoundTrip(q: QoS)
    requires IsInt(q.depth)
    ensures QoSFrom(QoSKeyexpr(q)) == Ok(q.(name := ProfileOf(q.reliability, q.durability)))
    ensures Free(QoSKeyexpr(q), '/')
  {
    hide Itoa, Split, Atoi, Join;
    var parts := [ReliabilityCode(q.reliability), DurabilityCode(q.durability), "," + Itoa(q.depth), ",", ",", ",,"];
    QoSJoined(q);
    ItoaFree(q.depth, ':');
    ItoaFree(q.depth, ',');
    ItoaFree(q.depth, '/');
    assert AllFree(parts, ':');
    SplitJoin(parts, ':');
    DepthBack(q.depth);
  }

  lemma QoSReadBack(s: string)
    ensures forall q: QoS :: IsInt(q.depth) && s == QoSKeyexpr(q) ==>
      QoSFrom(s) == Ok(q.(name := ProfileOf(q.reliability, q.durability)))
  {
    hide QoSKeyexpr, QoSFrom, ProfileOf;
    forall q: QoS | IsInt(q.depth) && s == QoSKeyexpr(q)
      ensures QoSFrom(s) == Ok(q.(name := ProfileOf(q.reliability, q.durability)))
    {
      QoSRoundTrip(q);
    }
  }

  lemma DepthBack(depth: int)
    requires IsInt(depth)
    ensures DepthFrom("," + Itoa(depth)) == Some(depth)
  {
    hide Itoa, Split, Atoi;
    ItoaFree(depth, ',');
    assert Join(["", Itoa(depth)], ",") == "," + Itoa(depth) by {
      assert ["", Itoa(depth)][1..] == [Itoa(depth)];
    }
    assert AllFree(["", Itoa(depth)], ',');
    SplitJoin(["", Itoa(depth)], ',');
    AtoiItoa(depth);
    ItoaSome(depth);
  }

  lemma ItoaSome(i: int)
    ensures Itoa(i) != ""
  {
    hide Digits;
  }

  /** The profiles that Conductor has get their own names back. */
  lemma ProfilesKeepNames(i: nat)
    requires i < |PROFILES|
    ensures ProfileOf(PROFILES[i].reliability, PROFILES[i].durability) == PROFILES[i].name
  {
    assert PROFILES[i] == PROFILES[0] || PROFILES[i] == PROFILES[1] || PROFILES[i] == PROFILES[2];
  }

  // ----- tokens -----

  function NodeParts(domain: int, zid: string, nid: int, eid: int, node: string): seq<string> {
    [ADMIN_SPACE, Itoa(domain), zid, Itoa(nid), Itoa(eid), NODE, "%", "%", node]
  }

  function NodeToken(domain: int, zid: string, nid: int, eid: int, node: string): string {
    Join(NodeParts(domain, zid, nid, eid, node), "/")
  }

  /** An endpoint as it is announced. */
  datatype Endpoint = Endpoint(
    domain: int, zid: string, nid: int, eid: int, kind: string, node: string, topic: string,
    ddsType: string, hash: string, qos: QoS)

  function EndpointParts(e: Endpoint): seq<string> {
    [ADMIN_SPACE, Itoa(e.domain), e.zid, Itoa(e.nid), Itoa(e.eid), e.kind, "%", "%", e.node,
     Mangle("/" + StripName(e.topic)), Mangle(e.ddsType), Mangle(e.hash), QoSKeyexpr(e.qos)]
  }

  /** Numbers of 64 bits, and one of the four kinds. */
  predicate Announceable(e: Endpoint) {
    IsInt(e.domain) && IsInt(e.nid) && IsInt(e.eid) && IsInt(e.qos.depth) && EndpointKind(e.kind)
  }

  function EndpointToken(e: Endpoint): string {
    Join(EndpointParts(e), "/")
  }

  /** What a token in these segments says. */
  function EntityOf(seg: seq<string>): Result<Entity, TokenError> {
    if |seg| < 9 || seg[0] != ADMIN_SPACE then Err(NotAToken)
    else if Atoi(seg[1]).None? then Err(BadDomain)
    else if Atoi(seg[3]).None? then Err(BadNodeID)
    else if Atoi(seg[4]).None? then Err(BadEntityID)
    else
      var e := Entity(
        Atoi(seg[1]).value, seg[2], Atoi(seg[3]).value, Atoi(seg[4]).value, seg[5],
        Demangle(seg[6]), Demangle(seg[7]), seg[8],
        "", "", "", "", NO_QOS);
      if seg[5] == NODE then (if |seg| != 9 then Err(NodeSegments) else Ok(e))
      else if !EndpointKind(seg[5]) then Err(UnknownKind)
      else if |seg| != 13 then Err(EndpointSegments)
      else
        match QoSFrom(seg[12])
        case Err(error) => Err(error)
        case Ok(qos) =>
          Ok(e.(topic := Demangle(seg[9]), ddsType := Demangle(seg[10]), ty := TypeFromDDS(Demangle(seg[10])),
                hash := Demangle(seg[11]), qos := qos))
  }

  /** The node or endpoint that was announced is read back, exactly if its names keep clear of the characters that
      the token itself uses. */
  method ParseToken(keyexpr: string) returns (r: Result<Entity, TokenError>)
    ensures r == EntityOf(Split(keyexpr, '/'))
    ensures forall e :: Announceable(e) && keyexpr == EndpointToken(e) ==>
      (r == Ok(EndpointEntity(e)) <==> Tokenable(e))
    ensures forall domain, zid, nid, eid, node ::
      IsInt(domain) && IsInt(nid) && IsInt(eid) && keyexpr == NodeToken(domain, zid, nid, eid, node) ==>
      (r == Ok(NodeEntity(domain, zid, nid, eid, node)) <==> Free(zid, '/') && Free(node, '/'))
  {
    TokensReadBack(keyexpr);
    hide Split, TypeFromDDS, Atoi, Tokenable, Free, NodeToken, EndpointToken, Demangle, QoSFrom;
    var seg := Split(keyexpr, '/');
    if |seg| < 9 || seg[0] != ADMIN_SPACE {
      return Err(NotAToken);
    }
    var domain := Atoi(seg[1]);
    if domain.None? {
      return Err(BadDomain);
    }
    var nid := Atoi(seg[3]);
    if nid.None? {
      return Err(BadNodeID);
    }
    var eid := Atoi(seg[4]);
    if eid.None? {
      return Err(BadEntityID);
    }
    var e := Entity(domain.value, seg[2], nid.value, eid.value, seg[5], Demangle(seg[6]), Demangle(seg[7]), seg[8], "",
      "", "", "", NO_QOS);
    if e.kind == NODE {
      if |seg| != 9 {
        return Err(NodeSegments);
      }
      return Ok(e);
    }
    if !EndpointKind(e.kind) {
      return Err(UnknownKind);
    }
    if |seg| != 13 {
      return Err(EndpointSegments);
    }
    e := e.(topic := Demangle(seg[9]));
    e := e.(ddsType := Demangle(seg[10]));
    e := e.(ty := TypeFromDDS(e.ddsType));
    e := e.(hash := Demangle(seg[11]));
    var qos := ParseQoSKeyexpr(seg[12]);
    if qos.Err? {
      return Err(qos.error);
    }
    e := e.(qos := qos.value);
    return Ok(e);
  }

  lemma PercentIsSlash()
    ensures Demangle("%") == "/"
  {
  }

  /** Every segment but the session's and the node's is free of slashes by itself. */
  lemma NodePartsFree(domain: int, zid: string, nid: int, eid: int, node: string)
    ensures AllFree(NodeParts(domain, zid, nid, eid, node), '/') <==> Free(zid, '/') && Free(node, '/')
  {
    hide Itoa;
    var parts := NodeParts(domain, zid, nid, eid, node);
    ItoaFree(domain, '/');
    ItoaFree(nid, '/');
    ItoaFree(eid, '/');
    assert parts[2] == zid && parts[8] == node;
    assert Free(ADMIN_SPACE, '/') && Free(NODE, '/') && Free("%", '/');
  }

  function NodeEntity(domain: int, zid: string, nid: int, eid: int, node: string): Entity {
    Entity(domain, zid, nid, eid, NODE, "/", "/", node, "", "", "", "", NO_QOS)
  }

  /** The parser reads back the token of a node exactly if neither session id nor node name has a slash in it. */
  lemma NodeTokenBack(domain: int, zid: string, nid: int, eid: int, node: string)
    requires IsInt(domain) && IsInt(nid) && IsInt(eid)
    ensures EntityOf(Split(NodeToken(domain, zid, nid, eid, node), '/')) == Ok(NodeEntity(domain, zid, nid, eid, node))
      <==> Free(zid, '/') && Free(node, '/')
  {
    hide Itoa, Atoi, Split, Join, Free, AllFree, Demangle, QoSFrom, TypeFromDDS;
    var parts := NodeParts(domain, zid, nid, eid, node);
    SplitJoin(parts, '/');
    NodePartsFree(domain, zid, nid, eid, node);
    AtoiItoa(domain);
    AtoiItoa(nid);
    AtoiItoa(eid);
    PercentIsSlash();
    var seg := Split(NodeToken(domain, zid, nid, eid, node), '/');
    NodeSegmentsNeeded(seg);
  }

  lemma NodeSegmentsNeeded(seg: seq<string>)
    ensures EntityOf(seg).Ok? ==> |seg| == (if EntityOf(seg).value.kind == NODE then 9 else 13)
  {
    hide Atoi, Demangle, QoSFrom, TypeFromDDS;
  }

  lemma EndpointPartsFree(e: Endpoint)
    requires EndpointKind(e.kind) && IsInt(e.qos.depth)
    ensures AllFree(EndpointParts(e), '/') <==> Free(e.zid, '/') && Free(e.node, '/')
  {
    hide Itoa, StripName, QoSKeyexpr, Mangle, Free, EndpointKind;
    var parts := EndpointParts(e);
    ConstantsFree(e.kind);
    ItoaFree(e.domain, '/');
    ItoaFree(e.nid, '/');
    ItoaFree(e.eid, '/');
    QoSRoundTrip(e.qos);
    MangledFree("/" + StripName(e.topic));
    MangledFree(e.ddsType);
    MangledFree(e.hash);
    assert parts[2] == e.zid && parts[8] == e.node;
  }

  lemma ConstantsFree(kind: string)
    requires EndpointKind(kind)
    ensures Free(ADMIN_SPACE, '/') && Free("%", '/') && Free(kind, '/')
  {
  }

  lemma MangledFree(s: string)
    ensures Free(Mangle(s), '/')
    ensures Demangle(Mangle(s)) == s <==> Free(s, '%')
  {
    ReplaceBack(s, '/', '%');
  }

  function EndpointEntity(e: Endpoint): Entity {
    Entity(
      e.domain, e.zid, e.nid, e.eid, e.kind, "/", "/", e.node,
      "/" + StripName(e.topic), e.ddsType, TypeFromDDS(e.ddsType), e.hash,
      e.qos.(name := ProfileOf(e.qos.reliability, e.qos.durability)))
  }

  /** No name has a character in it that would be taken for one the token itself has. */
  predicate Tokenable(e: Endpoint) {
    Free(e.zid, '/') && Free(e.node, '/') && Free(e.topic, '%') && Free(e.ddsType, '%') && Free(e.hash, '%')
  }

  /** The parser reads back the token of an endpoint exactly if no name has such a character in it; what it
      gives for the quality of service is its profile's name, whatever it was called. */
  lemma EndpointTokenBack(e: Endpoint)
    requires Announceable(e)
    ensures EntityOf(Split(EndpointToken(e), '/')) == Ok(EndpointEntity(e)) <==> Tokenable(e)
  {
    hide Itoa, Atoi, Split, Join, Free, AllFree, Demangle, Mangle, QoSFrom, QoSKeyexpr, TypeFromDDS, StripName;
    var parts := EndpointParts(e);
    SplitJoin(parts, '/');
    EndpointPartsFree(e);
    AtoiItoa(e.domain);
    AtoiItoa(e.nid);
    AtoiItoa(e.eid);
    PercentIsSlash();
    QoSRoundTrip(e.qos);
    TopicBack(e.topic);
    MangledFree(e.ddsType);
    MangledFree(e.hash);
    NodeSegmentsNeeded(Split(EndpointToken(e), '/'));
  }

  lemma TokensReadBack(keyexpr: string)
    ensures forall e :: Announceable(e) && keyexpr == EndpointToken(e) ==>
      (EntityOf(Split(keyexpr, '/')) == Ok(EndpointEntity(e)) <==> Tokenable(e))
    ensures forall domain, zid, nid, eid, node ::
      IsInt(domain) && IsInt(nid) && IsInt(eid) && keyexpr == NodeToken(domain, zid, nid, eid, node) ==>
      (EntityOf(Split(keyexpr, '/')) == Ok(NodeEntity(domain, zid, nid, eid, node)) <==>
        Free(zid, '/') && Free(node, '/'))
  {
    hide *;
    forall e | Announceable(e) && keyexpr == EndpointToken(e)
      ensures EntityOf(Split(keyexpr, '/')) == Ok(EndpointEntity(e)) <==> Tokenable(e)
    {
      EndpointTokenBack(e);
    }
    forall domain, zid, nid, eid, node |
      IsInt(domain) && IsInt(nid) && IsInt(eid) && keyexpr == NodeToken(domain, zid, nid, eid, node)
      ensures EntityOf(Split(keyexpr, '/')) == Ok(NodeEntity(domain, zid, nid, eid, node)) <==>
        Free(zid, '/') && Free(node, '/')
    {
      NodeTokenBack(domain, zid, nid, eid, node);
    }
  }
}
