/**
 * The messages of the federation and the stream they make. Each message is its type byte and a
 * body whose layout the type fixes; no length or separator stands between messages.
 */
module Messages {
  import opened Options
  import opened Tags
  import opened WireFormat

  const REJECT: Byte := 0
  const FED_IDS: Byte := 1
  const TIMESTAMP: Byte := 2
  const MESSAGE: Byte := 3
  const RESIGN: Byte := 4
  const TAGGED_MESSAGE: Byte := 5
  const NEXT_EVENT_TAG: Byte := 6
  const STOP_REQUEST: Byte := 10
  const STOP_REQUEST_REPLY: Byte := 11
  const STOP_GRANTED: Byte := 12
  const ADDRESS_QUERY: Byte := 13
  const ADDRESS_QUERY_REPLY: Byte := 14
  const ADDRESS_ADVERTISEMENT: Byte := 15
  const P2P_SENDING_FED_ID: Byte := 16
  const P2P_MESSAGE: Byte := 17
  const P2P_TAGGED_MESSAGE: Byte := 18
  const CLOCK_SYNC_T1: Byte := 19
  const CLOCK_SYNC_T3: Byte := 20
  const CLOCK_SYNC_T4: Byte := 21
  const CLOCK_SYNC_CODED_PROBE: Byte := 22
  const PORT_ABSENT: Byte := 23
  const NEIGHBOR_STRUCTURE: Byte := 24
  const FAILED: Byte := 25
  const DOWNSTREAM_NEXT_EVENT_TAG: Byte := 26
  const FED_NONCE: Byte := 100
  const RTI_RESPONSE: Byte := 101
  const FED_RESPONSE: Byte := 102
  const UDP_PORT: Byte := 254
  const ACK: Byte := 255

  const NONCE_LENGTH: nat := 8
  const HMAC_LENGTH: nat := 32

  datatype Message =
    | Signal(kind: Byte)
    | Reject(reason: Byte)
    | Timed(kind: Byte, time: int)
    | Tagged(kind: Byte, tag: Tag)
    | Number(kind: Byte, value: int)
    | FedIds(kind: Byte, federate: nat, federation: seq<Byte>)
    | AddressQuery(federate: nat)
    | AddressReply(port: int, address: nat)
    | Untagged(kind: Byte, destPort: nat, federate: nat, payload: seq<Byte>)
    | Payload(kind: Byte, destPort: nat, federate: nat, tag: Tag, payload: seq<Byte>)
    | PortAbsent(destPort: nat, federate: nat, tag: Tag)
    | Neighbors(upstream: seq<Upstream>, downstream: seq<nat>)
    | FedNonce(federate: nat, nonce: seq<Byte>)
    | RtiResponse(nonce: seq<Byte>, hmac: seq<Byte>)
    | FedResponse(hmac: seq<Byte>)

  predicate SignalKind(k: Byte) { k == RESIGN || k == FAILED || k == ACK }
  predicate TimedKind(k: Byte) { k == TIMESTAMP || k == CLOCK_SYNC_T1 || k == CLOCK_SYNC_T4 || k == CLOCK_SYNC_CODED_PROBE }
  predicate TaggedKind(k: Byte) { NEXT_EVENT_TAG <= k <= STOP_GRANTED || k == DOWNSTREAM_NEXT_EVENT_TAG }
  predicate NumberKind(k: Byte) { k == ADDRESS_ADVERTISEMENT || k == CLOCK_SYNC_T3 || k == UDP_PORT }
  predicate FedIdsKind(k: Byte) { k == FED_IDS || k == P2P_SENDING_FED_ID }
  predicate UntaggedKind(k: Byte) { k == MESSAGE || k == P2P_MESSAGE }
  predicate PayloadKind(k: Byte) { k == TAGGED_MESSAGE || k == P2P_TAGGED_MESSAGE }

  predicate AuthenticationKind(k: Byte) { FED_NONCE <= k <= FED_RESPONSE }

  /** The messages the layouts can carry: each field fits its width, each type is of its layout. */
  predicate WellFormed(m: Message) {
    match m
    case Signal(k) => SignalKind(k)
    case Reject(_) => true
    case Timed(k, x) => TimedKind(k) && FitsSigned(x, 8)
    case Tagged(k, t) => TaggedKind(k) && FitsTag(t)
    case Number(k, x) => NumberKind(k) && FitsSigned(x, 4)
    case FedIds(k, f, name) => FedIdsKind(k) && FitsUnsigned(f, 2) && FitsUnsigned(|name|, 1)
    case AddressQuery(f) => FitsUnsigned(f, 2)
    case AddressReply(p, a) => FitsSigned(p, 4) && FitsUnsigned(a, 4)
    case Untagged(k, p, f, bytes) => UntaggedKind(k) && FitsHeader(p, f, |bytes|)
    case Payload(k, p, f, t, bytes) => PayloadKind(k) && FitsHeader(p, f, |bytes|) && FitsTag(t)
    case PortAbsent(p, f, t) => FitsUnsigned(p, 2) && FitsUnsigned(f, 2) && FitsTag(t)
    case Neighbors(us, ds) =>
      && FitsSigned(|us|, 4) && FitsSigned(|ds|, 4)
      && (forall i :: 0 <= i < |us| ==> FitsUpstream(us[i]))
      && (forall i :: 0 <= i < |ds| ==> FitsUnsigned(ds[i], 2))
    case FedNonce(f, nonce) => FitsUnsigned(f, 2) && |nonce| == NONCE_LENGTH
    case RtiResponse(nonce, hmac) => |nonce| == NONCE_LENGTH && |hmac| == HMAC_LENGTH
    case FedResponse(hmac) => |hmac| == HMAC_LENGTH
  }

  predicate FitsHeader(port: nat, federate: nat, length: nat) {
    FitsUnsigned(port, 2) && FitsUnsigned(federate, 2) && FitsUnsigned(length, 4)
  }

  // ---------- Layouts ----------

  function Kind(m: Message): Byte {
    match m
    case Reject(_) => REJECT
    case AddressQuery(_) => ADDRESS_QUERY
    case AddressReply(_, _) => ADDRESS_QUERY_REPLY
    case PortAbsent(_, _, _) => PORT_ABSENT
    case Neighbors(_, _) => NEIGHBOR_STRUCTURE
    case FedNonce(_, _) => FED_NONCE
    case RtiResponse(_, _) => RTI_RESPONSE
    case FedResponse(_) => FED_RESPONSE
    case _ => m.kind
  }

  /** Destination port, destination federate and length of what follows. */
  function PutHeader(port: nat, federate: nat, length: nat, rest: seq<Byte>): (b: seq<Byte>)
    ensures FitsHeader(port, federate, length) ==> GetHeader(b) == Some(((port, federate, length), rest))
    ensures |b| == 8 + |rest|
  {
    Put(port, 2, Put(federate, 2, Put(length, 4, rest)))
  }

  function GetHeader(b: seq<Byte>): (r: Option<((nat, nat, nat), seq<Byte>)>)
    ensures r.None? <==> |b| < 8
  {
    if |b| < 8 then None else
    var (port, b1) := Get(b, 2).value;
    var (federate, b2) := Get(b1, 2).value;
    var (length, b3) := Get(b2, 4).value;
    Some(((port, federate, length), b3))
  }

  lemma GetHeaderIsPut(b: seq<Byte>)
    requires 8 <= |b|
    ensures var ((port, federate, length), rest) := GetHeader(b).value;
            FitsHeader(port, federate, length) && b == PutHeader(port, federate, length, rest)
  {
    var (_, b1) := Get(b, 2).value;
    var (_, b2) := Get(b1, 2).value;
    GetIsPut(b, 2);
    GetIsPut(b1, 2);
    GetIsPut(b2, 4);
  }

  /** The counts of both neighbor lists, then the lists. */
  function PutNeighbors(us: seq<Upstream>, ds: seq<nat>, rest: seq<Byte>): seq<Byte> {
    PutSigned(|us|, 4, PutSigned(|ds|, 4, PutUpstreams(us, PutIds(ds, rest))))
  }

  function GetNeighbors(b: seq<Byte>): Option<(Message, seq<Byte>)> {
    var n := GetSigned(b, 4);
    if n.None? || n.value.0 < 0 then None else
    var m := GetSigned(n.value.1, 4);
    if m.None? || m.value.0 < 0 then None else
    var us := GetUpstreams(m.value.1, n.value.0);
    if us.None? then None else
    var ds := GetIds(us.value.1, m.value.0);
    if ds.None? then None else Some((Neighbors(us.value.0, ds.value.0), ds.value.1))
  }

  function PutBody(m: Message, rest: seq<Byte>): seq<Byte> {
    match m
    case Signal(_) => rest
    case Reject(reason) => [reason] + rest
    case Timed(_, x) => PutSigned(x, 8, rest)
    case Tagged(_, t) => PutTag(t, rest)
    case Number(_, x) => PutSigned(x, 4, rest)
    case FedIds(_, f, name) => Put(f, 2, Put(|name|, 1, name + rest))
    case AddressQuery(f) => Put(f, 2, rest)
    case AddressReply(p, a) => PutSigned(p, 4, Put(a, 4, rest))
    case Untagged(_, p, f, bytes) => PutHeader(p, f, |bytes|, bytes + rest)
    case Payload(_, p, f, t, bytes) => PutHeader(p, f, |bytes|, PutTag(t, bytes + rest))
    case PortAbsent(p, f, t) => Put(p, 2, Put(f, 2, PutTag(t, rest)))
    case Neighbors(us, ds) => PutNeighbors(us, ds, rest)
    case FedNonce(f, nonce) => Put(f, 2, nonce + rest)
    case RtiResponse(nonce, hmac) => nonce + (hmac + rest)
    case FedResponse(hmac) => hmac + rest
  }

  /** A message in front of the rest of the stream. */
  function EncodeOnto(m: Message, rest: seq<Byte>): seq<Byte> {
    [Kind(m)] + PutBody(m, rest)
  }

  function Encode(m: Message): seq<Byte> {
    EncodeOnto(m, [])
  }

  function GetFedIds(k: Byte, b: seq<Byte>): Option<(Message, seq<Byte>)> {
    if |b| < 3 then None else
    var (f, b1) := Get(b, 2).value;
    var (n, b2) := Get(b1, 1).value;
    var name := GetBytes(b2, n);
    if name.None? then None else Some((FedIds(k, f, name.value.0), name.value.1))
  }

  function GetUntagged(k: Byte, b: seq<Byte>): Option<(Message, seq<Byte>)> {
    if |b| < 8 then None else
    var ((p, f, n), b1) := GetHeader(b).value;
    var bytes := GetBytes(b1, n);
    if bytes.None? then None else Some((Untagged(k, p, f, bytes.value.0), bytes.value.1))
  }

  function GetPayload(k: Byte, b: seq<Byte>): Option<(Message, seq<Byte>)> {
    if |b| < 20 then None else
    var ((p, f, n), b1) := GetHeader(b).value;
    var (t, b2) := GetTag(b1).value;
    var bytes := GetBytes(b2, n);
    if bytes.None? then None else Some((Payload(k, p, f, t, bytes.value.0), bytes.value.1))
  }

  function GetPortAbsent(b: seq<Byte>): Option<(Message, seq<Byte>)> {
    if |b| < 16 then None else
    var (p, b1) := Get(b, 2).value;
    var (f, b2) := Get(b1, 2).value;
    var (t, b3) := GetTag(b2).value;
    Some((PortAbsent(p, f, t), b3))
  }

  function GetAddressReply(b: seq<Byte>): Option<(Message, seq<Byte>)> {
    if |b| < 8 then None else
    var (p, b1) := GetSigned(b, 4).value;
    var (a, b2) := Get(b1, 4).value;
    Some((AddressReply(p, a), b2))
  }

  /** The messages that authenticate a federate and the RTI to each other. */
  function GetAuthentication(k: Byte, b: seq<Byte>): Option<(Message, seq<Byte>)> {
    if k == FED_NONCE then
      if |b| < 2 + NONCE_LENGTH then None else
      var (f, b1) := Get(b, 2).value;
      var (nonce, b2) := GetBytes(b1, NONCE_LENGTH).value;
      Some((FedNonce(f, nonce), b2))
    else if k == RTI_RESPONSE then
      if |b| < NONCE_LENGTH + HMAC_LENGTH then None else
      var (nonce, b1) := GetBytes(b, NONCE_LENGTH).value;
      var (hmac, b2) := GetBytes(b1, HMAC_LENGTH).value;
      Some((RtiResponse(nonce, hmac), b2))
    else if k == FED_RESPONSE then
      if |b| < HMAC_LENGTH then None else
      var (hmac, b1) := GetBytes(b, HMAC_LENGTH).value;
      Some((FedResponse(hmac), b1))
    else None
  }

  /** The bodies that are one number or one tag. */
  function GetScalar(k: Byte, b: seq<Byte>): Option<(Message, seq<Byte>)> {
    if TimedKind(k) then
      if |b| < 8 then None else var (x, rest) := GetSigned(b, 8).value; Some((Timed(k, x), rest))
    else if TaggedKind(k) then
      if |b| < 12 then None else var (t, rest) := GetTag(b).value; Some((Tagged(k, t), rest))
    else if NumberKind(k) then
      if |b| < 4 then None else var (x, rest) := GetSigned(b, 4).value; Some((Number(k, x), rest))
    else if k == ADDRESS_QUERY then
      if |b| < 2 then None else var (f, rest) := Get(b, 2).value; Some((AddressQuery(f), rest))
    else if k == REJECT then
      if b == [] then None else Some((Reject(b[0]), b[1..]))
    else if SignalKind(k) then Some((Signal(k), b))
    else None
  }

  function GetRecord(k: Byte, b: seq<Byte>): Option<(Message, seq<Byte>)> {
    if FedIdsKind(k) then GetFedIds(k, b)
    else if k == ADDRESS_QUERY_REPLY then GetAddressReply(b)
    else if UntaggedKind(k) then GetUntagged(k, b)
    else if PayloadKind(k) then GetPayload(k, b)
    else if k == PORT_ABSENT then GetPortAbsent(b)
    else if k == NEIGHBOR_STRUCTURE then GetNeighbors(b)
    else None
  }

  predicate RecordKind(k: Byte) {
    || FedIdsKind(k) || k == ADDRESS_QUERY_REPLY || UntaggedKind(k) || PayloadKind(k)
    || k == PORT_ABSENT || k == NEIGHBOR_STRUCTURE
  }

  /** The first message of a stream and what follows it; None when no message is complete. */
  function Parse(b: seq<Byte>): Option<(Message, seq<Byte>)> {
    if b == [] then None
    else if AuthenticationKind(b[0]) then GetAuthentication(b[0], b[1..])
    else if RecordKind(b[0]) then GetRecord(b[0], b[1..])
    else GetScalar(b[0], b[1..])
  }

  // ---------- One message ----------

  lemma NeighborsRoundTrip(us: seq<Upstream>, ds: seq<nat>, rest: seq<Byte>)
    requires WellFormed(Neighbors(us, ds))
    ensures GetNeighbors(PutNeighbors(us, ds, rest)) == Some((Neighbors(us, ds), rest))
  {
    UpstreamsRoundTrip(us, PutIds(ds, rest));
    IdsRoundTrip(ds, rest);
  }

  lemma PayloadRoundTrip(k: Byte, p: nat, f: nat, t: Tag, bytes: seq<Byte>, rest: seq<Byte>)
    requires WellFormed(Payload(k, p, f, t, bytes))
    ensures GetPayload(k, PutBody(Payload(k, p, f, t, bytes), rest))
            == Some((Payload(k, p, f, t, bytes), rest))
  {
    assert GetBytes(PutBytes(bytes, rest), |bytes|) == Some((bytes, rest));
  }

  lemma UntaggedRoundTrip(k: Byte, p: nat, f: nat, bytes: seq<Byte>, rest: seq<Byte>)
    requires WellFormed(Untagged(k, p, f, bytes))
    ensures GetUntagged(k, PutBody(Untagged(k, p, f, bytes), rest))
            == Some((Untagged(k, p, f, bytes), rest))
  {
    assert GetBytes(PutBytes(bytes, rest), |bytes|) == Some((bytes, rest));
  }

  lemma FedIdsRoundTrip(k: Byte, f: nat, name: seq<Byte>, rest: seq<Byte>)
    requires WellFormed(FedIds(k, f, name))
    ensures GetFedIds(k, PutBody(FedIds(k, f, name), rest)) == Some((FedIds(k, f, name), rest))
  {
    assert GetBytes(PutBytes(name, rest), |name|) == Some((name, rest));
  }

  lemma AuthenticationRoundTrip(m: Message, rest: seq<Byte>)
    requires WellFormed(m) && AuthenticationKind(Kind(m))
    ensures GetAuthentication(Kind(m), PutBody(m, rest)) == Some((m, rest))
  {
    match m
    case FedNonce(f, nonce) =>
      assert GetBytes(PutBytes(nonce, rest), NONCE_LENGTH) == Some((nonce, rest));
    case RtiResponse(nonce, hmac) =>
      assert GetBytes(PutBytes(hmac, rest), HMAC_LENGTH) == Some((hmac, rest));
      assert GetBytes(PutBytes(nonce, hmac + rest), NONCE_LENGTH) == Some((nonce, hmac + rest));
    case FedResponse(hmac) =>
      assert GetBytes(PutBytes(hmac, rest), HMAC_LENGTH) == Some((hmac, rest));
  }

  lemma ScalarRoundTrip(m: Message, rest: seq<Byte>)
    requires WellFormed(m) && !RecordKind(Kind(m)) && !AuthenticationKind(Kind(m))
    ensures GetScalar(Kind(m), PutBody(m, rest)) == Some((m, rest))
  {
  }

  lemma RecordRoundTrip(m: Message, rest: seq<Byte>)
    requires WellFormed(m) && RecordKind(Kind(m))
    ensures GetRecord(Kind(m), PutBody(m, rest)) == Some((m, rest))
  {
    match m {
      case FedIds(k, f, name) => FedIdsRoundTrip(k, f, name, rest);
      case Untagged(k, p, f, bytes) => UntaggedRoundTrip(k, p, f, bytes, rest);
      case Payload(k, p, f, t, bytes) => PayloadRoundTrip(k, p, f, t, bytes, rest);
      case Neighbors(us, ds) => NeighborsRoundTrip(us, ds, rest);
      case _ =>
    }
  }

  /** What is encoded is read back, with everything behind it untouched. */
  lemma RoundTrip(m: Message, rest: seq<Byte>)
    requires WellFormed(m)
    ensures Parse(EncodeOnto(m, rest)) == Some((m, rest))
  {
    assert EncodeOnto(m, rest)[1..] == PutBody(m, rest);
    if AuthenticationKind(Kind(m)) {
      AuthenticationRoundTrip(m, rest);
    } else if RecordKind(Kind(m)) {
      RecordRoundTrip(m, rest);
    } else {
      ScalarRoundTrip(m, rest);
    }
  }

  // ---------- Nothing but encodings is read ----------

  lemma NeighborsArePut(b: seq<Byte>)
    requires GetNeighbors(b).Some?
    ensures var (m, rest) := GetNeighbors(b).value;
            WellFormed(m) && m.Neighbors? && b == PutBody(m, rest)
  {
    var (n, b1) := GetSigned(b, 4).value;
    var (k, b2) := GetSigned(b1, 4).value;
    var (_, b3) := GetUpstreams(b2, n).value;
    GetSignedIsPut(b, 4);
    GetSignedIsPut(b1, 4);
    GetUpstreamsIsPut(b2, n);
    GetIdsIsPut(b3, k);
  }

  lemma ScalarIsPut(k: Byte, b: seq<Byte>)
    requires GetScalar(k, b).Some?
    ensures var (m, rest) := GetScalar(k, b).value;
            WellFormed(m) && Kind(m) == k && b == PutBody(m, rest)
  {
    if TimedKind(k) {
      GetSignedIsPut(b, 8);
    } else if TaggedKind(k) {
      GetTagIsPut(b);
    } else if NumberKind(k) {
      GetSignedIsPut(b, 4);
    } else if k == ADDRESS_QUERY {
      GetIsPut(b, 2);
    }
  }

  lemma AuthenticationIsPut(k: Byte, b: seq<Byte>)
    requires GetAuthentication(k, b).Some?
    ensures var (m, rest) := GetAuthentication(k, b).value;
            WellFormed(m) && Kind(m) == k && b == PutBody(m, rest)
  {
    if k == FED_NONCE {
      GetIsPut(b, 2);
    }
  }

  lemma PayloadIsPut(k: Byte, b: seq<Byte>)
    requires PayloadKind(k) && GetPayload(k, b).Some?
    ensures var (m, rest) := GetPayload(k, b).value;
            WellFormed(m) && Kind(m) == k && b == PutBody(m, rest)
  {
    var (_, b1) := GetHeader(b).value;
    GetHeaderIsPut(b);
    GetTagIsPut(b1);
  }

  lemma UntaggedIsPut(k: Byte, b: seq<Byte>)
    requires UntaggedKind(k) && GetUntagged(k, b).Some?
    ensures var (m, rest) := GetUntagged(k, b).value;
            WellFormed(m) && Kind(m) == k && b == PutBody(m, rest)
  {
    GetHeaderIsPut(b);
  }

  lemma FedIdsIsPut(k: Byte, b: seq<Byte>)
    requires FedIdsKind(k) && GetFedIds(k, b).Some?
    ensures var (m, rest) := GetFedIds(k, b).value;
            WellFormed(m) && Kind(m) == k && b == PutBody(m, rest)
  {
    GetIsPut(b, 2);
    GetIsPut(Get(b, 2).value.1, 1);
  }

  lemma PortAbsentIsPut(b: seq<Byte>)
    requires GetPortAbsent(b).Some?
    ensures var (m, rest) := GetPortAbsent(b).value;
            WellFormed(m) && m.PortAbsent? && b == PutBody(m, rest)
  {
    var (_, b1) := Get(b, 2).value;
    var (_, b2) := Get(b1, 2).value;
    GetIsPut(b, 2);
    GetIsPut(b1, 2);
    GetTagIsPut(b2);
  }

  lemma AddressReplyIsPut(b: seq<Byte>)
    requires GetAddressReply(b).Some?
    ensures var (m, rest) := GetAddressReply(b).value;
            WellFormed(m) && m.AddressReply? && b == PutBody(m, rest)
  {
    GetSignedIsPut(b, 4);
    GetIsPut(GetSigned(b, 4).value.1, 4);
  }

  lemma RecordIsPut(k: Byte, b: seq<Byte>)
    requires GetRecord(k, b).Some?
    ensures var (m, rest) := GetRecord(k, b).value;
            WellFormed(m) && Kind(m) == k && b == PutBody(m, rest)
  {
    if FedIdsKind(k) {
      FedIdsIsPut(k, b);
    } else if k == ADDRESS_QUERY_REPLY {
      AddressReplyIsPut(b);
    } else if UntaggedKind(k) {
      UntaggedIsPut(k, b);
    } else if PayloadKind(k) {
      PayloadIsPut(k, b);
    } else if k == PORT_ABSENT {
      PortAbsentIsPut(b);
    } else {
      NeighborsArePut(b);
    }
  }

  /** The parser accepts exactly the encodings of well-formed messages, each in one way. */
  lemma ParsesExactlyEncodings(b: seq<Byte>, m: Message, rest: seq<Byte>)
    ensures Parse(b) == Some((m, rest)) <==> WellFormed(m) && b == EncodeOnto(m, rest)
  {
    if Parse(b) == Some((m, rest)) {
      if AuthenticationKind(b[0]) {
        AuthenticationIsPut(b[0], b[1..]);
      } else if RecordKind(b[0]) {
        RecordIsPut(b[0], b[1..]);
      } else {
        ScalarIsPut(b[0], b[1..]);
      }
    }
    if WellFormed(m) {
      RoundTrip(m, rest);
    }
  }

  // ---------- Streams ----------

  lemma {:induction false} UpstreamsAppend(us: seq<Upstream>, a: seq<Byte>, b: seq<Byte>)
    ensures PutUpstreams(us, a + b) == PutUpstreams(us, a) + b
  {
    if us != [] {
      var more := PutUpstreams(us[1..], a);
      UpstreamsAppend(us[1..], a, b);
      PutAppends(ToUnsigned(us[0].delay, 8), 8, more, b);
      PutAppends(us[0].id, 2, PutSigned(us[0].delay, 8, more), b);
    }
  }

  lemma {:induction false} IdsAppend(ids: seq<nat>, a: seq<Byte>, b: seq<Byte>)
    ensures PutIds(ids, a + b) == PutIds(ids, a) + b
  {
    if ids != [] {
      IdsAppend(ids[1..], a, b);
      PutAppends(ids[0], 2, PutIds(ids[1..], a), b);
    }
  }

  lemma HeaderAppends(port: nat, federate: nat, length: nat, a: seq<Byte>, b: seq<Byte>)
    ensures PutHeader(port, federate, length, a + b) == PutHeader(port, federate, length, a) + b
  {
    PutAppends(length, 4, a, b);
    PutAppends(federate, 2, Put(length, 4, a), b);
    PutAppends(port, 2, Put(federate, 2, Put(length, 4, a)), b);
  }

  lemma NeighborsAppend(us: seq<Upstream>, ds: seq<nat>, a: seq<Byte>, b: seq<Byte>)
    ensures PutNeighbors(us, ds, a + b) == PutNeighbors(us, ds, a) + b
  {
    var lists := PutUpstreams(us, PutIds(ds, a));
    IdsAppend(ds, a, b);
    UpstreamsAppend(us, PutIds(ds, a), b);
    PutAppends(ToUnsigned(|ds|, 4), 4, lists, b);
    PutAppends(ToUnsigned(|us|, 4), 4, PutSigned(|ds|, 4, lists), b);
  }

  lemma BodiesAppend(m: Message, a: seq<Byte>, b: seq<Byte>)
    ensures PutBody(m, a + b) == PutBody(m, a) + b
  {
    match m {
      case Signal(_) =>
      case Reject(reason) => assert [reason] + (a + b) == [reason] + a + b;
      case Timed(_, x) => PutAppends(ToUnsigned(x, 8), 8, a, b);
      case Tagged(_, t) => PutTagAppends(t, a, b);
      case Number(_, x) => PutAppends(ToUnsigned(x, 4), 4, a, b);
      case FedIds(_, f, name) =>
        assert name + (a + b) == name + a + b;
        PutAppends(|name|, 1, name + a, b);
        PutAppends(f, 2, Put(|name|, 1, name + a), b);
      case AddressQuery(f) => PutAppends(f, 2, a, b);
      case AddressReply(p, address) =>
        PutAppends(address, 4, a, b);
        PutAppends(ToUnsigned(p, 4), 4, Put(address, 4, a), b);
      case Untagged(_, p, f, bytes) =>
        assert bytes + (a + b) == bytes + a + b;
        HeaderAppends(p, f, |bytes|, bytes + a, b);
      case Payload(_, p, f, t, bytes) =>
        assert bytes + (a + b) == bytes + a + b;
        PutTagAppends(t, bytes + a, b);
        HeaderAppends(p, f, |bytes|, PutTag(t, bytes + a), b);
      case PortAbsent(p, f, t) =>
        PutTagAppends(t, a, b);
        PutAppends(f, 2, PutTag(t, a), b);
        PutAppends(p, 2, Put(f, 2, PutTag(t, a)), b);
      case Neighbors(us, ds) => NeighborsAppend(us, ds, a, b);
      case FedNonce(f, nonce) =>
        Associates(nonce, a, b);
        PutAppends(f, 2, nonce + a, b);
      case RtiResponse(nonce, hmac) =>
        Associates(hmac, a, b);
        Associates(nonce, hmac + a, b);
      case FedResponse(hmac) => Associates(hmac, a, b);
    }
  }

  lemma EncodingsAppend(m: Message, a: seq<Byte>, b: seq<Byte>)
    ensures EncodeOnto(m, a + b) == EncodeOnto(m, a) + b
  {
    BodiesAppend(m, a, b);
  }

  function EncodeAll(ms: seq<Message>): seq<Byte> {
    if ms == [] then [] else Encode(ms[0]) + EncodeAll(ms[1..])
  }

  lemma RestIsShorter(b: seq<Byte>)
    requires Parse(b).Some?
    ensures |Parse(b).value.1| < |b|
  {
    var (m, rest) := Parse(b).value;
    ParsesExactlyEncodings(b, m, rest);
    EncodingsAppend(m, [], rest);
    assert [] + rest == rest;
  }

  /** Every complete message of the bytes received so far, and the bytes left over. */
  function Receive(b: seq<Byte>): (seq<Message>, seq<Byte>)
    decreases |b|
  {
    match Parse(b)
    case None => ([], b)
    case Some((m, rest)) =>
      RestIsShorter(b);
      var (ms, left) := Receive(rest);
      ([m] + ms, left)
  }

  /**
   * What is received is what was sent: messages and leftover are the result exactly when the
   * bytes are the messages' encodings followed by bytes that hold no complete message.
   */
  lemma {:induction false} ReceivesExactlyTheStream(b: seq<Byte>, ms: seq<Message>, left: seq<Byte>)
    ensures Receive(b) == (ms, left) <==>
            && (forall i :: 0 <= i < |ms| ==> WellFormed(ms[i]))
            && b == EncodeAll(ms) + left
            && Parse(left).None?
    decreases |b|
  {
    if ms == [] {
      assert [] + left == left;
    } else {
      var m, rest := ms[0], EncodeAll(ms[1..]) + left;
      assert EncodeAll(ms) + left == Encode(m) + rest;
      assert [] + rest == rest;
      EncodingsAppend(m, [], rest);
      ParsesExactlyEncodings(b, m, rest);
      if Parse(b).Some? {
        RestIsShorter(b);
        ReceivesExactlyTheStream(Parse(b).value.1, ms[1..], left);
        var (m', rest') := Parse(b).value;
        ParsesExactlyEncodings(b, m', rest');
        assert ms == [m] + ms[1..];
      }
    }
  }

  lemma Associates(a: seq<Byte>, b: seq<Byte>, c: seq<Byte>)
    ensures a + (b + c) == a + b + c
  {
  }

  lemma {:induction false} EncodeAllAppends(ms: seq<Message>, more: seq<Message>)
    ensures EncodeAll(ms + more) == EncodeAll(ms) + EncodeAll(more)
  {
    if ms == [] {
      assert [] + more == more;
      assert [] + EncodeAll(more) == EncodeAll(more);
    } else {
      var a, b, c := Encode(ms[0]), EncodeAll(ms[1..]), EncodeAll(more);
      calc {
        EncodeAll(ms + more);
        { assert ms + more == [ms[0]] + (ms[1..] + more); EncodeAllOfCons(ms[0], ms[1..] + more); }
        a + EncodeAll(ms[1..] + more);
        { EncodeAllAppends(ms[1..], more); }
        a + (b + c);
        { Associates(a, b, c); }
        a + b + c;
      }
    }
  }

  lemma EncodeAllOfCons(m: Message, ms: seq<Message>)
    ensures EncodeAll([m] + ms) == Encode(m) + EncodeAll(ms)
  {
    assert ([m] + ms)[1..] == ms;
  }

  lemma PiecesJoin(a: seq<Byte>, b: seq<Byte>, ms: seq<Message>, left: seq<Byte>,
                   more: seq<Message>, end: seq<Byte>)
    requires Receive(a) == (ms, left) && Receive(left + b) == (more, end)
    ensures Receive(a + b) == (ms + more, end)
  {
    ReceivesExactlyTheStream(a, ms, left);
    ReceivesExactlyTheStream(left + b, more, end);
    EncodeAllAppends(ms, more);
    Associates(EncodeAll(ms), left, b);
    Associates(EncodeAll(ms), EncodeAll(more), end);
    ReceivesExactlyTheStream(a + b, ms + more, end);
  }

  /**
   * Bytes may arrive in any pieces: receiving a piece and later the leftover with the next
   * piece gives the messages that receiving both at once gives.
   */
  lemma PiecesDoNotMatter(a: seq<Byte>, b: seq<Byte>)
    ensures var (ms, left) := Receive(a);
            var (more, end) := Receive(left + b);
            Receive(a + b) == (ms + more, end)
  {
    var (ms, left) := Receive(a);
    var (more, end) := Receive(left + b);
    PiecesJoin(a, b, ms, left, more, end);
  }

  /** A message cut short is not taken for another message. */
  lemma CutMessagesWait(m: Message, b: seq<Byte>, missing: seq<Byte>)
    requires WellFormed(m) && Encode(m) == b + missing && missing != []
    ensures Parse(b).None?
  {
    if Parse(b).Some? {
      var (m', rest) := Parse(b).value;
      ParsesExactlyEncodings(b, m', rest);
      EncodingsAppend(m', rest, missing);
      ParsesExactlyEncodings(b + missing, m', rest + missing);
      ParsesExactlyEncodings(b + missing, m, []);
      assert false;
    }
  }

  /** Sent messages followed by the beginning of another come out whole and in order. */
  lemma StreamRoundTrip(ms: seq<Message>, m: Message, begun: seq<Byte>, missing: seq<Byte>)
    requires forall i :: 0 <= i < |ms| ==> WellFormed(ms[i])
    requires WellFormed(m) && Encode(m) == begun + missing && missing != []
    ensures Receive(EncodeAll(ms) + begun) == (ms, begun)
  {
    CutMessagesWait(m, begun, missing);
    ReceivesExactlyTheStream(EncodeAll(ms) + begun, ms, begun);
  }
}
