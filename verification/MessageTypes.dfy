/** Which layout each message type has, and the widths of the fields, written out in numbers. */
module MessageTypes {
  import opened Options
  import opened Tags
  import opened WireFormat
  import opened Messages

  /** The integers that one, two, four and eight bytes hold. */
  lemma Widths(u: int)
    ensures FitsUnsigned(u, 1) <==> 0 <= u < 256
    ensures FitsUnsigned(u, 2) <==> 0 <= u < 65536
    ensures FitsUnsigned(u, 4) <==> 0 <= u < 4294967296
    ensures FitsSigned(u, 4) <==> -2147483648 <= u < 2147483648
    ensures FitsSigned(u, 8) <==> -9223372036854775808 <= u < 9223372036854775808
  {
    assert Power(1) == 256 && Power(2) == 65536 && Power(4) == 4294967296;
    assert Power(8) == 18446744073709551616;
  }

  /** 255, 4 and 25 are acknowledgment, resignation and failure, without payload. */
  lemma Signals(k: Byte, rest: seq<Byte>)
    requires k == 255 || k == 4 || k == 25
    ensures Parse([k] + rest) == Some((Signal(k), rest))
  {
    RoundTrip(Signal(k), rest);
  }

  /** 0 is a rejection with one byte of reason. */
  lemma Rejections(reason: Byte, rest: seq<Byte>)
    ensures Parse([0, reason] + rest) == Some((Reject(reason), rest))
  {
    assert EncodeOnto(Reject(reason), rest) == [0, reason] + rest;
    RoundTrip(Reject(reason), rest);
  }

  /** 2, 19, 21 and 22 are the timestamp and clock synchronisation messages with 8 bytes of time. */
  lemma Times(k: Byte, time: int, rest: seq<Byte>)
    requires (k == 2 || k == 19 || k == 21 || k == 22) && FitsSigned(time, 8)
    ensures Parse([k] + PutSigned(time, 8, rest)) == Some((Timed(k, time), rest))
  {
    RoundTrip(Timed(k, time), rest);
  }

  /** 6 to 12 and 26 are next event tags, grants, confirmations and stop messages with a tag. */
  lemma TagMessages(k: Byte, tag: Tag, rest: seq<Byte>)
    requires (k == 6 || k == 7 || k == 8 || k == 9 || k == 10 || k == 11 || k == 12 || k == 26) && FitsTag(tag)
    ensures Parse([k] + PutTag(tag, rest)) == Some((Tagged(k, tag), rest))
  {
    RoundTrip(Tagged(k, tag), rest);
  }

  /** 15, 20 and 254 are a port, a federate and a UDP port in 4 bytes. */
  lemma Numbers(k: Byte, value: int, rest: seq<Byte>)
    requires (k == 15 || k == 20 || k == 254) && FitsSigned(value, 4)
    ensures Parse([k] + PutSigned(value, 4, rest)) == Some((Number(k, value), rest))
  {
    RoundTrip(Number(k, value), rest);
  }

  /** 1 and 16 introduce a federate: ID, length and federation ID. */
  lemma Introductions(k: Byte, federate: nat, federation: seq<Byte>, rest: seq<Byte>)
    requires (k == 1 || k == 16) && FitsUnsigned(federate, 2) && |federation| < 256
    ensures Parse([k] + Put(federate, 2, Put(|federation|, 1, federation + rest)))
            == Some((FedIds(k, federate, federation), rest))
  {
    Widths(|federation|);
    RoundTrip(FedIds(k, federate, federation), rest);
  }

  /** 13 asks for an address, 14 is the reply with port and address. */
  lemma Addresses(federate: nat, port: int, address: nat, rest: seq<Byte>)
    requires FitsUnsigned(federate, 2) && FitsSigned(port, 4) && FitsUnsigned(address, 4)
    ensures Parse([13] + Put(federate, 2, rest)) == Some((AddressQuery(federate), rest))
    ensures Parse([14] + PutSigned(port, 4, Put(address, 4, rest))) == Some((AddressReply(port, address), rest))
  {
    RoundTrip(AddressQuery(federate), rest);
    RoundTrip(AddressReply(port, address), rest);
  }

  /** 3 and 17 carry a payload for a port, 5 and 18 a payload with a tag. */
  lemma Payloads(k: Byte, port: nat, federate: nat, tag: Tag, bytes: seq<Byte>, rest: seq<Byte>)
    requires FitsUnsigned(port, 2) && FitsUnsigned(federate, 2) && FitsUnsigned(|bytes|, 4) && FitsTag(tag)
    ensures k == 3 || k == 17 ==>
              Parse([k] + Put(port, 2, Put(federate, 2, Put(|bytes|, 4, bytes + rest))))
              == Some((Untagged(k, port, federate, bytes), rest))
    ensures k == 5 || k == 18 ==>
              Parse([k] + Put(port, 2, Put(federate, 2, Put(|bytes|, 4, PutTag(tag, bytes + rest)))))
              == Some((Payload(k, port, federate, tag, bytes), rest))
  {
    if k == 3 || k == 17 {
      RoundTrip(Untagged(k, port, federate, bytes), rest);
    }
    if k == 5 || k == 18 {
      RoundTrip(Payload(k, port, federate, tag, bytes), rest);
    }
  }

  /** 23 says that a port is absent at a tag. */
  lemma Absences(port: nat, federate: nat, tag: Tag, rest: seq<Byte>)
    requires FitsUnsigned(port, 2) && FitsUnsigned(federate, 2) && FitsTag(tag)
    ensures Parse([23] + Put(port, 2, Put(federate, 2, PutTag(tag, rest)))) == Some((PortAbsent(port, federate, tag), rest))
  {
    RoundTrip(PortAbsent(port, federate, tag), rest);
  }

  /** 24 is the neighbor structure: both counts, the upstream pairs and the downstream IDs. */
  lemma NeighborStructures(us: seq<Upstream>, ds: seq<nat>, rest: seq<Byte>)
    requires |us| < 2147483648 && |ds| < 2147483648
    requires forall i :: 0 <= i < |us| ==> FitsUnsigned(us[i].id, 2) && FitsSigned(us[i].delay, 8)
    requires forall i :: 0 <= i < |ds| ==> FitsUnsigned(ds[i], 2)
    ensures Parse([24] + PutSigned(|us|, 4, PutSigned(|ds|, 4, PutUpstreams(us, PutIds(ds, rest)))))
            == Some((Neighbors(us, ds), rest))
  {
    Widths(|us|);
    Widths(|ds|);
    RoundTrip(Neighbors(us, ds), rest);
  }

  /** 100 to 102 authenticate: federate and nonce of 8 bytes, nonce and HMAC tag of 32, HMAC tag. */
  lemma Authentications(federate: nat, nonce: seq<Byte>, hmac: seq<Byte>, rest: seq<Byte>)
    requires FitsUnsigned(federate, 2) && |nonce| == 8 && |hmac| == 32
    ensures Parse([100] + Put(federate, 2, nonce + rest)) == Some((FedNonce(federate, nonce), rest))
    ensures Parse([101] + (nonce + (hmac + rest))) == Some((RtiResponse(nonce, hmac), rest))
    ensures Parse([102] + (hmac + rest)) == Some((FedResponse(hmac), rest))
  {
    RoundTrip(FedNonce(federate, nonce), rest);
    RoundTrip(RtiResponse(nonce, hmac), rest);
    RoundTrip(FedResponse(hmac), rest);
  }

  /** No other type is read. */
  lemma OtherTypes(b: seq<Byte>)
    requires b != [] && (27 <= b[0] < 100 || 102 < b[0] < 254)
    ensures Parse(b).None?
  {
  }
}
