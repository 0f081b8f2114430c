/** Where each field of a message stands, byte by byte, as the layouts promise it. */
module MessageLayouts {
  import opened Tags
  import RadixArithmetic
  import opened WireFormat
  import opened Messages

  // ---------- Bytes of integers ----------

  lemma QuotientOfQuotient(v: nat, b: nat)
    requires b > 0
    ensures v / (256 * b) == v / 256 / b
  {
    var w := v / 256;
    var q, r := w / b, w % b;
    assert w == b * q + r;
    assert 256 * (b * q) == (256 * b) * q;
    RadixArithmetic.DivModOf(q, 256 * r + v % 256, 256 * b);
  }

  /** Byte k of an integer is its k-th lowest order byte. */
  lemma {:induction false} ByteOfInteger(v: nat, n: nat, k: nat)
    requires k < n
    ensures LittleEndian(v, n)[k] == v / Power(k) % 256
    decreases n
  {
    if k > 0 {
      ByteOfInteger(v / 256, n - 1, k - 1);
      QuotientOfQuotient(v, Power(k - 1));
    }
  }

  // ---------- Fields ----------

  /** An unsigned value of n bytes stands at the given place. */
  predicate Field(b: seq<Byte>, at: nat, n: nat, v: nat) {
    at + n <= |b| && b[at..at + n] == LittleEndian(v, n)
  }

  predicate SignedField(b: seq<Byte>, at: nat, n: nat, x: int) {
    Field(b, at, n, ToUnsigned(x, n))
  }

  lemma PutIsField(v: nat, n: nat, rest: seq<Byte>)
    ensures Field(Put(v, n, rest), 0, n, v) && Put(v, n, rest)[n..] == rest
  {
  }

  lemma FieldBehind(b: seq<Byte>, skip: nat, at: nat, n: nat, v: nat)
    requires skip <= |b|
    ensures Field(b[skip..], at, n, v) <==> Field(b, skip + at, n, v)
  {
    if skip + at + n <= |b| {
      assert b[skip..][at..at + n] == b[skip + at..skip + at + n];
    }
  }

  lemma RestBehind(b: seq<Byte>, skip: nat, at: nat)
    requires skip + at <= |b|
    ensures b[skip..][at..] == b[skip + at..]
  {
  }

  /** The first field, and where the fields behind it move to. */
  lemma PutShifts(v: nat, n: nat, rest: seq<Byte>)
    ensures Field(Put(v, n, rest), 0, n, v)
    ensures forall at: nat, k: nat, w: nat :: Field(rest, at, k, w) ==> Field(Put(v, n, rest), n + at, k, w)
    ensures forall at: nat :: at <= |rest| ==> Put(v, n, rest)[n + at..] == rest[at..]
  {
    var b := Put(v, n, rest);
    PutIsField(v, n, rest);
    forall at: nat, k: nat, w: nat | Field(rest, at, k, w) ensures Field(b, n + at, k, w) {
      FieldBehind(b, n, at, k, w);
    }
    forall at: nat | at <= |rest| ensures b[n + at..] == rest[at..] {
      RestBehind(b, n, at);
    }
  }

  lemma KindShifts(m: Message, rest: seq<Byte>)
    ensures var (b, body) := (EncodeOnto(m, rest), PutBody(m, rest));
            && b[0] == Kind(m) && |b| == 1 + |body|
            && (forall at: nat, k: nat, w: nat :: Field(body, at, k, w) ==> Field(b, 1 + at, k, w))
            && (forall at: nat :: at <= |body| ==> b[1 + at..] == body[at..])
  {
    var (b, body) := (EncodeOnto(m, rest), PutBody(m, rest));
    assert b[1..] == body;
    forall at: nat, k: nat, w: nat | Field(body, at, k, w) ensures Field(b, 1 + at, k, w) {
      FieldBehind(b, 1, at, k, w);
    }
    forall at: nat | at <= |body| ensures b[1 + at..] == body[at..] {
      RestBehind(b, 1, at);
    }
  }

  lemma TagFields(t: Tag, rest: seq<Byte>)
    ensures var b := PutTag(t, rest);
            SignedField(b, 0, 8, t.time) && Field(b, 8, 4, t.microstep) && b[12..] == rest
  {
    PutShifts(t.microstep, 4, rest);
    PutShifts(ToUnsigned(t.time, 8), 8, Put(t.microstep, 4, rest));
    assert rest[0..] == rest;
  }

  // ---------- Messages ----------

  /** The messages that carry a tag: type, 8 bytes of time, 4 bytes of microstep. */
  lemma TaggedLayout(k: Byte, t: Tag, rest: seq<Byte>)
    ensures var b := EncodeOnto(Tagged(k, t), rest);
            && b[0] == k && SignedField(b, 1, 8, t.time) && Field(b, 9, 4, t.microstep)
            && |b| == 13 + |rest| && b[13..] == rest
  {
    KindShifts(Tagged(k, t), rest);
    TagFields(t, rest);
  }

  lemma HeaderFields(port: nat, federate: nat, length: nat, rest: seq<Byte>)
    ensures var b := PutHeader(port, federate, length, rest);
            && Field(b, 0, 2, port) && Field(b, 2, 2, federate) && Field(b, 4, 4, length)
            && b[8..] == rest
  {
    PutShifts(length, 4, rest);
    PutShifts(federate, 2, Put(length, 4, rest));
    PutShifts(port, 2, Put(federate, 2, Put(length, 4, rest)));
    assert rest[0..] == rest;
  }

  /** Type, port, federate, length, time, microstep and then as many bytes as the length says. */
  lemma PayloadLayout(k: Byte, port: nat, federate: nat, t: Tag, payload: seq<Byte>, rest: seq<Byte>)
    ensures var b := EncodeOnto(Payload(k, port, federate, t, payload), rest);
            && b[0] == k && Field(b, 1, 2, port) && Field(b, 3, 2, federate) && Field(b, 5, 4, |payload|)
            && SignedField(b, 9, 8, t.time) && Field(b, 17, 4, t.microstep)
            && |b| >= 21 && b[21..] == payload + rest
  {
    var behind := PutTag(t, payload + rest);
    var body := PutHeader(port, federate, |payload|, behind);
    KindShifts(Payload(k, port, federate, t, payload), rest);
    HeaderFields(port, federate, |payload|, behind);
    TagFields(t, payload + rest);
    FieldBehind(body, 8, 0, 8, ToUnsigned(t.time, 8));
    FieldBehind(body, 8, 8, 4, t.microstep);
    RestBehind(body, 8, 12);
  }

  /** Type, federate, one byte of length and then as many bytes of federation ID. */
  lemma FedIdsLayout(k: Byte, federate: nat, federation: seq<Byte>, rest: seq<Byte>)
    ensures var b := EncodeOnto(FedIds(k, federate, federation), rest);
            && b[0] == k && Field(b, 1, 2, federate) && Field(b, 3, 1, |federation|)
            && |b| >= 4 && b[4..] == federation + rest
  {
    var behind := federation + rest;
    KindShifts(FedIds(k, federate, federation), rest);
    PutShifts(|federation|, 1, behind);
    PutShifts(federate, 2, Put(|federation|, 1, behind));
    assert behind[0..] == behind;
  }

  /** Type, port, federate, time and microstep. */
  lemma PortAbsentLayout(port: nat, federate: nat, t: Tag, rest: seq<Byte>)
    ensures var b := EncodeOnto(PortAbsent(port, federate, t), rest);
            && b[0] == PORT_ABSENT && Field(b, 1, 2, port) && Field(b, 3, 2, federate)
            && SignedField(b, 5, 8, t.time) && Field(b, 13, 4, t.microstep)
            && |b| == 17 + |rest| && b[17..] == rest
  {
    KindShifts(PortAbsent(port, federate, t), rest);
    PutShifts(federate, 2, PutTag(t, rest));
    PutShifts(port, 2, Put(federate, 2, PutTag(t, rest)));
    TagFields(t, rest);
  }

  /** Type, port, federate, length and then as many bytes as the length says. */
  lemma UntaggedLayout(k: Byte, port: nat, federate: nat, payload: seq<Byte>, rest: seq<Byte>)
    ensures var b := EncodeOnto(Untagged(k, port, federate, payload), rest);
            && b[0] == k && Field(b, 1, 2, port) && Field(b, 3, 2, federate) && Field(b, 5, 4, |payload|)
            && |b| >= 9 && b[9..] == payload + rest
  {
    KindShifts(Untagged(k, port, federate, payload), rest);
    HeaderFields(port, federate, |payload|, payload + rest);
  }

  /** Type, 4 bytes of port and 4 bytes of address. */
  lemma AddressReplyLayout(port: int, address: nat, rest: seq<Byte>)
    ensures var b := EncodeOnto(AddressReply(port, address), rest);
            && b[0] == ADDRESS_QUERY_REPLY && SignedField(b, 1, 4, port) && Field(b, 5, 4, address)
            && |b| == 9 + |rest| && b[9..] == rest
  {
    KindShifts(AddressReply(port, address), rest);
    PutShifts(address, 4, rest);
    PutShifts(ToUnsigned(port, 4), 4, Put(address, 4, rest));
    assert rest[0..] == rest;
  }

  /** Type and 8 bytes of time. */
  lemma TimedLayout(k: Byte, time: int, rest: seq<Byte>)
    ensures var b := EncodeOnto(Timed(k, time), rest);
            b[0] == k && SignedField(b, 1, 8, time) && |b| == 9 + |rest| && b[9..] == rest
  {
    KindShifts(Timed(k, time), rest);
    PutShifts(ToUnsigned(time, 8), 8, rest);
    assert rest[0..] == rest;
  }

  /** Type and 4 bytes of a number, or 2 bytes of a federate ID. */
  lemma NumberLayout(k: Byte, value: int, federate: nat, rest: seq<Byte>)
    ensures var b := EncodeOnto(Number(k, value), rest);
            b[0] == k && SignedField(b, 1, 4, value) && |b| == 5 + |rest| && b[5..] == rest
    ensures var b := EncodeOnto(AddressQuery(federate), rest);
            b[0] == ADDRESS_QUERY && Field(b, 1, 2, federate) && |b| == 3 + |rest| && b[3..] == rest
  {
    KindShifts(Number(k, value), rest);
    PutShifts(ToUnsigned(value, 4), 4, rest);
    KindShifts(AddressQuery(federate), rest);
    PutShifts(federate, 2, rest);
    assert rest[0..] == rest;
  }

  /** Type, federate and nonce. */
  lemma FedNonceLayout(federate: nat, nonce: seq<Byte>, rest: seq<Byte>)
    requires |nonce| == NONCE_LENGTH
    ensures var b := EncodeOnto(FedNonce(federate, nonce), rest);
            && b[0] == FED_NONCE && Field(b, 1, 2, federate)
            && |b| == 11 + |rest| && b[3..] == nonce + rest
  {
    KindShifts(FedNonce(federate, nonce), rest);
    PutShifts(federate, 2, nonce + rest);
    assert (nonce + rest)[0..] == nonce + rest;
  }

  /** Type, nonce and HMAC tag; the answer to it is type and HMAC tag. */
  lemma ResponseLayouts(nonce: seq<Byte>, hmac: seq<Byte>, rest: seq<Byte>)
    requires |nonce| == NONCE_LENGTH && |hmac| == HMAC_LENGTH
    ensures EncodeOnto(RtiResponse(nonce, hmac), rest) == [RTI_RESPONSE] + nonce + hmac + rest
    ensures EncodeOnto(FedResponse(hmac), rest) == [FED_RESPONSE] + hmac + rest
  {
    Associates([RTI_RESPONSE], nonce, hmac + rest);
    Associates([RTI_RESPONSE] + nonce, hmac, rest);
    Associates([FED_RESPONSE], hmac, rest);
  }

  lemma PairBehind(u: Upstream, rest: seq<Byte>)
    ensures var b := Put(u.id, 2, PutSigned(u.delay, 8, rest)); |b| == 10 + |rest| && b[10..] == rest
  {
    PutIsField(ToUnsigned(u.delay, 8), 8, rest);
    PutIsField(u.id, 2, PutSigned(u.delay, 8, rest));
    RestBehind(Put(u.id, 2, PutSigned(u.delay, 8, rest)), 2, 8);
  }

  /** Pair i stands ten bytes a pair into the list, and the rest of the list behind it. */
  lemma {:induction false} PairsStand(us: seq<Upstream>, rest: seq<Byte>, i: nat)
    requires i <= |us|
    ensures |PutUpstreams(us, rest)| == 10 * |us| + |rest|
    ensures PutUpstreams(us, rest)[10 * i..] == PutUpstreams(us[i..], rest)
    decreases |us|
  {
    if us != [] {
      var b, more := PutUpstreams(us, rest), PutUpstreams(us[1..], rest);
      PairBehind(us[0], more);
      if i == 0 {
        PairsStand(us[1..], rest, 0);
        assert us[0..] == us && b[0..] == b;
      } else {
        PairsStand(us[1..], rest, i - 1);
        RestBehind(b, 10, 10 * (i - 1));
        assert us[1..][i - 1..] == us[i..];
      }
    }
  }

  lemma {:induction false} IdsStand(ids: seq<nat>, rest: seq<Byte>, i: nat)
    requires i <= |ids|
    ensures |PutIds(ids, rest)| == 2 * |ids| + |rest|
    ensures PutIds(ids, rest)[2 * i..] == PutIds(ids[i..], rest)
    decreases |ids|
  {
    if ids != [] {
      var b, more := PutIds(ids, rest), PutIds(ids[1..], rest);
      PutIsField(ids[0], 2, more);
      if i == 0 {
        IdsStand(ids[1..], rest, 0);
        assert ids[0..] == ids && b[0..] == b;
      } else {
        IdsStand(ids[1..], rest, i - 1);
        RestBehind(b, 2, 2 * (i - 1));
        assert ids[1..][i - 1..] == ids[i..];
      }
    }
  }

  /** The type, both counts, and the lists behind them. */
  lemma NeighborFields(us: seq<Upstream>, ds: seq<nat>, rest: seq<Byte>)
    ensures var b := EncodeOnto(Neighbors(us, ds), rest);
            && b[0] == NEIGHBOR_STRUCTURE && SignedField(b, 1, 4, |us|) && SignedField(b, 5, 4, |ds|)
            && |b| >= 9 && b[9..] == PutUpstreams(us, PutIds(ds, rest))
  {
    var lists := PutUpstreams(us, PutIds(ds, rest));
    PutShifts(ToUnsigned(|ds|, 4), 4, lists);
    PutShifts(ToUnsigned(|us|, 4), 4, PutSigned(|ds|, 4, lists));
    KindShifts(Neighbors(us, ds), rest);
    assert lists[0..] == lists;
  }

  lemma PairsStandBehind(b: seq<Byte>, at: nat, us: seq<Upstream>, rest: seq<Byte>, i: nat)
    requires at <= |b| && b[at..] == PutUpstreams(us, rest) && i <= |us|
    ensures |b| == at + 10 * |us| + |rest| && b[at + 10 * i..] == PutUpstreams(us[i..], rest)
  {
    PairsStand(us, rest, i);
    RestBehind(b, at, 10 * i);
  }

  lemma IdsStandBehind(b: seq<Byte>, at: nat, ids: seq<nat>, rest: seq<Byte>, i: nat)
    requires at <= |b| && b[at..] == PutIds(ids, rest) && i <= |ids|
    ensures |b| == at + 2 * |ids| + |rest| && b[at + 2 * i..] == PutIds(ids[i..], rest)
  {
    IdsStand(ids, rest, i);
    RestBehind(b, at, 2 * i);
  }

  /**
   * Behind the type and both counts stand the upstream pairs, ten bytes each, and behind them the
   * downstream IDs, two bytes each.
   */
  lemma NeighborsLayout(us: seq<Upstream>, ds: seq<nat>, rest: seq<Byte>, i: nat, j: nat)
    requires i <= |us| && j <= |ds|
    ensures var b := EncodeOnto(Neighbors(us, ds), rest);
            && b[0] == NEIGHBOR_STRUCTURE && SignedField(b, 1, 4, |us|) && SignedField(b, 5, 4, |ds|)
            && |b| == 9 + 10 * |us| + 2 * |ds| + |rest|
            && b[9 + 10 * i..] == PutUpstreams(us[i..], PutIds(ds, rest))
            && b[9 + 10 * |us| + 2 * j..] == PutIds(ds[j..], rest)
  {
    NeighborFields(us, ds, rest);
    var b, ids := EncodeOnto(Neighbors(us, ds), rest), PutIds(ds, rest);
    PairsStandBehind(b, 9, us, ids, i);
    PairsStandBehind(b, 9, us, ids, |us|);
    IdsStandBehind(b, 9 + 10 * |us|, ds, rest, j);
  }

  lemma PairFields(u: Upstream, rest: seq<Byte>)
    ensures var b := Put(u.id, 2, PutSigned(u.delay, 8, rest)); Field(b, 0, 2, u.id) && SignedField(b, 2, 8, u.delay)
  {
    PutShifts(ToUnsigned(u.delay, 8), 8, rest);
    PutShifts(u.id, 2, PutSigned(u.delay, 8, rest));
  }

  lemma FirstPair(us: seq<Upstream>, rest: seq<Byte>)
    requires us != []
    ensures Field(PutUpstreams(us, rest), 0, 2, us[0].id) && SignedField(PutUpstreams(us, rest), 2, 8, us[0].delay)
  {
    PairFields(us[0], PutUpstreams(us[1..], rest));
  }

  /** Each upstream pair is 2 bytes of ID and 8 bytes of delay. */
  lemma UpstreamFields(us: seq<Upstream>, ds: seq<nat>, rest: seq<Byte>, i: nat)
    requires i < |us|
    ensures var b := EncodeOnto(Neighbors(us, ds), rest);
            Field(b, 9 + 10 * i, 2, us[i].id) && SignedField(b, 11 + 10 * i, 8, us[i].delay)
  {
    var b := EncodeOnto(Neighbors(us, ds), rest);
    NeighborsLayout(us, ds, rest, i, 0);
    FirstPair(us[i..], PutIds(ds, rest));
    FieldBehind(b, 9 + 10 * i, 0, 2, us[i].id);
    FieldBehind(b, 9 + 10 * i, 2, 8, ToUnsigned(us[i].delay, 8));
  }

  /** Each downstream ID is 2 bytes. */
  lemma DownstreamField(us: seq<Upstream>, ds: seq<nat>, rest: seq<Byte>, j: nat)
    requires j < |ds|
    ensures Field(EncodeOnto(Neighbors(us, ds), rest), 9 + 10 * |us| + 2 * j, 2, ds[j])
  {
    NeighborsLayout(us, ds, rest, 0, j);
    PutIsField(ds[j], 2, PutIds(ds[j..][1..], rest));
    FieldBehind(EncodeOnto(Neighbors(us, ds), rest), 9 + 10 * |us| + 2 * j, 0, 2, ds[j]);
  }
}
