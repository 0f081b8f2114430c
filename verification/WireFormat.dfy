/**
 * The binary messages between federates and the RTI. Every message begins with its type and
 * is self-delimiting; integers are sent lowest order byte first.
 */
module WireFormat {
  import opened Options
  import opened Tags

  type Byte = b: int | 0 <= b < 256

  // ---------- Integers ----------

  function Power(n: nat): (p: nat)
    ensures p > 0
  {
    if n == 0 then 1 else 256 * Power(n - 1)
  }

  /** The n bytes of an unsigned value, lowest order first. */
  function LittleEndian(v: nat, n: nat): (b: seq<Byte>)
    ensures |b| == n
    decreases n
  {
    if n == 0 then [] else [v % 256] + LittleEndian(v / 256, n - 1)
  }

  function Unsigned(b: seq<Byte>): nat {
    if b == [] then 0 else b[0] + 256 * Unsigned(b[1..])
  }

  lemma {:induction false} UnsignedOfBytes(v: nat, n: nat)
    requires v < Power(n)
    ensures Unsigned(LittleEndian(v, n)) == v
    decreases n
  {
    if n > 0 {
      UnsignedOfBytes(v / 256, n - 1);
    }
  }

  lemma {:induction false} BytesOfUnsigned(b: seq<Byte>)
    ensures Unsigned(b) < Power(|b|) && LittleEndian(Unsigned(b), |b|) == b
  {
    if b != [] {
      BytesOfUnsigned(b[1..]);
    }
  }

  /** The conversion of an integer to an unsigned type of n bytes, and the signed reading of it. */
  function ToUnsigned(x: int, n: nat): (u: nat) {
    x % Power(n)
  }

  function ToSigned(u: nat, n: nat): int {
    if 2 * u >= Power(n) then u - Power(n) else u
  }

  lemma Remainder(x: int, p: nat, y: nat)
    requires y < p && (x == y || x == y - p)
    ensures x % p == y
  {
    assert x == x / p * p + x % p;
    if x != y {
      assert (x / p + 1) * p == x / p * p + p;
    }
  }

  lemma SignedRoundTrip(x: int, n: nat)
    requires FitsSigned(x, n)
    ensures ToUnsigned(x, n) < Power(n) && ToSigned(ToUnsigned(x, n), n) == x
  {
    Remainder(x, Power(n), if x < 0 then x + Power(n) else x);
  }

  predicate FitsSigned(x: int, n: nat) {
    0 <= Power(n) + 2 * x && 2 * x < Power(n)
  }

  predicate FitsUnsigned(x: int, n: nat) {
    0 <= x < Power(n)
  }

  /** Bytes of a value in front of the rest of the stream, and reading them back. */
  function Put(v: nat, n: nat, rest: seq<Byte>): (b: seq<Byte>)
    ensures v < Power(n) ==> Get(b, n) == Some((v, rest))
    ensures |b| == n + |rest|
  {
    if v < Power(n) then
      var b := LittleEndian(v, n) + rest;
      assert b[..n] == LittleEndian(v, n) && b[n..] == rest;
      UnsignedOfBytes(v, n);
      b
    else LittleEndian(v, n) + rest
  }

  function Get(b: seq<Byte>, n: nat): Option<(nat, seq<Byte>)> {
    if |b| < n then None else Some((Unsigned(b[..n]), b[n..]))
  }

  lemma GetIsPut(b: seq<Byte>, n: nat)
    requires n <= |b|
    ensures var (v, rest) := Get(b, n).value; v < Power(n) && b == Put(v, n, rest)
  {
    BytesOfUnsigned(b[..n]);
    assert b == b[..n] + b[n..];
  }

  function PutSigned(x: int, n: nat, rest: seq<Byte>): (b: seq<Byte>)
    ensures FitsSigned(x, n) ==> GetSigned(b, n) == Some((x, rest))
    ensures |b| == n + |rest|
  {
    if FitsSigned(x, n) then
      SignedRoundTrip(x, n);
      Put(ToUnsigned(x, n), n, rest)
    else Put(ToUnsigned(x, n), n, rest)
  }

  function GetSigned(b: seq<Byte>, n: nat): Option<(int, seq<Byte>)> {
    var r := Get(b, n);
    if r.None? then None else Some((ToSigned(r.value.0, n), r.value.1))
  }

  lemma GetSignedIsPut(b: seq<Byte>, n: nat)
    requires 0 < n <= |b|
    ensures var (x, rest) := GetSigned(b, n).value; FitsSigned(x, n) && b == PutSigned(x, n, rest)
  {
    GetIsPut(b, n);
    assert Power(n) == 256 * Power(n - 1);
    var (x, _) := GetSigned(b, n).value;
    Remainder(x, Power(n), Get(b, n).value.0);
  }

  lemma PutAppends(v: nat, n: nat, a: seq<Byte>, b: seq<Byte>)
    ensures Put(v, n, a + b) == Put(v, n, a) + b
  {
    assert LittleEndian(v, n) + (a + b) == LittleEndian(v, n) + a + b;
  }

  // ---------- Tags ----------

  /** A 64-bit signed time and a 32-bit microstep. */
  predicate FitsTag(t: Tag) {
    FitsSigned(t.time, 8) && FitsUnsigned(t.microstep, 4)
  }

  function PutTag(t: Tag, rest: seq<Byte>): (b: seq<Byte>)
    ensures FitsTag(t) ==> GetTag(b) == Some((t, rest))
    ensures |b| == 12 + |rest|
  {
    PutSigned(t.time, 8, Put(t.microstep, 4, rest))
  }

  function GetTag(b: seq<Byte>): Option<(Tag, seq<Byte>)> {
    var time := GetSigned(b, 8);
    if time.None? then None else
    var microstep := Get(time.value.1, 4);
    if microstep.None? then None else Some((Tag(time.value.0, microstep.value.0), microstep.value.1))
  }

  lemma GetTagIsPut(b: seq<Byte>)
    requires GetTag(b).Some?
    ensures FitsTag(GetTag(b).value.0) && b == PutTag(GetTag(b).value.0, GetTag(b).value.1)
  {
    GetSignedIsPut(b, 8);
    GetIsPut(GetSigned(b, 8).value.1, 4);
  }

  lemma PutTagAppends(t: Tag, a: seq<Byte>, b: seq<Byte>)
    ensures PutTag(t, a + b) == PutTag(t, a) + b
  {
    PutAppends(t.microstep, 4, a, b);
    PutAppends(ToUnsigned(t.time, 8), 8, Put(t.microstep, 4, a), b);
  }

  // ---------- Byte strings and neighbor lists ----------

  function PutBytes(bytes: seq<Byte>, rest: seq<Byte>): (b: seq<Byte>)
    ensures GetBytes(b, |bytes|) == Some((bytes, rest))
    ensures |b| == |bytes| + |rest|
  {
    bytes + rest
  }

  function GetBytes(b: seq<Byte>, n: nat): (r: Option<(seq<Byte>, seq<Byte>)>)
    ensures r.Some? ==> |r.value.0| == n && b == r.value.0 + r.value.1
  {
    if |b| < n then None else Some((b[..n], b[n..]))
  }

  /** An upstream federate and the minimum delay of the connection from it. */
  datatype Upstream = Upstream(id: nat, delay: int)

  predicate FitsUpstream(u: Upstream) {
    FitsUnsigned(u.id, 2) && FitsSigned(u.delay, 8)
  }

  function PutUpstreams(us: seq<Upstream>, rest: seq<Byte>): seq<Byte>
  {
    if us == [] then rest
    else Put(us[0].id, 2, PutSigned(us[0].delay, 8, PutUpstreams(us[1..], rest)))
  }

  function GetUpstreams(b: seq<Byte>, n: nat): (r: Option<(seq<Upstream>, seq<Byte>)>)
    ensures r.Some? ==> |r.value.0| == n
  {
    if n == 0 then Some(([], b)) else
    var id := Get(b, 2);
    if id.None? then None else
    var delay := GetSigned(id.value.1, 8);
    if delay.None? then None else
    var more := GetUpstreams(delay.value.1, n - 1);
    if more.None? then None
    else Some(([Upstream(id.value.0, delay.value.0)] + more.value.0, more.value.1))
  }

  lemma {:induction false} UpstreamsRoundTrip(us: seq<Upstream>, rest: seq<Byte>)
    requires forall i :: 0 <= i < |us| ==> FitsUpstream(us[i])
    ensures GetUpstreams(PutUpstreams(us, rest), |us|) == Some((us, rest))
  {
    if us != [] {
      UpstreamsRoundTrip(us[1..], rest);
      assert us == [us[0]] + us[1..];
    }
  }

  lemma UpstreamIsPut(b: seq<Byte>)
    requires |b| >= 10
    ensures var (id, b1) := Get(b, 2).value;
            var (delay, b2) := GetSigned(b1, 8).value;
            FitsUpstream(Upstream(id, delay)) && b == Put(id, 2, PutSigned(delay, 8, b2))
  {
    GetIsPut(b, 2);
    GetSignedIsPut(Get(b, 2).value.1, 8);
  }

  lemma {:induction false} GetUpstreamsIsPut(b: seq<Byte>, n: nat)
    requires GetUpstreams(b, n).Some?
    ensures var (us, rest) := GetUpstreams(b, n).value;
            (forall i :: 0 <= i < |us| ==> FitsUpstream(us[i])) && b == PutUpstreams(us, rest)
    decreases n
  {
    if n > 0 {
      var (id, b1) := Get(b, 2).value;
      var (delay, b2) := GetSigned(b1, 8).value;
      UpstreamIsPut(b);
      GetUpstreamsIsPut(b2, n - 1);
      var more := GetUpstreams(b2, n - 1).value.0;
      assert GetUpstreams(b, n).value.0 == [Upstream(id, delay)] + more;
      assert ([Upstream(id, delay)] + more)[1..] == more;
    }
  }

  function PutIds(ids: seq<nat>, rest: seq<Byte>): seq<Byte> {
    if ids == [] then rest else Put(ids[0], 2, PutIds(ids[1..], rest))
  }

  function GetIds(b: seq<Byte>, n: nat): (r: Option<(seq<nat>, seq<Byte>)>)
    ensures r.Some? ==> |r.value.0| == n
  {
    if n == 0 then Some(([], b)) else
    var id := Get(b, 2);
    if id.None? then None else
    var more := GetIds(id.value.1, n - 1);
    if more.None? then None else Some(([id.value.0] + more.value.0, more.value.1))
  }

  lemma {:induction false} IdsRoundTrip(ids: seq<nat>, rest: seq<Byte>)
    requires forall i :: 0 <= i < |ids| ==> FitsUnsigned(ids[i], 2)
    ensures GetIds(PutIds(ids, rest), |ids|) == Some((ids, rest))
  {
    if ids != [] {
      IdsRoundTrip(ids[1..], rest);
      assert ids == [ids[0]] + ids[1..];
    }
  }

  lemma {:induction false} GetIdsIsPut(b: seq<Byte>, n: nat)
    requires GetIds(b, n).Some?
    ensures var (ids, rest) := GetIds(b, n).value;
            (forall i :: 0 <= i < |ids| ==> FitsUnsigned(ids[i], 2)) && b == PutIds(ids, rest)
    decreases n
  {
    if n > 0 {
      var (_, b1) := Get(b, 2).value;
      GetIsPut(b, 2);
      GetIdsIsPut(b1, n - 1);
      assert GetIds(b, n).value.0[1..] == GetIds(b1, n - 1).value.0;
    }
  }
}
