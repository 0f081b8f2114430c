/**
 * Encoders and extractors over a byte buffer. An encoder changes the bytes it writes and no
 * others; what it writes is given by the same layouts that a stream is parsed by.
 */
module WireBuffer {
  import opened Options
  import opened Tags
  import opened WireFormat
  import opened Messages

  const TAG_LENGTH: nat := 12
  const STOP_MESSAGE_LENGTH: nat := 1 + TAG_LENGTH
  const NEIGHBOR_STRUCTURE_HEADER_SIZE: nat := 9

  /** The buffer with the given bytes written at an address. */
  function Written(was: seq<Byte>, at: nat, bytes: seq<Byte>): seq<Byte>
    requires at + |bytes| <= |was|
  {
    was[..at] + bytes + was[at + |bytes|..]
  }

  lemma WrittenNext(was: seq<Byte>, at: nat, first: seq<Byte>, second: seq<Byte>)
    requires at + |first| + |second| <= |was|
    ensures Written(Written(was, at, first), at + |first|, second) == Written(was, at, first + second)
  {
  }

  lemma WriteByte(was: seq<Byte>, at: nat, done: seq<Byte>, b: Byte)
    requires at + |done| < |was|
    ensures Written(was, at, done)[at + |done| := b] == Written(was, at, done + [b])
  {
  }

  /** The n low order bytes of the data, lowest first. */
  method EncodeInteger(data: int, n: nat, buffer: array<Byte>, at: nat)
    requires at + n <= buffer.Length
    modifies buffer
    ensures buffer[..] == Written(old(buffer[..]), at, PutSigned(data, n, []))
  {
    ghost var was: seq<Byte>, done: seq<Byte> := buffer[..], [];
    var v := ToUnsigned(data, n);
    var i := 0;
    while i < n
      invariant |done| == i <= n
      invariant buffer[..] == Written(was, at, done)
      invariant done + LittleEndian(v, n - i) == LittleEndian(ToUnsigned(data, n), n)
    {
      WriteByte(was, at, done, v % 256);
      Associates(done, [v % 256], LittleEndian(v / 256, n - i - 1));
      buffer[at + i] := v % 256;
      done := done + [v % 256];
      v := v / 256;
      i := i + 1;
    }
    assert PutSigned(data, n, []) == done;
  }

  /** The integer of n bytes at the given address. */
  method ExtractUnsigned(n: nat, buffer: array<Byte>, at: nat) returns (v: nat)
    requires at + n <= buffer.Length
    ensures v < Power(n) && buffer[at..] == Put(v, n, buffer[at + n..])
  {
    v := 0;
    var i := n;
    while i > 0
      invariant 0 <= i <= n
      invariant v == Unsigned(buffer[at + i..at + n])
    {
      i := i - 1;
      v := buffer[at + i] + 256 * v;
      assert buffer[at + i..at + n][1..] == buffer[at + i + 1..at + n];
    }
    assert buffer[at..][..n] == buffer[at..at + n] && buffer[at..][n..] == buffer[at + n..];
    GetIsPut(buffer[at..], n);
  }

  method ExtractSigned(n: nat, buffer: array<Byte>, at: nat) returns (x: int)
    requires 0 < n && at + n <= buffer.Length
    ensures FitsSigned(x, n) && buffer[at..] == PutSigned(x, n, buffer[at + n..])
  {
    var v := ExtractUnsigned(n, buffer, at);
    x := if 2 * v >= Power(n) then v - Power(n) else v;
    assert Get(buffer[at..], n) == Some((v, buffer[at + n..]));
    GetSignedIsPut(buffer[at..], n);
  }

  // ---------- Tags and message headers ----------

  lemma TagBytes(tag: Tag)
    requires FitsTag(tag)
    ensures PutTag(tag, []) == PutSigned(tag.time, 8, []) + PutSigned(tag.microstep, 4, [])
  {
    Remainder(tag.microstep, Power(4), tag.microstep);
    PutAppends(ToUnsigned(tag.time, 8), 8, [], Put(tag.microstep, 4, []));
    assert [] + Put(tag.microstep, 4, []) == Put(tag.microstep, 4, []);
  }

  method EncodeTag(tag: Tag, buffer: array<Byte>, at: nat)
    requires FitsTag(tag) && at + TAG_LENGTH <= buffer.Length
    modifies buffer
    ensures buffer[..] == Written(old(buffer[..]), at, PutTag(tag, []))
  {
    EncodeInteger(tag.time, 8, buffer, at);
    EncodeInteger(tag.microstep, 4, buffer, at + 8);
    TagBytes(tag);
    WrittenNext(old(buffer[..]), at, PutSigned(tag.time, 8, []), PutSigned(tag.microstep, 4, []));
  }

  method ExtractTag(buffer: array<Byte>, at: nat) returns (tag: Tag)
    requires at + TAG_LENGTH <= buffer.Length
    ensures FitsTag(tag) && buffer[at..] == PutTag(tag, buffer[at + TAG_LENGTH..])
  {
    var time := ExtractSigned(8, buffer, at);
    var microstep := ExtractUnsigned(4, buffer, at + 8);
    tag := Tag(time, microstep);
  }

  method ExtractHeader(buffer: array<Byte>) returns (port: nat, federate: nat, length: nat)
    requires 8 <= buffer.Length
    ensures FitsHeader(port, federate, length)
    ensures buffer[..] == PutHeader(port, federate, length, buffer[8..])
  {
    port := ExtractUnsigned(2, buffer, 0);
    federate := ExtractUnsigned(2, buffer, 2);
    length := ExtractUnsigned(4, buffer, 4);
    assert buffer[0..] == buffer[..];
  }

  method ExtractTimedHeader(buffer: array<Byte>) returns (port: nat, federate: nat, length: nat, tag: Tag)
    requires 8 + TAG_LENGTH <= buffer.Length
    ensures FitsHeader(port, federate, length) && FitsTag(tag)
    ensures buffer[..] == PutHeader(port, federate, length, PutTag(tag, buffer[8 + TAG_LENGTH..]))
  {
    port, federate, length := ExtractHeader(buffer);
    tag := ExtractTag(buffer, 8);
  }

  /** The extracted header is the one that was sent with a tagged message. */
  lemma TimedHeaderIsSent(m: Message, b: seq<Byte>, port: nat, federate: nat, length: nat, tag: Tag,
                          rest: seq<Byte>, body: seq<Byte>)
    requires m.Payload? && WellFormed(m) && PutBody(m, rest) == b
    requires FitsHeader(port, federate, length) && FitsTag(tag)
    requires b == PutHeader(port, federate, length, PutTag(tag, body))
    ensures port == m.destPort && federate == m.federate && length == |m.payload| && tag == m.tag
    ensures body == m.payload + rest
  {
    var after := PutTag(m.tag, m.payload + rest);
    assert GetHeader(b) == Some(((m.destPort, m.federate, |m.payload|), after));
    assert GetTag(after) == Some((m.tag, m.payload + rest));
  }

  // ---------- Stop messages and the neighbor structure ----------

  lemma TaggedBytes(kind: Byte, tag: Tag, rest: seq<Byte>)
    ensures EncodeOnto(Tagged(kind, tag), rest) == ([kind] + PutTag(tag, [])) + rest
  {
    PutTagAppends(tag, [], rest);
    assert [] + rest == rest;
    Associates([kind], PutTag(tag, []), rest);
  }

  lemma StopMessageIsRead(kind: Byte, tag: Tag, rest: seq<Byte>)
    requires kind == STOP_REQUEST || kind == STOP_REQUEST_REPLY || kind == STOP_GRANTED
    requires FitsTag(tag)
    ensures EncodeOnto(Tagged(kind, tag), rest)[0] == kind
    ensures Parse(EncodeOnto(Tagged(kind, tag), rest)) == Some((Tagged(kind, tag), rest))
  {
    RoundTrip(Tagged(kind, tag), rest);
  }

  lemma WrittenFromStart(was: seq<Byte>, first: seq<Byte>, second: seq<Byte>)
    requires |first| + |second| <= |was|
    ensures Written(Written(was, 0, first), |first|, second) == (first + second) + was[|first| + |second|..]
  {
    WrittenNext(was, 0, first, second);
  }

  /** The type byte, then the time and the microstep. */
  method EncodeStopMessage(kind: Byte, tag: Tag, buffer: array<Byte>)
    requires kind == STOP_REQUEST || kind == STOP_REQUEST_REPLY || kind == STOP_GRANTED
    requires FitsTag(tag) && STOP_MESSAGE_LENGTH <= buffer.Length
    modifies buffer
    ensures buffer[..] == EncodeOnto(Tagged(kind, tag), old(buffer[..])[STOP_MESSAGE_LENGTH..])
    ensures buffer[0] == kind
    ensures Parse(buffer[..]) == Some((Tagged(kind, tag), old(buffer[..])[13..]))
  {
    ghost var was := buffer[..];
    WriteByte(was, 0, [], kind);
    assert [] + [kind] == [kind];
    buffer[0] := kind;
    EncodeTag(tag, buffer, 1);
    WrittenFromStart(was, [kind], PutTag(tag, []));
    TaggedBytes(kind, tag, was[STOP_MESSAGE_LENGTH..]);
    StopMessageIsRead(kind, tag, was[STOP_MESSAGE_LENGTH..]);
  }

  lemma NeighborStructureBytes(was: seq<Byte>)
    requires |was| == NEIGHBOR_STRUCTURE_HEADER_SIZE
    ensures var zero := PutSigned(0, 4, []);
            Written(Written(Written(was, 0, [NEIGHBOR_STRUCTURE]), 1, zero), 5, zero)
            == Messages.Encode(Neighbors([], []))
  {
    var zero := PutSigned(0, 4, []);
    WrittenNext(was, 0, [NEIGHBOR_STRUCTURE], zero);
    WrittenNext(was, 0, [NEIGHBOR_STRUCTURE] + zero, zero);
    PutAppends(ToUnsigned(0, 4), 4, [], zero);
    assert [] + zero == zero;
  }

  /** The message of a federate without neighbors behind the RTI. */
  method NeighborStructure() returns (buffer: array<Byte>)
    ensures fresh(buffer) && buffer[..] == Encode(Neighbors([], []))
    ensures buffer[..] == [24, 0, 0, 0, 0, 0, 0, 0, 0]
  {
    buffer := new Byte[NEIGHBOR_STRUCTURE_HEADER_SIZE](_ => 0);
    ghost var was := buffer[..];
    var head := 0;
    WriteByte(was, 0, [], NEIGHBOR_STRUCTURE);
    assert [] + [NEIGHBOR_STRUCTURE] == [NEIGHBOR_STRUCTURE];
    buffer[head] := NEIGHBOR_STRUCTURE;
    head := head + 1;
    EncodeInteger(0, 4, buffer, head);
    head := head + 4;
    EncodeInteger(0, 4, buffer, head);
    NeighborStructureBytes(was);
  }
}
