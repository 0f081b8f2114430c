/**
 * A wide input multiport and its record of present channels. The record lets an iterator visit
 * the present channels without testing the others; a record that overflowed is not used.
 */
module SparsePort {
  import opened Options

  /** The record after channels were set present in the given order. */
  function RecordSize(sets: seq<nat>, capacity: nat): int {
    if |sets| > capacity then -1 else |sets|
  }

  function Ascending(present: seq<bool>, from: nat): seq<nat>
    decreases |present| - from
  {
    if from >= |present| then []
    else (if present[from] then [from] else []) + Ascending(present, from + 1)
  }

  class Multiport {
    const width: nat
    const capacity: nat
    var present: seq<bool>
    var size: int
    var record: array<nat>
    ghost var sets: seq<nat>

    /** The record holds the channels in the order they were set, unless they were too many. */
    ghost predicate Valid()
      reads this, record
    {
      && |present| == width && record.Length == capacity
      && (forall k :: 0 <= k < |sets| ==> sets[k] < width)
      && (forall c :: 0 <= c < width ==> (present[c] <==> c in sets))
      && size == RecordSize(sets, capacity)
      && (size >= 0 ==> record[..size] == sets)
    }

    constructor (width: nat, capacity: nat)
      ensures Valid() && fresh(record) && this.width == width && this.capacity == capacity && sets == []
    {
      this.width, this.capacity := width, capacity;
      present := seq(width, _ => false);
      size := 0;
      record := new nat[capacity];
      sets := [];
    }

    /** A channel of the port becomes present; the record keeps it or overflows. */
    method SetPresent(channel: nat)
      requires Valid() && channel < width
      modifies this`present, this`size, this`sets, record
      ensures Valid() && sets == old(sets) + [channel]
      ensures present == old(present)[channel := true]
      ensures size == if |sets| > capacity then -1 else |sets|
    {
      present := present[channel := true];
      if 0 <= size < capacity {
        record[size] := channel;
        size := size + 1;
      } else {
        size := -1;
      }
      sets := sets + [channel];
    }

    /** A new tag begins with every channel absent. */
    method Clear()
      requires Valid()
      modifies this`present, this`size, this`sets
      ensures Valid() && sets == [] && size == 0 && forall c :: 0 <= c < width ==> !present[c]
    {
      present := seq(width, _ => false);
      size := 0;
      sets := [];
    }

    /** What an iterator yields: the record, or a scan of all channels after an overflow. */
    ghost function Channels(): (cs: seq<nat>)
      reads this, record
      requires Valid()
    {
      if size >= 0 then record[..size] else Ascending(present, 0)
    }
  }

  class Iterator {
    const port: Multiport
    var next: int
    var idx: int

    /** The channels still to be returned. */
    ghost function Remaining(): seq<nat>
      reads this, port, port.record
      requires port.Valid() && Positioned()
    {
      if next < 0 then []
      else if port.size >= 0 then port.record[idx + 1..port.size]
      else Ascending(port.present, next)
    }

    /** The next channel to return is the one at the position behind the last returned. */
    ghost predicate Positioned()
      reads this, port, port.record
      requires port.Valid()
    {
      && next >= -1
      && (next >= 0 ==> next < port.width && port.present[next])
      && (next >= 0 && port.size >= 0 ==> -1 <= idx < port.size - 1 && port.record[idx + 1] == next)
    }

    constructor (port: Multiport)
      requires port.Valid()
      ensures this.port == port && Positioned() && Remaining() == port.Channels()
    {
      this.port := port;
      next, idx := -1, -1;
      new;
      if port.size >= 0 {
        if port.size > 0 {
          next := port.record[0];
          assert port.record[..port.size][0] in port.sets;
        }
      } else {
        next := FirstPresent(port.present, 0);
      }
    }

    /** The next present channel, or -1 when there is none left. */
    method Next() returns (channel: int)
      requires port.Valid() && Positioned()
      modifies this
      ensures port.Valid() && Positioned()
      ensures channel == if old(Remaining()) == [] then -1 else old(Remaining())[0]
      ensures Remaining() == if old(Remaining()) == [] then [] else old(Remaining())[1..]
    {
      channel := next;
      if next < 0 {
        return;
      }
      idx := idx + 1;
      if port.size >= 0 {
        if idx + 1 < port.size {
          next := port.record[idx + 1];
          assert port.record[..port.size][idx + 1] in port.sets;
        } else {
          next := -1;
        }
      } else {
        next := FirstPresent(port.present, next + 1);
      }
    }
  }

  /** The least present channel from the given one on, or -1. */
  method FirstPresent(present: seq<bool>, from: nat) returns (c: int)
    requires from <= |present|
    ensures c < 0 ==> c == -1 && Ascending(present, from) == []
    ensures c >= 0 ==> from <= c < |present| && present[c] && Ascending(present, from) == Ascending(present, c)
  {
    c := from;
    while c < |present|
      invariant from <= c <= |present|
      invariant Ascending(present, from) == Ascending(present, c)
    {
      if present[c] {
        return;
      }
      c := c + 1;
    }
    c := -1;
  }

  function Appended(channels: seq<nat>, c: nat): seq<nat> {
    channels + [c]
  }

  lemma Moved(channels: seq<nat>, left: seq<nat>)
    requires left != []
    ensures channels + left == Appended(channels, left[0]) + left[1..]
  {
  }

  /** A reaction that reads every present channel. */
  method ReadAll(port: Multiport) returns (channels: seq<nat>)
    requires port.Valid()
    ensures channels == port.Channels()
  {
    var i := new Iterator(port);
    channels := [];
    ghost var all := port.Channels();
    ghost var left := all;
    var channel := i.Next();
    while channel >= 0
      invariant port.Valid() && i.port == port && i.Positioned()
      invariant left == [] ==> channel == -1
      invariant left != [] ==> channel == left[0] && i.Remaining() == left[1..]
      invariant channels + left == all
      decreases |left|
    {
      Moved(channels, left);
      channels := Appended(channels, channel);
      left := left[1..];
      channel := i.Next();
    }
  }

  // ---------- What is visited ----------

  predicate Distinct(cs: seq<nat>) {
    forall j, k :: 0 <= j < k < |cs| ==> cs[j] != cs[k]
  }

  lemma {:induction false} AscendingChannels(present: seq<bool>, from: nat)
    ensures var cs := Ascending(present, from);
            && Distinct(cs)
            && forall c :: c in cs <==> from <= c < |present| && present[c]
    decreases |present| - from
  {
    if from < |present| {
      AscendingChannels(present, from + 1);
    }
  }

  /**
   * Exactly the present channels are visited; each is visited once exactly when the record
   * overflowed or no channel was set twice at this tag.
   */
  lemma VisitsPresentChannels(port: Multiport)
    requires port.Valid()
    ensures forall c :: c in port.Channels() <==> 0 <= c < port.width && port.present[c]
    ensures Distinct(port.Channels()) <==> |port.sets| > port.capacity || Distinct(port.sets)
  {
    AscendingChannels(port.present, 0);
  }

  /** With each channel set at most once, both ways of reading visit the same channels. */
  lemma OverflowHidesNothing(port: Multiport)
    requires port.Valid() && Distinct(port.sets)
    ensures multiset(port.Channels()) == multiset(port.sets)
  {
    VisitsPresentChannels(port);
    var cs := port.Channels();
    forall c ensures multiset(cs)[c] == multiset(port.sets)[c] {
      CountsOnce(cs, c);
      CountsOnce(port.sets, c);
    }
  }

  lemma {:induction false} CountsOnce(cs: seq<nat>, c: nat)
    requires Distinct(cs)
    ensures multiset(cs)[c] == if c in cs then 1 else 0
  {
    if cs != [] {
      CountsOnce(cs[1..], c);
      assert cs == [cs[0]] + cs[1..];
      assert forall k :: 0 <= k < |cs[1..]| ==> cs[1..][k] != cs[0];
    }
  }
}
