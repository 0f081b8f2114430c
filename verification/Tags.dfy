/** Logical tags: a time in nanoseconds paired with a microstep, ordered lexicographically. */
module Tags {
  datatype Tag = Tag(time: int, microstep: nat)

  /** The largest `instant_t`, and the tag a barrier with no requestors is reset to. */
  const FOREVER: int := 0x7FFF_FFFF_FFFF_FFFF
  const FOREVER_TAG: Tag := Tag(FOREVER, 0)

  predicate Less(a: Tag, b: Tag) {
    a.time < b.time || (a.time == b.time && a.microstep < b.microstep)
  }

  predicate AtMost(a: Tag, b: Tag) {
    a.time < b.time || (a.time == b.time && a.microstep <= b.microstep)
  }

  function Later(a: Tag, b: Tag): (t: Tag)
    ensures (t == a || t == b) && AtMost(a, t) && AtMost(b, t)
  {
    if AtMost(a, b) then b else a
  }

  function Earlier(a: Tag, b: Tag): (t: Tag)
    ensures (t == a || t == b) && AtMost(t, a) && AtMost(t, b)
  {
    if AtMost(a, b) then a else b
  }

  /** The least tag after a tag. */
  function NextMicrostep(t: Tag): (next: Tag)
    ensures forall x: Tag :: Less(t, x) <==> AtMost(next, x)
  {
    Tag(t.time, t.microstep + 1)
  }
}
