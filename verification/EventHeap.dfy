/**
 * The tag-ordered binary heap. Slot 0 of the array is unused, and every element
 * records the slot it occupies.
 */
module EventHeap {
  import opened Options
  import opened Tags

  class Element {
    const tag: Tag
    var pos: nat

    constructor (tag: Tag)
      ensures this.tag == tag
    {
      this.tag, pos := tag, 0;
    }
  }

  /** No element of the set has an earlier tag. */
  ghost predicate IsLeast(e: Element, elements: set<Element>) {
    e in elements && forall x :: x in elements ==> AtMost(e.tag, x.tag)
  }

  /** The element in slot k is not earlier than its parent. */
  ghost predicate InOrder(d: seq<Element?>, k: nat) {
    2 <= k < |d| && d[k] != null && d[k / 2] != null && AtMost(d[k / 2].tag, d[k].tag)
  }

  /** If slot k is a child of slot i, it is not earlier than the parent of slot i. */
  ghost predicate BelowGrandparent(d: seq<Element?>, i: nat, k: nat) {
    2 <= k < |d| && (i == k / 2 && i > 1 ==> d[k] != null && d[i / 2] != null && AtMost(d[i / 2].tag, d[k].tag))
  }

  class TagQueue {
    var d: array<Element?>
    var size: nat  // number of elements plus 1
    ghost var content: set<Element>

    /** Slots and recorded positions are inverse to each other. */
    ghost predicate Placed()
      reads this, d, content
    {
      && 1 <= size <= d.Length
      && |content| == size - 1
      && (forall k :: 1 <= k < size ==> d[k] != null && d[k] in content && d[k].pos == k)
      && (forall e :: e in content ==> 1 <= e.pos < size && d[e.pos] == e)
    }

    ghost function Slots(): (s: seq<Element?>)
      requires size <= d.Length
      reads this, d
      ensures |s| == size
    {
      d[..size]
    }

    ghost predicate Valid()
      reads this, d, content
    {
      Placed() && forall k :: 2 <= k < size ==> InOrder(Slots(), k)
    }

    constructor (n: nat)
      ensures Valid() && fresh(d) && content == {}
    {
      d, size, content := new Element?[n + 1], 1, {};
    }

    lemma {:induction false} RootIsLeast(k: nat)
      requires Valid() && 1 <= k < size
      ensures AtMost(d[1].tag, d[k].tag)
    {
      if k > 1 {
        RootIsLeast(k / 2);
        assert InOrder(Slots(), k);
      }
    }

    lemma RootLeast()
      requires Valid() && size > 1
      ensures IsLeast(d[1], content)
    {
      forall x | x in content
        ensures AtMost(d[1].tag, x.tag)
      {
        RootIsLeast(x.pos);
      }
    }

    method Swap(i: nat, j: nat)
      requires Placed() && 1 <= i < size && 1 <= j < size
      modifies d, content
      ensures Placed()
      ensures d[i] == old(d[j]) && d[j] == old(d[i])
      ensures forall k :: 0 <= k < d.Length && k != i && k != j ==> d[k] == old(d[k])
    {
      d[i], d[j] := d[j], d[i];
      d[i].pos := i;
      d[j].pos := j;
    }

    method BubbleUp(start: nat)
      requires Placed() && 1 <= start < size
      requires forall k :: 2 <= k < size && k != start ==> InOrder(Slots(), k)
      requires forall k :: 2 <= k < size ==> BelowGrandparent(Slots(), start, k)
      modifies d, content
      ensures Valid()
    {
      var i := start;
      while i > 1 && !AtMost(d[i / 2].tag, d[i].tag)
        invariant Placed() && 1 <= i < size
        invariant forall k :: 2 <= k < size && k != i ==> InOrder(Slots(), k)
        invariant forall k :: 2 <= k < size ==> BelowGrandparent(Slots(), i, k)
        decreases i
      {
        ghost var before := Slots();
        Swap(i / 2, i);
        RaisedOrder(before, i, Slots());
        i := i / 2;
      }
    }

    method PercolateDown(start: nat)
      requires Placed() && 1 <= start < size
      requires forall k :: 2 <= k < size && k / 2 != start ==> InOrder(Slots(), k)
      requires forall k :: 2 <= k < size ==> BelowGrandparent(Slots(), start, k)
      modifies d, content
      ensures Valid()
    {
      var i := start;
      while 2 * i < size
        invariant Placed() && 1 <= i < size
        invariant forall k :: 2 <= k < size && k / 2 != i ==> InOrder(Slots(), k)
        invariant forall k :: 2 <= k < size ==> BelowGrandparent(Slots(), i, k)
        decreases size - i
      {
        var child := EarliestChild(i);
        ghost var before := Slots();
        if AtMost(d[i].tag, d[child].tag) {
          SettledOrder(before, i, child);
          return;
        }
        Swap(i, child);
        LoweredOrder(before, i, child, Slots());
        i := child;
      }
    }

    method EarliestChild(i: nat) returns (child: nat)
      requires Placed() && 1 <= i && 2 * i < size
      ensures i < child < size && child / 2 == i
      ensures IsEarliestChild(Slots(), i, child)
    {
      child := 2 * i;
      if child + 1 < size && !AtMost(d[child].tag, d[child + 1].tag) {
        child := child + 1;
      }
    }

    /** Make room for one more element, moving to a wider array when the current one is full. */
    method Grow()
      requires Valid()
      modifies this`d
      ensures Valid() && size < d.Length && Slots() == old(Slots())
      ensures d == old(d) || fresh(d)
    {
      if size == d.Length {
        var wider := new Element?[2 * d.Length];
        forall k | 0 <= k < d.Length {
          wider[k] := d[k];
        }
        d := wider;
        assert Slots() == old(Slots());
      }
    }

    /** Put the element after the last one, where only its own slot may be out of order. */
    method Append(e: Element)
      requires Valid() && e !in content && size < d.Length
      modifies this`size, this`content, d, e
      ensures Placed() && size == old(size) + 1 && content == old(content) + {e}
      ensures Slots() == old(Slots()) + [e]
    {
      d[size] := e;
      e.pos := size;
      size := size + 1;
      content := content + {e};
    }

    method Insert(e: Element)
      requires Valid() && e !in content
      modifies this, d, content, e
      ensures Valid() && content == old(content) + {e}
      ensures d == old(d) || fresh(d)
    {
      Grow();
      ghost var before := Slots();
      Append(e);
      AppendedOrder(before, e);
      BubbleUp(size - 1);
    }

    /** The last element takes the slot of the removed one, unless they are the same. */
    method TakeOut(e: Element) returns (i: nat)
      requires Placed() && e in content
      modifies this`size, this`content, d, content
      ensures Placed() && i == old(e.pos) && 1 <= i <= size == old(size) - 1
      ensures content == old(content) - {e}
      ensures Slots() == if i < size then old(Slots())[..size][i := old(d[size - 1])] else old(Slots())[..size]
    {
      i := e.pos;
      var last := d[size - 1];
      size := size - 1;
      content := content - {e};
      if i < size {
        d[i] := last;
        last.pos := i;
      }
    }

    /** The removed element's slot is filled by the last element, and order restored from there. */
    method Remove(e: Element)
      requires Valid() && e in content
      modifies this, d, content
      ensures Valid() && content == old(content) - {e}
      ensures d == old(d)
    {
      ghost var before := Slots();
      var i := TakeOut(e);
      if i < size {
        ReplacedOrder(before, i, Slots());
        if AtMost(d[i].tag, e.tag) {
          BubbleUp(i);
        } else {
          PercolateDown(i);
        }
      } else {
        forall k | 2 <= k < size
          ensures InOrder(Slots(), k)
        {
          assert InOrder(before, k);
        }
      }
    }

    /** The least-tag element, or None on an empty queue. */
    method Peek() returns (head: Option<Element>)
      requires Valid()
      ensures head.None? <==> content == {}
      ensures head.Some? ==> IsLeast(head.value, content)
      ensures head.Some? ==> head.value in content && forall e :: e in content ==> !Less(e.tag, head.value.tag)
    {
      if size == 1 {
        return None;
      }
      RootLeast();
      head := Some(d[1]);
    }

    method PeekTag() returns (tag: Tag)
      requires Valid()
      ensures content == {} ==> tag == FOREVER_TAG
      ensures content != {} ==> exists e :: IsLeast(e, content) && e.tag == tag
    {
      var head := Peek();
      tag := if head.None? then FOREVER_TAG else head.value.tag;
    }

    method Pop() returns (head: Option<Element>)
      requires Valid()
      modifies this, d, content
      ensures Valid() && d == old(d)
      ensures head.None? <==> old(content) == {}
      ensures head.None? ==> content == {}
      ensures head.Some? ==> IsLeast(head.value, old(content)) && content == old(content) - {head.value}
      ensures head.Some? ==> head.value in old(content) && forall e :: e in old(content) ==> !Less(e.tag, head.value.tag)
    {
      head := Peek();
      if head.Some? {
        Remove(head.value);
      }
    }

    method PopTag() returns (tag: Tag)
      requires Valid()
      modifies this, d, content
      ensures Valid() && d == old(d)
      ensures old(content) == {} ==> tag == FOREVER_TAG && content == {}
      ensures old(content) != {} ==>
                exists e :: IsLeast(e, old(content)) && e.tag == tag && content == old(content) - {e}
    {
      var head := Pop();
      tag := if head.None? then FOREVER_TAG else head.value.tag;
    }

    method FindWithTag(tag: Tag) returns (found: Option<Element>)
      requires Valid()
      ensures found.None? <==> forall e :: e in content ==> e.tag != tag
      ensures found.Some? ==> found.value in content && found.value.tag == tag
    {
      for k := 1 to size
        invariant forall j :: 1 <= j < k ==> d[j].tag != tag
      {
        if d[k].tag == tag {
          return Some(d[k]);
        }
      }
      found := None;
    }

    /** 0 when a new element was inserted, 1 when the tag was already queued. */
    method InsertIfNoMatch(tag: Tag) returns (code: nat)
      requires Valid()
      modifies this, d, content
      ensures Valid() && (d == old(d) || fresh(d))
      ensures code == if exists e :: e in old(content) && e.tag == tag then 1 else 0
      ensures code == 1 ==> content == old(content)
      ensures code == 0 ==> exists e: Element :: fresh(e) && e.tag == tag && content == old(content) + {e}
    {
      var found := FindWithTag(tag);
      if found.Some? {
        return 1;
      }
      var e := new Element(tag);
      Insert(e);
      code := 0;
    }

    method RemoveUpTo(tag: Tag)
      requires Valid()
      modifies this, d, content
      ensures Valid() && d == old(d)
      ensures forall e :: e in content <==> e in old(content) && Less(tag, e.tag)
    {
      var head := Peek();
      while head.Some? && AtMost(head.value.tag, tag)
        invariant Valid() && d == old(d)
        invariant content <= old(content)
        invariant forall e :: e in old(content) && Less(tag, e.tag) ==> e in content
        invariant head.None? <==> content == {}
        invariant head.Some? ==> IsLeast(head.value, content)
        decreases |content|
      {
        Remove(head.value);
        head := Peek();
      }
    }
  }

  // ---------- The order after one exchange ----------

  ghost predicate Exchanged(before: seq<Element?>, i: nat, j: nat, after: seq<Element?>) {
    i < |before| && j < |before| && after == before[i := before[j]][j := before[i]]
  }

  ghost predicate IsEarliestChild(d: seq<Element?>, i: nat, child: nat) {
    && i < child < |d| && d[child] != null && child / 2 == i
    && forall k :: 2 <= k < |d| && k / 2 == i ==> d[k] != null && AtMost(d[child].tag, d[k].tag)
  }

  ghost predicate Filled(d: seq<Element?>) {
    forall k :: 1 <= k < |d| ==> d[k] != null
  }

  /** Exchanging a slot with its later parent moves the only disorder up to the parent. */
  lemma RaisedOrder(before: seq<Element?>, i: nat, after: seq<Element?>)
    requires 1 < i < |before| && Filled(before) && Exchanged(before, i / 2, i, after)
    requires !AtMost(before[i / 2].tag, before[i].tag)
    requires forall k :: 2 <= k < |before| && k != i ==> InOrder(before, k)
    requires forall k :: 2 <= k < |before| ==> BelowGrandparent(before, i, k)
    ensures forall k :: 2 <= k < |after| && k != i / 2 ==> InOrder(after, k)
    ensures forall k :: 2 <= k < |after| ==> BelowGrandparent(after, i / 2, k)
  {
    forall k | 2 <= k < |after|
      ensures k != i / 2 ==> InOrder(after, k)
      ensures BelowGrandparent(after, i / 2, k)
    {
      assert BelowGrandparent(before, i, k);
      assert k != i ==> InOrder(before, k);
      assert i / 2 > 1 ==> InOrder(before, i / 2);
    }
  }

  /** Exchanging a slot with its earliest child moves the only disorder down to the child. */
  lemma LoweredOrder(before: seq<Element?>, i: nat, child: nat, after: seq<Element?>)
    requires 1 <= i && Filled(before) && IsEarliestChild(before, i, child) && Exchanged(before, i, child, after)
    requires !AtMost(before[i].tag, before[child].tag)
    requires forall k :: 2 <= k < |before| && k / 2 != i ==> InOrder(before, k)
    requires forall k :: 2 <= k < |before| ==> BelowGrandparent(before, i, k)
    ensures forall k :: 2 <= k < |after| && k / 2 != child ==> InOrder(after, k)
    ensures forall k :: 2 <= k < |after| ==> BelowGrandparent(after, child, k)
  {
    forall k | 2 <= k < |after|
      ensures k / 2 != child ==> InOrder(after, k)
      ensures BelowGrandparent(after, child, k)
    {
      assert BelowGrandparent(before, i, k) && BelowGrandparent(before, i, child);
      assert k / 2 != i ==> InOrder(before, k);
    }
  }

  /** A slot that is not later than its earliest child leaves no disorder. */
  lemma SettledOrder(d: seq<Element?>, i: nat, child: nat)
    requires 1 <= i && Filled(d) && IsEarliestChild(d, i, child) && AtMost(d[i].tag, d[child].tag)
    requires forall k :: 2 <= k < |d| && k / 2 != i ==> InOrder(d, k)
    ensures forall k :: 2 <= k < |d| ==> InOrder(d, k)
  {
    forall k | 2 <= k < |d|
      ensures InOrder(d, k)
    {
      assert k / 2 != i ==> InOrder(d, k);
    }
  }

  /** A new last element disturbs its own slot only. */
  lemma AppendedOrder(before: seq<Element?>, e: Element)
    requires forall k :: 2 <= k < |before| ==> InOrder(before, k)
    ensures forall k :: 2 <= k < |before| + 1 ==> k != |before| ==> InOrder(before + [e], k)
    ensures forall k :: 2 <= k < |before| + 1 ==> BelowGrandparent(before + [e], |before|, k)
  {
    forall k | 2 <= k < |before|
      ensures InOrder(before + [e], k)
    {
      assert InOrder(before, k);
    }
  }

  /** Filling slot i with the element of a dropped last slot disturbs slot i and its children only. */
  lemma ReplacedOrder(before: seq<Element?>, i: nat, after: seq<Element?>)
    requires 1 <= i < |after| == |before| - 1 && Filled(before)
    requires after == before[..|after|][i := before[|after|]]
    requires forall k :: 2 <= k < |before| ==> InOrder(before, k)
    ensures AtMost(before[|after|].tag, before[i].tag) ==> forall k :: 2 <= k < |after| && k != i ==> InOrder(after, k)
    ensures !AtMost(before[|after|].tag, before[i].tag) ==>
              forall k :: 2 <= k < |after| && k / 2 != i ==> InOrder(after, k)
    ensures forall k :: 2 <= k < |after| ==> BelowGrandparent(after, i, k)
  {
    forall k | 2 <= k < |after|
      ensures AtMost(before[|after|].tag, before[i].tag) && k != i ==> InOrder(after, k)
      ensures !AtMost(before[|after|].tag, before[i].tag) && k / 2 != i ==> InOrder(after, k)
      ensures BelowGrandparent(after, i, k)
    {
      assert InOrder(before, k) && (i > 1 ==> InOrder(before, i));
    }
  }

  // ---------- Emptying one queue into another ----------

  /** The elements already popped, in order, and those left to pop. */
  ghost predicate Drained(popped: seq<Element>, all: set<Element>, left: set<Element>) {
    && left <= all && |popped| + |left| == |all|
    && (forall e :: e in popped ==> e in all && e !in left)
    && (forall e :: e in all && e !in left ==> e in popped)
    && (forall i, j :: 0 <= i < j < |popped| ==> AtMost(popped[i].tag, popped[j].tag))
    && (forall i, x :: 0 <= i < |popped| && x in left ==> AtMost(popped[i].tag, x.tag))
  }

  lemma DrainedOneMore(popped: seq<Element>, all: set<Element>, left: set<Element>, e: Element)
    requires Drained(popped, all, left) && IsLeast(e, left)
    ensures Drained(popped + [e], all, left - {e})
  {
    var after := popped + [e];
    assert after[|popped|] == e && forall i :: 0 <= i < |popped| ==> after[i] == popped[i];
  }

  method MoveHead(dest: TagQueue, src: TagQueue) returns (head: Element)
    requires dest.Valid() && src.Valid() && dest != src && dest.d != src.d && dest.content !! src.content
    requires src.content != {}
    modifies dest, dest.d, dest.content, src, src.d, src.content
    ensures dest.Valid() && src.Valid() && src.d == old(src.d) && (dest.d == old(dest.d) || fresh(dest.d))
    ensures IsLeast(head, old(src.content)) && src.content == old(src.content) - {head}
    ensures dest.content == old(dest.content) + {head}
  {
    var h := src.Pop();
    head := h.value;
    dest.Insert(head);
  }

  method MoveNext(dest: TagQueue, src: TagQueue, ghost popped: seq<Element>, ghost all: set<Element>)
    returns (ghost done: seq<Element>)
    requires dest.Valid() && src.Valid() && dest != src && dest.d != src.d && dest.content !! src.content
    requires src.content != {} && Drained(popped, all, src.content)
    modifies dest, dest.d, dest.content, src, src.d, src.content
    ensures dest.Valid() && src.Valid() && src.d == old(src.d) && (dest.d == old(dest.d) || fresh(dest.d))
    ensures src.content < old(src.content) && dest.content !! src.content
    ensures dest.content + src.content == old(dest.content + src.content)
    ensures Drained(done, all, src.content)
  {
    ghost var left := src.content;
    var head := MoveHead(dest, src);
    done := popped + [head];
    DrainedOneMore(popped, all, left, head);
  }

  /** The source is popped until empty: every element moves once, in non-decreasing tag order. */
  method PourInto(dest: TagQueue, src: TagQueue) returns (ghost popped: seq<Element>)
    requires dest.Valid() && src.Valid() && dest != src && dest.d != src.d && dest.content !! src.content
    modifies dest, dest.d, dest.content, src, src.d, src.content
    ensures dest.Valid() && src.Valid()
    ensures src.content == {} && dest.content == old(dest.content) + old(src.content)
    ensures Drained(popped, old(src.content), {})
  {
    popped := [];
    while src.size > 1
      invariant src.Valid() && dest.Valid() && dest != src && dest.d != src.d
      invariant src.d == old(src.d) && (dest.d == old(dest.d) || fresh(dest.d))
      invariant dest.content !! src.content
      invariant dest.content + src.content == old(dest.content) + old(src.content)
      invariant Drained(popped, old(src.content), src.content)
      decreases src.content
    {
      popped := MoveNext(dest, src, popped, old(src.content));
    }
  }

  /** All elements end up in the destination; an empty destination may be exchanged for the source. */
  method EmptyInto(dest: TagQueue, src: TagQueue) returns (dest': TagQueue, src': TagQueue, ghost popped: seq<Element>)
    requires dest.Valid() && src.Valid() && dest != src && dest.d != src.d && dest.content !! src.content
    modifies dest, dest.d, dest.content, src, src.d, src.content
    ensures {dest', src'} == {dest, src} && dest'.Valid() && src'.Valid()
    ensures src'.content == {} && dest'.content == old(dest.content) + old(src.content)
    ensures dest' == dest ==> Drained(popped, old(src.content), {})
    ensures dest' != dest ==> old(dest.content) == {} && popped == []
  {
    popped := [];
    dest', src' := dest, src;
    var exchange: bool := *;
    if exchange && dest.size == 1 {
      dest', src' := src, dest;
    } else {
      popped := PourInto(dest, src);
    }
  }
}
