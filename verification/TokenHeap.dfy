/**
 * Reference-counted tokens. Addresses of tokens and payloads are numbers, so that freeing,
 * recycling and sharing are explicit. A token is held by templates (ports and actions), by
 * queued events and by the list of writable copies.
 */
module TokenHeap {
  import opened Options

  type TokenId = nat
  type ValueId = nat

  datatype Token = Token(value: Option<ValueId>, length: nat, refCount: nat)

  datatype Heap = Heap(
    tokens: map<TokenId, Token>,         // allocated tokens
    bin: seq<TokenId>,                   // recycling bin
    binCapacity: nat,
    next: TokenId,                       // addresses from here on have never been allocated
    templates: seq<Option<TokenId>>,     // the token of each port or action
    queue: multiset<TokenId>,            // tokens of queued events
    copies: seq<TokenId>,                // writable copies of the current tag
    owner: map<ValueId, TokenId>,        // which token carries each allocated payload
    freed: multiset<ValueId>)            // payloads handed to the destructor

  // ---------- Primitive steps ----------

  function Retain(h: Heap, id: TokenId): Heap
    requires id in h.tokens
  {
    var t := h.tokens[id];
    h.(tokens := h.tokens[id := t.(refCount := t.refCount + 1)])
  }

  function FreeValue(h: Heap, id: TokenId): Heap
    requires id in h.tokens
  {
    var t := h.tokens[id];
    if t.value.None? then h
    else h.(tokens := h.tokens[id := t.(value := None, length := 0)],
            owner := h.owner - {t.value.value},
            freed := h.freed + multiset{t.value.value})
  }

  /** Nothing happens while the token is referenced; a freed token is recycled if the bin has room. */
  function FreeToken(h: Heap, id: TokenId): Heap
    requires id in h.tokens
  {
    if h.tokens[id].refCount > 0 then h else
    var h' := FreeValue(h, id);
    h'.(tokens := h'.tokens - {id}, bin := if |h.bin| < h.binCapacity then h.bin + [id] else h.bin)
  }

  /** A freed token enters the recycling bin exactly when there is room, behind those in it. */
  lemma FreedTokenIsRecycled(h: Heap, id: TokenId)
    requires id in h.tokens
    ensures var z := FreeToken(h, id);
            && (h.tokens[id].refCount > 0 ==> z == h)
            && (h.tokens[id].refCount == 0 ==>
                  && z.tokens == h.tokens - {id}
                  && z.bin == (if |h.bin| < h.binCapacity then h.bin + [id] else h.bin)
                  && (h.tokens[id].value.Some? ==> z.freed == h.freed + multiset{h.tokens[id].value.value})
                  && (h.tokens[id].value.None? ==> z.freed == h.freed))
  {
    var t := h.tokens[id];
    assert h.tokens[id := t.(value := None, length := 0)] - {id} == h.tokens - {id};
  }

  function Release(h: Heap, id: TokenId): Heap
    requires id in h.tokens && h.tokens[id].refCount > 0
  {
    var t := h.tokens[id];
    h.(tokens := h.tokens[id := t.(refCount := t.refCount - 1)])
  }

  function DoneUsing(h: Heap, id: TokenId): Heap {
    if id !in h.tokens || h.tokens[id].refCount == 0 then h else FreeToken(Release(h, id), id)
  }

  function DoneUsingIfAny(h: Heap, id: Option<TokenId>): Heap {
    if id.Some? then DoneUsing(h, id.value) else h
  }

  /** The address of the next new token. */
  function NewAddress(h: Heap): TokenId {
    if h.bin != [] then h.bin[|h.bin| - 1] else h.next
  }

  /** A token without payload and with reference count 0, recycled if possible. */
  function NewToken(h: Heap): Heap {
    h.(tokens := h.tokens[NewAddress(h) := Token(None, 0, 0)],
       bin := if h.bin != [] then h.bin[..|h.bin| - 1] else h.bin,
       next := if h.bin != [] then h.next else h.next + 1)
  }

  /** A new token has neither payload nor references, and comes from the recycling bin if it can. */
  lemma RecycledFirst(h: Heap)
    ensures var (z, id) := (NewToken(h), NewAddress(h));
            && z.tokens == h.tokens[id := Token(None, 0, 0)]
            && (h.bin != [] ==> h.bin == z.bin + [id] && z.next == h.next)
            && (h.bin == [] ==> id == h.next && z.bin == [] && z.next == h.next + 1)
  {
  }

  /** Store a payload, freeing the previous one. */
  function SetValue(h: Heap, id: TokenId, value: ValueId, length: nat): Heap
    requires id in h.tokens
  {
    var h' := FreeValue(h, id);
    h'.(tokens := h'.tokens[id := h'.tokens[id].(value := Some(value), length := length)],
        owner := h'.owner[value := id])
  }

  // ---------- Who holds a token ----------

  function Holders(h: Heap, id: TokenId): nat {
    multiset(h.templates)[Some(id)] + h.queue[id] + multiset(h.copies)[id]
  }

  /** Holders plus the references that a running function holds for the moment. */
  function Count(h: Heap, local: multiset<TokenId>, id: TokenId): nat {
    Holders(h, id) + local[id]
  }

  ghost predicate CountsInv(h: Heap, local: multiset<TokenId>) {
    && (forall id :: id in h.tokens ==> h.tokens[id].refCount == Count(h, local, id))
    && (forall id :: Count(h, local, id) > 0 ==> id in h.tokens)
  }

  predicate AddressesInv(h: Heap) {
    && (forall id :: id in h.tokens ==> id < h.next)
    && (forall k :: 0 <= k < |h.bin| ==> h.bin[k] < h.next && h.bin[k] !in h.tokens)
    && (forall j, k :: 0 <= j < k < |h.bin| ==> h.bin[j] != h.bin[k])
  }

  predicate ValuesInv(h: Heap) {
    && (forall id :: id in h.tokens && h.tokens[id].value.None? ==> h.tokens[id].length == 0)
    && (forall id :: id in h.tokens && h.tokens[id].value.Some? ==>
          h.tokens[id].value.value in h.owner && h.owner[h.tokens[id].value.value] == id)
    && (forall v :: v in h.owner ==> h.owner[v] in h.tokens && h.tokens[h.owner[v]].value == Some(v))
    && (forall v :: v in h.owner ==> v !in h.freed)
    && (forall v :: v in h.freed ==> h.freed[v] == 1)
  }

  ghost predicate Invariant(h: Heap, local: multiset<TokenId>) {
    CountsInv(h, local) && AddressesInv(h) && ValuesInv(h)
  }

  /** A payload pointer the runtime has not been given before. */
  predicate NewValue(h: Heap, v: ValueId) {
    v !in h.owner && v !in h.freed
  }

  /** Counts depend on who holds a token, not on payloads, addresses or the bin. */
  lemma CountsUnchanged(h: Heap, h': Heap, local: multiset<TokenId>)
    requires CountsInv(h, local)
    requires h'.templates == h.templates && h'.queue == h.queue && h'.copies == h.copies
    requires forall id :: id in h.tokens && Count(h, local, id) > 0 ==> id in h'.tokens
    requires forall id :: id in h'.tokens ==>
               if id in h.tokens then h'.tokens[id].refCount == h.tokens[id].refCount else h'.tokens[id].refCount == 0
    ensures CountsInv(h', local)
  {
    forall x: TokenId
      ensures Count(h', local, x) == Count(h, local, x)
    {
    }
  }

  lemma RetainKeeps(h: Heap, local: multiset<TokenId>, id: TokenId)
    requires Invariant(h, local) && id in h.tokens
    ensures Invariant(Retain(h, id), local + multiset{id})
  {
    var h' := Retain(h, id);
    forall x: TokenId
      ensures Count(h', local + multiset{id}, x) == Count(h, local, x) + if x == id then 1 else 0
    {
    }
  }

  lemma FreeValueKeeps(h: Heap, local: multiset<TokenId>, id: TokenId)
    requires Invariant(h, local) && id in h.tokens
    ensures Invariant(FreeValue(h, id), local)
    ensures FreeValue(h, id).tokens.Keys == h.tokens.Keys && FreeValue(h, id).tokens[id].value.None?
    ensures h.tokens[id].value.Some? ==> FreeValue(h, id).freed == h.freed + multiset{h.tokens[id].value.value}
  {
    CountsUnchanged(h, FreeValue(h, id), local);
    FreeValueValues(h, id);
  }

  lemma FreeValueValues(h: Heap, id: TokenId)
    requires ValuesInv(h) && id in h.tokens
    ensures ValuesInv(FreeValue(h, id))
  {
  }

  lemma FreeTokenKeeps(h: Heap, local: multiset<TokenId>, id: TokenId)
    requires Invariant(h, local) && id in h.tokens
    ensures Invariant(FreeToken(h, id), local)
  {
    if h.tokens[id].refCount == 0 {
      FreeValueKeeps(h, local, id);
      RemoveKeeps(FreeValue(h, id), FreeToken(h, id), local, id);
    }
  }

  /** An unreferenced token without payload leaves, possibly for the bin. */
  lemma RemoveKeeps(h: Heap, h': Heap, local: multiset<TokenId>, id: TokenId)
    requires Invariant(h, local) && id in h.tokens && h.tokens[id].refCount == 0 && h.tokens[id].value.None?
    requires h' == h.(tokens := h.tokens - {id}, bin := h'.bin) && (h'.bin == h.bin || h'.bin == h.bin + [id])
    ensures Invariant(h', local)
  {
    CountsUnchanged(h, h', local);
  }

  lemma ReleaseKeeps(h: Heap, local: multiset<TokenId>, id: TokenId)
    requires Invariant(h, local) && id in local
    ensures id in h.tokens && h.tokens[id].refCount > 0
    ensures Invariant(Release(h, id), local - multiset{id})
  {
    assert Count(h, local, id) > 0;
    var h' := Release(h, id);
    forall x: TokenId
      ensures Count(h', local - multiset{id}, x) == Count(h, local, x) - if x == id then 1 else 0
    {
    }
  }

  lemma DoneUsingKeeps(h: Heap, local: multiset<TokenId>, id: TokenId)
    requires Invariant(h, local) && id in local
    ensures id in h.tokens && h.tokens[id].refCount > 0
    ensures Invariant(DoneUsing(h, id), local - multiset{id})
    ensures id !in DoneUsing(h, id).tokens <==> h.tokens[id].refCount == 1
    ensures h.tokens[id].refCount == 1 && h.tokens[id].value.Some? ==>
              h.tokens[id].value.value in DoneUsing(h, id).freed
  {
    ReleaseKeeps(h, local, id);
    FreeTokenKeeps(Release(h, id), local - multiset{id}, id);
  }

  lemma NewTokenKeeps(h: Heap, local: multiset<TokenId>)
    requires Invariant(h, local)
    ensures NewAddress(h) !in h.tokens
    ensures Invariant(NewToken(h), local)
    ensures forall x :: x in h.tokens ==> x in NewToken(h).tokens && NewToken(h).tokens[x] == h.tokens[x]
  {
    assert NewAddress(h) !in h.tokens;
    CountsUnchanged(h, NewToken(h), local);
  }

  lemma SetValueKeeps(h: Heap, local: multiset<TokenId>, id: TokenId, value: ValueId, length: nat)
    requires Invariant(h, local) && id in h.tokens && NewValue(h, value)
    ensures Invariant(SetValue(h, id, value, length), local)
  {
    FreeValueKeeps(h, local, id);
    assert h.tokens[id].value.Some? ==> h.tokens[id].value.value in h.owner;
    StoreKeeps(FreeValue(h, id), local, id, value, length);
  }

  lemma StoreKeeps(h: Heap, local: multiset<TokenId>, id: TokenId, value: ValueId, length: nat)
    requires Invariant(h, local) && id in h.tokens && h.tokens[id].value.None? && NewValue(h, value)
    ensures Invariant(SetValue(h, id, value, length), local)
  {
    CountsUnchanged(h, SetValue(h, id, value, length), local);
  }

  /** A template lets go of its token and holds one that was held locally. */
  function Point(h: Heap, t: nat, id: Option<TokenId>): Heap
    requires t < |h.templates|
  {
    h.(templates := h.templates[t := id])
  }

  function AsLocal(id: Option<TokenId>): multiset<TokenId> {
    if id.Some? then multiset{id.value} else multiset{}
  }

  lemma PointCounts(h: Heap, local: multiset<TokenId>, t: nat, id: Option<TokenId>, x: TokenId)
    requires t < |h.templates| && AsLocal(id) <= local
    ensures Count(Point(h, t, id), local - AsLocal(id) + AsLocal(h.templates[t]), x) == Count(h, local, x)
  {
    var was := h.templates[t];
    ReplacedCount(h.templates, t, id);
    assert (local - AsLocal(id) + AsLocal(was))[x]
           == local[x] - (if id == Some(x) then 1 else 0) + (if was == Some(x) then 1 else 0);
  }

  lemma PointKeeps(h: Heap, local: multiset<TokenId>, t: nat, id: Option<TokenId>)
    requires Invariant(h, local) && t < |h.templates| && AsLocal(id) <= local
    ensures Invariant(Point(h, t, id), local - AsLocal(id) + AsLocal(h.templates[t]))
  {
    forall x: TokenId
      ensures Count(Point(h, t, id), local - AsLocal(id) + AsLocal(h.templates[t]), x) == Count(h, local, x)
    {
      PointCounts(h, local, t, id, x);
    }
  }

  lemma ReplacedCount(s: seq<Option<TokenId>>, t: nat, id: Option<TokenId>)
    requires t < |s|
    ensures forall x: Option<TokenId> ::
              multiset(s[t := id])[x] == multiset(s)[x] - (if s[t] == x then 1 else 0) + (if id == x then 1 else 0)
  {
    assert multiset(s[t := id]) == multiset(s) - multiset{s[t]} + multiset{id};
  }
}
