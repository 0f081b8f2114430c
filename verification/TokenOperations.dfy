/** The token operations of the runtime, and what every sequence of them conserves. */
module TokenOperations {
  import opened Options
  import opened TokenHeap

  /** Keep a template's token if the template is its only holder; else give it a new one. */
  function GetToken(h: Heap, t: nat): (r: Heap)
    requires t < |h.templates|
    ensures |r.templates| == |h.templates|
  {
    var was := h.templates[t];
    if was.Some? && was.value in h.tokens && h.tokens[was.value].refCount == 1 then h else
    var id := NewAddress(h);
    DoneUsingIfAny(Point(Retain(NewToken(h), id), t, Some(id)), was)
  }

  /** lf_set and lf_set_array: store a payload in the template's token. */
  function Set(h: Heap, t: nat, value: ValueId, length: nat): Heap
    requires t < |h.templates|
  {
    var h' := GetToken(h, t);
    if h'.templates[t].Some? && h'.templates[t].value in h'.tokens
    then SetValue(h', h'.templates[t].value, value, length)
    else h'
  }

  function InitializeTemplate(h: Heap, t: nat): Heap
    requires t < |h.templates|
  {
    var h' := GetToken(h, t);
    if h'.templates[t].Some? && h'.templates[t].value in h'.tokens
    then FreeValue(h', h'.templates[t].value)
    else h'
  }

  function ReplaceTemplateToken(h: Heap, t: nat, id: TokenId): Heap
    requires t < |h.templates| && id in h.tokens
  {
    if h.templates[t] == Some(id) then h
    else DoneUsingIfAny(Point(Retain(h, id), t, Some(id)), h.templates[t])
  }

  function Schedule(h: Heap, id: TokenId): Heap
    requires id in h.tokens
  {
    var h' := Retain(h, id);
    h'.(queue := h'.queue + multiset{id})
  }

  /** A queued event gets another token, and its previous one is released. */
  function ReplaceEventToken(h: Heap, was: TokenId, id: TokenId): Heap
    requires id in h.tokens
  {
    var h' := Retain(h, id);
    DoneUsing(h'.(queue := h'.queue - multiset{was} + multiset{id}), was)
  }

  function ReleaseEvent(h: Heap, id: TokenId): Heap {
    DoneUsing(h.(queue := h.queue - multiset{id}), id)
  }

  /** An event is popped: its token moves to the template of its trigger. */
  function HandleEvent(h: Heap, id: TokenId, t: nat): Heap
    requires t < |h.templates| && id in h.tokens
  {
    ReleaseEvent(ReplaceTemplateToken(h, t, id), id)
  }

  /** Whether the template's own token can be handed out for writing. */
  predicate WritableInPlace(h: Heap, id: TokenId)
    requires id in h.tokens
  {
    h.tokens[id].refCount == 1 || h.tokens[id].value.None? || h.tokens[id].length == 0
  }

  /** A new token for a copied payload, held by the list of copies. */
  function AddCopy(h: Heap, copy: ValueId, length: nat): Heap {
    var id := NewAddress(h);
    var h' := Retain(SetValue(NewToken(h), id, copy, length), id);
    h'.(copies := h'.copies + [id])
  }

  function WritableCopy(h: Heap, t: nat, copy: ValueId): Heap
    requires t < |h.templates|
  {
    var of := h.templates[t];
    if of.None? || of.value !in h.tokens || WritableInPlace(h, of.value) then h else
    AddCopy(h, copy, h.tokens[of.value].length)
  }

  function DoneUsingAll(h: Heap, ids: seq<TokenId>): Heap
    decreases |ids|
  {
    if ids == [] then h else DoneUsingAll(DoneUsing(h, ids[0]), ids[1..])
  }

  function FreeTokenCopies(h: Heap): Heap {
    DoneUsingAll(h.(copies := []), h.copies)
  }

  // ---------- Runs ----------

  datatype Op =
    | OpNew(value: ValueId, length: nat)
    | OpSet(t: nat, value: ValueId, length: nat)
    | OpSetToken(t: nat, id: TokenId)
    | OpInitialize(t: nat)
    | OpSchedule(id: TokenId)
    | OpScheduleDropped(id: TokenId)
    | OpReplaceEventToken(was: TokenId, id: TokenId)
    | OpHandleEvent(id: TokenId, t: nat)
    | OpWritableCopy(t: nat, copy: ValueId)
    | OpFreeTokenCopies

  /** Callers pass live tokens, existing templates and payloads not passed before. */
  predicate Enabled(h: Heap, op: Op) {
    match op
    case OpNew(value, _) => NewValue(h, value)
    case OpSet(t, value, _) => t < |h.templates| && NewValue(h, value)
    case OpSetToken(t, id) => t < |h.templates| && id in h.tokens
    case OpInitialize(t) => t < |h.templates|
    case OpSchedule(id) => id in h.tokens
    case OpScheduleDropped(id) => id in h.tokens
    case OpReplaceEventToken(was, id) => was in h.queue && id in h.tokens
    case OpHandleEvent(id, t) => id in h.queue && id in h.tokens && t < |h.templates|
    case OpWritableCopy(t, copy) => t < |h.templates| && NewValue(h, copy)
    case OpFreeTokenCopies => true
  }

  function Next(h: Heap, op: Op): Heap
    requires Enabled(h, op)
  {
    match op
    case OpNew(value, length) => SetValue(NewToken(h), NewAddress(h), value, length)
    case OpSet(t, value, length) => Set(h, t, value, length)
    case OpSetToken(t, id) => ReplaceTemplateToken(h, t, id)
    case OpInitialize(t) => InitializeTemplate(h, t)
    case OpSchedule(id) => Schedule(h, id)
    case OpScheduleDropped(id) => DoneUsing(Retain(h, id), id)
    case OpReplaceEventToken(was, id) => ReplaceEventToken(h, was, id)
    case OpHandleEvent(id, t) => HandleEvent(h, id, t)
    case OpWritableCopy(t, copy) => WritableCopy(h, t, copy)
    case OpFreeTokenCopies => FreeTokenCopies(h)
  }

  predicate IsRun(h: Heap, ops: seq<Op>)
    decreases |ops|
  {
    ops == [] || (Enabled(h, ops[0]) && IsRun(Next(h, ops[0]), ops[1..]))
  }

  function After(h: Heap, ops: seq<Op>): Heap
    requires IsRun(h, ops)
    decreases |ops|
  {
    if ops == [] then h else After(Next(h, ops[0]), ops[1..])
  }

  predicate Initial(h: Heap) {
    && h.tokens == map[] && h.bin == [] && h.queue == multiset{} && h.copies == []
    && h.owner == map[] && h.freed == multiset{}
    && forall t :: 0 <= t < |h.templates| ==> h.templates[t].None?
  }

  // ---------- Every operation keeps the invariant ----------

  const NO_LOCALS: multiset<TokenId> := multiset{}

  lemma {:induction false} DoneUsingAllKeeps(h: Heap, ids: seq<TokenId>)
    requires Invariant(h, multiset(ids))
    ensures Invariant(DoneUsingAll(h, ids), NO_LOCALS)
    decreases |ids|
  {
    if ids != [] {
      DoneUsingKeeps(h, multiset(ids), ids[0]);
      assert ids == [ids[0]] + ids[1..];
      assert multiset(ids) - multiset{ids[0]} == multiset(ids[1..]);
      DoneUsingAllKeeps(DoneUsing(h, ids[0]), ids[1..]);
    }
  }

  /** The same holders, with some of them turned into local references. */
  lemma LocalsKeep(h: Heap, h': Heap, local: multiset<TokenId>, local': multiset<TokenId>)
    requires Invariant(h, local)
    requires h' == h.(queue := h'.queue, copies := h'.copies)
    requires forall x :: h'.queue[x] + multiset(h'.copies)[x] + local'[x] == h.queue[x] + multiset(h.copies)[x] + local[x]
    ensures Invariant(h', local')
  {
    forall x
      ensures Count(h', local', x) == Count(h, local, x)
    {
    }
  }

  lemma DoneUsingIfAnyKeeps(h: Heap, id: Option<TokenId>, local: multiset<TokenId>)
    requires Invariant(h, local + AsLocal(id))
    ensures Invariant(DoneUsingIfAny(h, id), local)
  {
    if id.Some? {
      DoneUsingKeeps(h, local + AsLocal(id), id.value);
      assert local + AsLocal(id) - multiset{id.value} == local;
    } else {
      assert local + AsLocal(id) == local;
    }
  }

  /** A template is pointed at a live token, and its previous token is released. */
  lemma RepointKeeps(h: Heap, t: nat, id: TokenId)
    requires Invariant(h, NO_LOCALS) && t < |h.templates| && id in h.tokens
    ensures Invariant(DoneUsingIfAny(Point(Retain(h, id), t, Some(id)), h.templates[t]), NO_LOCALS)
  {
    var was := h.templates[t];
    RetainKeeps(h, NO_LOCALS, id);
    assert NO_LOCALS + multiset{id} == AsLocal(Some(id));
    PointKeeps(Retain(h, id), AsLocal(Some(id)), t, Some(id));
    assert AsLocal(Some(id)) - AsLocal(Some(id)) + AsLocal(was) == NO_LOCALS + AsLocal(was);
    DoneUsingIfAnyKeeps(Point(Retain(h, id), t, Some(id)), was, NO_LOCALS);
  }

  lemma ReplaceTemplateTokenKeeps(h: Heap, t: nat, id: TokenId)
    requires Invariant(h, NO_LOCALS) && t < |h.templates| && id in h.tokens
    ensures Invariant(ReplaceTemplateToken(h, t, id), NO_LOCALS)
  {
    RepointKeeps(h, t, id);
  }

  lemma DoneUsingShape(h: Heap, id: TokenId)
    ensures DoneUsing(h, id).templates == h.templates && DoneUsing(h, id).queue == h.queue
    ensures DoneUsing(h, id).copies == h.copies
    ensures forall x :: x in h.tokens && x != id ==> x in DoneUsing(h, id).tokens && DoneUsing(h, id).tokens[x] == h.tokens[x]
    ensures id in h.tokens && h.tokens[id].refCount >= 2 ==>
              DoneUsing(h, id).owner == h.owner && DoneUsing(h, id).freed == h.freed
  {
  }

  lemma TemplateTokenIsLive(h: Heap, t: nat)
    requires Invariant(h, NO_LOCALS) && t < |h.templates| && h.templates[t].Some?
    ensures h.templates[t].value in h.tokens
    ensures h.tokens[h.templates[t].value].refCount == Holders(h, h.templates[t].value) > 0
  {
    assert h.templates[t] in multiset(h.templates);
    assert Count(h, NO_LOCALS, h.templates[t].value) > 0;
  }

  lemma GetTokenFreesNothing(h: Heap, t: nat)
    requires Invariant(h, NO_LOCALS) && t < |h.templates|
    ensures var h' := GetToken(h, t);
            && h'.templates[t].Some? && h'.templates[t].value in h'.tokens
            && h'.owner == h.owner && h'.freed == h.freed
  {
    var was := h.templates[t];
    var id := NewAddress(h);
    if was.Some? {
      TemplateTokenIsLive(h, t);
      DoneUsingShape(Point(Retain(NewToken(h), id), t, Some(id)), was.value);
    }
    assert id !in h.tokens;
  }

  /** The template ends up with a live token, without any payload being freed. */
  lemma GetTokenKeeps(h: Heap, t: nat)
    requires Invariant(h, NO_LOCALS) && t < |h.templates|
    ensures Invariant(GetToken(h, t), NO_LOCALS)
    ensures GetToken(h, t).templates[t].Some? && GetToken(h, t).templates[t].value in GetToken(h, t).tokens
    ensures GetToken(h, t).owner == h.owner && GetToken(h, t).freed == h.freed
  {
    GetTokenFreesNothing(h, t);
    if GetToken(h, t) != h {
      NewTokenKeeps(h, NO_LOCALS);
      RepointKeeps(NewToken(h), t, NewAddress(h));
    }
  }

  /** A template's token is reused exactly when that template is its only holder. */
  lemma ReuseNeedsSoleHolder(h: Heap, t: nat)
    requires Invariant(h, NO_LOCALS) && t < |h.templates|
    ensures GetToken(h, t).templates[t] == h.templates[t] <==>
              h.templates[t].Some? && Holders(h, h.templates[t].value) == 1
    ensures GetToken(h, t).templates[t] == h.templates[t] ==> GetToken(h, t) == h
  {
    var was := h.templates[t];
    var id := NewAddress(h);
    NewTokenKeeps(h, NO_LOCALS);
    if was.Some? {
      TemplateTokenIsLive(h, t);
      DoneUsingShape(Point(Retain(NewToken(h), id), t, Some(id)), was.value);
    }
  }

  lemma ReleaseEventKeeps(h: Heap, id: TokenId)
    requires Invariant(h, NO_LOCALS) && id in h.queue
    ensures id in h.tokens && h.tokens[id].refCount > 0
    ensures Invariant(ReleaseEvent(h, id), NO_LOCALS)
  {
    var e := h.(queue := h.queue - multiset{id});
    LocalsKeep(h, e, NO_LOCALS, multiset{id});
    DoneUsingKeeps(e, multiset{id}, id);
    assert multiset{id} - multiset{id} == NO_LOCALS;
  }

  lemma ReplaceTemplateTokenKeepsQueue(h: Heap, t: nat, id: TokenId)
    requires t < |h.templates| && id in h.tokens
    ensures ReplaceTemplateToken(h, t, id).queue == h.queue
  {
    if h.templates[t].Some? {
      DoneUsingShape(Point(Retain(h, id), t, Some(id)), h.templates[t].value);
    }
  }

  lemma HandleEventKeeps(h: Heap, id: TokenId, t: nat)
    requires Invariant(h, NO_LOCALS) && id in h.queue && id in h.tokens && t < |h.templates|
    ensures Invariant(HandleEvent(h, id, t), NO_LOCALS)
  {
    ReplaceTemplateTokenKeeps(h, t, id);
    ReplaceTemplateTokenKeepsQueue(h, t, id);
    ReleaseEventKeeps(ReplaceTemplateToken(h, t, id), id);
  }

  lemma ScheduleKeeps(h: Heap, id: TokenId)
    requires Invariant(h, NO_LOCALS) && id in h.tokens
    ensures Invariant(Schedule(h, id), NO_LOCALS)
  {
    RetainKeeps(h, NO_LOCALS, id);
    LocalsKeep(Retain(h, id), Schedule(h, id), NO_LOCALS + multiset{id}, NO_LOCALS);
  }

  lemma ReplaceEventTokenKeeps(h: Heap, was: TokenId, id: TokenId)
    requires Invariant(h, NO_LOCALS) && was in h.queue && id in h.tokens
    ensures Invariant(ReplaceEventToken(h, was, id), NO_LOCALS)
  {
    RetainKeeps(h, NO_LOCALS, id);
    var h' := Retain(h, id);
    var e := h'.(queue := h'.queue - multiset{was} + multiset{id});
    LocalsKeep(h', e, NO_LOCALS + multiset{id}, multiset{was});
    DoneUsingKeeps(e, multiset{was}, was);
    assert multiset{was} - multiset{was} == NO_LOCALS;
  }

  lemma AddCopyKeeps(h: Heap, copy: ValueId, length: nat)
    requires Invariant(h, NO_LOCALS) && NewValue(h, copy)
    ensures Invariant(AddCopy(h, copy, length), NO_LOCALS)
  {
    var id := NewAddress(h);
    NewTokenKeeps(h, NO_LOCALS);
    SetValueKeeps(NewToken(h), NO_LOCALS, id, copy, length);
    var s := SetValue(NewToken(h), id, copy, length);
    RetainKeeps(s, NO_LOCALS, id);
    LocalsKeep(Retain(s, id), AddCopy(h, copy, length), NO_LOCALS + multiset{id}, NO_LOCALS);
  }

  lemma NextKeeps(h: Heap, op: Op)
    requires Invariant(h, NO_LOCALS) && Enabled(h, op)
    ensures Invariant(Next(h, op), NO_LOCALS)
  {
    match op
    case OpNew(value, length) =>
      NewTokenKeeps(h, NO_LOCALS);
      SetValueKeeps(NewToken(h), NO_LOCALS, NewAddress(h), value, length);
    case OpSet(t, value, length) =>
      GetTokenKeeps(h, t);
      SetValueKeeps(GetToken(h, t), NO_LOCALS, GetToken(h, t).templates[t].value, value, length);
    case OpSetToken(t, id) => ReplaceTemplateTokenKeeps(h, t, id);
    case OpInitialize(t) =>
      GetTokenKeeps(h, t);
      FreeValueKeeps(GetToken(h, t), NO_LOCALS, GetToken(h, t).templates[t].value);
    case OpSchedule(id) => ScheduleKeeps(h, id);
    case OpScheduleDropped(id) =>
      RetainKeeps(h, NO_LOCALS, id);
      DoneUsingKeeps(Retain(h, id), NO_LOCALS + multiset{id}, id);
      assert NO_LOCALS + multiset{id} - multiset{id} == NO_LOCALS;
    case OpReplaceEventToken(was, id) => ReplaceEventTokenKeeps(h, was, id);
    case OpHandleEvent(id, t) => HandleEventKeeps(h, id, t);
    case OpWritableCopy(t, copy) =>
      if WritableCopy(h, t, copy) != h {
        AddCopyKeeps(h, copy, h.tokens[h.templates[t].value].length);
      }
    case OpFreeTokenCopies =>
      LocalsKeep(h, h.(copies := []), NO_LOCALS, multiset(h.copies));
      DoneUsingAllKeeps(h.(copies := []), h.copies);
  }

  lemma InitialInvariant(h: Heap)
    requires Initial(h)
    ensures Invariant(h, NO_LOCALS)
  {
    forall x: TokenId
      ensures Count(h, NO_LOCALS, x) == 0
    {
      assert Some(x) !in h.templates;
    }
  }

  lemma {:induction false} RunKeeps(h: Heap, ops: seq<Op>)
    requires Invariant(h, NO_LOCALS) && IsRun(h, ops)
    ensures Invariant(After(h, ops), NO_LOCALS)
    decreases |ops|
  {
    if ops != [] {
      NextKeeps(h, ops[0]);
      RunKeeps(Next(h, ops[0]), ops[1..]);
    }
  }
}
