/** The last holder that leaves a token frees it: what remains unheld was never sent. */
module TokenRelease {
  import opened Options
  import opened TokenHeap
  import opened TokenOperations

  /** A live token that nothing holds. */
  predicate Idle(h: Heap, id: TokenId) {
    id in h.tokens && h.tokens[id].refCount == 0
  }

  ghost predicate NoNewIdle(h: Heap, h': Heap) {
    forall id :: Idle(h', id) ==> Idle(h, id)
  }

  lemma DoneUsingFrees(h: Heap, id: TokenId)
    ensures NoNewIdle(h, DoneUsing(h, id))
    ensures id in h.tokens && h.tokens[id].refCount == 1 ==> id !in DoneUsing(h, id).tokens
  {
  }

  lemma {:induction false} DoneUsingAllFrees(h: Heap, ids: seq<TokenId>)
    ensures NoNewIdle(h, DoneUsingAll(h, ids))
    decreases |ids|
  {
    if ids != [] {
      DoneUsingFrees(h, ids[0]);
      DoneUsingAllFrees(DoneUsing(h, ids[0]), ids[1..]);
    }
  }

  /** A token is retained before the one in its place is released. */
  lemma RepointFrees(h: Heap, t: nat, id: TokenId, was: Option<TokenId>)
    requires t < |h.templates| && id in h.tokens
    ensures var z := DoneUsingIfAny(Point(Retain(h, id), t, Some(id)), was);
            forall x :: Idle(z, x) ==> x != id && Idle(h, x)
  {
    var p := Point(Retain(h, id), t, Some(id));
    if was.Some? {
      DoneUsingFrees(p, was.value);
    }
  }

  lemma GetTokenFrees(h: Heap, t: nat)
    requires t < |h.templates|
    ensures NoNewIdle(h, GetToken(h, t))
  {
    RepointFrees(NewToken(h), t, NewAddress(h), h.templates[t]);
  }

  lemma ReplaceTemplateTokenFrees(h: Heap, t: nat, id: TokenId)
    requires t < |h.templates| && id in h.tokens
    ensures NoNewIdle(h, ReplaceTemplateToken(h, t, id))
  {
    RepointFrees(h, t, id, h.templates[t]);
  }

  lemma OverwriteFrees(h: Heap, t: nat, value: ValueId, length: nat)
    requires t < |h.templates|
    ensures NoNewIdle(h, Set(h, t, value, length)) && NoNewIdle(h, InitializeTemplate(h, t))
  {
    GetTokenFrees(h, t);
  }

  lemma EventFrees(h: Heap, id: TokenId, t: nat)
    requires t < |h.templates| && id in h.tokens
    ensures NoNewIdle(h, HandleEvent(h, id, t))
  {
    ReplaceTemplateTokenFrees(h, t, id);
    var r := ReplaceTemplateToken(h, t, id);
    DoneUsingFrees(r.(queue := r.queue - multiset{id}), id);
  }

  /**
   * No operation leaves a token live without holders, except one that was so already and the
   * new token a user has made and not sent yet.
   */
  lemma LastHolderFrees(h: Heap, op: Op, id: TokenId)
    requires Enabled(h, op) && Idle(Next(h, op), id)
    ensures Idle(h, id) || (op.OpNew? && id == NewAddress(h))
  {
    match op
    case OpNew(_, _) =>
    case OpSet(t, value, length) => OverwriteFrees(h, t, value, length);
    case OpInitialize(t) => OverwriteFrees(h, t, 0, 0);
    case OpSetToken(t, x) => ReplaceTemplateTokenFrees(h, t, x);
    case OpSchedule(_) =>
    case OpScheduleDropped(x) => DoneUsingFrees(Retain(h, x), x);
    case OpReplaceEventToken(was, x) =>
      DoneUsingFrees(Retain(h, x).(queue := h.queue - multiset{was} + multiset{x}), was);
    case OpHandleEvent(x, t) => EventFrees(h, x, t);
    case OpWritableCopy(_, _) =>
    case OpFreeTokenCopies => DoneUsingAllFrees(h.(copies := []), h.copies);
  }

  // ---------- Tokens that were never sent ----------

  /** The token is live and unheld in this state and in every later state of the run. */
  predicate NeverHeld(h: Heap, ops: seq<Op>, id: TokenId)
    requires IsRun(h, ops)
    decreases |ops|
  {
    Idle(h, id) && (ops == [] || NeverHeld(Next(h, ops[0]), ops[1..], id))
  }

  /** A user makes the token in the run and nothing holds it from then on. */
  predicate MadeAndNeverHeld(h: Heap, ops: seq<Op>, id: TokenId)
    requires IsRun(h, ops)
    decreases |ops|
  {
    && ops != []
    && var z := Next(h, ops[0]);
       || (ops[0].OpNew? && id == NewAddress(h) && NeverHeld(z, ops[1..], id))
       || MadeAndNeverHeld(z, ops[1..], id)
  }

  /** Whatever is unheld at the end of a run has been so from its making on. */
  lemma {:induction false} UnheldWasNeverHeld(h: Heap, ops: seq<Op>, id: TokenId)
    requires IsRun(h, ops) && Idle(After(h, ops), id)
    ensures NeverHeld(h, ops, id) || MadeAndNeverHeld(h, ops, id)
    decreases |ops|
  {
    if ops != [] {
      var z := Next(h, ops[0]);
      UnheldWasNeverHeld(z, ops[1..], id);
      if NeverHeld(z, ops[1..], id) {
        LastHolderFrees(h, ops[0], id);
      }
    }
  }
}
