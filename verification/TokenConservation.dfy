/** Conservation of tokens and payloads over every sequence of token operations. */
module TokenConservation {
  import opened Options
  import opened TokenHeap
  import opened TokenOperations
  import opened TokenRelease

  /**
   * In every reachable state each live token's reference count is its number of holders, the live
   * tokens are those that are held and those that a user made and never sent, and each payload is
   * either carried by one live token or has been freed once.
   */
  lemma TokensAreConserved(h: Heap, ops: seq<Op>)
    requires Initial(h) && IsRun(h, ops)
    ensures var z := After(h, ops);
            && (forall id :: id in z.tokens ==> z.tokens[id].refCount == Holders(z, id))
            && (forall id: TokenId :: Holders(z, id) > 0 ==> id in z.tokens)
            && (forall id :: id in z.tokens ==> Holders(z, id) > 0 || MadeAndNeverHeld(h, ops, id))
            && (forall id :: id in z.tokens && z.tokens[id].value.Some? ==>
                  z.tokens[id].value.value in z.owner && z.tokens[id].value.value !in z.freed
                  && z.owner[z.tokens[id].value.value] == id)
            && (forall v :: v in z.freed ==> z.freed[v] == 1)
  {
    InitialInvariant(h);
    RunKeeps(h, ops);
    var z := After(h, ops);
    forall id: TokenId
      ensures id in z.tokens ==> z.tokens[id].refCount == Holders(z, id)
      ensures Holders(z, id) > 0 ==> id in z.tokens
      ensures id in z.tokens ==> Holders(z, id) > 0 || MadeAndNeverHeld(h, ops, id)
    {
      assert Count(z, NO_LOCALS, id) == Holders(z, id);
      if Idle(z, id) {
        UnheldWasNeverHeld(h, ops, id);
      }
    }
  }

  // ---------- How payloads move ----------

  /** No payload is forgotten or moves to another token, and none comes back once freed. */
  predicate Accounts(h: Heap, h': Heap) {
    && (forall v :: v in h.freed ==> v in h'.freed)
    && (forall v :: v in h.owner ==> (v in h'.owner && h'.owner[v] == h.owner[v]) || v in h'.freed)
  }

  /** Tokens may disappear, and those that stay keep their payload. */
  predicate Shrinks(h: Heap, h': Heap) {
    && Accounts(h, h')
    && forall id :: id in h'.tokens ==> id in h.tokens && h'.tokens[id].value == h.tokens[id].value
  }

  /** Tokens that stay keep their payload; other tokens may be new. */
  predicate KeepsPayloads(h: Heap, h': Heap) {
    && Accounts(h, h')
    && forall id :: id in h.tokens && id in h'.tokens ==> h'.tokens[id].value == h.tokens[id].value
  }

  lemma DoneUsingShrinks(h: Heap, id: TokenId)
    ensures Shrinks(h, DoneUsing(h, id))
  {
  }

  lemma {:induction false} DoneUsingAllShrinks(h: Heap, ids: seq<TokenId>)
    ensures Shrinks(h, DoneUsingAll(h, ids))
    decreases |ids|
  {
    if ids != [] {
      DoneUsingShrinks(h, ids[0]);
      DoneUsingAllShrinks(DoneUsing(h, ids[0]), ids[1..]);
    }
  }

  lemma GetTokenKeepsPayloads(h: Heap, t: nat)
    requires Invariant(h, NO_LOCALS) && t < |h.templates|
    ensures KeepsPayloads(h, GetToken(h, t))
  {
    var id := NewAddress(h);
    assert id !in h.tokens;
    if h.templates[t].Some? {
      DoneUsingShrinks(Point(Retain(NewToken(h), id), t, Some(id)), h.templates[t].value);
    }
  }

  lemma ReplaceTemplateTokenShrinks(h: Heap, t: nat, id: TokenId)
    requires t < |h.templates| && id in h.tokens
    ensures Shrinks(h, ReplaceTemplateToken(h, t, id))
  {
    if h.templates[t].Some? {
      DoneUsingShrinks(Point(Retain(h, id), t, Some(id)), h.templates[t].value);
    }
  }

  lemma ReplaceEventTokenShrinks(h: Heap, was: TokenId, id: TokenId)
    requires id in h.tokens
    ensures Shrinks(h, ReplaceEventToken(h, was, id))
  {
    var h' := Retain(h, id);
    DoneUsingShrinks(h'.(queue := h'.queue - multiset{was} + multiset{id}), was);
  }

  lemma HandleEventShrinks(h: Heap, id: TokenId, t: nat)
    requires t < |h.templates| && id in h.tokens
    ensures Shrinks(h, HandleEvent(h, id, t))
  {
    ReplaceTemplateTokenShrinks(h, t, id);
    var h' := ReplaceTemplateToken(h, t, id);
    DoneUsingShrinks(h'.(queue := h'.queue - multiset{id}), id);
  }

  lemma NewPayloadAccounts(h: Heap, value: ValueId, length: nat)
    requires Invariant(h, NO_LOCALS) && NewValue(h, value)
    ensures KeepsPayloads(h, SetValue(NewToken(h), NewAddress(h), value, length))
  {
    NewTokenKeeps(h, NO_LOCALS);
  }

  lemma CopyAccounts(h: Heap, value: ValueId, length: nat)
    requires Invariant(h, NO_LOCALS) && NewValue(h, value)
    ensures KeepsPayloads(h, AddCopy(h, value, length))
  {
    NewTokenKeeps(h, NO_LOCALS);
    NewPayloadAccounts(h, value, length);
  }

  /** The template of an overwriting operation, whose old payload is replaced in place. */
  predicate Overwrites(h: Heap, op: Op, id: TokenId) {
    && (op.OpSet? || op.OpInitialize?)
    && op.t < |h.templates| && h.templates[op.t] == Some(id) && Holders(h, id) == 1
  }

  lemma GetTokenChoice(h: Heap, t: nat)
    requires Invariant(h, NO_LOCALS) && t < |h.templates|
    ensures var g := GetToken(h, t);
            && g.templates[t].Some?
            && (g.templates[t].value in h.tokens ==> h.templates[t] == g.templates[t] && Holders(h, g.templates[t].value) == 1)
  {
    ReuseNeedsSoleHolder(h, t);
    GetTokenKeeps(h, t);
    NewTokenKeeps(h, NO_LOCALS);
  }

  /** Storing or dropping the payload of one token leaves every other token as it is. */
  lemma StoreEffect(h: Heap, id: TokenId, value: ValueId, length: nat)
    requires Invariant(h, NO_LOCALS) && id in h.tokens
    ensures Accounts(h, FreeValue(h, id)) && (NewValue(h, value) ==> Accounts(h, SetValue(h, id, value, length)))
    ensures forall x :: x in h.tokens && x != id ==>
              && x in FreeValue(h, id).tokens && FreeValue(h, id).tokens[x] == h.tokens[x]
              && x in SetValue(h, id, value, length).tokens && SetValue(h, id, value, length).tokens[x] == h.tokens[x]
    ensures FreeValue(h, id).tokens.Keys == SetValue(h, id, value, length).tokens.Keys == h.tokens.Keys
  {
  }

  lemma OverwriteAccounts(h: Heap, op: Op)
    requires Invariant(h, NO_LOCALS) && Enabled(h, op) && (op.OpSet? || op.OpInitialize?)
    ensures Accounts(h, Next(h, op))
    ensures forall id :: id in h.tokens && id in Next(h, op).tokens && !Overwrites(h, op, id) ==>
              Next(h, op).tokens[id].value == h.tokens[id].value
  {
    GetTokenKeeps(h, op.t);
    GetTokenKeepsPayloads(h, op.t);
    GetTokenChoice(h, op.t);
    var g := GetToken(h, op.t);
    var own := g.templates[op.t].value;
    StoreEffect(g, own, if op.OpSet? then op.value else 0, if op.OpSet? then op.length else 0);
    var h' := Next(h, op);
    forall id | id in h.tokens && id in h'.tokens && !Overwrites(h, op, id)
      ensures h'.tokens[id].value == h.tokens[id].value
    {
      assert id != own;
      assert h'.tokens[id] == g.tokens[id];
    }
  }

  /** Surviving tokens keep their payload unless their sole holder overwrites it. */
  lemma StepAccounts(h: Heap, op: Op)
    requires Invariant(h, NO_LOCALS) && Enabled(h, op)
    ensures Accounts(h, Next(h, op))
    ensures forall id :: id in h.tokens && id in Next(h, op).tokens && !Overwrites(h, op, id) ==>
              Next(h, op).tokens[id].value == h.tokens[id].value
  {
    match op
    case OpSet(_, _, _) => OverwriteAccounts(h, op);
    case OpInitialize(_) => OverwriteAccounts(h, op);
    case OpNew(value, length) => NewPayloadAccounts(h, value, length);
    case OpWritableCopy(t, copy) =>
      if Next(h, op) != h {
        CopyAccounts(h, copy, h.tokens[h.templates[t].value].length);
      }
    case OpSetToken(t, id) => ReplaceTemplateTokenShrinks(h, t, id);
    case OpSchedule(_) =>
    case OpScheduleDropped(id) => DoneUsingShrinks(Retain(h, id), id);
    case OpReplaceEventToken(was, id) => ReplaceEventTokenShrinks(h, was, id);
    case OpHandleEvent(id, t) => HandleEventShrinks(h, id, t);
    case OpFreeTokenCopies => DoneUsingAllShrinks(h.(copies := []), h.copies);
  }

  /** What a step frees is unheld afterwards, or was overwritten by the sole holder of its token. */
  lemma FreedWithoutHolders(h: Heap, op: Op, v: ValueId)
    requires Invariant(h, NO_LOCALS) && Enabled(h, op)
    ensures v in h.owner && v in Next(h, op).freed ==>
              Holders(Next(h, op), h.owner[v]) == 0 || Overwrites(h, op, h.owner[v])
  {
    NextKeeps(h, op);
    StepAccounts(h, op);
    var h' := Next(h, op);
    if v in h.owner && v in h'.freed {
      var id := h.owner[v];
      assert Count(h', NO_LOCALS, id) == Holders(h', id);
      if Holders(h', id) > 0 {
        assert id in h'.tokens;
        assert h'.tokens[id].value == Some(v) ==> v in h'.owner;
      }
    }
  }

  /** When the last holder of a token leaves, the token is gone and its payload is freed. */
  lemma UnheldIsFreed(h: Heap, op: Op, v: ValueId)
    requires Invariant(h, NO_LOCALS) && Enabled(h, op)
    ensures v in h.owner && Holders(h, h.owner[v]) > 0 && Holders(Next(h, op), h.owner[v]) == 0 ==>
              h.owner[v] !in Next(h, op).tokens && v in Next(h, op).freed
  {
    var h' := Next(h, op);
    NextKeeps(h, op);
    StepAccounts(h, op);
    if v in h.owner && Holders(h, h.owner[v]) > 0 && Holders(h', h.owner[v]) == 0 {
      var id := h.owner[v];
      assert Count(h', NO_LOCALS, id) == Holders(h', id) && Count(h, NO_LOCALS, id) == Holders(h, id);
      if id in h'.tokens {
        LastHolderFrees(h, op, id);
        NewTokenKeeps(h, NO_LOCALS);
        assert false;
      }
    }
  }

  lemma OverwritingFrees(h: Heap, op: Op, v: ValueId)
    requires Invariant(h, NO_LOCALS) && Enabled(h, op)
    ensures v in h.owner && Overwrites(h, op, h.owner[v]) ==> v in Next(h, op).freed
  {
    if v in h.owner && Overwrites(h, op, h.owner[v]) {
      TemplateTokenIsLive(h, op.t);
    }
  }

  /**
   * A payload whose token is held is freed by exactly the steps after which nothing holds the
   * token any more, or in which the token's sole holder overwrites it.
   */
  lemma FreedExactly(h: Heap, op: Op, v: ValueId)
    requires Invariant(h, NO_LOCALS) && Enabled(h, op)
    ensures v in h.owner && Holders(h, h.owner[v]) > 0 ==>
              (v in Next(h, op).freed <==> Holders(Next(h, op), h.owner[v]) == 0 || Overwrites(h, op, h.owner[v]))
  {
    FreedWithoutHolders(h, op, v);
    UnheldIsFreed(h, op, v);
    OverwritingFrees(h, op, v);
  }

  /** A payload that is held stays with its token and is held, until it is freed. */
  lemma {:induction false} HeldUntilFreed(h: Heap, ops: seq<Op>, v: ValueId)
    requires Invariant(h, NO_LOCALS) && IsRun(h, ops)
    requires v in h.owner && Holders(h, h.owner[v]) > 0
    ensures var z := After(h, ops);
            v in z.freed || (v in z.owner && z.owner[v] == h.owner[v] && Holders(z, z.owner[v]) > 0)
    decreases |ops|
  {
    if ops != [] {
      var z := Next(h, ops[0]);
      NextKeeps(h, ops[0]);
      StepAccounts(h, ops[0]);
      UnheldIsFreed(h, ops[0], v);
      if v in z.freed {
        RunAccounts(z, ops[1..]);
      } else {
        HeldUntilFreed(z, ops[1..], v);
      }
    }
  }

  /** A payload that is carried but unheld at the end of a run was never held in the run. */
  lemma {:induction false} CarriedUnheld(h: Heap, ops: seq<Op>, v: ValueId)
    requires Invariant(h, NO_LOCALS) && IsRun(h, ops) && v in h.owner
    ensures var z := After(h, ops);
            v in z.owner ==> Holders(z, z.owner[v]) > 0 || NeverHeld(h, ops, h.owner[v])
    decreases |ops|
  {
    RunKeeps(h, ops);
    if v in After(h, ops).owner {
      if Holders(h, h.owner[v]) > 0 {
        HeldUntilFreed(h, ops, v);
      } else {
        assert Count(h, NO_LOCALS, h.owner[v]) == 0;
        if ops != [] {
          var z := Next(h, ops[0]);
          NextKeeps(h, ops[0]);
          StepAccounts(h, ops[0]);
          RunAccounts(z, ops[1..]);
          CarriedUnheld(z, ops[1..], v);
        }
      }
    }
  }

  lemma {:induction false} RunAccounts(h: Heap, ops: seq<Op>)
    requires Invariant(h, NO_LOCALS) && IsRun(h, ops)
    ensures Accounts(h, After(h, ops))
    decreases |ops|
  {
    if ops != [] {
      StepAccounts(h, ops[0]);
      NextKeeps(h, ops[0]);
      RunAccounts(Next(h, ops[0]), ops[1..]);
    }
  }

  /** The payload an operation hands to the runtime, if it takes one. */
  function Taken(h: Heap, op: Op): Option<ValueId>
    requires Enabled(h, op)
  {
    match op
    case OpNew(v, _) => Some(v)
    case OpSet(_, v, _) => Some(v)
    case OpWritableCopy(t, v) =>
      if h.templates[t].Some? && h.templates[t].value in h.tokens && !WritableInPlace(h, h.templates[t].value)
      then Some(v) else None
    case _ => None
  }

  /**
   * A payload handed over is from then on carried by exactly one token or freed, exactly once; it
   * is carried only while its token is held, or as long as the token has not been sent.
   */
  lemma PayloadFreedOnce(h: Heap, op: Op, ops: seq<Op>)
    requires Invariant(h, NO_LOCALS) && Enabled(h, op) && IsRun(Next(h, op), ops)
    requires Taken(h, op).Some?
    ensures var v := Taken(h, op).value;
            var z := After(Next(h, op), ops);
            && (v in z.owner <==> v !in z.freed)
            && z.freed[v] <= 1
            && (v in z.owner ==> z.owner[v] in z.tokens && z.tokens[z.owner[v]].value == Some(v))
            && v in Next(h, op).owner
            && (v in z.owner ==>
                  Holders(z, z.owner[v]) > 0 || NeverHeld(Next(h, op), ops, Next(h, op).owner[v]))
  {
    var v := Taken(h, op).value;
    if op.OpSet? {
      GetTokenKeeps(h, op.t);
    }
    assert v in Next(h, op).owner;
    NextKeeps(h, op);
    CarriedUnheld(Next(h, op), ops, v);
    RunKeeps(Next(h, op), ops);
    RunAccounts(Next(h, op), ops);
  }

  // ---------- Who holds what afterwards ----------

  lemma {:induction false} DoneUsingAllShape(h: Heap, ids: seq<TokenId>)
    ensures var z := DoneUsingAll(h, ids);
            z.templates == h.templates && z.queue == h.queue && z.copies == h.copies
    decreases |ids|
  {
    if ids != [] {
      DoneUsingShape(h, ids[0]);
      DoneUsingAllShape(DoneUsing(h, ids[0]), ids[1..]);
    }
  }

  lemma RepointShape(h: Heap, t: nat, id: TokenId)
    requires t < |h.templates| && id in h.tokens
    ensures var z := ReplaceTemplateToken(h, t, id);
            z.templates == h.templates[t := Some(id)] && z.queue == h.queue && z.copies == h.copies
  {
    if h.templates[t].Some? {
      DoneUsingShape(Point(Retain(h, id), t, Some(id)), h.templates[t].value);
    }
  }

  lemma OverwriteShape(h: Heap, t: nat, value: ValueId, length: nat)
    requires Invariant(h, NO_LOCALS) && t < |h.templates|
    ensures var g := GetToken(h, t);
            && Set(h, t, value, length).templates == InitializeTemplate(h, t).templates == h.templates[t := g.templates[t]]
            && Set(h, t, value, length).queue == InitializeTemplate(h, t).queue == h.queue
            && Set(h, t, value, length).copies == InitializeTemplate(h, t).copies == h.copies
  {
    GetTokenShape(h, t);
  }

  lemma CopyShape(h: Heap, t: nat, copy: ValueId)
    requires Invariant(h, NO_LOCALS) && t < |h.templates|
    ensures var z := WritableCopy(h, t, copy);
            && z.templates == h.templates && z.queue == h.queue
            && z.copies == if Writable(h, t) == h.templates[t] then h.copies else h.copies + [NewAddress(h)]
  {
    NewTokenKeeps(h, NO_LOCALS);
    if h.templates[t].Some? {
      TemplateTokenIsLive(h, t);
    }
  }

  /** Templates, queued events and copies change where the operation says, and nowhere else. */
  lemma HoldersAfter(h: Heap, op: Op)
    requires Invariant(h, NO_LOCALS) && Enabled(h, op)
    ensures var z := Next(h, op);
            && (op.OpSetToken? || op.OpHandleEvent? ==> z.templates == h.templates[op.t := Some(op.id)])
            && (op.OpSet? || op.OpInitialize? ==>
                  |z.templates| == |h.templates| && z.templates == h.templates[op.t := z.templates[op.t]])
            && (op.OpSetToken? || op.OpHandleEvent? || op.OpSet? || op.OpInitialize? || z.templates == h.templates)
    ensures var z := Next(h, op);
            && (op.OpSchedule? ==> z.queue == h.queue + multiset{op.id})
            && (op.OpReplaceEventToken? ==> z.queue == h.queue - multiset{op.was} + multiset{op.id})
            && (op.OpHandleEvent? ==> z.queue == h.queue - multiset{op.id})
            && (op.OpSchedule? || op.OpReplaceEventToken? || op.OpHandleEvent? || z.queue == h.queue)
    ensures var z := Next(h, op);
            && (op.OpFreeTokenCopies? ==> z.copies == [])
            && (op.OpWritableCopy? ==>
                  z.copies == if Writable(h, op.t) == h.templates[op.t] then h.copies else h.copies + [NewAddress(h)])
            && (op.OpFreeTokenCopies? || op.OpWritableCopy? || z.copies == h.copies)
  {
    match op
    case OpNew(_, _) =>
    case OpSet(t, value, length) => OverwriteShape(h, t, value, length);
    case OpInitialize(t) => OverwriteShape(h, t, 0, 0);
    case OpSetToken(t, id) => RepointShape(h, t, id);
    case OpSchedule(_) =>
    case OpScheduleDropped(id) => DoneUsingShape(Retain(h, id), id);
    case OpReplaceEventToken(was, id) =>
      DoneUsingShape(Retain(h, id).(queue := h.queue - multiset{was} + multiset{id}), was);
    case OpHandleEvent(id, t) => EventShape(h, id, t);
    case OpWritableCopy(t, copy) => CopyShape(h, t, copy);
    case OpFreeTokenCopies => DoneUsingAllShape(h.(copies := []), h.copies);
  }

  lemma EventShape(h: Heap, id: TokenId, t: nat)
    requires t < |h.templates| && id in h.tokens
    ensures var z := HandleEvent(h, id, t);
            z.templates == h.templates[t := Some(id)] && z.queue == h.queue - multiset{id} && z.copies == h.copies
  {
    RepointShape(h, t, id);
    var r := ReplaceTemplateToken(h, t, id);
    DoneUsingShape(r.(queue := r.queue - multiset{id}), id);
  }

  lemma GetTokenShape(h: Heap, t: nat)
    requires Invariant(h, NO_LOCALS) && t < |h.templates|
    ensures var z := GetToken(h, t);
            && z.templates == h.templates[t := z.templates[t]] && z.queue == h.queue && z.copies == h.copies
            && z.templates[t].Some? && z.templates[t].value in z.tokens
  {
    GetTokenKeeps(h, t);
    if h.templates[t].Some? {
      DoneUsingShape(Point(Retain(NewToken(h), NewAddress(h)), t, Some(NewAddress(h))), h.templates[t].value);
    }
  }

  // ---------- Writable copies ----------

  /** The token lf_writable_copy returns. */
  function Writable(h: Heap, t: nat): Option<TokenId>
    requires t < |h.templates|
  {
    var of := h.templates[t];
    if of.None? || of.value !in h.tokens || WritableInPlace(h, of.value) then of else Some(NewAddress(h))
  }

  /**
   * The returned token has reference count 1 except when the template's token is shared and its
   * payload is empty; then it is returned as it is.
   */
  lemma WritableIsExclusive(h: Heap, t: nat, copy: ValueId)
    requires Invariant(h, NO_LOCALS) && t < |h.templates| && NewValue(h, copy) && h.templates[t].Some?
    ensures var h' := WritableCopy(h, t, copy);
            var w := Writable(h, t).value;
            var was := h.templates[t].value;
            && was in h.tokens && Writable(h, t).Some? && w in h'.tokens
            && (h'.tokens[w].refCount == 1 <==>
                  Holders(h, was) == 1 || (h.tokens[was].value.Some? && h.tokens[was].length > 0))
            && h'.templates == h.templates && h'.tokens[was] == h.tokens[was]
            && (w != was ==> h'.tokens[w] == Token(Some(copy), h.tokens[was].length, 1) && h'.copies == h.copies + [w])
  {
    TemplateTokenIsLive(h, t);
    NewTokenKeeps(h, NO_LOCALS);
  }

  /**
   * The template's own token is returned, and nothing changes, exactly when the template is its
   * only holder or it has no payload or an empty one; else a new token with the copied payload is
   * returned, which the list of copies holds.
   */
  lemma WritableIsOwn(h: Heap, t: nat, copy: ValueId)
    requires Invariant(h, NO_LOCALS) && t < |h.templates| && h.templates[t].Some?
    ensures h.templates[t].value in h.tokens
    ensures var was := h.templates[t].value;
            var own := Holders(h, was) == 1 || h.tokens[was].value.None? || h.tokens[was].length == 0;
            && (Writable(h, t) == h.templates[t] <==> own)
            && (WritableCopy(h, t, copy) == h <==> own)
            && (!own ==> Writable(h, t).Some? && Writable(h, t).value !in h.tokens)
  {
    TemplateTokenIsLive(h, t);
    NewTokenKeeps(h, NO_LOCALS);
    assert Writable(h, t) != h.templates[t] ==> NewAddress(h) in WritableCopy(h, t, copy).tokens;
  }

  /** Two ports that share an empty token: the writable token is theirs, with reference count 2. */
  lemma WritableMayBeShared()
    ensures exists h: Heap, ops: seq<Op> ::
              && Initial(h) && IsRun(h, ops)
              && var z := After(h, ops);
                 && 0 < |z.templates| && Writable(z, 0) == Some(0)
                 && 0 in z.tokens && z.tokens[0].refCount == 2
  {
    var h := Heap(map[], [], 0, 0, [None, None], multiset{}, [], map[], multiset{});
    var first, second := OpInitialize(0), OpSetToken(1, 0);
    var y := Next(h, first);
    assert y.templates == [Some(0), None] && y.tokens == map[0 := Token(None, 0, 1)];
    var z := Next(y, second);
    TwoSteps(h, first, second);
    assert z == After(h, [first, second]);
  }

  lemma TwoSteps(h: Heap, first: Op, second: Op)
    requires Enabled(h, first) && Enabled(Next(h, first), second)
    ensures IsRun(h, [first, second]) && After(h, [first, second]) == Next(Next(h, first), second)
  {
    var y := Next(h, first);
    var z := Next(y, second);
    assert [first, second][1..] == [second] && [second][1..] == [];
    assert IsRun(z, []) && After(z, []) == z;
    assert IsRun(y, [second]) && After(y, [second]) == After(z, []);
  }

  /** An initialized template holds, alone, a token without payload. */
  lemma InitializedTemplate(h: Heap, t: nat)
    requires Invariant(h, NO_LOCALS) && t < |h.templates|
    ensures var h' := InitializeTemplate(h, t);
            t < |h'.templates| && h'.templates[t].Some? && h'.templates[t].value in h'.tokens
            && h'.tokens[h'.templates[t].value] == Token(None, 0, 1)
  {
    GetTokenKeeps(h, t);
    TemplateTokenIsLive(GetToken(h, t), t);
    GetTokenSole(h, t);
  }

  lemma GetTokenSole(h: Heap, t: nat)
    requires Invariant(h, NO_LOCALS) && t < |h.templates|
    ensures GetToken(h, t).templates[t].Some? && GetToken(h, t).templates[t].value in GetToken(h, t).tokens
    ensures GetToken(h, t).tokens[GetToken(h, t).templates[t].value].refCount == 1
  {
    var id := NewAddress(h);
    assert id !in h.tokens;
    if h.templates[t].Some? {
      DoneUsingShape(Point(Retain(NewToken(h), id), t, Some(id)), h.templates[t].value);
      TemplateTokenIsLive(h, t);
    }
  }

  // ---------- Shutting down ----------

  ghost predicate NothingHeld(h: Heap) {
    && (forall t :: 0 <= t < |h.templates| ==> h.templates[t].None?)
    && h.queue == multiset{} && h.copies == []
  }

  /**
   * When templates, events and copies hold nothing, every payload that was held at any time of
   * the run has been freed, exactly once.
   */
  lemma EverHeldIsFreed(h: Heap, before: seq<Op>, ops: seq<Op>, v: ValueId)
    requires Initial(h) && IsRun(h, before) && IsRun(After(h, before), ops)
    requires NothingHeld(After(After(h, before), ops))
    ensures var (y, z) := (After(h, before), After(After(h, before), ops));
            v in y.owner && Holders(y, y.owner[v]) > 0 ==> v !in z.owner && z.freed[v] == 1
  {
    var (y, z) := (After(h, before), After(After(h, before), ops));
    InitialInvariant(h);
    RunKeeps(h, before);
    RunKeeps(y, ops);
    if v in y.owner && Holders(y, y.owner[v]) > 0 {
      HeldUntilFreed(y, ops, v);
      NothingHeldMeans(z, y.owner[v]);
    }
  }

  /** The tokens and payloads then left are of tokens that a user made and never sent. */
  lemma NothingLeaks(h: Heap, ops: seq<Op>)
    requires Initial(h) && IsRun(h, ops) && NothingHeld(After(h, ops))
    ensures forall id :: id in After(h, ops).tokens ==> MadeAndNeverHeld(h, ops, id)
    ensures forall v :: v in After(h, ops).owner ==> MadeAndNeverHeld(h, ops, After(h, ops).owner[v])
  {
    TokensAreConserved(h, ops);
    InitialInvariant(h);
    RunKeeps(h, ops);
    forall id | id in After(h, ops).tokens ensures MadeAndNeverHeld(h, ops, id) {
      NothingHeldMeans(After(h, ops), id);
    }
  }

  lemma NothingHeldMeans(h: Heap, id: TokenId)
    requires NothingHeld(h)
    ensures Holders(h, id) == 0
  {
    assert Some(id) !in h.templates;
  }
}
