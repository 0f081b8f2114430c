/** The runtime's token bookkeeping, changed in place by each token function. */
module TokenRuntime {
  import opened Options
  import opened TokenHeap
  import opened TokenOperations

  datatype Freed = NOT_FREED | VALUE_FREED | TOKEN_FREED | TOKEN_AND_VALUE_FREED

  class TokenRuntime {
    var tokens: map<TokenId, Token>
    var bin: seq<TokenId>
    const binCapacity: nat
    var next: TokenId
    var templates: seq<Option<TokenId>>
    var queue: multiset<TokenId>
    var copies: seq<TokenId>
    ghost var owner: map<ValueId, TokenId>
    ghost var freed: multiset<ValueId>

    ghost function State(): Heap
      reads this
    {
      Heap(tokens, bin, binCapacity, next, templates, queue, copies, owner, freed)
    }

    ghost predicate Valid()
      reads this
    {
      Invariant(State(), NO_LOCALS)
    }

    constructor (templateCount: nat, binCapacity: nat)
      ensures Valid() && Initial(State()) && |templates| == templateCount && this.binCapacity == binCapacity
    {
      tokens, bin, next, queue, copies := map[], [], 0, multiset{}, [];
      templates := seq(templateCount, _ => None);
      owner, freed := map[], multiset{};
      this.binCapacity := binCapacity;
      new;
      InitialInvariant(State());
    }

    method FreeToken(id: TokenId) returns (code: Freed)
      requires id in tokens
      modifies this
      ensures State() == TokenHeap.FreeToken(old(State()), id)
      ensures code == NOT_FREED <==> id in tokens
      ensures code == TOKEN_AND_VALUE_FREED <==> freed != old(freed)
      ensures code != VALUE_FREED
      ensures id !in tokens ==> bin == if |old(bin)| < binCapacity then old(bin) + [id] else old(bin)
    {
      var t := tokens[id];
      if t.refCount > 0 {
        return NOT_FREED;
      }
      if t.value.Some? {
        owner := owner - {t.value.value};
        freed := freed + multiset{t.value.value};
        assert freed[t.value.value] == old(freed)[t.value.value] + 1;
      }
      tokens := tokens - {id};
      if |bin| < binCapacity {
        bin := bin + [id];
      }
      assert old(tokens)[id := t.(value := None, length := 0)] - {id} == tokens;
      code := if t.value.Some? then TOKEN_AND_VALUE_FREED else TOKEN_FREED;
    }

    method DoneUsing(id: TokenId) returns (code: Freed)
      requires id in tokens && tokens[id].refCount > 0
      modifies this
      ensures State() == TokenHeap.DoneUsing(old(State()), id)
      ensures code == NOT_FREED <==> id in tokens
      ensures code == TOKEN_AND_VALUE_FREED <==> freed != old(freed)
    {
      var t := tokens[id];
      tokens := tokens[id := t.(refCount := t.refCount - 1)];
      code := FreeToken(id);
    }

    /** A token with reference count 0, from the recycling bin when it is not empty. */
    method NewToken() returns (id: TokenId)
      requires Valid()
      modifies this
      ensures Valid() && State() == TokenHeap.NewToken(old(State())) && id == NewAddress(old(State()))
      ensures id !in old(tokens)
    {
      NewTokenKeeps(State(), NO_LOCALS);
      if bin != [] {
        id := bin[|bin| - 1];
        bin := bin[..|bin| - 1];
      } else {
        id := next;
        next := next + 1;
      }
      tokens := tokens[id := Token(None, 0, 0)];
    }

    method FreeValue(id: TokenId)
      requires id in tokens
      modifies this
      ensures State() == TokenHeap.FreeValue(old(State()), id)
    {
      var t := tokens[id];
      if t.value.Some? {
        tokens := tokens[id := t.(value := None, length := 0)];
        owner := owner - {t.value.value};
        freed := freed + multiset{t.value.value};
      }
    }

    method Retain(id: TokenId)
      requires id in tokens
      modifies this`tokens
      ensures State() == TokenHeap.Retain(old(State()), id)
    {
      tokens := tokens[id := tokens[id].(refCount := tokens[id].refCount + 1)];
    }

    method SetValue(id: TokenId, value: ValueId, length: nat)
      requires id in tokens
      modifies this
      ensures State() == TokenHeap.SetValue(old(State()), id, value, length)
      ensures id in tokens && tokens[id].value == Some(value) && tokens[id].length == length
    {
      FreeValue(id);
      tokens := tokens[id := tokens[id].(value := Some(value), length := length)];
      owner := owner[value := id];
    }

    /** Point the template at a live token and release the one it held. */
    method Repoint(t: nat, id: TokenId)
      requires t < |templates| && id in tokens && templates[t] != Some(id)
      requires templates[t].Some? ==> templates[t].value in tokens && tokens[templates[t].value].refCount > 0
      modifies this
      ensures State() == DoneUsingIfAny(Point(TokenHeap.Retain(old(State()), id), t, Some(id)), old(templates[t]))
    {
      var was := templates[t];
      Retain(id);
      templates := templates[t := Some(id)];
      if was.Some? {
        var _ := DoneUsing(was.value);
      }
    }

    method GetToken(t: nat) returns (id: TokenId)
      requires Valid() && t < |templates|
      modifies this
      ensures Valid() && State() == TokenOperations.GetToken(old(State()), t)
      ensures t < |templates| && templates[t] == Some(id) && id in tokens
      ensures Some(id) == old(templates)[t] <==> old(templates[t].Some? && Holders(State(), templates[t].value) == 1)
    {
      GetTokenKeeps(State(), t);
      ReuseNeedsSoleHolder(State(), t);
      var was := templates[t];
      if was.Some? {
        TemplateTokenIsLive(State(), t);
        if tokens[was.value].refCount == 1 {
          return was.value;
        }
      }
      id := NewToken();
      Repoint(t, id);
    }

    /** lf_set, lf_set_array: the template's token carries the payload from now on. */
    method InitializeTokenWithValue(t: nat, value: ValueId, length: nat) returns (id: TokenId)
      requires Valid() && t < |templates| && NewValue(State(), value)
      modifies this
      ensures Valid() && State() == Next(old(State()), OpSet(t, value, length))
      ensures t < |templates| && templates[t] == Some(id)
      ensures id in tokens && tokens[id].value == Some(value) && tokens[id].length == length
    {
      NextKeeps(State(), OpSet(t, value, length));
      id := GetToken(t);
      SetValue(id, value, length);
    }

    method InitializeTemplate(t: nat)
      requires Valid() && t < |templates|
      modifies this
      ensures Valid() && State() == Next(old(State()), OpInitialize(t))
    {
      NextKeeps(State(), OpInitialize(t));
      var id := GetToken(t);
      FreeValue(id);
    }

    method ReplaceTemplateToken(t: nat, id: TokenId)
      requires Valid() && t < |templates| && id in tokens
      modifies this
      ensures Valid() && State() == Next(old(State()), OpSetToken(t, id))
    {
      NextKeeps(State(), OpSetToken(t, id));
      var was := templates[t];
      if was != Some(id) {
        if was.Some? {
          TemplateTokenIsLive(State(), t);
        }
        Repoint(t, id);
      }
    }

    /** A token with a payload that nobody holds yet. */
    method NewTokenWithValue(value: ValueId, length: nat) returns (id: TokenId)
      requires Valid() && NewValue(State(), value)
      modifies this
      ensures Valid() && State() == Next(old(State()), OpNew(value, length))
      ensures id !in old(tokens) && id in tokens && tokens[id] == Token(Some(value), length, 0)
    {
      NextKeeps(State(), OpNew(value, length));
      id := NewToken();
      SetValue(id, value, length);
    }

    method ScheduleToken(id: TokenId)
      requires Valid() && id in tokens
      modifies this
      ensures Valid() && State() == Next(old(State()), OpSchedule(id))
    {
      NextKeeps(State(), OpSchedule(id));
      Retain(id);
      queue := queue + multiset{id};
    }

    /** Scheduling without queueing an event gives the reference up again. */
    method ScheduleDropped(id: TokenId)
      requires Valid() && id in tokens
      modifies this
      ensures Valid() && State() == Next(old(State()), OpScheduleDropped(id))
    {
      NextKeeps(State(), OpScheduleDropped(id));
      Retain(id);
      var _ := DoneUsing(id);
    }

    method ReplaceEventToken(was: TokenId, id: TokenId)
      requires Valid() && was in queue && id in tokens
      modifies this
      ensures Valid() && State() == Next(old(State()), OpReplaceEventToken(was, id))
    {
      NextKeeps(State(), OpReplaceEventToken(was, id));
      ReleaseEventKeeps(State(), was);
      Retain(id);
      queue := queue - multiset{was} + multiset{id};
      var _ := DoneUsing(was);
    }

    method HandleEvent(id: TokenId, t: nat)
      requires Valid() && id in queue && id in tokens && t < |templates|
      modifies this
      ensures Valid() && State() == Next(old(State()), OpHandleEvent(id, t))
    {
      NextKeeps(State(), OpHandleEvent(id, t));
      ReplaceTemplateTokenKeepsQueue(State(), t, id);
      ReplaceTemplateToken(t, id);
      ReleaseEvent(id);
    }

    method ReleaseEvent(id: TokenId)
      requires Valid() && id in queue
      modifies this
      ensures State() == TokenOperations.ReleaseEvent(old(State()), id)
    {
      ReleaseEventKeeps(State(), id);
      queue := queue - multiset{id};
      var _ := DoneUsing(id);
    }

    method AddCopy(copy: ValueId, length: nat) returns (id: TokenId)
      requires Valid() && NewValue(State(), copy)
      modifies this
      ensures State() == TokenOperations.AddCopy(old(State()), copy, length)
      ensures id in tokens && id == NewAddress(old(State()))
    {
      id := NewToken();
      SetValue(id, copy, length);
      Retain(id);
      copies := copies + [id];
    }

    method WritableCopy(t: nat, copy: ValueId) returns (id: Option<TokenId>)
      requires Valid() && t < |templates| && NewValue(State(), copy)
      modifies this
      ensures Valid() && State() == Next(old(State()), OpWritableCopy(t, copy))
      ensures id.None? <==> old(templates[t].None?)
      ensures id.Some? ==>
                var was := old(templates)[t].value;
                && was in old(tokens)
                && (id.value == was <==>
                      || old(Holders(State(), templates[t].value)) == 1
                      || old(tokens)[was].value.None? || old(tokens)[was].length == 0)
      ensures id.Some? ==> id.value in tokens
    {
      NextKeeps(State(), OpWritableCopy(t, copy));
      NewTokenKeeps(State(), NO_LOCALS);
      var of := templates[t];
      if of.None? {
        return None;
      }
      TemplateTokenIsLive(State(), t);
      var original := tokens[of.value];
      if original.refCount == 1 || original.value.None? || original.length == 0 {
        return of;
      }
      var added := AddCopy(copy, original.length);
      id := Some(added);
    }

    method ReleaseAll(ids: seq<TokenId>)
      requires Invariant(State(), multiset(ids))
      modifies this
      ensures State() == DoneUsingAll(old(State()), ids)
    {
      var list := ids;
      while list != []
        invariant Invariant(State(), multiset(list))
        invariant DoneUsingAll(State(), list) == DoneUsingAll(old(State()), ids)
        decreases |list|
      {
        ReleaseFirst(State(), list);
        var _ := DoneUsing(list[0]);
        list := list[1..];
      }
    }

    method FreeTokenCopies()
      requires Valid()
      modifies this
      ensures Valid() && State() == Next(old(State()), OpFreeTokenCopies)
    {
      NextKeeps(State(), OpFreeTokenCopies);
      var list := copies;
      copies := [];
      LocalsKeep(old(State()), State(), NO_LOCALS, multiset(list));
      ReleaseAll(list);
    }
  }

  lemma ReleaseFirst(h: Heap, ids: seq<TokenId>)
    requires ids != [] && Invariant(h, multiset(ids))
    ensures ids[0] in h.tokens && h.tokens[ids[0]].refCount > 0
    ensures Invariant(DoneUsing(h, ids[0]), multiset(ids[1..]))
  {
    DoneUsingKeeps(h, multiset(ids), ids[0]);
    assert ids == [ids[0]] + ids[1..];
    assert multiset(ids) - multiset{ids[0]} == multiset(ids[1..]);
  }
}
