# Verified models of the federated reactor runtime

Autoware runs here as a federation of reactors written in Lingua Franca. This project models the
parts of its runtime whose correctness is not visible in any one function, and proves what they
are for: over every run, every interleaving, or every input.

The modules, hardest first:

- `StopProtocol`, `StopAgreement`, `StopTagChoice`, `StopSteps`, `Federation`: federates and the RTI
  agree on a common stop tag over in-order connections. A state machine over all interleavings of requests, forwards,
  replies, grants, tag advances and resignations; its inductive invariant; agreement, safety and
  termination; and a class whose handlers are its steps.
- `TagBarrier`, `ReactorEnvironment`: the tag barrier, tag advance and scheduling of network
  messages, one critical section at a time. No message whose tag was in the future when its header
  was read becomes tardy, in any interleaving.
- `TokenHeap`, `TokenOperations`, `TokenRelease`, `TokenConservation`, `TokenRuntime`:
  reference-counted tokens with recycling. Over any sequence of operations counts equal holders, and
  a payload is freed exactly once, when its last holder leaves or overwrites it.
- `Messages`, `MessageTypes`, `MessageLayouts`, `WireFormat`, `WireBuffer`: the binary messages. The
  parser accepts exactly the encodings, of streams cut into any pieces.
- `ReactionOrder`, `LevelGate`: the order of reactions within a tag, and the bound that unknown
  network inputs put on it (MLAA). Every run is topological though inputs arrive meanwhile.
- `RadixArithmetic`, `MixedRadix`: permuted mixed-radix numbers and the full cycle of increments.
- `ProbeTable`, `Hashmap`: the open-addressing hashmap, which refines a mathematical map.
- `EventHeap`: the tag-ordered binary heap with stored positions.
- `ActionRules`, `ActionQueue`: the tags of scheduled events under minimum spacing and its policies.
- `ClockEstimates`, `ClockSync`: error bounds of the clock synchronisation (compare the delay
  request-response mechanism, clause 11.3 of IEEE 1588-2008).
- `Substitution`, `TemplateValues`: sequential find-and-replace against simultaneous substitution.
- `SparsePort`: the sparse multiport iterator. `CarlaLoop`: the lockstep with the simulator.
- `Tags`, `Options`: shared values.

What the source changes in place is a class or a method over an array here, and each such member
is tied to a function or a state machine about which the theorems are proved. Each connection is
a first-in-first-out sequence, each critical section one step.

## Readings of the source

The `.c` files of the runtime are not in the repository, so for its headers the comments are the
specification; tag.h is not part of this model. Where comments are silent or disagree:

- A federate sends one stop request: a second call sends nothing and returns 1, as after a request
  from the RTI. The RTI forwards each counted request to connected federates it has not counted.
- The horizon is lowered to the larger of the future and the current tag. With no barrier raised and
  a tag that is not in the future, it becomes the current tag plus a microstep. The barrier keeps
  the environment below the horizon ("to or beyond", reactor_threaded.h:17), not merely at it.
- `_lf_advance_tag` is taken literally: towards a later time it goes to microstep zero of that
  time, so a tag with a positive microstep is reached in several steps.
- `hashmap.h` never updates `num_entries`; the model keeps it at 0 and claims nothing about it. The
  comment that a missing key crashes `get` (hashmap.h:158) holds only for a full map.
- `lf_token.h:106` describes the reference count as event-queue occurrences; templates count too, as
  in `lf_token.h:32-36`. An initialized template's token has count 1 (`lf_token.h:376-377`), not 0.
  `lf_writable_copy` promises count 1 also for an empty payload; that fails when such a token is
  shared: `TokenConservation.WritableMayBeShared` is a run that gets there, and
  `TokenConservation.WritableIsExclusive` gives the exact condition.
- `reactor_common.h:73` says the deadline is shifted right; the bits of the level and the saturation
  bound only fit a deadline in the high bits. A level keeps its low 16 bits.
- A difference equal to the guard band rejects the round, as in `net_common.h:664` and unlike
  `net_common.h:109`. The two offset formulas have opposite signs; `ClockEstimates.FormulasAgree`
  says exactly when they otherwise agree, `ClockEstimates.FormulasMayDiffer` where
  they do not. Divisions round towards zero as in C.
- Under `replace` and `update` the preceding event is the one with the action's last tag; when it has
  been popped both defer. A spacing of 0 still puts the next event at least one microstep later.
  A physical action's preliminary time includes its minimum delay (`schedule.h:85-90`). The stop
  conditions look at the final tag.
- The MLAA is recomputed when a grant arrives, a tag begins or an input's status is learned.
- `MSG_TYPE_UDP_PORT` carries four bytes, as its comment says. The address reply's four address bytes
  are read as one number.
- `CarlaInterface.lf:112` says that a subscription updates `latest_control`; no code does, so it stays
  None and the control of the simulator's previous step is applied.

## Model

| member | source | states |
|---|---|---|
| StopAgreement.StopAgreement | lf-src/fed-gen/AutowareFederated/include/core/federated/network/net_common.h:165-179 | In every run all granted tags are the RTI's one tag; it is a tag some federate proposed and no proposal exceeds it; every running federate has been counted and none is past it. |
| StopAgreement.LateReplyIsHarmless | lf-src/fed-gen/AutowareFederated/include/core/federated/federate.h:476-485 | A proposal that reaches the RTI after the grant is at or below the granted tag, and receiving it changes nothing but the connection. |
| StopAgreement.DecisionsAreStable | lf-src/fed-gen/AutowareFederated/include/core/federated/network/net_common.h:168-179 | Over any run the RTI's record of a federate, its grant and a federate's grant are never revised: each federate is counted once. |
| StopAgreement.FrozenUntilGranted | lf-src/fed-gen/AutowareFederated/include/core/federated/network/net_common.h:176-179 | A federate that has requested or replied keeps its current tag through every run until its grant arrives. |
| StopAgreement.StepDecreases | lf-src/fed-gen/AutowareFederated/include/core/federated/network/net_common.h:165-179 | Every step except a tag advance lowers the measure of uncounted federates, messages in flight and messages still to be sent; a tag advance keeps it. |
| StopAgreement.RunsAreFinite | lf-src/fed-gen/AutowareFederated/include/core/federated/network/net_common.h:165-179 | Apart from tag advances, no run of n federates has more than n(2n + 6) protocol steps. |
| StopAgreement.QuiescentIsGranted | lf-src/fed-gen/AutowareFederated/include/core/federated/network/net_common.h:173-179 | When nothing is left to deliver after anyone asked for a stop, the RTI has granted and every running federate holds that tag and is no longer frozen. |
| StopAgreement.StopIsReached | lf-src/fed-gen/AutowareFederated/include/core/federated/network/net_common.h:165-179 | From any state any run leads to, deliveries alone lead to the grant of a requested stop, whatever federates have resigned. |
| StopTagChoice.StopTagIsNeeded | lf-src/fed-gen/AutowareFederated/include/core/federated/network/net_common.h:170-176 | At the step of a run in which the RTI grants, the granted tag is no later than it has to be: it is the current tag of a frozen counted federate, or the next microstep that this federate asked for. |
| StopSteps.RequesterStandsBeforeStop | lf-src/fed-gen/AutowareFederated/include/core/federated/federate.h:476-485 | In every run a federate that has requested a stop and waits for the grant stands strictly before the granted tag. |
| StopSteps.RequestedTag | lf-src/fed-gen/AutowareFederated/include/core/federated/federate.h:476-485 | A request carries the time of the current tag and its microstep plus one, and freezes the sender, who has neither requested nor received a request before. |
| StopSteps.RepliedTag | lf-src/fed-gen/AutowareFederated/include/core/federated/network/net_common.h:170-173 | A reply carries the larger of the federate's own tag and the requested one, and freezes the sender. |
| StopSteps.RecordedTag | lf-src/fed-gen/AutowareFederated/include/core/federated/network/net_common.h:173-176 | The RTI records the first proposal of each federate, which raises the largest seen tag; a later one from the same federate changes neither. |
| StopSteps.GrantCondition | lf-src/fed-gen/AutowareFederated/include/core/federated/network/net_common.h:173-176 | The RTI grants the largest seen tag exactly when every connected federate is recorded. |
| StopSteps.SentByRti | lf-src/fed-gen/AutowareFederated/include/core/federated/network/net_common.h:168-176 | A counted request is sent on to exactly the connected federates without a record, and a grant to exactly the connected ones. |
| StopProtocol.NextKeeps | lf-src/fed-gen/AutowareFederated/include/core/federated/network/net_common.h:165-179 | Each event of the protocol keeps the invariant over the federates, both directions of every connection, and the RTI's record. |
| Federation.Federation.constructor | lf-src/fed-gen/AutowareFederated/include/core/federated/network/net_common.h:165-170 | A federation of federates at given tags starts with no stop requested, inside the invariant. |
| Federation.Federation.SendStopRequestToRti | lf-src/fed-gen/AutowareFederated/include/core/federated/federate.h:476-485 | -1 exactly when disconnected, 0 exactly when a request is sent, whose payload is the current tag with one microstep more, 1 when one is already pending and nothing changes. |
| Federation.Federation.TryAdvance | lf-src/fed-gen/AutowareFederated/include/core/federated/network/net_common.h:176-179 | A tag advance happens exactly unless a stop is pending or the tag lies beyond the granted one. |
| Federation.Federation.FederateReceive | lf-src/fed-gen/AutowareFederated/include/core/federated/network/net_common.h:170-179 | In-place handling of a forwarded request or a grant is the protocol's step, and keeps the invariant. |
| Federation.Federation.ReceiveFromFederate | lf-src/fed-gen/AutowareFederated/include/core/federated/network/net_common.h:168-176 | In-place handling of a proposal or resignation by the RTI, with its forwarding and granting loops, is the protocol's step, and keeps the invariant. |
| Federation.Federation.ForwardToUncounted | lf-src/fed-gen/AutowareFederated/include/core/federated/network/net_common.h:168-170 | The forwarding loop reaches exactly the connected federates without a recorded stop tag. |
| Federation.Federation.GrantIfComplete | lf-src/fed-gen/AutowareFederated/include/core/federated/network/net_common.h:174-176 | The grant is sent to all connected federates exactly when a tag was proposed, none was granted and no connected federate is uncounted. |
| TagBarrier.NoTardyMessages | lf-src/fed-gen/AutowareFederated/include/core/threaded/reactor_threaded.h:79-104 | In every interleaving, a message whose barrier was raised while its tag was in the future is queued while still in the future, so that scheduling it never returns -1; and exactly such a message is. |
| TagBarrier.BarrierInvariant | lf-src/fed-gen/AutowareFederated/include/core/threaded/reactor_threaded.h:15-44 | In every reachable state the barrier counts its requests, its horizon is at or below the bound of each and is FOREVER without any, and the current tag is below every bound and queued event. |
| TagBarrier.OnlyRequestedTagsBlock | lf-src/fed-gen/AutowareFederated/include/core/threaded/reactor_threaded.h:15-32 | An advance to a tag before those of all messages begun since the barrier was last down is never blocked. |
| TagBarrier.NeverPastStop | lf-src/fed-gen/AutowareFederated/include/core/threaded/reactor_threaded.h:94-94 | In every run, whatever stop tags are set later, the tag does not pass a stop tag it had not passed when that was set. |
| TagBarrier.AdvanceStopsAtStop | lf-src/fed-gen/AutowareFederated/include/core/threaded/reactor_threaded.h:79-104 | An advance ends at or before both the proposed tag and the stop tag, is towards the earlier of them, and takes one microstep or goes to microstep zero. |
| TagBarrier.NoEventSkipped | lf-src/fed-gen/AutowareFederated/include/core/threaded/reactor_threaded.h:164-173 | An event stays queued until the environment is exactly at its tag, and the tag never passes it. |
| TagBarrier.WalkArrives | lf-src/fed-gen/AutowareFederated/include/core/reactor_common.h:314-324 | Advancing towards a later tag, a microstep at the same time and else to microstep zero of its time, arrives at exactly that tag. |
| ReactorEnvironment.ReactorEnvironment.IncrementTagBarrier | lf-src/fed-gen/AutowareFederated/include/core/threaded/reactor_threaded.h:15-46 | The barrier fields change as the documented rule says, case by case. |
| ReactorEnvironment.ReactorEnvironment.DecrementTagBarrierLocked | lf-src/fed-gen/AutowareFederated/include/core/threaded/reactor_threaded.h:61-77 | One request fewer; the horizon is reset exactly when none is left. |
| ReactorEnvironment.ReactorEnvironment.WaitOnTagBarrier | lf-src/fed-gen/AutowareFederated/include/core/threaded/reactor_threaded.h:79-104 | A wait is needed exactly when requests are pending and both the proposed tag and the stop tag are at or beyond the horizon. |
| ReactorEnvironment.ReactorEnvironment.ScheduleAtTag | lf-src/fed-gen/AutowareFederated/include/core/reactor_common.h:239-267 | -1 and no change when the tag is not in the future, 0 when the event's payload is replaced, positive when it is queued. |
| ReactorEnvironment.ReactorEnvironment.GetNextEventTag | lf-src/fed-gen/AutowareFederated/include/core/threaded/reactor_threaded.h:134-143 | The least tag of the queue, or the stop tag when it is empty. |
| ReactorEnvironment.ReactorEnvironment.PopEvents | lf-src/fed-gen/AutowareFederated/include/core/reactor_common.h:326-335 | Exactly the events at the current tag leave the queue; the others keep their order. |
| ReactorEnvironment.ReactorEnvironment.NextLocked | lf-src/fed-gen/AutowareFederated/include/core/threaded/reactor_threaded.h:164-187 | An advance is towards the least queued tag, allowed by the barrier, not past the stop tag, and pops exactly the events at the new tag; without an advance only an empty queue changes anything, namely the stop tag. |
| ActionRules.MinimumSpacing | lf-src/fed-gen/AutowareFederated/include/api/schedule.h:98-106 | Over every sequence of calls and pops under defer, drop or replace, newly queued events have strictly increasing tags, and two of them are as many spacings apart as they are calls apart. |
| ActionRules.QueuedIsLogged | lf-src/fed-gen/AutowareFederated/include/api/schedule.h:98-109 | The tags these intervals are measured between leave out none: whatever is queued after a run was queued before it or is logged. |
| ActionRules.TagsStayDistinct | lf-src/fed-gen/AutowareFederated/include/api/schedule.h:92-96 | Whatever is declared and called, no two queued events of an action share a tag. |
| ActionRules.FirstEvent | lf-src/fed-gen/AutowareFederated/include/api/schedule.h:66-90 | The first event of an action is at current or physical time plus minimum and extra delay, or one microstep later when a logical action has neither, whatever spacing is declared; it is not queued exactly under the two stop conditions. |
| ActionRules.UnspacedTag | lf-src/fed-gen/AutowareFederated/include/api/schedule.h:83-96 | Without minimum spacing an event gets the first free microstep at current or physical time plus minimum and extra delay, and is not queued exactly under the two stop conditions. |
| ActionRules.DeferredTag | lf-src/fed-gen/AutowareFederated/include/api/schedule.h:98-120 | Under defer the event gets the later of that time and the preceding event's time plus the spacing, or one microstep after the preceding event for a spacing of 0. |
| ActionRules.ReplacedPayload | lf-src/fed-gen/AutowareFederated/include/api/schedule.h:122-125 | Replacing changes the payload of the pending preceding event and nothing else. |
| ActionRules.CountDrops | lf-src/fed-gen/AutowareFederated/include/api/schedule.h:94-96 | Each microstep added for a collision passes a queued event, so that adding them ends. |
| ActionQueue.ActionQueue.Schedule | lf-src/fed-gen/AutowareFederated/include/api/schedule.h:63-147 | Scheduling in place gives the specified action; a zero handle means nothing new was queued, a positive one that the last queued event is the new one at the action's last tag. |
| ActionQueue.ActionQueue.ScheduleEarly | lf-src/fed-gen/AutowareFederated/include/api/schedule.h:115-128 | The policies in place, when the preliminary tag is too close to the preceding event. |
| ActionQueue.ActionQueue.Add | lf-src/fed-gen/AutowareFederated/include/api/schedule.h:135-147 | The collision loop finds the first free microstep; nothing is queued, with handle 0, exactly under the stop conditions. |
| ProbeTable.Table.AddressFinds | lf-src/fed-gen/AutowareFederated/include/core/utils/impl/hashmap.h:97-119 | Probing leads to the key's slot when it is stored, else to an empty slot with only occupied slots on the cyclic path to it, and fails exactly when every slot is occupied and the key is absent. |
| ProbeTable.Table.WriteRefines | lf-src/fed-gen/AutowareFederated/include/core/utils/impl/hashmap.h:148-153 | Writing where probing leads keeps keys unique, paths unbroken and the sentinel empty, and changes the represented map at that key alone. |
| ProbeTable.Table.RepresentedSize | lf-src/fed-gen/AutowareFederated/include/core/utils/impl/hashmap.h:123-141 | The represented map never outgrows the capacity, and has that size exactly when the table is full. |
| ProbeTable.PutAllRefines | lf-src/fed-gen/AutowareFederated/include/core/utils/impl/hashmap.h:148-153 | A sequence of puts succeeds exactly when its distinct keys fit the capacity, and the table then represents the map the same puts build. |
| ProbeTable.LastPutWins | lf-src/fed-gen/AutowareFederated/include/core/utils/impl/hashmap.h:155-159 | After any successful puts, probing for a key leads to the last value put under it. |
| Hashmap.Hashmap.constructor | lf-src/fed-gen/AutowareFederated/include/core/utils/impl/hashmap.h:123-141 | A new map is empty, with capacity + 1 entries all holding the unused key. |
| Hashmap.Hashmap.GetIdealAddress | lf-src/fed-gen/AutowareFederated/include/core/utils/impl/hashmap.h:90-95 | The ideal slot is in bounds, below the sentinel. |
| Hashmap.Hashmap.GetActualAddress | lf-src/fed-gen/AutowareFederated/include/core/utils/impl/hashmap.h:105-119 | Both pointer loops terminate in bounds at a slot that is empty or holds the key, every slot on the cyclic path from the hash modulo the capacity being taken by other keys; null when all slots are. |
| Hashmap.Hashmap.AddressMeaning | lf-src/fed-gen/AutowareFederated/include/core/utils/impl/hashmap.h:105-118 | The address is null exactly for an absent key in a map as large as its capacity; else it is below the sentinel and holds the key's entry or is empty. |
| Hashmap.Hashmap.Put | lf-src/fed-gen/AutowareFederated/include/core/utils/impl/hashmap.h:148-153 | The represented map changes at the key alone, and the sentinel entry is not written. |
| Hashmap.Hashmap.Get | lf-src/fed-gen/AutowareFederated/include/core/utils/impl/hashmap.h:155-159 | The value last put; the null address is dereferenced exactly for an absent key in a full map. |
| RadixArithmetic.FullCycle | lf-src/fed-gen/AutowareFederated/include/core/mixed_radix.h:63-66 | Increments return to the start exactly at the multiples of the product of the radixes, the least positive one being the product. |
| RadixArithmetic.EachCombinationOnce | lf-src/fed-gen/AutowareFederated/include/core/mixed_radix.h:63-66 | From any digits, every digit combination is reached by exactly one number of increments below the product. |
| RadixArithmetic.IncrementAdvances | lf-src/fed-gen/AutowareFederated/include/core/mixed_radix.h:12-20 | One increment keeps digits in range and moves one position on in the permuted order, from the last to the first. |
| RadixArithmetic.DocumentedExample | lf-src/fed-gen/AutowareFederated/include/core/mixed_radix.h:42-61 | Incremented once in the order 1, 0, 2, the number with radixes 2, 3, 4 has digits 0, 1, 0, value 2 and, one digit dropped, value 1. |
| RadixArithmetic.IncrementIsCarry | lf-src/fed-gen/AutowareFederated/include/core/mixed_radix.h:16-20 | Carrying along the permutation is carrying in digit order on the permuted digits. |
| RadixArithmetic.ValueIsBijection | lf-src/fed-gen/AutowareFederated/include/core/mixed_radix.h:102-108 | Values of digit combinations are exactly the numbers below the product, each once. |
| RadixArithmetic.ParentIsQuotient | lf-src/fed-gen/AutowareFederated/include/core/mixed_radix.h:92-100 | Dropping n digits divides the value by the product of their radixes. |
| RadixArithmetic.PermutedProduct | lf-src/fed-gen/AutowareFederated/include/core/mixed_radix.h:12-20 | The length of the cycle does not depend on the permutation. |
| MixedRadix.MixedRadix.Incr | lf-src/fed-gen/AutowareFederated/include/core/mixed_radix.h:85-90 | The loop over the permutation computes the increment in place, and keeps the digits in range. |
| MixedRadix.MixedRadix.Parent | lf-src/fed-gen/AutowareFederated/include/core/mixed_radix.h:92-100 | The quotient of the value by the dropped radixes, 0 from the size on. |
| MixedRadix.MixedRadix.ToInt | lf-src/fed-gen/AutowareFederated/include/core/mixed_radix.h:102-108 | The value, below the product of the radixes. |
| EventHeap.TagQueue.Insert | lf-src/fed-gen/AutowareFederated/include/core/utils/pqueue_tag.h:142-149 | Adds one element, keeping heap order and the agreement of slots and stored positions, growing when full. |
| EventHeap.TagQueue.Remove | lf-src/fed-gen/AutowareFederated/include/core/utils/pqueue_base.h:233-240 | Removes exactly that element from any position, keeping heap order and positions. |
| EventHeap.TagQueue.Pop | lf-src/fed-gen/AutowareFederated/include/core/utils/pqueue_tag.h:210-218 | Removes an element of least tag, null exactly on an empty queue. |
| EventHeap.TagQueue.PopTag | lf-src/fed-gen/AutowareFederated/include/core/utils/pqueue_tag.h:220-228 | The tag of the popped element, FOREVER when there is none. |
| EventHeap.TagQueue.Peek | lf-src/fed-gen/AutowareFederated/include/core/utils/pqueue_tag.h:194-200 | An element of least tag among all, null exactly on an empty queue. |
| EventHeap.TagQueue.PeekTag | lf-src/fed-gen/AutowareFederated/include/core/utils/pqueue_tag.h:202-208 | The least tag, FOREVER on an empty queue. |
| EventHeap.TagQueue.FindWithTag | lf-src/fed-gen/AutowareFederated/include/core/utils/pqueue_tag.h:175-182 | An element with the tag, null exactly when no element has it. |
| EventHeap.TagQueue.InsertIfNoMatch | lf-src/fed-gen/AutowareFederated/include/core/utils/pqueue_tag.h:163-173 | 1 and no change exactly when the tag is queued, else 0 and one new element with the tag. |
| EventHeap.TagQueue.RemoveUpTo | lf-src/fed-gen/AutowareFederated/include/core/utils/pqueue_tag.h:238-245 | Exactly the elements with later tags remain. |
| EventHeap.EmptyInto | lf-src/fed-gen/AutowareFederated/include/core/utils/pqueue_base.h:205-212 | All elements end up in the destination and none in the source, whether the queues are exchanged, which takes an empty destination, or the elements are moved. |
| EventHeap.PourInto | lf-src/fed-gen/AutowareFederated/include/core/utils/pqueue_base.h:205-212 | The elements are moved each once, and leave the source in non-decreasing tag order. |
| TokenConservation.TokensAreConserved | lf-src/fed-gen/AutowareFederated/include/core/lf_token.h:27-36 | In every reachable state each live token's reference count is its number of templates, queued events and copies, the live tokens are the held ones and those a user made and never sent, and each payload is carried by one live token or was freed once. |
| TokenConservation.PayloadFreedOnce | lf-src/fed-gen/AutowareFederated/include/core/lf_token.h:27-36 | A payload handed to the runtime is from then on carried by exactly one token or freed, exactly once, and is carried only while its token is held or has never been sent. |
| TokenConservation.FreedExactly | lf-src/fed-gen/AutowareFederated/include/core/lf_token.h:446-459 | A payload whose token is held is freed by exactly the steps after which nothing holds the token, or in which the token's sole holder overwrites it. |
| TokenConservation.UnheldIsFreed | lf-src/fed-gen/AutowareFederated/include/core/lf_token.h:446-459 | When the last holder of a token leaves, token and payload are freed in that step. |
| TokenRelease.LastHolderFrees | lf-src/fed-gen/AutowareFederated/include/core/lf_token.h:320-336 | No operation leaves a live token without holders, except one that was so before and the new token a user has made and not sent. |
| TokenConservation.HeldUntilFreed | lf-src/fed-gen/AutowareFederated/include/core/lf_token.h:27-36 | Over any run a held payload stays with its token, and held, until it is freed. |
| TokenConservation.HoldersAfter | lf-src/fed-gen/AutowareFederated/include/core/lf_token.h:275-467 | Templates, queued events and copies change where each operation says, and nowhere else. |
| TokenConservation.WritableIsExclusive | lf-src/fed-gen/AutowareFederated/include/core/lf_token.h:298-315 | The writable token has reference count 1 exactly unless the template's token is shared and its payload is empty; the template is unchanged, and a copy holds the copied payload. |
| TokenConservation.WritableIsOwn | lf-src/fed-gen/AutowareFederated/include/core/lf_token.h:302-306 | The template's own token is returned, with nothing changed, exactly when the template is its only holder or the payload is missing or empty; else a new token. |
| TokenConservation.WritableMayBeShared | lf-src/fed-gen/AutowareFederated/include/core/lf_token.h:302-306 | A run of two operations leads to a writable token with reference count 2, against the comment. |
| TokenConservation.InitializedTemplate | lf-src/fed-gen/AutowareFederated/include/core/lf_token.h:369-382 | An initialized template alone holds a token without payload. |
| TokenConservation.EverHeldIsFreed | lf-src/fed-gen/AutowareFederated/include/core/lf_token.h:27-36 | When templates, queue and copies hold nothing, every payload held at any time of the run has been freed, exactly once. |
| TokenConservation.NothingLeaks | lf-src/fed-gen/AutowareFederated/include/core/lf_token.h:275-296 | The tokens and payloads then left are of tokens a user made and never sent. |
| TokenOperations.ReuseNeedsSoleHolder | lf-src/fed-gen/AutowareFederated/include/core/lf_token.h:355-367 | A template's token is reused exactly when the template is its only holder. |
| TokenOperations.RunKeeps | lf-src/fed-gen/AutowareFederated/include/core/lf_token.h:27-36 | Every sequence of operations keeps counts, addresses and payload ownership. |
| TokenOperations.NextKeeps | lf-src/fed-gen/AutowareFederated/include/core/lf_token.h:320-467 | Each token operation keeps counts, addresses and payload ownership. |
| TokenHeap.DoneUsingKeeps | lf-src/fed-gen/AutowareFederated/include/core/lf_token.h:446-459 | Giving up a reference frees the token, and with it its payload, exactly when it was the last one, and keeps the invariant without that reference. |
| TokenHeap.NewTokenKeeps | lf-src/fed-gen/AutowareFederated/include/core/lf_token.h:338-353 | A new token's address is not that of a live one, and live tokens are unchanged. |
| TokenHeap.RecycledFirst | lf-src/fed-gen/AutowareFederated/include/core/lf_token.h:338-353 | A new token is taken from the recycling bin when that is not empty, else allocated, and has neither payload nor references. |
| TokenHeap.FreedTokenIsRecycled | lf-src/fed-gen/AutowareFederated/include/core/lf_token.h:320-336 | A freed token enters the recycling bin exactly when there is room, and its payload is freed exactly once. |
| TokenRuntime.TokenRuntime.FreeToken | lf-src/fed-gen/AutowareFederated/include/core/lf_token.h:320-336 | Nothing is freed while referenced; the return code tells exactly whether token and value were freed. |
| TokenRuntime.TokenRuntime.DoneUsing | lf-src/fed-gen/AutowareFederated/include/core/lf_token.h:446-459 | One reference fewer, and the token freed at 0, as the return code tells. |
| TokenRuntime.TokenRuntime.NewToken | lf-src/fed-gen/AutowareFederated/include/core/lf_token.h:338-353 | A token with reference count 0, from the recycling bin when it is not empty. |
| TokenRuntime.TokenRuntime.GetToken | lf-src/fed-gen/AutowareFederated/include/core/lf_token.h:355-367 | The template's own token exactly when the template is its sole holder, else a new one that the template then holds. |
| TokenRuntime.TokenRuntime.InitializeTokenWithValue | lf-src/fed-gen/AutowareFederated/include/api/reaction_macros.h:73-106 | Setting a port leaves its template with a token that carries the new value, and frees the value it replaces. |
| TokenRuntime.TokenRuntime.ReplaceTemplateToken | lf-src/fed-gen/AutowareFederated/include/core/lf_token.h:433-444 | Nothing when the token is already there, else the template holds the new token and releases the old. |
| TokenRuntime.TokenRuntime.NewTokenWithValue | lf-src/fed-gen/AutowareFederated/include/core/lf_token.h:275-296 | A token that nobody holds, with the given value and length. |
| TokenRuntime.TokenRuntime.ScheduleToken | lf-src/fed-gen/AutowareFederated/include/api/schedule.h:63-65 | A queued event holds the token. |
| TokenRuntime.TokenRuntime.ScheduleDropped | lf-src/fed-gen/AutowareFederated/include/api/schedule.h:135-140 | When no event is queued the token's reference is given up, which may free its payload. |
| TokenRuntime.TokenRuntime.ReplaceEventToken | lf-src/fed-gen/AutowareFederated/include/core/reactor_common.h:119-127 | A queued event holds the new token and the old one is released. |
| TokenRuntime.TokenRuntime.HandleEvent | lf-src/fed-gen/AutowareFederated/include/core/lf_token.h:27-30 | A popped event's token moves to the template of its trigger. |
| TokenRuntime.TokenRuntime.InitializeTemplate | lf-src/fed-gen/AutowareFederated/include/core/lf_token.h:369-382 | The template's token is replaced when shared, and its value freed. |
| TokenRuntime.TokenRuntime.WritableCopy | lf-src/fed-gen/AutowareFederated/include/core/lf_token.h:298-315 | The template's token exactly when it has one holder or its payload is missing or empty, else a listed copy; null exactly when the template has no token. |
| TokenRuntime.TokenRuntime.FreeTokenCopies | lf-src/fed-gen/AutowareFederated/include/core/lf_token.h:461-467 | Every listed copy is released and the list is empty. |
| ClockEstimates.EstimateError | lf-src/fed-gen/AutowareFederated/include/core/federated/clock-sync.h:97-107 | For any delays and offset the estimate is within half the measured round trip, rounded up, of the true correction, and exact just for delays that are equal or where the reply takes one nanosecond more. |
| ClockEstimates.FormulasAgree | lf-src/fed-gen/AutowareFederated/include/core/federated/network/net_common.h:85-90 | The two documented estimates agree up to sign exactly when halving the round trip loses nothing or the forward difference is at most half of it; else they are one nanosecond apart. |
| ClockEstimates.FormulasMayDiffer | lf-src/fed-gen/AutowareFederated/include/core/federated/clock-sync.h:105-107 | Clocks in step and a delay of one nanosecond on the way out give an estimated error of -1 and an estimated offset of 0. |
| ClockEstimates.AverageNear | lf-src/fed-gen/AutowareFederated/include/core/federated/clock-sync.h:146-153 | The average of an interval is as near as its estimates, plus at most nine nanoseconds of rounding. |
| ClockEstimates.AdjustedContracts | lf-src/fed-gen/AutowareFederated/include/core/federated/clock-sync.h:64-70 | An attenuated update never leaves the error bound, never moves away from it, and comes closer when ten nanoseconds beyond it. |
| ClockEstimates.StaysSynchronized | lf-src/fed-gen/AutowareFederated/include/core/federated/network/net_common.h:95-103 | Once within half the largest round trip plus rounding, the error stays there for any later delays. |
| ClockEstimates.BecomesSynchronized | lf-src/fed-gen/AutowareFederated/include/core/federated/network/net_common.h:95-103 | From any error, enough intervals bring it within nine nanoseconds of that bound. |
| ClockEstimates.SynchronizesGeometrically | lf-src/fed-gen/AutowareFederated/include/core/federated/clock-sync.h:64-70 | What the error exceeds that by shrinks by at least a tenth in every interval, whatever the delays. |
| ClockEstimates.ReadingsIncrease | lf-src/fed-gen/AutowareFederated/include/core/clock.h:31-41 | Clock readings strictly increase however platform time and offset jump, and are their sum or, when that is not later, one nanosecond after the reading before. |
| ClockSync.SocketStat.HandleInitialT4 | lf-src/fed-gen/AutowareFederated/include/core/federated/clock-sync.h:261-279 | At the end of the initial interval, and only then, the offset becomes the average estimate. |
| ClockSync.SocketStat.HandleT4 | lf-src/fed-gen/AutowareFederated/include/core/federated/clock-sync.h:261-279 | A round is accepted exactly when a probe arrived whose distance from T4 at both ends differs by less than 100 microseconds; a rejected one changes neither offset nor average; the last accepted one of an interval adds a tenth of the average. |
| ClockSync.SocketStat.Record | lf-src/fed-gen/AutowareFederated/include/core/federated/clock-sync.h:108-195 | Round trip, circular sample buffer, running maximum, count and partial average after one exchange. |
| ClockSync.Clock.GetTime | lf-src/fed-gen/AutowareFederated/include/core/clock.h:31-41 | Each reading is platform time plus offset, or one nanosecond after the last reading when that is later. |
| Messages.ParsesExactlyEncodings | lf-src/fed-gen/AutowareFederated/include/core/federated/network/net_common.h:217-737 | The parser accepts exactly the encodings of well-formed messages: a message and rest are parsed if and only if the bytes are its encoding followed by the rest. |
| Messages.ReceivesExactlyTheStream | lf-src/fed-gen/AutowareFederated/include/core/federated/network/net_common.h:217-737 | Messages and leftover are received from a stream if and only if it is their encodings in order followed by bytes that hold no complete message. |
| Messages.StreamRoundTrip | lf-src/fed-gen/AutowareFederated/include/core/federated/network/net_common.h:217-737 | A stream of messages followed by the beginning of another gives back those messages and that beginning. |
| Messages.PiecesDoNotMatter | lf-src/fed-gen/AutowareFederated/include/core/federated/network/net_common.h:217-737 | However the bytes are cut into pieces, the same messages are received. |
| Messages.CutMessagesWait | lf-src/fed-gen/AutowareFederated/include/core/federated/network/net_common.h:217-737 | No proper prefix of a message is taken for a message. |
| Messages.RoundTrip | lf-src/fed-gen/AutowareFederated/include/core/federated/network/net_common.h:217-737 | Every well-formed message is read back, with what follows untouched. |
| MessageTypes.TagMessages | lf-src/fed-gen/AutowareFederated/include/core/federated/network/net_common.h:387-538 | Types 6 to 12 and 26 are read as a message with a tag. |
| MessageTypes.Times | lf-src/fed-gen/AutowareFederated/include/core/federated/network/net_common.h:332-348 | Types 2, 19, 21 and 22 are read as a message with a time. |
| MessageTypes.Numbers | lf-src/fed-gen/AutowareFederated/include/core/federated/network/net_common.h:573-584 | Types 15, 20 and 254 are read as a message with a number. |
| MessageTypes.Introductions | lf-src/fed-gen/AutowareFederated/include/core/federated/network/net_common.h:254-273 | Types 1 and 16 are read as federate ID and federation ID. |
| MessageTypes.Addresses | lf-src/fed-gen/AutowareFederated/include/core/federated/network/net_common.h:549-571 | Types 13 and 14 are read as an address query and its reply. |
| MessageTypes.Payloads | lf-src/fed-gen/AutowareFederated/include/core/federated/network/net_common.h:350-385 | Types 3 and 17 are read as a message for a port, types 5 and 18 as one with a tag. |
| MessageTypes.Absences | lf-src/fed-gen/AutowareFederated/include/core/federated/network/net_common.h:670-682 | Type 23 is read as the absence of a port. |
| MessageTypes.NeighborStructures | lf-src/fed-gen/AutowareFederated/include/core/federated/network/net_common.h:684-711 | Type 24 is read as both neighbor lists, for all lists that the counts can hold. |
| MessageTypes.Authentications | lf-src/fed-gen/AutowareFederated/include/core/federated/network/net_common.h:275-320 | Types 100 to 102 are read as the messages of HMAC authentication. |
| MessageTypes.Signals | lf-src/fed-gen/AutowareFederated/include/core/federated/network/net_common.h:235-241 | Types 255, 4 and 25 are read as messages without payload. |
| MessageTypes.Rejections | lf-src/fed-gen/AutowareFederated/include/core/federated/network/net_common.h:226-233 | Type 0 is read as a rejection with a byte of reason. |
| MessageTypes.OtherTypes | lf-src/fed-gen/AutowareFederated/include/core/federated/network/net_common.h:217-737 | No other type is read. |
| MessageTypes.Widths | lf-src/fed-gen/AutowareFederated/include/core/federated/network/net_util.h:46-86 | The fields hold exactly the unsigned and two's complement integers of their width. |
| MessageLayouts.PayloadLayout | lf-src/fed-gen/AutowareFederated/include/core/federated/network/net_common.h:370-385 | Port, federate, length, time, microstep and payload of a tagged message stand at bytes 1, 3, 5, 9, 17 and 21, in 2, 2, 4, 8 and 4 bytes and the payload's length. |
| MessageLayouts.TaggedLayout | lf-src/fed-gen/AutowareFederated/include/core/federated/network/net_common.h:440-538 | Time and microstep of a stop message, a grant or another tag message stand at bytes 1 and 9 of 13. |
| MessageLayouts.NeighborsLayout | lf-src/fed-gen/AutowareFederated/include/core/federated/network/net_common.h:684-711 | Both counts stand at bytes 1 and 5, upstream pair i at byte 9 + 10 i, and downstream ID j two bytes an ID behind the pairs. |
| MessageLayouts.UpstreamFields | lf-src/fed-gen/AutowareFederated/include/core/federated/network/net_common.h:698-701 | Upstream pair i is two bytes of ID at byte 9 + 10 i and eight bytes of delay behind it. |
| MessageLayouts.DownstreamField | lf-src/fed-gen/AutowareFederated/include/core/federated/network/net_common.h:703-704 | Downstream ID j is the two bytes 2 j behind the pairs. |
| MessageLayouts.FedIdsLayout | lf-src/fed-gen/AutowareFederated/include/core/federated/network/net_common.h:254-273 | Federate ID, length and federation ID stand at bytes 1, 3 and 4. |
| MessageLayouts.PortAbsentLayout | lf-src/fed-gen/AutowareFederated/include/core/federated/network/net_common.h:670-682 | Port, federate, time and microstep stand at bytes 1, 3, 5 and 13 of 17. |
| MessageLayouts.UntaggedLayout | lf-src/fed-gen/AutowareFederated/include/core/federated/network/net_common.h:350-362 | Port, federate, length and payload stand at bytes 1, 3, 5 and 9. |
| MessageLayouts.AddressReplyLayout | lf-src/fed-gen/AutowareFederated/include/core/federated/network/net_common.h:559-571 | Port and address stand at bytes 1 and 5 of 9. |
| MessageLayouts.TimedLayout | lf-src/fed-gen/AutowareFederated/include/core/federated/network/net_common.h:332-348 | The time stands at byte 1 of 9. |
| MessageLayouts.NumberLayout | lf-src/fed-gen/AutowareFederated/include/core/federated/network/net_common.h:549-584 | A port or number stands in 4 bytes, a queried federate ID in 2 bytes, behind the type. |
| MessageLayouts.FedNonceLayout | lf-src/fed-gen/AutowareFederated/include/core/federated/network/net_common.h:275-288 | Federate ID and nonce stand at bytes 1 and 3 of 11. |
| MessageLayouts.ResponseLayouts | lf-src/fed-gen/AutowareFederated/include/core/federated/network/net_common.h:290-320 | Nonce and HMAC tag of the RTI's response stand at bytes 1 and 9, the federate's HMAC tag at byte 1. |
| MessageLayouts.ByteOfInteger | lf-src/fed-gen/AutowareFederated/include/core/federated/network/net_util.h:46-86 | Byte k of an encoded integer is its k-th lowest order byte. |
| WireFormat.SignedRoundTrip | lf-src/fed-gen/AutowareFederated/include/core/federated/network/net_util.h:46-65 | Every signed value of the width survives its conversion to unsigned and back. |
| WireFormat.UnsignedOfBytes | lf-src/fed-gen/AutowareFederated/include/core/federated/network/net_util.h:67-86 | Every value of the width is recovered from its bytes, lowest first. |
| WireFormat.BytesOfUnsigned | lf-src/fed-gen/AutowareFederated/include/core/federated/network/net_util.h:128-151 | Every byte string is the encoding of the value read from it. |
| WireFormat.GetTagIsPut | lf-src/fed-gen/AutowareFederated/include/core/federated/network/net_util.h:183-202 | Any 12 bytes read as a tag are the encoding of that tag, with a 64-bit time and a 32-bit microstep. |
| WireBuffer.EncodeInteger | lf-src/fed-gen/AutowareFederated/include/core/federated/network/net_util.h:46-86 | Exactly the bytes of the value are written at the address, and no others. |
| WireBuffer.EncodeTag | lf-src/fed-gen/AutowareFederated/include/core/federated/network/net_util.h:194-202 | Exactly the 12 bytes of the tag are written at the address, and no others. |
| WireBuffer.ExtractSigned | lf-src/fed-gen/AutowareFederated/include/core/federated/network/net_util.h:128-142 | The extracted value is the one whose encoding stands at the address. |
| WireBuffer.ExtractUnsigned | lf-src/fed-gen/AutowareFederated/include/core/federated/network/net_util.h:144-151 | The extracted value is the one whose encoding stands at the address. |
| WireBuffer.ExtractTag | lf-src/fed-gen/AutowareFederated/include/core/federated/network/net_util.h:183-192 | The extracted tag is the one whose encoding stands at the address. |
| WireBuffer.ExtractHeader | lf-src/fed-gen/AutowareFederated/include/core/federated/network/net_util.h:155-167 | Port, federate and length are those whose encodings begin the buffer. |
| WireBuffer.ExtractTimedHeader | lf-src/fed-gen/AutowareFederated/include/core/federated/network/net_util.h:169-181 | Port, federate, length and tag are those whose encodings begin the buffer. |
| WireBuffer.TimedHeaderIsSent | lf-src/fed-gen/AutowareFederated/include/core/federated/network/net_util.h:169-181 | The header extracted from a sent tagged message is the sender's, and the payload and what follows come next. |
| WireBuffer.EncodeStopMessage | lf-src/fed-gen/AutowareFederated/include/core/federated/network/net_common.h:478-538 | The buffer begins with exactly the message that the parser reads as that stop message, with nothing left over but the bytes behind it, which are kept. |
| WireBuffer.NeighborStructure | lf-src/fed-gen/AutowareFederated/src/include/_federate__bridge_preamble.h:92-113 | The generated buffer is type 24 and eight zero bytes, the encoding of a neighbor structure without neighbors. |
| Substitution.PassesSubstitute | lf-src/lf-include/utils.hpp:189-211 | For well-formed templates and values without '$', the sequential passes equal one simultaneous substitution of all variables. |
| Substitution.OrderDoesNotMatter | lf-src/lf-include/utils.hpp:189-211 | Reordering replacements with distinct names does not change the result. |
| Substitution.ResolvedWhenBound | lf-src/lf-include/utils.hpp:189-192 | The result is free of variables exactly when every variable of the template has a value. |
| Substitution.VariableValuesDependOnOrder | lf-src/lf-include/utils.hpp:205-211 | A value that is itself a variable is replaced by a later pass, so that there the order decides the result. |
| TemplateValues.PassesSubstituteTemplates | lf-src/lf-include/utils.hpp:205-211 | For values that are templates and do not depend on each other in a circle, the passes equal the simultaneous substitution on every template exactly when no value mentions the name of a later replacement. |
| TemplateValues.WithoutLaterMention | lf-src/lf-include/utils.hpp:205-211 | When no value mentions the name of a later replacement they are equal, even if names repeat or values mention each other. |
| Substitution.PassSubstitutes | lf-src/lf-include/utils.hpp:205-211 | One pass replaces exactly the variables of its name, for any value. |
| Substitution.FindsOwnVariable | lf-src/lf-include/utils.hpp:207-207 | A pattern is found at a rendered variable exactly when the names are equal. |
| Substitution.ReplacePass | lf-src/lf-include/utils.hpp:205-211 | The find-and-replace loop terminates, and is left-to-right replacement of non-overlapping occurrences that never rescans inserted text. |
| Substitution.ResolveYamlVars | lf-src/lf-include/utils.hpp:193-211 | The loop over the replacements is the sequence of passes. |
| Substitution.Find | lf-src/lf-include/utils.hpp:207-207 | The first occurrence at or after the position, none exactly when there is none. |
| ReactionOrder.RunsAreTopological | lf-src/fed-gen/AutowareFederated/include/core/utils/util.h:29-40 | In every run of a tag, with network inputs arriving meanwhile, a reaction runs at most once and never before one upstream of it. |
| ReactionOrder.NothingIsLost | lf-src/fed-gen/AutowareFederated/include/core/lf_types.h:184-194 | A reaction once queued, enabled or triggered stays queued until it runs. |
| ReactionOrder.ProvisionalRunsStayBelow | lf-src/fed-gen/AutowareFederated/include/core/federated/federate.h:543-589 | Under a provisional grant, every reaction that has run is below the level of every network input still unknown. |
| ReactionOrder.IndexesAreLexicographic | lf-src/fed-gen/AutowareFederated/include/core/reactor_common.h:69-78 | Indexes are ordered by saturated deadline and then by level, and fit 64 bits. |
| ReactionOrder.IndexBits | lf-src/fed-gen/AutowareFederated/include/core/reactor_common.h:69-78 | The index is the deadline, at most 281474976710655, times 65536 plus the level. |
| ReactionOrder.LevelIsRecovered | lf-src/fed-gen/AutowareFederated/include/core/utils/util.h:29-40 | The level is read back from the index exactly when it fits 16 bits. |
| ReactionOrder.Program.ChainsRise | lf-src/fed-gen/AutowareFederated/include/core/utils/util.h:32-38 | Along every chain of enabling reactions both level and index rise. |
| LevelGate.LevelGate.UpdateMaxLevel | lf-src/fed-gen/AutowareFederated/include/core/federated/federate.h:573-589 | The MLAA is INT_MAX under a grant that covers the current tag, else the least level of the non-physical inputs of unknown status; the result tells whether it changed. |
| LevelGate.LevelGate.GateAdmitsWhatMayRun | lf-src/fed-gen/AutowareFederated/include/core/federated/federate.h:543-552 | A level is below the MLAA exactly when the grant covers the tag or no unknown input is at or below the level. |
| LevelGate.LevelGate.ReceiveGrant | lf-src/fed-gen/AutowareFederated/include/core/federated/federate.h:573-589 | A TAG or PTAG is recorded and the MLAA follows. |
| LevelGate.LevelGate.StartTag | lf-src/fed-gen/AutowareFederated/include/core/federated/federate.h:354-365 | At a new tag the inputs whose last known status is older become unknown and the MLAA follows. |
| LevelGate.LevelGate.LearnStatus | lf-src/fed-gen/AutowareFederated/include/core/lf_types.h:464-469 | Learning an input's status changes that input alone and never lowers the MLAA. |
| SparsePort.VisitsPresentChannels | lf-src/fed-gen/AutowareFederated/include/core/port.h:30-36 | Exactly the present channels are visited, each once exactly when the record overflowed or no channel was set twice at the tag. |
| SparsePort.OverflowHidesNothing | lf-src/fed-gen/AutowareFederated/include/core/lf_token.h:112-145 | With each channel set at most once, the record and the scan after an overflow visit the same channels. |
| SparsePort.Multiport.SetPresent | lf-src/fed-gen/AutowareFederated/include/core/lf_token.h:120-145 | The record keeps the channels in the order they were set, and overflows to -1 exactly when they are more than its capacity. |
| SparsePort.Multiport.Clear | lf-src/fed-gen/AutowareFederated/include/core/reactor_common.h:135-142 | At a new tag every channel is absent and the record is empty, also after an overflow. |
| SparsePort.Iterator.constructor | lf-src/fed-gen/AutowareFederated/include/core/port.h:110-119 | A new iterator has all visited channels before it. |
| SparsePort.Iterator.Next | lf-src/fed-gen/AutowareFederated/include/core/port.h:134-141 | The next channel and the iterator moved past it, -1 exactly when none is left. |
| SparsePort.ReadAll | lf-src/fed-gen/AutowareFederated/include/core/port.h:18-28 | The reading loop sees the whole sequence of visited channels. |
| CarlaLoop.Run | lf-src/carla_interface/CarlaInterface.lf:68-122 | After any number of steps logical time has not moved, frames are one more than the microstep and ticks two more, and each applied control but the first is what the previous step returned. |
| CarlaLoop.Loop.React | lf-src/carla_interface/CarlaInterface.lf:80-87 | The control applied at a microstep is the one the previous step returned, and the lockstep invariant holds again one microstep later. |
| CarlaLoop.Loop.constructor | lf-src/carla_interface/CarlaInterface.lf:72-78 | After startup one frame and two ticks have passed, and a command is due one microstep later. |

## Left out

- StopProtocol.NextKeeps: microsteps and times are unbounded; the wrap-around of a 32-bit microstep is not modelled.
- ActionRules.MinimumSpacing: excludes the `update` policy, which the header lists without saying what tag the updated event gets; the model keeps its preliminary tag.
- MixedRadix.MixedRadix.ToInt: does not model overflow of a C `int` by a large product of radixes.
- Hashmap.Hashmap.constructor: memory exhaustion, on which the program exits, is not modelled.
- Hashmap.Hashmap.Get: the value read for an absent key in a map with room is whatever the empty entry holds, as in the source.
- EventHeap.TagQueue.PercolateDown: compares by tag only; payload equality and the duplicate element of the reaction queue are left out.
- ReactionOrder.RunsAreTopological: reactions run one at a time; several workers at one level are not modelled.
- ReactionOrder.Combine: deadlines are natural numbers, as what a negative one means is not stated.
- LevelGate.LevelGate.StartTag: present and absent status of an input beyond known and unknown is not modelled.
- Messages.RoundTrip: nonces and HMAC tags are bytes; choosing, computing and checking them is not modelled.
- WireBuffer.NeighborStructure: the generator that would emit non-empty neighbor lists is not in the repository; the layout with lists is modelled in `Messages`.
- WireBuffer.EncodeStopMessage: one method for the three macros, which differ in the type byte only.
- Substitution.ResolveYamlVars: patterns must not be empty, as the loop does not end on one; reading the file and writing the resolved copy are left out.
- CarlaLoop.Run: what the simulator and its vehicle compute is a parameter of each step; cleanup at shutdown is left out.
- ClockSync.SocketStat.Record: the average, deviation and variance that can be computed from the samples, and the field `clock_synchronization_error_bound`, whose update is not stated.
- TokenConservation.TokensAreConserved: `lf_set` on a port without a token, `_lf_free_all_tokens`, element sizes, and a freed address that the C allocator hands out again outside the recycling bin.
- ReactorEnvironment.ReactorEnvironment.NextLocked: the wait for physical time, the messages to the RTI and the triggering of reactions, including shutdown reactions.
- The RTI's computation of tag advance grants, which the repository only promises; this federation is decentralized.
- Sockets, retries, port selection, threads, mutexes and condition variables.
- Regular expressions for RTI addresses, tracing, modal reactors and watchdogs.
- `hashset.h`, `vector.h` and `lf_semaphore.h`, whose probing, shrinking and waiting the repository does not show; the ROS node wrappers, `constants.hpp` and YAML parameter reading, which hand values to rclcpp.
