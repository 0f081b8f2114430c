/** The message handlers of the stop protocol, updating the federation's state in place. */
module Federation {
  import opened Options
  import opened Tags
  import opened StopProtocol

  class Federation {
    var links: seq<Link>
    var seen: Option<Tag>
    var granted: Option<Tag>

    ghost function State(): System
      reads this
    {
      System(links, seen, granted)
    }

    ghost predicate Valid()
      reads this
    {
      Invariant(State())
    }

    /** The federates are connected and at the given tags; no stop has been requested. */
    constructor (tags: seq<Tag>)
      ensures Valid() && Initial(State()) && |links| == |tags|
      ensures forall i :: 0 <= i < |tags| ==> links[i].fed.current == tags[i]
    {
      links := seq(|tags|, i requires 0 <= i < |tags| =>
        Link(Federate(tags[i], false, false, false, None, true), [], [], None, true));
      seen, granted := None, None;
      new;
      InitialInvariant(State());
    }

    /** -1 when disconnected, 1 when a request is already pending, 0 when one is sent. */
    method SendStopRequestToRti(i: nat) returns (code: int)
      requires Valid() && i < |links|
      modifies this
      ensures Valid()
      ensures code == 0 <==> old(links[i].fed.running && !links[i].fed.requested && !links[i].fed.receivedRequest)
      ensures code == -1 <==> old(!links[i].fed.running)
      ensures -1 <= code <= 1
      ensures State() == if code == 0 then Next(old(State()), RequestStop(i)) else old(State())
      ensures code == 0 ==>
                && links[i].fed == old(links[i].fed).(frozen := true, requested := true)
                && links[i].up == old(links[i].up)
                     + [StopRequest(Tag(links[i].fed.current.time, links[i].fed.current.microstep + 1))]
    {
      if !links[i].fed.running {
        return -1;
      }
      if links[i].fed.receivedRequest || links[i].fed.requested {
        return 1;
      }
      NextKeeps(State(), RequestStop(i));
      var l := links[i];
      links := links[i := l.(fed := l.fed.(frozen := true, requested := true),
                             up := l.up + [StopRequest(NextMicrostep(l.fed.current))])];
      code := 0;
    }

    method Resign(i: nat)
      requires Valid() && i < |links| && links[i].fed.running
      modifies this
      ensures Valid() && State() == Next(old(State()), Resigns(i))
      ensures !links[i].fed.running && links[i].up == old(links[i].up) + [Message.Resign]
    {
      NextKeeps(State(), Resigns(i));
      links := links[i := links[i].(fed := links[i].fed.(running := false), up := links[i].up + [Message.Resign])];
    }

    /** The advance happens unless the federate is frozen or the tag lies beyond the stop tag. */
    method TryAdvance(i: nat, to: Tag) returns (advanced: bool)
      requires Valid() && i < |links| && links[i].fed.running && Less(links[i].fed.current, to)
      modifies this
      ensures Valid()
      ensures advanced <==> old(!Committed(links[i].fed)
                                || (links[i].fed.granted.Some? && AtMost(to, links[i].fed.granted.value)))
      ensures State() == if advanced then Next(old(State()), Advance(i, to)) else old(State())
      ensures links[i].fed == old(links[i].fed).(current := if advanced then to else old(links[i].fed.current))
    {
      var f := links[i].fed;
      assert LinkInv(links[i], seen, granted);
      advanced := !f.frozen && (f.granted.None? || AtMost(to, f.granted.value));
      if advanced {
        NextKeeps(State(), Advance(i, to));
        links := links[i := links[i].(fed := f.(current := to))];
      }
    }

    method FederateReceive(i: nat)
      requires Valid() && i < |links| && links[i].fed.running && |links[i].down| > 0
      modifies this
      ensures Valid() && State() == Next(old(State()), FederateReceives(i))
      ensures |links| == |old(links)| && links[i].down == old(links[i].down)[1..]
      ensures old(links[i].down[0].StopRequest?) ==>
                var (f, t) := (old(links[i].fed), old(links[i].down)[0].tag);
                && links[i].fed == f.(frozen := true, receivedRequest := true)
                && links[i].up == old(links[i].up) + [StopReply(if Less(f.current, t) then t else f.current)]
      ensures old(links[i].down[0].StopGranted?) ==>
                && links[i].fed == old(links[i].fed).(frozen := false, granted := Some(old(links[i].down)[0].tag))
                && links[i].up == old(links[i].up)
    {
      NextKeeps(State(), FederateReceives(i));
      var l := links[i];
      var f := l.fed;
      match l.down[0] {
        case StopRequest(t) =>
          var stop := if AtMost(f.current, t) then t else f.current;
          l := l.(fed := f.(frozen := true, receivedRequest := true), up := l.up + [StopReply(stop)]);
        case StopGranted(t) =>
          l := l.(fed := f.(frozen := false, granted := Some(t)));
        case _ =>
      }
      links := links[i := l.(down := l.down[1..])];
    }

    method ReceiveFromFederate(i: nat)
      requires Valid() && i < |links| && |links[i].up| > 0
      modifies this
      ensures Valid() && State() == Next(old(State()), RtiReceives(i))
    {
      NextKeeps(State(), RtiReceives(i));
      var l := links[i];
      var m := l.up[0];
      if (m.StopRequest? || m.StopReply?) && l.recorded.Some? {
        links := links[i := l.(up := l.up[1..])];
      } else if m.StopRequest? || m.StopReply? {
        links := links[i := l.(up := l.up[1..], recorded := Some(m.tag))];
        seen := Some(if seen.Some? && !AtMost(seen.value, m.tag) then seen.value else m.tag);
        if m.StopRequest? {
          ForwardToUncounted(m.tag);
        }
        GrantIfComplete();
      } else {
        assert LinkInv(l, seen, granted);
        links := links[i := l.(up := l.up[1..], connected := false)];
        GrantIfComplete();
      }
    }

    method ForwardToUncounted(t: Tag)
      modifies this`links
      ensures links == Forward(old(links), t)
      ensures forall j :: 0 <= j < |links| ==>
                links[j] == if old(links)[j].connected && old(links)[j].recorded.None?
                            then old(links)[j].(down := old(links)[j].down + [StopRequest(t)])
                            else old(links)[j]
    {
      for k := 0 to |links|
        invariant |links| == |old(links)|
        invariant forall j :: 0 <= j < k ==> links[j] == ForwardTo(old(links[j]), t)
        invariant forall j :: k <= j < |links| ==> links[j] == old(links[j])
      {
        if links[k].connected && links[k].recorded.None? {
          links := links[k := links[k].(down := links[k].down + [StopRequest(t)])];
        }
      }
    }

    method GrantIfComplete()
      modifies this`links, this`granted
      ensures State() == TryGrant(old(State()))
      ensures (granted.Some? && old(granted).None?) <==>
                && seen.Some? && old(granted).None?
                && forall j :: 0 <= j < |old(links)| && old(links)[j].connected ==> old(links)[j].recorded.Some?
      ensures granted.Some? && old(granted).None? ==>
                && granted == seen && |links| == |old(links)|
                && forall j :: 0 <= j < |links| ==>
                     links[j] == if old(links)[j].connected
                                 then old(links)[j].(down := old(links)[j].down + [StopGranted(seen.value)])
                                 else old(links)[j]
    {
      if seen.None? || granted.Some? {
        return;
      }
      for k := 0 to |links|
        invariant forall j :: 0 <= j < k ==> !Missing(links[j])
      {
        if links[k].connected && links[k].recorded.None? {
          return;
        }
      }
      assert AllCounted(old(links));
      granted := seen;
      for k := 0 to |links|
        invariant |links| == |old(links)| && granted == seen
        invariant forall j :: 0 <= j < k ==> links[j] == GrantTo(old(links[j]), seen.value)
        invariant forall j :: k <= j < |links| ==> links[j] == old(links[j])
      {
        if links[k].connected {
          links := links[k := links[k].(down := links[k].down + [StopGranted(seen.value)])];
        }
      }
      assert links == Grant(old(links), seen.value);
    }
  }
}
