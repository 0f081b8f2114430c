/**
 * The stop agreement protocol between the federates and the RTI.
 *
 * Each federate has one in-order connection in each direction. A `Link` gathers what
 * belongs to one federate: its own state, the two connections, and the RTI's record of it.
 */
module StopProtocol {
  import opened Options
  import opened Tags

  datatype Message =
    | StopRequest(tag: Tag)
    | StopReply(tag: Tag)
    | StopGranted(tag: Tag)
    | Resign

  datatype Federate = Federate(
    current: Tag,
    frozen: bool,           // tag advancement is frozen until the grant arrives
    requested: bool,        // this federate has sent its own stop request
    receivedRequest: bool,  // received_stop_request_from_rti
    granted: Option<Tag>,   // the stop tag, once granted
    running: bool)          // false after resigning

  datatype Link = Link(
    fed: Federate,
    up: seq<Message>,       // federate to RTI, oldest first
    down: seq<Message>,     // RTI to federate, oldest first
    recorded: Option<Tag>,  // the stop tag the RTI has counted for this federate
    connected: bool)        // the RTI has not seen this federate resign

  datatype System = System(links: seq<Link>, seen: Option<Tag>, granted: Option<Tag>)

  datatype Event =
    | Advance(who: nat, to: Tag)
    | RequestStop(who: nat)
    | Resigns(who: nat)
    | FederateReceives(who: nat)
    | RtiReceives(who: nat)

  // ---------- What one federate does ----------

  predicate MayAdvance(f: Federate, to: Tag) {
    && f.running && !f.frozen && Less(f.current, to)
    && (f.granted.Some? ==> AtMost(to, f.granted.value))
  }

  /** A request is suppressed once the RTI's request has arrived or one has been sent. */
  predicate MayRequest(f: Federate) {
    f.running && !f.requested && !f.receivedRequest
  }

  function SendRequest(l: Link): Link {
    l.(fed := l.fed.(frozen := true, requested := true),
       up := l.up + [StopRequest(NextMicrostep(l.fed.current))])
  }

  function SendResign(l: Link): Link {
    l.(fed := l.fed.(running := false), up := l.up + [Resign])
  }

  function Receive(l: Link): Link
    requires |l.down| > 0
  {
    match l.down[0]
    case StopRequest(t) =>
      l.(fed := l.fed.(frozen := true, receivedRequest := true),
         up := l.up + [StopReply(Later(l.fed.current, t))],
         down := l.down[1..])
    case StopGranted(t) =>
      l.(fed := l.fed.(frozen := false, granted := Some(t)), down := l.down[1..])
    case _ =>
      l.(down := l.down[1..])
  }

  // ---------- What the RTI does ----------

  function RaiseSeen(seen: Option<Tag>, t: Tag): Option<Tag> {
    if seen.Some? then Some(Later(seen.value, t)) else Some(t)
  }

  /** The RTI counts a federate once: a later proposal from it is only consumed. */
  function Count(l: Link): Link
    requires |l.up| > 0 && (l.up[0].StopRequest? || l.up[0].StopReply?)
  {
    if l.recorded.Some? then l.(up := l.up[1..])
    else l.(up := l.up[1..], recorded := Some(l.up[0].tag))
  }

  function ForwardTo(l: Link, t: Tag): Link {
    if l.connected && l.recorded.None? then l.(down := l.down + [StopRequest(t)]) else l
  }

  function Forward(links: seq<Link>, t: Tag): (r: seq<Link>)
    ensures |r| == |links|
    ensures forall j :: 0 <= j < |r| ==> r[j] == ForwardTo(links[j], t)
  {
    seq(|links|, j requires 0 <= j < |links| => ForwardTo(links[j], t))
  }

  function GrantTo(l: Link, t: Tag): Link {
    if l.connected then l.(down := l.down + [StopGranted(t)]) else l
  }

  function Grant(links: seq<Link>, t: Tag): (r: seq<Link>)
    ensures |r| == |links|
    ensures forall j :: 0 <= j < |r| ==> r[j] == GrantTo(links[j], t)
  {
    seq(|links|, j requires 0 <= j < |links| => GrantTo(links[j], t))
  }

  predicate Missing(l: Link) {
    l.connected && l.recorded.None?
  }

  predicate AllCounted(links: seq<Link>) {
    forall j :: 0 <= j < |links| ==> !Missing(links[j])
  }

  function TryGrant(s: System): System {
    if s.seen.Some? && s.granted.None? && AllCounted(s.links)
    then s.(links := Grant(s.links, s.seen.value), granted := s.seen)
    else s
  }

  function RtiReceive(s: System, i: nat): System
    requires i < |s.links| && |s.links[i].up| > 0
  {
    var l := s.links[i];
    match l.up[0]
    case StopRequest(t) =>
      var links := s.links[i := Count(l)];
      if l.recorded.Some? then s.(links := links)
      else TryGrant(s.(links := Forward(links, t), seen := RaiseSeen(s.seen, t)))
    case StopReply(t) =>
      var links := s.links[i := Count(l)];
      if l.recorded.Some? then s.(links := links)
      else TryGrant(s.(links := links, seen := RaiseSeen(s.seen, t)))
    case Resign =>
      TryGrant(s.(links := s.links[i := l.(up := l.up[1..], connected := false)]))
    case StopGranted(_) =>
      s.(links := s.links[i := l.(up := l.up[1..])])
  }

  // ---------- Runs ----------

  predicate Enabled(s: System, e: Event) {
    && e.who < |s.links|
    && var l := s.links[e.who];
       match e
       case Advance(_, to) => MayAdvance(l.fed, to)
       case RequestStop(_) => MayRequest(l.fed)
       case Resigns(_) => l.fed.running
       case FederateReceives(_) => l.fed.running && |l.down| > 0
       case RtiReceives(_) => |l.up| > 0
  }

  function Next(s: System, e: Event): System
    requires Enabled(s, e)
  {
    var l := s.links[e.who];
    match e
    case Advance(_, to) => s.(links := s.links[e.who := l.(fed := l.fed.(current := to))])
    case RequestStop(_) => s.(links := s.links[e.who := SendRequest(l)])
    case Resigns(_) => s.(links := s.links[e.who := SendResign(l)])
    case FederateReceives(_) => s.(links := s.links[e.who := Receive(l)])
    case RtiReceives(_) => RtiReceive(s, e.who)
  }

  predicate IsRun(s: System, run: seq<Event>)
    decreases |run|
  {
    run == [] || (Enabled(s, run[0]) && IsRun(Next(s, run[0]), run[1..]))
  }

  function After(s: System, run: seq<Event>): System
    requires IsRun(s, run)
    decreases |run|
  {
    if run == [] then s else After(Next(s, run[0]), run[1..])
  }

  predicate Initial(s: System) {
    && s.seen.None? && s.granted.None?
    && forall i :: 0 <= i < |s.links| ==>
         s.links[i] == Link(Federate(s.links[i].fed.current, false, false, false, None, true), [], [], None, true)
  }

  // ---------- The inductive invariant ----------

  predicate IsProposal(m: Message) {
    m.StopRequest? || m.StopReply?
  }

  predicate Committed(f: Federate) {
    f.requested || f.receivedRequest
  }

  predicate UpInv(l: Link, seen: Option<Tag>) {
    && (forall j :: 0 <= j < |l.up| ==> IsProposal(l.up[j]) || (l.up[j].Resign? && j == |l.up| - 1 && !l.fed.running))
    && (forall j :: 0 <= j < |l.up| && IsProposal(l.up[j]) ==>
          && Committed(l.fed)
          && (l.up[j].StopReply? ==> seen.Some?)
          && (l.fed.granted.None? ==> AtMost(l.fed.current, l.up[j].tag))
          && ((seen.Some? && AtMost(l.up[j].tag, seen.value))
              || (l.recorded.None? && IsProposal(l.up[0]) && AtMost(l.up[j].tag, l.up[0].tag))))
    && (!l.connected ==> l.up == [])
    && (l.connected && !l.fed.running ==> |l.up| > 0 && l.up[|l.up| - 1].Resign?)
    && (l.fed.running ==> l.connected)
  }

  predicate DownInv(l: Link, seen: Option<Tag>, granted: Option<Tag>) {
    && (forall j :: 0 <= j < |l.down| ==>
          || (l.down[j].StopRequest? && seen.Some? && AtMost(l.down[j].tag, seen.value))
          || (l.down[j].StopGranted? && granted == Some(l.down[j].tag) && j == |l.down| - 1))
    && (l.fed.granted.Some? ==> l.down == [] && granted == l.fed.granted)
  }

  predicate RecordInv(l: Link, seen: Option<Tag>, granted: Option<Tag>) {
    && (l.fed.frozen <==> Committed(l.fed) && l.fed.granted.None?)
    && (l.fed.granted.Some? ==> Committed(l.fed) && AtMost(l.fed.current, l.fed.granted.value))
    && (l.recorded.Some? ==>
          && Committed(l.fed) && seen.Some? && AtMost(l.recorded.value, seen.value)
          && (l.fed.granted.None? ==> AtMost(l.fed.current, l.recorded.value)))
    && (Committed(l.fed) && l.recorded.None? ==> |l.up| > 0 && IsProposal(l.up[0]))
    && (seen.Some? && l.fed.running && l.recorded.None? ==> |l.up| > 0 || |l.down| > 0)
    && (granted.Some? ==>
          && seen == granted && !Missing(l)
          && (l.fed.running ==>
                l.fed.granted == granted || (|l.down| > 0 && l.down[|l.down| - 1] == StopGranted(granted.value))))
  }

  predicate LinkInv(l: Link, seen: Option<Tag>, granted: Option<Tag>) {
    UpInv(l, seen) && DownInv(l, seen, granted) && RecordInv(l, seen, granted)
  }

  predicate LinksInv(s: System) {
    forall i :: 0 <= i < |s.links| ==> LinkInv(s.links[i], s.seen, s.granted)
  }

  /** The tag the RTI would grant is one that some federate proposed. */
  predicate SeenIsProposed(s: System) {
    s.seen.Some? ==> exists i :: 0 <= i < |s.links| && s.links[i].recorded == s.seen
  }

  predicate Invariant(s: System) {
    && LinksInv(s)
    && SeenIsProposed(s)
    && (s.seen.Some? && s.granted.None? ==> !AllCounted(s.links))
    && (s.granted.Some? ==> s.granted == s.seen)
  }

  lemma InitialInvariant(s: System)
    requires Initial(s)
    ensures Invariant(s)
  {
  }

  lemma AdvanceKeeps(l: Link, to: Tag, seen: Option<Tag>, granted: Option<Tag>)
    requires LinkInv(l, seen, granted) && MayAdvance(l.fed, to)
    ensures LinkInv(l.(fed := l.fed.(current := to)), seen, granted)
  {
  }

  lemma RunningUp(l: Link, seen: Option<Tag>)
    requires UpInv(l, seen) && l.fed.running
    ensures l.up == [] || Committed(l.fed)
  {
    if l.up != [] {
      assert IsProposal(l.up[0]);
    }
  }

  lemma RequestKeeps(l: Link, seen: Option<Tag>, granted: Option<Tag>)
    requires LinkInv(l, seen, granted) && MayRequest(l.fed)
    ensures LinkInv(SendRequest(l), seen, granted)
  {
    RunningUp(l, seen);
  }

  lemma ResignKeeps(l: Link, seen: Option<Tag>, granted: Option<Tag>)
    requires LinkInv(l, seen, granted) && l.fed.running
    ensures LinkInv(SendResign(l), seen, granted)
  {
    DownUnchanged(l, SendResign(l), seen, granted);
  }

  lemma DownUnchanged(l: Link, l': Link, seen: Option<Tag>, granted: Option<Tag>)
    requires DownInv(l, seen, granted) && l'.down == l.down && l'.fed.granted == l.fed.granted
    ensures DownInv(l', seen, granted)
  {
    forall j | 0 <= j < |l'.down|
      ensures
        || (l'.down[j].StopRequest? && seen.Some? && AtMost(l'.down[j].tag, seen.value))
        || (l'.down[j].StopGranted? && granted == Some(l'.down[j].tag) && j == |l'.down| - 1)
    {
      assert l'.down[j] == l.down[j];
    }
  }

  lemma ReceiveKeeps(l: Link, seen: Option<Tag>, granted: Option<Tag>)
    requires LinkInv(l, seen, granted) && l.fed.running && |l.down| > 0
    ensures LinkInv(Receive(l), seen, granted)
  {
  }

  /** The sender's own link when the RTI consumes a proposal; forwarding does not touch it. */
  lemma CountKeeps(l: Link, seen: Option<Tag>, granted: Option<Tag>)
    requires LinkInv(l, seen, granted) && |l.up| > 0 && IsProposal(l.up[0])
    ensures l.recorded.Some? ==> LinkInv(Count(l), seen, granted)
    ensures l.recorded.None? ==> LinkInv(Count(l), RaiseSeen(seen, l.up[0].tag), granted)
  {
  }

  /** Every other link when a newly counted proposal raises `seen`. */
  lemma RaiseKeeps(l: Link, seen: Option<Tag>, t: Tag, forwarded: bool)
    requires LinkInv(l, seen, None)
    requires seen.None? ==> forwarded
    ensures LinkInv(if forwarded then ForwardTo(l, t) else l, RaiseSeen(seen, t), None)
  {
  }

  lemma RtiResignKeeps(l: Link, seen: Option<Tag>, granted: Option<Tag>)
    requires LinkInv(l, seen, granted) && |l.up| > 0 && l.up[0].Resign?
    ensures LinkInv(l.(up := l.up[1..], connected := false), seen, granted)
  {
    DownUnchanged(l, l.(up := l.up[1..], connected := false), seen, granted);
  }

  lemma GrantKeeps(l: Link, g: Tag)
    requires LinkInv(l, Some(g), None) && !Missing(l)
    ensures LinkInv(GrantTo(l, g), Some(g), Some(g))
  {
  }

  lemma TryGrantKeeps(s: System)
    requires LinksInv(s) && SeenIsProposed(s) && (s.granted.Some? ==> s.granted == s.seen)
    ensures Invariant(TryGrant(s))
  {
    if s.seen.Some? && s.granted.None? && AllCounted(s.links) {
      var g := s.seen.value;
      forall j | 0 <= j < |s.links|
        ensures LinkInv(GrantTo(s.links[j], g), Some(g), Some(g))
      {
        GrantKeeps(s.links[j], g);
      }
      var i :| 0 <= i < |s.links| && s.links[i].recorded == s.seen;
      assert TryGrant(s).links[i].recorded == s.seen;
    }
  }

  lemma RtiCountsKeeps(s: System, i: nat)
    requires Invariant(s) && i < |s.links| && |s.links[i].up| > 0 && IsProposal(s.links[i].up[0])
    requires s.links[i].recorded.None?
    ensures Invariant(RtiReceive(s, i))
  {
    var l := s.links[i];
    var t := l.up[0].tag;
    var links := s.links[i := Count(l)];
    var seen := RaiseSeen(s.seen, t);
    var forwarded := l.up[0].StopRequest?;
    var s' := s.(links := if forwarded then Forward(links, t) else links, seen := seen);
    assert s.granted.None? && (s.seen.None? ==> forwarded);
    CountKeeps(l, s.seen, s.granted);
    forall j | 0 <= j < |s.links|
      ensures LinkInv(s'.links[j], seen, None)
    {
      if j != i {
        RaiseKeeps(s.links[j], s.seen, t, forwarded);
      }
    }
    assert SeenIsProposed(s') by {
      if seen == Some(t) {
        assert s'.links[i].recorded == seen;
      } else {
        var k :| 0 <= k < |s.links| && s.links[k].recorded == s.seen;
        assert s'.links[k].recorded == s.seen;
      }
    }
    TryGrantKeeps(s');
  }

  lemma RtiReceiveKeeps(s: System, i: nat)
    requires Invariant(s) && i < |s.links| && |s.links[i].up| > 0
    ensures Invariant(RtiReceive(s, i))
  {
    var l := s.links[i];
    if IsProposal(l.up[0]) {
      if l.recorded.None? {
        RtiCountsKeeps(s, i);
      } else {
        CountKeeps(l, s.seen, s.granted);
        ReplacedLinkKeeps(s, i, Count(l));
      }
    } else {
      RtiResignKeeps(l, s.seen, s.granted);
      var l' := l.(up := l.up[1..], connected := false);
      var s' := s.(links := s.links[i := l']);
      assert LinksInv(s');
      RecordedUnchanged(s, i, l');
      TryGrantKeeps(s');
    }
  }

  lemma RecordedUnchanged(s: System, i: nat, l': Link)
    requires i < |s.links| && SeenIsProposed(s) && l'.recorded == s.links[i].recorded
    ensures SeenIsProposed(s.(links := s.links[i := l']))
  {
    if s.seen.Some? {
      var k :| 0 <= k < |s.links| && s.links[k].recorded == s.seen;
      assert s.links[i := l'][k].recorded == s.seen;
    }
  }

  lemma ReplacedLinkKeeps(s: System, i: nat, l': Link)
    requires Invariant(s) && i < |s.links| && LinkInv(l', s.seen, s.granted)
    requires l'.recorded == s.links[i].recorded && l'.connected == s.links[i].connected
    ensures Invariant(s.(links := s.links[i := l']))
  {
    RecordedUnchanged(s, i, l');
    if s.seen.Some? && s.granted.None? {
      var k :| 0 <= k < |s.links| && Missing(s.links[k]);
      assert Missing(s.links[i := l'][k]);
    }
  }

  lemma NextKeeps(s: System, e: Event)
    requires Invariant(s) && Enabled(s, e)
    ensures Invariant(Next(s, e))
  {
    var l := s.links[e.who];
    match e
    case Advance(i, to) =>
      AdvanceKeeps(l, to, s.seen, s.granted);
      ReplacedLinkKeeps(s, i, l.(fed := l.fed.(current := to)));
    case RequestStop(i) =>
      RequestKeeps(l, s.seen, s.granted);
      ReplacedLinkKeeps(s, i, SendRequest(l));
    case Resigns(i) =>
      ResignKeeps(l, s.seen, s.granted);
      ReplacedLinkKeeps(s, i, SendResign(l));
    case FederateReceives(i) =>
      ReceiveKeeps(l, s.seen, s.granted);
      ReplacedLinkKeeps(s, i, Receive(l));
    case RtiReceives(i) =>
      RtiReceiveKeeps(s, i);
  }

  lemma {:induction false} RunKeeps(s: System, run: seq<Event>)
    requires Invariant(s) && IsRun(s, run)
    ensures Invariant(After(s, run))
    decreases |run|
  {
    if run != [] {
      NextKeeps(s, run[0]);
      RunKeeps(Next(s, run[0]), run[1..]);
    }
  }
}
