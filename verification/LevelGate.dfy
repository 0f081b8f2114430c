/**
 * The max level allowed to advance (MLAA): the bound that network inputs of unknown status put
 * on the levels a federate may run at its current tag.
 */
module LevelGate {
  import opened Tags
  import opened ReactionOrder

  const INT_MAX: nat := 0x7FFF_FFFF

  datatype InputPort = InputPort(level: nat, physical: bool, lastKnownStatusTag: Tag)

  /** The input may still turn out to be present at the tag. */
  predicate Unknown(p: InputPort, current: Tag) {
    !p.physical && Less(p.lastKnownStatusTag, current)
  }

  /** The grant lifts every bound on levels at the current tag. */
  predicate Covers(grant: Tag, provisional: bool, current: Tag) {
    Less(current, grant) || (current == grant && !provisional)
  }

  class LevelGate {
    var current: Tag
    var lastGrant: Tag
    var provisional: bool
    var ports: seq<InputPort>
    var maxLevel: nat

    /** Levels are C ints below the bound that stands for none. */
    ghost predicate Sound()
      reads this
    {
      forall i :: 0 <= i < |ports| ==> ports[i].level < INT_MAX
    }

    /** The bound is the least level of an unknown input, or none under a covering grant. */
    ghost predicate Tight()
      reads this
    {
      && Sound()
      && (Covers(lastGrant, provisional, current) ==> maxLevel == INT_MAX)
      && (!Covers(lastGrant, provisional, current) ==> IsLeastUnknown(maxLevel, ports, current))
    }

    constructor (ports: seq<InputPort>, start: Tag, grant: Tag, provisional: bool)
      requires forall i :: 0 <= i < |ports| ==> ports[i].level < INT_MAX
      ensures Tight() && this.ports == ports && current == start
      ensures lastGrant == grant && this.provisional == provisional
    {
      this.ports, this.current, this.lastGrant, this.provisional := ports, start, grant, provisional;
      maxLevel := 0;
      new;
      var _ := UpdateMaxLevel(grant, provisional);
    }

    method UpdateMaxLevel(tag: Tag, isProvisional: bool) returns (changed: bool)
      requires Sound() && tag == lastGrant && isProvisional == provisional
      modifies this`maxLevel
      ensures Tight() && changed == (maxLevel != old(maxLevel))
      ensures Less(current, tag) || (current == tag && !isProvisional) ==> maxLevel == 2147483647
      ensures Less(tag, current) || (current == tag && isProvisional) ==>
                && (forall i :: 0 <= i < |ports| && !ports[i].physical && Less(ports[i].lastKnownStatusTag, current) ==>
                      maxLevel <= ports[i].level)
                && (maxLevel != 2147483647 ==>
                      exists i :: 0 <= i < |ports| && !ports[i].physical && ports[i].level == maxLevel
                        && Less(ports[i].lastKnownStatusTag, current))
    {
      var before := maxLevel;
      maxLevel := INT_MAX;
      if Covers(tag, isProvisional, current) {
        return before != maxLevel;
      }
      for i := 0 to |ports|
        invariant IsLeastUnknown(maxLevel, ports[..i], current)
      {
        assert ports[..i + 1] == ports[..i] + [ports[i]];
        if Unknown(ports[i], current) && ports[i].level < maxLevel {
          maxLevel := ports[i].level;
        }
      }
      assert ports[..|ports|] == ports;
      changed := before != maxLevel;
    }

    /** A TAG or a PTAG arrives. */
    method ReceiveGrant(tag: Tag, isProvisional: bool)
      requires Tight()
      modifies this
      ensures Tight() && lastGrant == tag && provisional == isProvisional
      ensures ports == old(ports) && current == old(current)
    {
      lastGrant, provisional := tag, isProvisional;
      var _ := UpdateMaxLevel(tag, isProvisional);
    }

    /** A logical time begins: the status of each input is what was last learned of it. */
    method StartTag(tag: Tag)
      requires Tight()
      modifies this
      ensures Tight() && current == tag
      ensures ports == old(ports) && lastGrant == old(lastGrant) && provisional == old(provisional)
    {
      current := tag;
      var _ := UpdateMaxLevel(lastGrant, provisional);
    }

    /** A message or an absent message tells the status of one input up to a tag. */
    method LearnStatus(i: nat, tag: Tag)
      requires Tight() && i < |ports| && AtMost(ports[i].lastKnownStatusTag, tag)
      modifies this
      ensures Tight() && ports == old(ports)[i := old(ports)[i].(lastKnownStatusTag := tag)]
      ensures current == old(current) && lastGrant == old(lastGrant) && provisional == old(provisional)
      ensures maxLevel >= old(maxLevel)
    {
      ports := ports[i := ports[i].(lastKnownStatusTag := tag)];
      var _ := UpdateMaxLevel(lastGrant, provisional);
    }

    /** Execution at the level need not wait. */
    predicate MayAdvance(level: nat)
      reads this
    {
      level < maxLevel
    }

    /** The inputs of unknown status, and whether the grant lifts their bound. */
    ghost function View(queue: set<nat>, done: seq<nat>): State
      reads this
    {
      State(queue, done, (set i: nat | i < |ports| && Unknown(ports[i], current)),
            Covers(lastGrant, provisional, current))
    }

    /**
     * The one bound decides as the reaction order demands: a level may run exactly when the
     * grant covers the tag or no unknown input is at or below the level.
     */
    lemma GateAdmitsWhatMayRun(p: Program, queue: set<nat>, done: seq<nat>, level: nat)
      requires Tight() && level < INT_MAX
      requires |p.inputLevels| == |ports|
      requires forall i :: 0 <= i < |ports| ==> p.inputLevels[i] == ports[i].level
      ensures MayAdvance(level) <==> MayRun(p, View(queue, done), level)
    {
      var s := View(queue, done);
      if MayRun(p, s, level) && !s.granted && maxLevel != INT_MAX {
        var i :| 0 <= i < |ports| && Unknown(ports[i], current) && ports[i].level == maxLevel;
        assert i in s.unknown;
      }
    }
  }

  /** A lower bound of the levels of unknown inputs that is one of them, or INT_MAX without any. */
  ghost predicate IsLeastUnknown(level: nat, ports: seq<InputPort>, current: Tag) {
    && (forall i :: 0 <= i < |ports| && Unknown(ports[i], current) ==> level <= ports[i].level)
    && (level == INT_MAX || exists i :: 0 <= i < |ports| && Unknown(ports[i], current) && ports[i].level == level)
  }
}
