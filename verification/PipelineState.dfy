/**
 The core's pipeline state (`PipelineState`): the run slot, the host-mutation lock and the
 coalesced "look again" wish.

 `Core` is what the lock protects. Each function below says what ONE acquisition of the lock does
 to it; the class carries the fields and its methods are proved to do exactly that. What the
 functions keep when many threads interleave them is proved in `RescanProtocol`.

 The clock and the maintenance window are read under the lock, so they are arguments here.
 */
module PipelineStates {
  import opened Wrappers

  datatype Phase = Idle | Running | Executing

  /** How long a re-scan handed to its worker may take to claim before requests stop joining it. */
  const RESCAN_PENDING_TTL_SECONDS: real := 120.0

  datatype Core = Core(
    phase: Phase,
    planId: Option<string>,
    messageId: Option<int>,
    owner: Option<string>,
    wanted: bool,
    starter: bool,
    pendingSince: Option<real>)

  const FRESH := Core(Idle, None, None, None, false, false, None)

  predicate RescanPending(c: Core, now: real) {
    c.pendingSince.Some? && now - c.pendingSince.value < RESCAN_PENDING_TTL_SECONDS
  }

  /** `request_rescan`, up to the end of its critical section. */
  function Request(c: Core, now: real): Core {
    if RescanPending(c, now) then c else c.(wanted := true)
  }

  /** Everything that must hold for a wish to be fired, except the window and the starter. */
  predicate Quiet(c: Core) {
    c.wanted && c.phase.Idle? && c.owner.None?
  }

  predicate MayFire(c: Core, maintenance: bool) {
    Quiet(c) && c.starter && !maintenance
  }

  function Fire(c: Core, now: real, maintenance: bool): Core {
    if MayFire(c, maintenance) then c.(wanted := false, pendingSince := Some(now)) else c
  }

  function Claim(c: Core): Core {
    c.(pendingSince := None)
  }

  function Move(c: Core, to: Phase, planId: Option<string>, messageId: Option<int>): Core {
    if to.Idle? then
      c.(phase := to, planId := None, messageId := None)
    else
      c.(phase := to,
         planId := if planId.Some? then planId else c.planId,
         messageId := if messageId.Some? then messageId else c.messageId)
  }

  predicate MayBegin(c: Core, requireIdle: bool, duringScan: bool, maintenance: bool) {
    && !maintenance
    && c.owner.None?
    && (c.phase.Running? ==> duringScan)
    && (requireIdle ==> c.phase.Idle?)
  }

  function Begin(c: Core, owner: string): Core {
    c.(owner := Some(owner))
  }

  predicate MayEnd(c: Core, owner: string) {
    c.owner == Some(owner)
  }

  function End(c: Core, owner: string, resetToIdle: bool): Core {
    if !MayEnd(c, owner) then c
    else if resetToIdle then c.(owner := None, phase := Idle, planId := None, messageId := None)
    else c.(owner := None)
  }

  predicate MayStart(c: Core, maintenance: bool) {
    !maintenance && c.phase.Idle? && c.owner.None?
  }

  function Start(c: Core): Core {
    c.(phase := Running)
  }

  class PipelineState {
    var phase: Phase
    var pendingPlanId: Option<string>
    var pendingMessageId: Option<int>
    var mutationOwner: Option<string>
    var rescanWanted: bool
    var rescanStarter: bool
    var rescanPendingSince: Option<real>

    function Snapshot(): Core
      reads this
    {
      Core(phase, pendingPlanId, pendingMessageId, mutationOwner, rescanWanted, rescanStarter, rescanPendingSince)
    }

    constructor ()
      ensures Snapshot() == FRESH
    {
      phase, pendingPlanId, pendingMessageId := Idle, None, None;
      mutationOwner, rescanWanted, rescanStarter, rescanPendingSince := None, false, false, None;
    }

    method SetRescanStarter(installed: bool)
      modifies this
      ensures Snapshot() == old(Snapshot()).(starter := installed)
    {
      rescanStarter := installed;
    }

    /** Asks for a fresh scan; `started` says whether the starter is to be called now. Nothing is
        started while a scan runs or a mutation holds the lock, and the wish is then kept. */
    method RequestRescan(now: real, later: real, maintenance: bool) returns (started: bool)
      modifies this
      ensures started == (!RescanPending(old(Snapshot()), now) && MayFire(Request(old(Snapshot()), now), maintenance))
      ensures Snapshot() == if RescanPending(old(Snapshot()), now) then old(Snapshot())
                            else Fire(Request(old(Snapshot()), now), later, maintenance)
      // A re-scan handed out less than two minutes ago is joined, and nothing changes.
      ensures old(rescanPendingSince).Some? && now - old(rescanPendingSince).value < 120.0
              ==> !started && Snapshot() == old(Snapshot())
      // An older marker, or none, never swallows the wish: it is recorded, or a re-scan starts.
      ensures old(rescanPendingSince).None? || now - old(rescanPendingSince).value >= 120.0
              ==> && rescanWanted == !started
                  && (started <==> old(phase).Idle? && old(mutationOwner).None? && old(rescanStarter) && !maintenance)
                  && rescanPendingSince == (if started then Some(later) else old(rescanPendingSince))
                  && phase == old(phase) && mutationOwner == old(mutationOwner) && rescanStarter == old(rescanStarter)
                  && pendingPlanId == old(pendingPlanId) && pendingMessageId == old(pendingMessageId)
    {
      if rescanPendingSince.Some? && now - rescanPendingSince.value < RESCAN_PENDING_TTL_SECONDS {
        return false;
      }
      rescanWanted := true;
      started := FireRescanIfIdle(later, maintenance);
    }

    method RescanClaimed()
      modifies this
      ensures Snapshot() == Claim(old(Snapshot()))
      ensures rescanPendingSince == None && phase == old(phase) && mutationOwner == old(mutationOwner)
      ensures rescanWanted == old(rescanWanted) && rescanStarter == old(rescanStarter)
      ensures pendingPlanId == old(pendingPlanId) && pendingMessageId == old(pendingMessageId)
    {
      rescanPendingSince := None;
    }

    method FireRescanIfIdle(now: real, maintenance: bool) returns (started: bool)
      modifies this
      ensures started == MayFire(old(Snapshot()), maintenance)
      ensures Snapshot() == Fire(old(Snapshot()), now, maintenance)
      ensures started <==> old(rescanWanted) && old(rescanStarter) && old(phase).Idle? && old(mutationOwner).None?
                           && !maintenance
      ensures rescanWanted == (old(rescanWanted) && !started)
      ensures rescanPendingSince == if started then Some(now) else old(rescanPendingSince)
      ensures phase == old(phase) && mutationOwner == old(mutationOwner) && rescanStarter == old(rescanStarter)
      ensures pendingPlanId == old(pendingPlanId) && pendingMessageId == old(pendingMessageId)
    {
      if !rescanWanted || !rescanStarter || phase != Idle || mutationOwner.Some? || maintenance {
        return false;
      }
      rescanWanted := false;
      rescanPendingSince := Some(now);
      return true;
    }

    method Transition(to: Phase, planId: Option<string>, messageId: Option<int>, now: real, maintenance: bool)
      returns (started: bool)
      modifies this
      ensures started == (to.Idle? && MayFire(Move(old(Snapshot()), to, planId, messageId), maintenance))
      ensures var moved := Move(old(Snapshot()), to, planId, messageId);
              Snapshot() == if to.Idle? then Fire(moved, now, maintenance) else moved
      ensures phase == to && mutationOwner == old(mutationOwner) && rescanStarter == old(rescanStarter)
      ensures pendingPlanId == if to.Idle? then None else if planId.Some? then planId else old(pendingPlanId)
      ensures pendingMessageId
              == if to.Idle? then None else if messageId.Some? then messageId else old(pendingMessageId)
      ensures started
              <==> to.Idle? && old(rescanWanted) && old(rescanStarter) && old(mutationOwner).None? && !maintenance
      ensures rescanWanted == (old(rescanWanted) && !started)
      ensures rescanPendingSince == if started then Some(now) else old(rescanPendingSince)
    {
      phase := to;
      if to == Idle {
        pendingPlanId := None;
        pendingMessageId := None;
        started := FireRescanIfIdle(now, maintenance);
      } else {
        if planId.Some? {
          pendingPlanId := planId;
        }
        if messageId.Some? {
          pendingMessageId := messageId;
        }
        started := false;
      }
    }

    method TryBeginMutation(owner: string, requireIdle: bool, duringScan: bool, maintenance: bool)
      returns (taken: bool)
      modifies this
      ensures taken == MayBegin(old(Snapshot()), requireIdle, duringScan, maintenance)
      ensures Snapshot() == if taken then Begin(old(Snapshot()), owner) else old(Snapshot())
      ensures taken <==> && !maintenance && old(mutationOwner).None?
                         && (old(phase).Idle? || (!requireIdle && (duringScan || old(phase).Executing?)))
      ensures mutationOwner == if taken then Some(owner) else old(mutationOwner)
      ensures Snapshot() == old(Snapshot()).(owner := mutationOwner)
    {
      if maintenance {
        return false;
      }
      if mutationOwner.Some? {
        return false;
      }
      if phase == Running && !duringScan {
        return false;
      }
      if requireIdle && phase != Idle {
        return false;
      }
      mutationOwner := Some(owner);
      return true;
    }

    /** A release by anyone but the holder changes nothing: not the lock, not the state. */
    method EndMutation(owner: string, resetToIdle: bool, now: real, maintenance: bool) returns (started: bool)
      modifies this
      ensures !MayEnd(old(Snapshot()), owner) ==> !started && Snapshot() == old(Snapshot())
      ensures MayEnd(old(Snapshot()), owner) ==>
                var released := End(old(Snapshot()), owner, resetToIdle);
                started == MayFire(released, maintenance) && Snapshot() == Fire(released, now, maintenance)
      ensures old(mutationOwner) != Some(owner) ==> !started && Snapshot() == old(Snapshot())
      ensures old(mutationOwner) == Some(owner) ==>
                && mutationOwner == None && phase == (if resetToIdle then Idle else old(phase))
                && pendingPlanId == (if resetToIdle then None else old(pendingPlanId))
                && pendingMessageId == (if resetToIdle then None else old(pendingMessageId))
                && (started <==> phase.Idle? && old(rescanWanted) && old(rescanStarter) && !maintenance)
                && rescanWanted == (old(rescanWanted) && !started) && rescanStarter == old(rescanStarter)
                && rescanPendingSince == if started then Some(now) else old(rescanPendingSince)
    {
      if mutationOwner != Some(owner) {
        return false;
      }
      mutationOwner := None;
      if resetToIdle {
        phase := Idle;
        pendingPlanId := None;
        pendingMessageId := None;
      }
      started := FireRescanIfIdle(now, maintenance);
    }

    method TryStartRun(maintenance: bool) returns (taken: bool)
      modifies this
      ensures taken == MayStart(old(Snapshot()), maintenance)
      ensures Snapshot() == if taken then Start(old(Snapshot())) else old(Snapshot())
      ensures taken <==> !maintenance && old(phase).Idle? && old(mutationOwner).None?
      ensures Snapshot() == old(Snapshot()).(phase := if taken then Running else old(phase))
    {
      if maintenance {
        return false;
      }
      if phase != Idle || mutationOwner.Some? {
        return false;
      }
      phase := Running;
      return true;
    }
  }
}
