/**
 Every thread that shares one `PipelineState`, interleaved at the granularity of the lock: one
 event is one acquisition, or one step a thread takes outside it.

 A thread is a job and, after a critical section that may have made the pipeline quiet, an errand:
 it still owes the `_fire_rescan_if_idle` call, or it has won that call and still has to start the
 re-scan. A job moves only when its thread has no errand.
 */
module RescanProtocol {
  import opened Wrappers
  import opened PipelineStates

  datatype Job =
    | Finished
    | Asking                                        // will ask for a re-scan, holding nothing
    | WantsRun                                      // will try the run slot, for a scan that speaks
    | WantsLock(owner: string, requireIdle: bool)   // will try the mutation lock
    | Mutating(owner: string)
    | Scanning(quiet: bool, looked: bool)           // owns the run slot
    | Pruning(quiet: bool)                          // owns the run slot and, inside it, the mutation lock
    | Settling                                      // a re-scan worker, waiting before the front door
    | Admitted                                      // the worker owns the slot and has not claimed yet
    | Refused                                       // the worker was turned away and has not claimed yet
    | Deferring                                     // ... has claimed, and will ask again

  datatype Errand = Nothing | OwesFire | WillStart | StartFailed

  datatype Thread = Thread(job: Job, errand: Errand)

  datatype Sys = Sys(core: Core, now: real, maintenance: bool, threads: map<nat, Thread>,
                     declined: bool)  // history: the last quiet wish met a window, or no starter

  datatype Event =
    | Spawn(t: nat, job: Job)
    | Elapse(seconds: real)
    | Window(open: bool)
    | Install
    | Ask(t: nat)
    | TryFire(t: nat)
    | Launch(t: nat, worker: nat)
    | LaunchFails(t: nat)
    | ClaimAfterFailure(t: nat)
    | Admit(t: nat)
    | ClaimAtDoor(t: nat)
    | Look(t: nat)
    | PruneBegin(t: nat)
    | PruneEnd(t: nat)
    | LeaveRun(t: nat)
    | Lock(t: nat)
    | Unlock(t: nat, resetToIdle: bool)
    | GiveUp(t: nat)

  const SAFE_PRUNE := "safe-prune"

  const START := Sys(FRESH, 0.0, false, map[], false)

  predicate Is(s: Sys, t: nat, errand: Errand) {
    t in s.threads && s.threads[t].errand == errand
  }

  predicate Ready(s: Sys, t: nat) {
    Is(s, t, Nothing)
  }

  function JobOf(s: Sys, t: nat): Job
    requires t in s.threads
  {
    s.threads[t].job
  }

  function Put(s: Sys, t: nat, job: Job, errand: Errand): Sys {
    s.(threads := s.threads[t := Thread(job, errand)])
  }

  /** What a thread may do next, read off the callers of `PipelineState`. */
  predicate Enabled(s: Sys, e: Event) {
    match e
    case Spawn(t, job) => t !in s.threads && (job.Asking? || job.WantsRun? || job.WantsLock?)
    case Elapse(seconds) => seconds >= 0.0
    case Window(_) => true
    case Install => true
    case Ask(t) => Ready(s, t) && (JobOf(s, t).Asking? || JobOf(s, t).Deferring? || JobOf(s, t).Mutating?)
    case TryFire(t) => Is(s, t, OwesFire)
    case Launch(t, worker) => Is(s, t, WillStart) && worker !in s.threads
    case LaunchFails(t) => Is(s, t, WillStart)
    case ClaimAfterFailure(t) => Is(s, t, StartFailed)
    case Admit(t) => Ready(s, t) && (JobOf(s, t).Settling? || JobOf(s, t).WantsRun?)
    case ClaimAtDoor(t) => Ready(s, t) && (JobOf(s, t).Admitted? || JobOf(s, t).Refused?)
    case Look(t) => Ready(s, t) && JobOf(s, t).Scanning? && !JobOf(s, t).looked
    case PruneBegin(t) => Ready(s, t) && JobOf(s, t).Scanning? && JobOf(s, t).looked
    case PruneEnd(t) => Ready(s, t) && JobOf(s, t).Pruning?
    // A quiet scan's first action is to look; one that speaks may fail before it does.
    case LeaveRun(t) => Ready(s, t) && JobOf(s, t).Scanning? && (JobOf(s, t).looked || !JobOf(s, t).quiet)
    case Lock(t) => Ready(s, t) && JobOf(s, t).WantsLock?
    case Unlock(t, _) => Ready(s, t) && JobOf(s, t).Mutating?
    case GiveUp(t) => Ready(s, t) && (JobOf(s, t).WantsRun? || JobOf(s, t).WantsLock?)
  }

  function Apply(s: Sys, e: Event): Sys
    requires Enabled(s, e)
  {
    match e
    case Spawn(t, job) => Put(s, t, job, Nothing)
    case Elapse(seconds) => s.(now := s.now + seconds)
    case Window(open) => s.(maintenance := open)
    case Install => s.(core := s.core.(starter := true))
    case Ask(t) => AfterAsk(s, t)
    case TryFire(t) =>
      var s' := Put(s, t, JobOf(s, t), if MayFire(s.core, s.maintenance) then WillStart else Nothing);
      s'.(core := Fire(s.core, s.now, s.maintenance),
          declined := Quiet(s.core) && !MayFire(s.core, s.maintenance))
    case Launch(t, worker) => Put(Put(s, t, JobOf(s, t), Nothing), worker, Settling, Nothing)
    case LaunchFails(t) => Put(s, t, JobOf(s, t), StartFailed)
    case ClaimAfterFailure(t) => Put(s, t, JobOf(s, t), Nothing).(core := Claim(s.core))
    case Admit(t) => AfterAdmit(s, t)
    case ClaimAtDoor(t) =>
      Put(s, t, if JobOf(s, t).Admitted? then Scanning(true, false) else Deferring, Nothing).(core := Claim(s.core))
    case Look(t) => Put(s, t, JobOf(s, t).(looked := true), Nothing)
    case PruneBegin(t) =>
      if MayBegin(s.core, false, true, s.maintenance) then
        Put(s, t, Pruning(JobOf(s, t).quiet), Nothing).(core := Begin(s.core, SAFE_PRUNE))
      else s
    case PruneEnd(t) => Put(s, t, Scanning(JobOf(s, t).quiet, true), OwesFire).(core := End(s.core, SAFE_PRUNE, false))
    case LeaveRun(t) => Put(s, t, Finished, OwesFire).(core := Move(s.core, Idle, None, None))
    case Lock(t) =>
      var job := JobOf(s, t);
      if MayBegin(s.core, job.requireIdle, false, s.maintenance) then
        Put(s, t, Mutating(job.owner), Nothing).(core := Begin(s.core, job.owner))
      else s
    case Unlock(t, resetToIdle) =>
      var owner := JobOf(s, t).owner;
      Put(s, t, Finished, if MayEnd(s.core, owner) then OwesFire else Nothing).(core := End(s.core, owner, resetToIdle))
    case GiveUp(t) => Put(s, t, Finished, Nothing)
  }

  /** A request that joins a re-scan about to start returns at once; any other owes the fire. */
  function AfterAsk(s: Sys, t: nat): Sys
    requires t in s.threads
  {
    var job := if JobOf(s, t).Mutating? then JobOf(s, t) else Finished;
    Put(s, t, job, if RescanPending(s.core, s.now) then Nothing else OwesFire).(core := Request(s.core, s.now))
  }

  function AfterAdmit(s: Sys, t: nat): Sys
    requires t in s.threads
  {
    var worker := JobOf(s, t).Settling?;
    if MayStart(s.core, s.maintenance) then
      Put(s, t, if worker then Admitted else Scanning(false, false), Nothing).(core := Start(s.core))
    else if worker then Put(s, t, Refused, Nothing)
    else s
  }

  predicate OwnsSlot(j: Job) {
    j.Scanning? || j.Pruning? || j.Admitted?
  }

  predicate OwnsLock(j: Job) {
    j.Mutating? || j.Pruning?
  }

  function LockName(j: Job): string
    requires OwnsLock(j)
  {
    if j.Mutating? then j.owner else SAFE_PRUNE
  }

  /** A thread through which a fired wish still reaches a look, or another request. */
  predicate Carries(th: Thread) {
    || th.errand.WillStart?
    || th.job.Settling? || th.job.Admitted? || th.job.Refused? || th.job.Deferring?
    || (th.job.Scanning? && th.job.quiet && !th.job.looked)
  }

  /** ... and which has not claimed: requests may still be joining it. */
  predicate Unclaimed(th: Thread) {
    th.errand.WillStart? || th.errand.StartFailed? || th.job.Settling? || th.job.Admitted? || th.job.Refused?
  }

  predicate SlotOwner(s: Sys, t: nat) {
    t in s.threads && OwnsSlot(JobOf(s, t))
  }

  predicate LockOwner(s: Sys, t: nat) {
    t in s.threads && OwnsLock(JobOf(s, t))
  }

  /** RUNNING is exactly: one thread owns the run slot. */
  ghost predicate SlotInv(s: Sys) {
    && !s.core.phase.Executing?
    && (s.core.phase.Running? <==> exists t :: SlotOwner(s, t))
    && (forall t, u | SlotOwner(s, t) && SlotOwner(s, u) :: t == u)
  }

  /** The lock is held exactly while one thread is inside a mutation, under that thread's name. */
  ghost predicate LockInv(s: Sys) {
    && (s.core.owner.Some? <==> exists t :: LockOwner(s, t))
    && (forall t | LockOwner(s, t) :: s.core.owner == Some(LockName(JobOf(s, t))))
    && (forall t, u | LockOwner(s, t) && LockOwner(s, u) :: t == u)
  }

  ghost predicate NoMutationUnderScan(s: Sys) {
    s.core.phase.Running? ==> forall t | t in s.threads :: !JobOf(s, t).Mutating?
  }

  ghost predicate Exclusion(s: Sys) {
    SlotInv(s) && LockInv(s) && NoMutationUnderScan(s)
  }

  ghost predicate Wakeup(s: Sys) {
    Quiet(s.core) ==> s.declined || exists t :: Is(s, t, OwesFire)
  }

  ghost predicate PendingIsCarried(s: Sys) {
    s.core.pendingSince.Some? ==> exists t :: t in s.threads && Unclaimed(s.threads[t])
  }

  ghost predicate Inv(s: Sys) {
    Exclusion(s) && Wakeup(s) && PendingIsCarried(s)
  }

  /** Every event touches one thread, and at most adds a worker or a client that owns nothing. */
  ghost predicate OnlyMoves(s: Sys, s': Sys, t: nat) {
    && (forall u | u in s.threads :: u in s'.threads && (u != t ==> JobOf(s', u) == JobOf(s, u)))
    && (forall u | u in s'.threads && u != t && u !in s.threads :: !OwnsSlot(JobOf(s', u)) && !OwnsLock(JobOf(s', u)))
  }

  lemma OneMoves(s: Sys, e: Event) returns (t: nat)
    requires Enabled(s, e)
    ensures OnlyMoves(s, Apply(s, e), t)
    ensures !e.Elapse? && !e.Window? && !e.Install? ==> t == e.t
  {
    t := if e.Elapse? || e.Window? || e.Install? then 0 else e.t;
  }

  lemma SlotLocal(s: Sys, s': Sys, t: nat)
    requires SlotInv(s) && OnlyMoves(s, s', t)
    requires
      || (s'.core.phase == s.core.phase && SlotOwner(s', t) == SlotOwner(s, t))
      || (s.core.phase.Idle? && s'.core.phase.Running? && SlotOwner(s', t))
      || (s'.core.phase.Idle? && !SlotOwner(s', t) && (SlotOwner(s, t) || s.core.phase.Idle?))
    ensures SlotInv(s')
  {
    assert forall u | SlotOwner(s', u) && u != t :: SlotOwner(s, u);
    if s'.core.phase.Running? {
      if s.core.phase.Running? {
        var u :| SlotOwner(s, u);
        assert SlotOwner(s', u);
      } else {
        assert SlotOwner(s', t);
      }
    }
  }

  lemma LockLocal(s: Sys, s': Sys, t: nat)
    requires LockInv(s) && OnlyMoves(s, s', t)
    requires
      || (s'.core.owner == s.core.owner && LockOwner(s', t) == LockOwner(s, t)
          && (LockOwner(s, t) ==> LockName(JobOf(s', t)) == LockName(JobOf(s, t))))
      || (s.core.owner.None? && LockOwner(s', t) && s'.core.owner == Some(LockName(JobOf(s', t))))
      || (s'.core.owner.None? && !LockOwner(s', t) && LockOwner(s, t))
    ensures LockInv(s')
  {
    assert forall u | LockOwner(s', u) && u != t :: LockOwner(s, u);
    if s'.core.owner.Some? {
      if s.core.owner.Some? {
        var u :| LockOwner(s, u);
        assert LockOwner(s', u);
      } else {
        assert LockOwner(s', t);
      }
    }
  }

  lemma SlotKept(s: Sys, e: Event)
    requires Exclusion(s) && Enabled(s, e)
    ensures SlotInv(Apply(s, e))
  {
    var t := OneMoves(s, e);
    SlotLocal(s, Apply(s, e), t);
  }

  lemma LockKept(s: Sys, e: Event)
    requires Exclusion(s) && Enabled(s, e)
    ensures LockInv(Apply(s, e))
  {
    var t := OneMoves(s, e);
    LockLocal(s, Apply(s, e), t);
  }

  lemma WakeupKept(s: Sys, e: Event)
    requires Wakeup(s) && Enabled(s, e)
    ensures Wakeup(Apply(s, e))
  {
    var s' := Apply(s, e);
    if Quiet(s'.core) && !s'.declined {
      if Quiet(s.core) && !s.declined {
        var t :| Is(s, t, OwesFire);
        assert Is(s', t, OwesFire);
      } else {
        assert Is(s', e.t, OwesFire);
      }
    }
  }

  lemma PendingIsCarriedKept(s: Sys, e: Event)
    requires PendingIsCarried(s) && Enabled(s, e)
    ensures PendingIsCarried(Apply(s, e))
  {
    var s' := Apply(s, e);
    if s'.core.pendingSince.Some? {
      if s.core.pendingSince.Some? {
        var t :| t in s.threads && Unclaimed(s.threads[t]);
        assert Unclaimed(s'.threads[t]) || (e.Launch? && Unclaimed(s'.threads[e.worker]));
      } else {
        assert Unclaimed(s'.threads[e.t]);
      }
    }
  }

  lemma InvKept(s: Sys, e: Event)
    requires Inv(s) && Enabled(s, e)
    ensures Inv(Apply(s, e))
  {
    SlotKept(s, e);
    LockKept(s, e);
    WakeupKept(s, e);
    PendingIsCarriedKept(s, e);
  }

  // ── Runs ─────────────────────────────────────────────────────────────────────────────────────

  ghost predicate IsRun(ss: seq<Sys>, es: seq<Event>) {
    && |ss| == |es| + 1
    && ss[0] == START
    && forall i | 0 <= i < |es| :: Enabled(ss[i], es[i]) && ss[i + 1] == Apply(ss[i], es[i])
  }

  lemma {:induction false} RunKeepsInv(ss: seq<Sys>, es: seq<Event>, n: nat)
    requires IsRun(ss, es) && n <= |es|
    ensures Inv(ss[n])
  {
    if n > 0 {
      RunKeepsInv(ss, es, n - 1);
      InvKept(ss[n - 1], es[n - 1]);
    }
  }

  /** At most one thread is inside a mutation, one owns the run slot, and a scan shares the host
      only with the prune nested in it. */
  lemma ExclusionAlways(ss: seq<Sys>, es: seq<Event>, n: nat)
    requires IsRun(ss, es) && n <= |es|
    ensures ss[n].core.phase.Running? <==> exists t :: SlotOwner(ss[n], t)
    ensures forall t, u | SlotOwner(ss[n], t) && SlotOwner(ss[n], u) :: t == u
    ensures ss[n].core.owner.Some? <==> exists t :: LockOwner(ss[n], t)
    ensures forall t, u | LockOwner(ss[n], t) && LockOwner(ss[n], u) :: t == u
    ensures forall t | LockOwner(ss[n], t) && ss[n].core.phase.Running? :: JobOf(ss[n], t).Pruning?
  {
    RunKeepsInv(ss, es, n);
  }

  /** A finishing mutation releases its own lock and nobody else's, and never resets a scan. */
  lemma ReleaseIsOwn(ss: seq<Sys>, es: seq<Event>, n: nat)
    requires IsRun(ss, es) && n < |es| && (es[n].Unlock? || es[n].PruneEnd?)
    ensures LockOwner(ss[n], es[n].t) && ss[n + 1].core.owner.None?
    ensures forall u | LockOwner(ss[n], u) :: u == es[n].t
    ensures ss[n + 1].core.phase == ss[n].core.phase
  {
    RunKeepsInv(ss, es, n);
  }

  /** A wish that could fire, with no thread left that owes the attempt. */
  ghost predicate Stranded(s: Sys) {
    MayFire(s.core, s.maintenance) && forall t :: !Is(s, t, OwesFire)
  }

  ghost predicate NobodyOwes(s: Sys) {
    forall t :: !Is(s, t, OwesFire)
  }

  /** The two steps that fire nothing though they make a quiet wish fireable: a window that ends, and a
      starter that comes late, each with no thread owing the attempt. */
  ghost predicate Strands(s: Sys, e: Event) {
    && Quiet(s.core) && NobodyOwes(s)
    && ((e == Window(false) && s.maintenance && s.core.starter) || (e.Install? && !s.core.starter && !s.maintenance))
  }

  lemma ThreadStrandsNothing(s: Sys, e: Event)
    requires Enabled(s, e) && !e.Elapse? && !e.Window? && !e.Install? && Stranded(Apply(s, e))
    ensures Stranded(s)
  {
    var s' := Apply(s, e);
    assert !Is(s', e.t, OwesFire);
    forall u ensures !Is(s, u, OwesFire) {
      assert !Is(s', u, OwesFire);
    }
  }

  lemma OutsideStrands(s: Sys, e: Event)
    requires Enabled(s, e) && (e.Elapse? || e.Window? || e.Install?)
    ensures !Stranded(s) && Stranded(Apply(s, e)) <==> Strands(s, e)
  {
    var s' := Apply(s, e);
    assert forall t :: Is(s', t, OwesFire) == Is(s, t, OwesFire);
  }

  lemma StrandsExactly(s: Sys, e: Event)
    requires Enabled(s, e)
    ensures !Stranded(s) && Stranded(Apply(s, e)) <==> Strands(s, e)
  {
    hide Apply, Stranded;
    if e.Elapse? || e.Window? || e.Install? {
      OutsideStrands(s, e);
    } else if Stranded(Apply(s, e)) {
      ThreadStrandsNothing(s, e);
    }
  }

  /** A wake-up is lost exactly when such a step lost it and nothing has taken the wish up since. Then the last
      attempt at a quiet wish met a window or no starter. */
  lemma {:induction false} NoLostWakeup(ss: seq<Sys>, es: seq<Event>, n: nat)
    requires IsRun(ss, es) && n <= |es|
    ensures Stranded(ss[n])
            <==> exists i :: 0 <= i < n && Strands(ss[i], es[i]) && forall k | i < k <= n :: Stranded(ss[k])
    ensures Stranded(ss[n]) ==> ss[n].declined
  {
    hide Apply, Enabled, Strands, Stranded;
    DeclinedIfStranded(ss, es, n);
    if n == 0 {
      NotAtStart();
    } else {
      NoLostWakeup(ss, es, n - 1);
      StrandsExactly(ss[n - 1], es[n - 1]);
      if Stranded(ss[n]) {
        if Strands(ss[n - 1], es[n - 1]) {
          assert forall k | n - 1 < k <= n :: Stranded(ss[k]);
        } else {
          var i :| 0 <= i < n - 1 && Strands(ss[i], es[i]) && forall k | i < k <= n - 1 :: Stranded(ss[k]);
          assert forall k | i < k <= n :: Stranded(ss[k]);
        }
      }
    }
  }

  lemma NotAtStart()
    ensures !Stranded(START)
  {
  }

  lemma DeclinedIfStranded(ss: seq<Sys>, es: seq<Event>, n: nat)
    requires IsRun(ss, es) && n <= |es|
    ensures Stranded(ss[n]) ==> ss[n].declined
  {
    RunKeepsInv(ss, es, n);
  }

  /** No wish is ever stranded in a run without such a step, and in no other. */
  lemma {:induction false} NeverStrandedExactly(ss: seq<Sys>, es: seq<Event>, n: nat)
    requires IsRun(ss, es) && n <= |es|
    ensures (forall k | 0 <= k <= n :: !Stranded(ss[k])) <==> (forall i | 0 <= i < n :: !Strands(ss[i], es[i]))
  {
    hide Apply, Enabled, Strands, Stranded;
    if n == 0 {
      NotAtStart();
    } else {
      NeverStrandedExactly(ss, es, n - 1);
      StrandsExactly(ss[n - 1], es[n - 1]);
      assert ss[n] == Apply(ss[n - 1], es[n - 1]);
    }
  }

  /** ... so with the starter installed first and no window ever opened, none is lost. */
  lemma {:induction false} NeverStranded(ss: seq<Sys>, es: seq<Event>, n: nat)
    requires IsRun(ss, es) && 0 < n <= |es| && es[0].Install?
    requires forall i | 0 <= i < n :: es[i] != Window(true)
    ensures !Stranded(ss[n])
    ensures !ss[n].maintenance && !ss[n].declined && ss[n].core.starter
  {
    if n > 1 {
      NeverStranded(ss, es, n - 1);
    }
    NoLostWakeup(ss, es, n);
  }

  lemma Extend(ss: seq<Sys>, es: seq<Event>, e: Event, s': Sys)
    requires IsRun(ss, es) && Enabled(ss[|es|], e)
    requires Apply(ss[|es|], e).(threads := map[]) == s'.(threads := map[])
    requires Apply(ss[|es|], e).threads == s'.threads
    ensures IsRun(ss + [s'], es + [e])
  {
    assert Apply(ss[|es|], e) == s';
  }

  lemma AskFromStart() returns (ss: seq<Sys>)
    ensures IsRun(ss, [Install, Spawn(0, Asking), Ask(0)])
    ensures ss[3]
            == Sys(FRESH.(starter := true, wanted := true), 0.0, false, map[0 := Thread(Finished, OwesFire)], false)
  {
    var core := FRESH.(starter := true);
    var asking := Sys(core, 0.0, false, map[0 := Thread(Asking, Nothing)], false);
    var asked := Sys(core.(wanted := true), 0.0, false, map[0 := Thread(Finished, OwesFire)], false);
    Extend([START], [], Install, START.(core := core));
    Extend([START, START.(core := core)], [Install], Spawn(0, Asking), asking);
    Extend([START, START.(core := core), asking], [Install, Spawn(0, Asking)], Ask(0), asked);
    ss := [START, START.(core := core), asking, asked];
  }

  /** A window's end fires nothing: the wish made under it waits for the next release. */
  lemma WindowStrands() returns (ss: seq<Sys>, es: seq<Event>)
    ensures IsRun(ss, es) && |es| == 6 && es[0].Install? && Stranded(ss[6])
  {
    ss := AskFromStart();
    es := [Install, Spawn(0, Asking), Ask(0)];
    var open := ss[3].(maintenance := true);
    var declined := open.(threads := map[0 := Thread(Finished, Nothing)], declined := true);
    Extend(ss, es, Window(true), open);
    Extend(ss + [open], es + [Window(true)], TryFire(0), declined);
    ss, es := ss + [open] + [declined], es + [Window(true)] + [TryFire(0)];
    Extend(ss, es, Window(false), declined.(maintenance := false));
    ss, es := ss + [declined.(maintenance := false)], es + [Window(false)];
  }

  /** A wish is alive: recorded, or carried by a thread that will look or ask again. */
  ghost predicate Alive(s: Sys) {
    s.core.wanted || exists t :: t in s.threads && Carries(s.threads[t])
  }

  /** A re-scan looks: a scan that only reports does not count. */
  predicate Looks(s: Sys, e: Event) {
    Enabled(s, e) && e.Look? && JobOf(s, e.t).quiet
  }

  ghost predicate OthersCarry(s: Sys, t: nat) {
    exists u :: u in s.threads && u != t && Carries(s.threads[u])
  }

  /** The two steps that lose a wish: a start that fails when nothing else carries it, and a request that joins
      a re-scan whose start has failed. */
  ghost predicate Loses(s: Sys, e: Event) {
    && Enabled(s, e) && !s.core.wanted
    && (e.LaunchFails? || (e.Ask? && RescanPending(s.core, s.now)))
    && !OthersCarry(s, e.t)
    && !(e.LaunchFails? && Carries(Thread(JobOf(s, e.t), StartFailed)))
  }

  /** Which requests join: those made less than two minutes after a re-scan was handed to a worker that has not
      claimed yet. They change nothing; any other is recorded, and its thread owes the fire. */
  lemma AskJoinsExactly(s: Sys, t: nat)
    requires Enabled(s, Ask(t))
    ensures var s' := Apply(s, Ask(t));
            if s.core.pendingSince.Some? && s.now - s.core.pendingSince.value < 120.0
            then s'.core == s.core && Is(s', t, Nothing)
            else s'.core == s.core.(wanted := true) && Is(s', t, OwesFire)
  {
  }

  /** At the front door: a run is admitted exactly if it is idle, the lock is free and no window is open. A re-scan's
      worker that is turned away still claims, and asks again; a scan that speaks may only try once more. */
  lemma AdmitExactly(s: Sys, t: nat)
    requires Enabled(s, Admit(t))
    ensures var s', open := Apply(s, Admit(t)), s.core.phase.Idle? && s.core.owner.None? && !s.maintenance;
            && s'.core == (if open then s.core.(phase := Running) else s.core)
            && t in s'.threads
            && JobOf(s', t) == if JobOf(s, t).Settling? then (if open then Admitted else Refused)
                               else if open then Scanning(false, false) else WantsRun
  {
  }

  /** What an attempt does: a fireable wish is taken, marked pending from now on, and its thread will start it. */
  lemma FireTakesTheWish(s: Sys, t: nat)
    requires Enabled(s, TryFire(t))
    ensures var s' := Apply(s, TryFire(t));
            var c := s.core;
            if c.wanted && c.phase.Idle? && c.owner.None? && c.starter && !s.maintenance
            then s'.core == c.(wanted := false, pendingSince := Some(s.now)) && Is(s', t, WillStart)
            else s'.core == c && Is(s', t, Nothing)
  {
  }

  lemma AskIsAlive(s: Sys, t: nat)
    requires Enabled(s, Ask(t))
    ensures Alive(Apply(s, Ask(t))) <==> !Loses(s, Ask(t))
  {
    var s' := Apply(s, Ask(t));
    if OthersCarry(s, t) {
      var u :| u in s.threads && u != t && Carries(s.threads[u]);
      assert s'.threads[u] == s.threads[u];
    }
    if !Alive(s') {
      forall u | u in s.threads && u != t ensures !Carries(s.threads[u]) {
        assert s'.threads[u] == s.threads[u];
      }
    }
  }

  lemma FailureIsAlive(s: Sys, t: nat)
    requires Enabled(s, LaunchFails(t))
    ensures Alive(Apply(s, LaunchFails(t))) <==> !Loses(s, LaunchFails(t))
  {
    var s' := Apply(s, LaunchFails(t));
    if OthersCarry(s, t) {
      var u :| u in s.threads && u != t && Carries(s.threads[u]);
      assert s'.threads[u] == s.threads[u];
    }
    assert s'.threads[t] == Thread(JobOf(s, t), StartFailed);
    if !Alive(s') {
      forall u | u in s.threads && u != t ensures !Carries(s.threads[u]) {
        assert s'.threads[u] == s.threads[u];
      }
    }
  }

  lemma OtherStepIsAlive(s: Sys, e: Event)
    requires Enabled(s, e) && Alive(s) && !Looks(s, e) && !e.LaunchFails? && !e.Ask?
    ensures Alive(Apply(s, e))
  {
    var s' := Apply(s, e);
    if !s'.core.wanted {
      if s.core.wanted {
        assert Carries(s'.threads[e.t]);
      } else {
        var t :| t in s.threads && Carries(s.threads[t]);
        if e.Launch? {
          assert Carries(s'.threads[e.worker]);
        } else {
          assert Carries(s'.threads[t]);
        }
      }
    }
  }

  /** Short of a look, a wish that is alive stays so exactly if the step is none of the two. */
  lemma AliveExactly(s: Sys, e: Event)
    requires Enabled(s, e) && !Looks(s, e) && (Alive(s) || e.Ask?)
    ensures Alive(Apply(s, e)) <==> !Loses(s, e)
  {
    hide Apply, Alive, Enabled;
    if e.Ask? {
      AskIsAlive(s, e.t);
    } else if e.LaunchFails? {
      FailureIsAlive(s, e.t);
    } else {
      OtherStepIsAlive(s, e);
    }
  }

  /** No re-scan wish is lost: until a re-scan starts to look after the request, the request is still
      recorded, or carried by a thread on its way to a look or to asking again, unless one of the two steps
      loses it. */
  lemma {:induction false} NoWishLost(ss: seq<Sys>, es: seq<Event>, i: nat, j: nat)
    requires IsRun(ss, es) && i < j <= |es| && es[i].Ask?
    requires forall k | i <= k < j :: !Loses(ss[k], es[k])
    ensures Alive(ss[j]) || exists k :: i < k < j && Looks(ss[k], es[k])
    decreases j
  {
    hide Apply, Alive, Enabled, Loses, Looks;
    AskIsNoLook(ss[i], es[i]);
    if j == i + 1 {
      AliveExactly(ss[i], es[i]);
    } else {
      NoWishLost(ss, es, i, j - 1);
      if Alive(ss[j - 1]) && !Looks(ss[j - 1], es[j - 1]) {
        AliveExactly(ss[j - 1], es[j - 1]);
      }
    }
  }

  lemma AskIsNoLook(s: Sys, e: Event)
    requires e.Ask?
    ensures !Looks(s, e)
  {
  }

  /** ... and those steps do lose it: until a look, the wish is alive throughout exactly if there is none. */
  lemma {:induction false} WishLostExactly(ss: seq<Sys>, es: seq<Event>, i: nat, j: nat)
    requires IsRun(ss, es) && i < j <= |es| && es[i].Ask? && forall k | i < k < j :: !Looks(ss[k], es[k])
    ensures (forall k | i < k <= j :: Alive(ss[k])) <==> (forall k | i <= k < j :: !Loses(ss[k], es[k]))
    decreases j
  {
    hide Apply, Alive, Enabled, Loses, Looks;
    AskIsNoLook(ss[i], es[i]);
    if j == i + 1 {
      AliveExactly(ss[i], es[i]);
      assert ss[j] == Apply(ss[i], es[i]);
    } else {
      WishLostExactly(ss, es, i, j - 1);
      if Alive(ss[j - 1]) {
        AliveExactly(ss[j - 1], es[j - 1]);
        assert ss[j] == Apply(ss[j - 1], es[j - 1]);
      }
    }
  }

  lemma FireFromStart() returns (ss: seq<Sys>)
    ensures IsRun(ss, [Install, Spawn(0, Asking), Ask(0), TryFire(0)])
    ensures ss[4] == Sys(FRESH.(starter := true, pendingSince := Some(0.0)), 0.0, false,
                         map[0 := Thread(Finished, WillStart)], false)
  {
    ss := AskFromStart();
    var won := Sys(FRESH.(starter := true, pendingSince := Some(0.0)), 0.0, false,
                   map[0 := Thread(Finished, WillStart)], false);
    Extend(ss, [Install, Spawn(0, Asking), Ask(0)], TryFire(0), won);
    ss := ss + [won];
  }

  /** The starter must not raise: when it does, the wish it was fired for is gone. */
  lemma FailedStartLosesTheWish() returns (ss: seq<Sys>, es: seq<Event>)
    ensures IsRun(ss, es) && |es| == 6 && es[2].Ask? && !Alive(ss[6])
    ensures forall k | 0 <= k < 6 :: !es[k].Look?
  {
    ss := FireFromStart();
    es := [Install, Spawn(0, Asking), Ask(0), TryFire(0)];
    var failed := ss[4].(threads := map[0 := Thread(Finished, StartFailed)]);
    var lost := Sys(FRESH.(starter := true), 0.0, false, map[0 := Thread(Finished, Nothing)], false);
    Extend(ss, es, LaunchFails(0), failed);
    ss, es := ss + [failed], es + [LaunchFails(0)];
    Extend(ss, es, ClaimAfterFailure(0), lost);
    ss, es := ss + [lost], es + [ClaimAfterFailure(0)];
  }
}
