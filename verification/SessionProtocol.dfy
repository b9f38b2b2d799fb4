/**
 Sign-in, sign-out and elevation of one operator, interleaved: the server's device epoch, the
 dashboard's workers with their caches, requests in flight, a passphrase reset, and the clock.

 A request asks the server for the epoch at one moment, the server reads it at another and the
 worker hears the answer at a third; anything may happen in between. Restarting the dashboard kills
 its requests and forgets its caches.
 */
module SessionProtocol {
  import opened Wrappers
  import opened WebAuth

  /** Why a request asks for the epoch. */
  datatype Purpose =
    | ToAuthenticate(token: Token)
    | ToLogin(credential: string)             // the passphrase matched this credential
    | ToElevate(token: Token)
    | ToAct(token: Token, marker: Marker)     // the marker read well

  datatype Task =
    | Asking(worker: nat, purpose: Purpose, asked: real, floor: nat, read: Option<nat>)
    | Authenticated(token: Token, at: real)
    | Entering(token: Token, current: nat)    // about to check the passphrase again
    | Elevated(token: Token, marker: Marker, seen: nat, floor: nat)

  /** History: what was minted, and for what. */
  datatype Grant = Grant(token: Token, credential: string)
  datatype Issue = Issue(marker: Marker, entered: real, minted: real)

  datatype Phase = NotResetting | Revoked | Written | Restarted | Returned

  datatype Sys = Sys(
    operator: string,
    now: real,
    bumps: seq<real>,                 // when the epoch was raised; it is their number
    stored: string,                   // the credential in the environment file
    running: string,                  // the one the running dashboard loaded
    past: set<string>,                // every credential there ever was
    caches: map<nat, Cached>,         // by worker, for the one operator
    tasks: map<nat, Task>,
    grants: set<Grant>,
    issues: set<Issue>,
    phase: Phase)

  datatype Event =
    | Elapse(seconds: real)
    | Revoke                                                  // the revocation script
    | Restart                                                 // of the dashboard
    | Authenticate(t: nat, worker: nat, token: Token, maxAge: int)
    | Login(t: nat, worker: nat)
    | Elevate(t: nat, worker: nat)
    | Enter(t: nat)
    | Act(t: nat, worker: nat, marker: Marker)
    | Refresh(t: nat)
    | ServerReads(t: nat)
    | Answer(t: nat)
    | Drop(t: nat)
    | ResetRevoke | ResetWrite(credential: string) | ResetRestart | ResetRevokeAgain | ResetEnds

  function Epoch(s: Sys): nat {
    |s.bumps|
  }

  predicate Init(s: Sys) {
    && IsOperator(s.operator) && s.now >= 0.0
    && s.bumps == [] && s.running == s.stored && s.past == {s.stored}
    && s.caches == map[] && s.tasks == map[] && s.grants == {} && s.issues == {} && s.phase == NotResetting
  }

  /** Only minted payloads verify. */
  predicate IsGranted(s: Sys, token: Token) {
    exists g :: g in s.grants && g.token == token
  }

  predicate IsIssued(s: Sys, marker: Marker) {
    exists i :: i in s.issues && i.marker == marker
  }

  predicate Enabled(s: Sys, e: Event) {
    match e
    case Elapse(seconds) => seconds >= 0.0
    case Authenticate(t, worker, token, maxAge) =>
      t !in s.tasks && IsGranted(s, token) && ReadDeviceToken(token, s.now, maxAge).Some?
    case Login(t, worker) => t !in s.tasks
    case Elevate(t, worker) => t in s.tasks && s.tasks[t].Authenticated?
    case Enter(t) => t in s.tasks && s.tasks[t].Entering?
    case Act(t, worker, marker) =>
      && t in s.tasks && s.tasks[t].Authenticated? && IsIssued(s, marker)
      && ReadElevation(marker, s.tasks[t].token, s.now, s.running).Some?
    case Refresh(t) => t in s.tasks && s.tasks[t].Elevated?
    case ServerReads(t) => t in s.tasks && s.tasks[t].Asking? && s.tasks[t].read.None?
    case Answer(t) => t in s.tasks && s.tasks[t].Asking? && s.tasks[t].read.Some?
    case Drop(t) => t in s.tasks
    case ResetRevoke => s.phase.NotResetting? || s.phase.Returned?
    case ResetWrite(credential) => s.phase.Revoked? && credential !in s.past  // hashes are re-salted
    case ResetRestart => s.phase.Written?
    case ResetRevokeAgain => s.phase.Restarted?
    case _ => true
  }

  function Put(s: Sys, t: nat, task: Task): Sys {
    s.(tasks := s.tasks[t := task])
  }

  function Ask(s: Sys, t: nat, worker: nat, purpose: Purpose): Sys {
    Put(s, t, Asking(worker, purpose, s.now, Epoch(s), None))
  }

  function Bump(s: Sys): Sys {
    s.(bumps := s.bumps + [s.now])
  }

  function Reload(s: Sys): Sys {
    s.(running := s.stored, caches := map[], tasks := map[])
  }

  function Without(s: Sys, t: nat): Sys {
    s.(tasks := s.tasks - {t})
  }

  /** What the request does once the worker has the epoch. */
  function AfterAnswer(s: Sys, t: nat, task: Task): Sys
    requires task.Asking? && task.read.Some?
  {
    var epoch := task.read.value;
    match task.purpose
    case ToAuthenticate(token) =>
      if token.epoch == epoch then Put(s, t, Authenticated(token, task.asked)) else Without(s, t)
    case ToLogin(credential) =>
      Without(s, t).(grants := s.grants + {Grant(MakeDeviceToken(s.operator, epoch, s.now), credential)})
    case ToElevate(token) =>
      if ReadDeviceToken(token, s.now, TRUSTED_MAX_AGE).Some? && token.epoch == epoch
      then Put(s, t, Entering(token, epoch))
      else Without(s, t)
    case ToAct(token, marker) =>
      if marker.epoch == epoch then Put(s, t, Elevated(token, marker, epoch, task.floor)) else Without(s, t)
  }

  function Apply(s: Sys, e: Event): Sys
    requires Enabled(s, e)
  {
    match e
    case Elapse(seconds) => s.(now := s.now + seconds)
    case Revoke => Bump(s)
    case Restart => Reload(s)
    case Authenticate(t, worker, token, _) =>
      if Hits(s.caches, worker, s.now) then
        if s.caches[worker].epoch == token.epoch then Put(s, t, Authenticated(token, s.now)) else s
      else Ask(s, t, worker, ToAuthenticate(token))
    case Login(t, worker) => Ask(s, t, worker, ToLogin(s.running))
    case Elevate(t, worker) => Ask(s, t, worker, ToElevate(s.tasks[t].token))
    case Enter(t) =>
      var marker := MakeElevation(s.operator, s.tasks[t].current, s.tasks[t].token, s.now, s.running, None);
      Without(s, t).(issues := s.issues + {Issue(marker, s.now, s.now)})
    case Act(t, worker, marker) => Ask(s, t, worker, ToAct(s.tasks[t].token, marker))
    case Refresh(t) => AfterRefresh(s, t)
    case ServerReads(t) => Put(s, t, s.tasks[t].(read := Some(Epoch(s))))
    case Answer(t) =>
      var task := s.tasks[t];
      AfterAnswer(s.(caches := Remembering(s.caches, task.worker, task.read.value, task.asked)), t, task)
    case Drop(t) => Without(s, t)
    case ResetRevoke => Bump(s).(phase := Revoked)
    case ResetWrite(credential) => s.(stored := credential, past := s.past + {credential}, phase := Written)
    case ResetRestart => Reload(s).(phase := Restarted)
    case ResetRevokeAgain => Bump(s).(phase := Returned)
    case ResetEnds => s.(phase := NotResetting)
  }

  /** A refresh carries the epoch and the passphrase entry of the marker it was acted under. */
  function AfterRefresh(s: Sys, t: nat): Sys
    requires t in s.tasks && s.tasks[t].Elevated?
  {
    var token, old_ := s.tasks[t].token, s.tasks[t].marker;
    var marker := MakeElevation(s.operator, old_.epoch, token, s.now, s.running, Some(old_.first));
    var again := set i | i in s.issues && i.marker == old_ :: Issue(marker, i.entered, s.now);
    Without(s, t).(issues := s.issues + again)
  }

  // ── What every step keeps ────────────────────────────────────────────────────────────────────

  /** Asked at `asked`, the server had not been past `epoch`. */
  predicate Known(bumps: seq<real>, now: real, epoch: int, asked: real) {
    0 <= epoch <= |bumps| && asked <= now && (epoch < |bumps| ==> asked <= bumps[epoch])
  }

  predicate PurposeOk(p: Purpose) {
    p.ToAct? ==> p.marker.token == p.token && p.marker.epoch == p.token.epoch
  }

  predicate TaskOk(bumps: seq<real>, now: real, task: Task) {
    match task
    case Asking(_, purpose, asked, floor, read) =>
      && PurposeOk(purpose) && floor <= |bumps| && asked <= now
      && (read.Some? ==> floor <= read.value && Known(bumps, now, read.value, asked))
    case Authenticated(token, at) =>
      && 0 <= token.epoch <= |bumps| && at <= now
      && (token.epoch < |bumps| ==> at < bumps[token.epoch] + EPOCH_CACHE_SECONDS)
    case Entering(token, current) => token.epoch == current <= |bumps|
    case Elevated(token, marker, seen, floor) =>
      && marker.token == token && marker.epoch == token.epoch == seen
      && floor <= seen <= |bumps|
  }

  predicate IssueOk(bumps: seq<real>, i: Issue) {
    && i.marker.epoch == i.marker.token.epoch && 0 <= i.marker.epoch <= |bumps|
    && i.marker.first == Int(i.entered) && i.marker.expires == Int(i.minted) + ELEVATION_SECONDS
  }

  predicate ClockInv(s: Sys) {
    && s.now >= 0.0
    && (forall i | 0 <= i < |s.bumps| :: s.bumps[i] <= s.now)
    && (forall i, j | 0 <= i < j < |s.bumps| :: s.bumps[i] <= s.bumps[j])
  }

  predicate CachesInv(s: Sys) {
    forall w | w in s.caches :: Known(s.bumps, s.now, s.caches[w].epoch, s.caches[w].asked)
  }

  predicate TasksInv(s: Sys) {
    forall t | t in s.tasks :: TaskOk(s.bumps, s.now, s.tasks[t])
  }

  predicate MintedInv(s: Sys) {
    && (forall g | g in s.grants :: 0 <= g.token.epoch <= |s.bumps|)
    && (forall i | i in s.issues :: IssueOk(s.bumps, i))
  }

  predicate EpochInv(s: Sys) {
    ClockInv(s) && CachesInv(s) && TasksInv(s) && MintedInv(s)
  }

  /** No sign-in with one of `olds` is under way. */
  predicate NoneEnters(s: Sys, olds: set<string>) {
    forall t | t in s.tasks && s.tasks[t].Asking? && s.tasks[t].purpose.ToLogin? ::
      s.tasks[t].purpose.credential !in olds
  }

  /** The credentials `olds` are out of use for good, and so is every session they opened. */
  predicate Ended(s: Sys, olds: set<string>, limit: nat) {
    && olds <= s.past && s.stored !in olds && s.running !in olds && NoneEnters(s, olds)
    && (forall g | g in s.grants && g.credential in olds :: g.token.epoch < limit)
  }

  function Olds(s: Sys): set<string> {
    s.past - {s.stored}
  }

  predicate PastInv(s: Sys) {
    && s.stored in s.past && s.running in s.past
    && (forall g | g in s.grants :: g.credential in s.past)
    && (forall t | t in s.tasks && s.tasks[t].Asking? && s.tasks[t].purpose.ToLogin? ::
          s.tasks[t].purpose.credential in s.past)
  }

  predicate ResetInv(s: Sys) {
    && PastInv(s)
    && (s.phase.Restarted? ==> s.running == s.stored && NoneEnters(s, Olds(s)))
    && (s.phase.Returned? ==> Ended(s, Olds(s), Epoch(s)))
  }

  predicate Inv(s: Sys) {
    EpochInv(s) && ResetInv(s)
  }

  predicate Later(s: Sys, s': Sys) {
    || (s'.bumps == s.bumps && s.now <= s'.now)
    || (s'.bumps == s.bumps + [s.now] && s'.now == s.now)
  }

  lemma TaskOkLater(s: Sys, s': Sys, task: Task)
    requires Later(s, s') && TaskOk(s.bumps, s.now, task)
    ensures TaskOk(s'.bumps, s'.now, task)
  {
  }

  lemma EveryStepIsLater(s: Sys, e: Event)
    requires Enabled(s, e)
    ensures Later(s, Apply(s, e))
  {
  }

  lemma ClockKept(s: Sys, e: Event)
    requires ClockInv(s) && Enabled(s, e)
    ensures ClockInv(Apply(s, e))
  {
    EveryStepIsLater(s, e);
  }

  lemma CachesKept(s: Sys, e: Event)
    requires CachesInv(s) && TasksInv(s) && Enabled(s, e)
    ensures CachesInv(Apply(s, e))
  {
    EveryStepIsLater(s, e);
    if e.Answer? {
      assert TaskOk(s.bumps, s.now, s.tasks[e.t]);
    }
  }

  predicate Touches(e: Event, t: nat) {
    match e
    case Authenticate(u, _, _, _) => t == u
    case Login(u, _) => t == u
    case Elevate(u, _) => t == u
    case Enter(u) => t == u
    case Act(u, _, _) => t == u
    case Refresh(u) => t == u
    case ServerReads(u) => t == u
    case Answer(u) => t == u
    case Drop(u) => t == u
    case _ => false
  }

  lemma OthersStay(s: Sys, e: Event, t: nat)
    requires Enabled(s, e) && t in Apply(s, e).tasks && !Touches(e, t)
    ensures t in s.tasks && Apply(s, e).tasks[t] == s.tasks[t]
  {
  }

  lemma ActIsOk(s: Sys, e: Event, t: nat)
    requires EpochInv(s) && Enabled(s, e) && e.Act? && t in Apply(s, e).tasks && Touches(e, t)
    ensures TaskOk(Apply(s, e).bumps, Apply(s, e).now, Apply(s, e).tasks[t])
  {
    assert TaskOk(s.bumps, s.now, s.tasks[t]);
    var i :| i in s.issues && i.marker == e.marker;
    assert IssueOk(s.bumps, i);
  }

  lemma AuthenticateIsOk(s: Sys, e: Event, t: nat)
    requires EpochInv(s) && Enabled(s, e) && e.Authenticate? && t in Apply(s, e).tasks && Touches(e, t)
    ensures TaskOk(Apply(s, e).bumps, Apply(s, e).now, Apply(s, e).tasks[t])
  {
    if e.worker in s.caches {
      assert Known(s.bumps, s.now, s.caches[e.worker].epoch, s.caches[e.worker].asked);
    }
  }

  lemma AnswerIsOk(s: Sys, e: Event, t: nat)
    requires EpochInv(s) && Enabled(s, e) && e.Answer? && t in Apply(s, e).tasks && Touches(e, t)
    ensures TaskOk(Apply(s, e).bumps, Apply(s, e).now, Apply(s, e).tasks[t])
  {
    assert TaskOk(s.bumps, s.now, s.tasks[t]);
  }

  lemma OtherIsOk(s: Sys, e: Event, t: nat)
    requires EpochInv(s) && Enabled(s, e) && !e.Act? && !e.Authenticate? && !e.Answer?
    requires t in Apply(s, e).tasks && Touches(e, t)
    ensures TaskOk(Apply(s, e).bumps, Apply(s, e).now, Apply(s, e).tasks[t])
  {
    if t in s.tasks {
      assert TaskOk(s.bumps, s.now, s.tasks[t]);
    }
  }

  lemma TouchedIsOk(s: Sys, e: Event, t: nat)
    requires EpochInv(s) && Enabled(s, e) && t in Apply(s, e).tasks && Touches(e, t)
    ensures TaskOk(Apply(s, e).bumps, Apply(s, e).now, Apply(s, e).tasks[t])
  {
    hide Apply, Enabled, EpochInv, TaskOk, Touches;
    if e.Act? {
      ActIsOk(s, e, t);
    } else if e.Authenticate? {
      AuthenticateIsOk(s, e, t);
    } else if e.Answer? {
      AnswerIsOk(s, e, t);
    } else {
      OtherIsOk(s, e, t);
    }
  }

  lemma TasksKept(s: Sys, e: Event)
    requires EpochInv(s) && Enabled(s, e)
    ensures TasksInv(Apply(s, e))
  {
    var s' := Apply(s, e);
    EveryStepIsLater(s, e);
    forall t | t in s'.tasks ensures TaskOk(s'.bumps, s'.now, s'.tasks[t]) {
      if Touches(e, t) {
        TouchedIsOk(s, e, t);
      } else {
        OthersStay(s, e, t);
        TaskOkLater(s, s', s.tasks[t]);
      }
    }
  }

  lemma MintedKept(s: Sys, e: Event)
    requires EpochInv(s) && Enabled(s, e)
    ensures MintedInv(Apply(s, e))
  {
    EveryStepIsLater(s, e);
    if (e.Answer? || e.Enter? || e.Refresh?) {
      assert TaskOk(s.bumps, s.now, s.tasks[e.t]);
    }
    forall i | i in Apply(s, e).issues ensures IssueOk(Apply(s, e).bumps, i) {
      if i !in s.issues && e.Refresh? {
        var j :| j in s.issues && j.marker == s.tasks[e.t].marker;
        assert IssueOk(s.bumps, j);
      }
    }
  }

  lemma PastKept(s: Sys, e: Event)
    requires PastInv(s) && Enabled(s, e)
    ensures PastInv(Apply(s, e)) && s.past <= Apply(s, e).past
  {
  }

  lemma EndedKept(s: Sys, e: Event, olds: set<string>, limit: nat)
    requires EpochInv(s) && Enabled(s, e) && Ended(s, olds, limit)
    ensures Ended(Apply(s, e), olds, limit)
  {
    if e.Answer? && s.tasks[e.t].purpose.ToLogin? {
      assert s.tasks[e.t].purpose.credential !in olds;
    }
  }

  lemma StaysReturned(s: Sys, e: Event)
    requires Inv(s) && Enabled(s, e) && s.phase.Returned? && Apply(s, e).phase.Returned?
    ensures Ended(Apply(s, e), Olds(Apply(s, e)), Epoch(Apply(s, e)))
  {
    var s' := Apply(s, e);
    EveryStepIsLater(s, e);
    EndedKept(s, e, Olds(s), Epoch(s));
    assert Olds(s') == Olds(s);
  }

  lemma JustReturned(s: Sys, e: Event)
    requires Inv(s) && Enabled(s, e) && !s.phase.Returned? && Apply(s, e).phase.Returned?
    ensures Ended(Apply(s, e), Olds(Apply(s, e)), Epoch(Apply(s, e)))
  {
    var s' := Apply(s, e);
    assert forall g | g in s.grants :: g.token.epoch < Epoch(s');
  }

  lemma RestartedKept(s: Sys, e: Event)
    requires ResetInv(s) && Enabled(s, e) && Apply(s, e).phase.Restarted?
    ensures var s' := Apply(s, e); s'.running == s'.stored && NoneEnters(s', Olds(s'))
  {
    if s.phase.Restarted? {
      assert Olds(Apply(s, e)) == Olds(s);
    }
  }

  lemma PhaseKept(s: Sys, e: Event)
    requires Inv(s) && Enabled(s, e)
    ensures ResetInv(Apply(s, e))
  {
    hide Apply, Enabled, PastInv, EpochInv, Ended, NoneEnters;
    PastKept(s, e);
    if Apply(s, e).phase.Restarted? {
      RestartedKept(s, e);
    } else if Apply(s, e).phase.Returned? {
      if s.phase.Returned? {
        StaysReturned(s, e);
      } else {
        JustReturned(s, e);
      }
    }
  }

  lemma InvKept(s: Sys, e: Event)
    requires Inv(s) && Enabled(s, e)
    ensures Inv(Apply(s, e))
  {
    ClockKept(s, e);
    CachesKept(s, e);
    TasksKept(s, e);
    MintedKept(s, e);
    PhaseKept(s, e);
  }

  /** A step up begins only with a token of the current epoch, no older than 30 days. */
  lemma StepUpExactly(s: Sys, t: nat, token: Token)
    requires Enabled(s, Answer(t)) && s.tasks[t].purpose == ToElevate(token)
    ensures var s', epoch := Apply(s, Answer(t)), s.tasks[t].read.value;
            if && token.epoch == epoch && IsOperator(token.operator)
               && token.issued as real <= s.now + 60.0 && s.now <= token.issued as real + 2592000.0
            then t in s'.tasks && s'.tasks[t] == Entering(token, epoch) else t !in s'.tasks
  {
    TokenReadsExactly(token, s.now, TRUSTED_MAX_AGE, (token.operator, token.epoch));
  }

  // ── Whole runs ───────────────────────────────────────────────────────────────────────────────

  ghost predicate IsRun(ss: seq<Sys>, es: seq<Event>) {
    && |ss| == |es| + 1
    && Init(ss[0])
    && forall i | 0 <= i < |es| :: Enabled(ss[i], es[i]) && ss[i + 1] == Apply(ss[i], es[i])
  }

  lemma {:induction false} RunKeepsInv(ss: seq<Sys>, es: seq<Event>, n: nat)
    requires IsRun(ss, es) && n <= |es|
    ensures Inv(ss[n])
  {
    if n > 0 {
      RunKeepsInv(ss, es, n - 1);
      InvKept(ss[n - 1], es[n - 1]);
    }
  }

  predicate Grows(s: Sys, s': Sys) {
    s.now <= s'.now && s.bumps <= s'.bumps
  }

  lemma StepGrows(ss: seq<Sys>, es: seq<Event>, i: nat)
    requires IsRun(ss, es) && i < |es|
    ensures Grows(ss[i], ss[i + 1])
  {
    EveryStepIsLater(ss[i], es[i]);
  }

  lemma {:induction false} TimeGoesOn(ss: seq<Sys>, es: seq<Event>, i: nat, j: nat)
    requires IsRun(ss, es) && i <= j <= |es|
    ensures Grows(ss[i], ss[j])
    decreases j
  {
    hide Apply, Enabled;
    if i < j {
      TimeGoesOn(ss, es, i, j - 1);
      StepGrows(ss, es, j - 1);
    }
  }

  /** The server's epoch was `epoch` at `instant`. */
  predicate HeldAt(bumps: seq<real>, epoch: int, instant: real) {
    && 0 <= epoch <= |bumps|
    && (epoch > 0 ==> bumps[epoch - 1] <= instant)
    && (epoch < |bumps| ==> instant <= bumps[epoch])
  }

  predicate IsAuthenticated(s: Sys, t: nat, token: Token, at: real) {
    t in s.tasks && s.tasks[t] == Authenticated(token, at)
  }

  /** Whatever the workers' caches hold, a request let in at `at` carries an epoch the server held
      less than a minute before that, or later still; so a revoked token is refused by every worker
      from a minute after its revocation on. */
  lemma RevocationTakesAMinute(ss: seq<Sys>, es: seq<Event>, n: nat, t: nat, token: Token, at: real)
    requires IsRun(ss, es) && n <= |es| && IsAuthenticated(ss[n], t, token, at)
    ensures exists instant: real ::
              at - 60.0 < instant <= ss[n].now && HeldAt(ss[n].bumps, token.epoch, instant)
    ensures 0 <= token.epoch <= Epoch(ss[n])
    ensures token.epoch < Epoch(ss[n]) ==> at < ss[n].bumps[token.epoch] + 60.0
  {
    RunKeepsInv(ss, es, n);
    var s, e := ss[n], token.epoch;
    assert TaskOk(s.bumps, s.now, s.tasks[t]);
    var instant := if e < |s.bumps| then s.bumps[e] else s.now;
    assert HeldAt(s.bumps, e, instant);
  }

  predicate IsElevated(s: Sys, t: nat, token: Token, marker: Marker, floor: nat) {
    && t in s.tasks && s.tasks[t].Elevated? && s.tasks[t].token == token && s.tasks[t].marker == marker
    && s.tasks[t].floor == floor
  }

  /** Acting takes no minute: a request that began to ask when the epoch stood at `floor` acts only
      for a token and a marker of that epoch or a later one. */
  lemma RevokedNeverActs(ss: seq<Sys>, es: seq<Event>, n: nat, t: nat, token: Token, marker: Marker, floor: nat)
    requires IsRun(ss, es) && n <= |es| && IsElevated(ss[n], t, token, marker, floor)
    ensures marker.token == token && floor <= marker.epoch == token.epoch <= Epoch(ss[n])
  {
    RunKeepsInv(ss, es, n);
    assert TaskOk(ss[n].bumps, ss[n].now, ss[n].tasks[t]);
  }

  /** No marker issued before a revocation is good after it, nor is any refresh of it: both carry the
      epoch of the session. */
  lemma RevocationEndsElevation(ss: seq<Sys>, es: seq<Event>, i: nat, n: nat, t: nat, token: Token, marker: Marker,
                                floor: nat)
    requires IsRun(ss, es) && i < n <= |es| && Epoch(ss[i]) < Epoch(ss[i + 1]) <= floor
    requires IsElevated(ss[n], t, token, marker, floor)
    ensures forall g | g in ss[i].grants :: g.token != token
    ensures forall o | o in ss[i].issues :: o.marker != marker && o.marker.token != marker.token
  {
    RunKeepsInv(ss, es, i);
    RevokedNeverActs(ss, es, n, t, token, marker, floor);
  }

  lemma {:induction false} EndedForGood(ss: seq<Sys>, es: seq<Event>, i: nat, n: nat)
    requires IsRun(ss, es) && i <= n <= |es| && ss[i].phase.Returned?
    ensures Ended(ss[n], Olds(ss[i]), Epoch(ss[i]))
    decreases n
  {
    RunKeepsInv(ss, es, i);
    if i < n {
      EndedForGood(ss, es, i, n - 1);
      RunKeepsInv(ss, es, n - 1);
      EndedKept(ss[n - 1], es[n - 1], Olds(ss[i]), Epoch(ss[i]));
    }
  }

  predicate OpenedWith(s: Sys, token: Token, olds: set<string>) {
    exists g :: g in s.grants && g.token == token && g.credential in olds
  }

  /** A reset that returned has ended the sessions of every earlier passphrase, whatever sign-ins ran
      beside it: from then on their tokens carry a past epoch, none is let in by a request that comes
      a minute later, and none ever acts. */
  lemma ResetEndsOldSessions(ss: seq<Sys>, es: seq<Event>, i: nat, n: nat, token: Token)
    requires IsRun(ss, es) && i <= n <= |es| && ss[i].phase.Returned?
    requires OpenedWith(ss[n], token, Olds(ss[i]))
    ensures token.epoch < Epoch(ss[i]) <= Epoch(ss[n])
    ensures forall t, at | IsAuthenticated(ss[n], t, token, at) :: at < ss[i].now + 60.0
    ensures forall t: nat, marker, floor: nat | IsElevated(ss[n], t, token, marker, floor) :: floor < Epoch(ss[i])
  {
    EndedForGood(ss, es, i, n);
    TimeGoesOn(ss, es, i, n);
    RunKeepsInv(ss, es, i);
    RunKeepsInv(ss, es, n);
    forall t, at | IsAuthenticated(ss[n], t, token, at) ensures at < ss[i].now + 60.0 {
      RevocationTakesAMinute(ss, es, n, t, token, at);
      assert ss[n].bumps[token.epoch] == ss[i].bumps[token.epoch];
    }
    forall t: nat, marker, floor: nat | IsElevated(ss[n], t, token, marker, floor) ensures floor < Epoch(ss[i]) {
      RevokedNeverActs(ss, es, n, t, token, marker, floor);
    }
  }

  /** At `k` the passphrase is entered in the session `token`. */
  predicate EntersAt(ss: seq<Sys>, es: seq<Event>, k: nat, token: Token)
    requires |ss| == |es| + 1
  {
    && k < |es| && es[k].Enter? && es[k].t in ss[k].tasks && ss[k].tasks[es[k].t].Entering?
    && ss[k].tasks[es[k].t].token == token
  }

  /** This very marker is minted: on an entry, or as a refresh by a request that acts. */
  predicate Mints(s: Sys, e: Event, marker: Marker) {
    && (e.Enter? || e.Refresh?) && e.t in s.tasks
    && var task := s.tasks[e.t];
       if e.Enter? then
         task.Entering? && marker == MakeElevation(s.operator, task.current, task.token, s.now, s.running, None)
       else
         task.Elevated? && var old_ := task.marker;
         marker == MakeElevation(s.operator, old_.epoch, task.token, s.now, s.running, Some(old_.first))
  }

  ghost predicate ComesFrom(ss: seq<Sys>, es: seq<Event>, n: nat, i: Issue)
    requires |ss| == |es| + 1
  {
    exists k: nat, m: nat :: (
      && k <= m < n <= |es| && EntersAt(ss, es, k, i.marker.token) && Mints(ss[m], es[m], i.marker)
      && ss[k].now == i.entered && ss[m].now == i.minted)
  }

  lemma ComesFromLonger(ss: seq<Sys>, es: seq<Event>, n: nat, i: Issue)
    requires |ss| == |es| + 1 && n < |es| && ComesFrom(ss, es, n, i)
    ensures ComesFrom(ss, es, n + 1, i)
  {
  }

  /** A refresh mints for the session of the marker it was acted under. */
  lemma RefreshComesFrom(ss: seq<Sys>, es: seq<Event>, n: nat, i: Issue, j: Issue)
    requires IsRun(ss, es) && n < |es| && es[n].Refresh? && ComesFrom(ss, es, n, j)
    requires j in ss[n].issues && j.marker == ss[n].tasks[es[n].t].marker
    requires i.marker.token == ss[n].tasks[es[n].t].token && i.entered == j.entered && i.minted == ss[n].now
    requires Mints(ss[n], es[n], i.marker)
    ensures ComesFrom(ss, es, n + 1, i)
  {
    RunKeepsInv(ss, es, n);
    assert TaskOk(ss[n].bumps, ss[n].now, ss[n].tasks[es[n].t]);
    var k: nat, m: nat :| && k <= m < n && EntersAt(ss, es, k, j.marker.token) && Mints(ss[m], es[m], j.marker)
                          && ss[k].now == j.entered && ss[m].now == j.minted;
    assert EntersAt(ss, es, k, i.marker.token);
  }

  lemma NewIssue(s: Sys, e: Event, i: Issue) returns (j: Issue)
    requires Enabled(s, e) && i in Apply(s, e).issues && i !in s.issues
    ensures (e.Enter? || e.Refresh?) && Mints(s, e, i.marker)
    ensures e.Enter? ==> i.marker.token == s.tasks[e.t].token && i.entered == s.now && i.minted == s.now
    ensures e.Refresh? ==> j in s.issues && j.marker == s.tasks[e.t].marker && i.entered == j.entered
                           && i.marker.token == s.tasks[e.t].token && i.minted == s.now
  {
    if e.Refresh? {
      j :| j in s.issues && j.marker == s.tasks[e.t].marker && i.entered == j.entered;
    } else {
      j := i;
    }
  }

  /** Every marker goes back to a passphrase entry in its own session, through any chain of refreshes. */
  lemma {:induction false} Provenance(ss: seq<Sys>, es: seq<Event>, n: nat, i: Issue)
    requires IsRun(ss, es) && n <= |es| && i in ss[n].issues
    ensures ComesFrom(ss, es, n, i)
    decreases n
  {
    hide Apply, ComesFrom;
    var s, e := ss[n - 1], es[n - 1];
    if i in s.issues {
      Provenance(ss, es, n - 1, i);
      ComesFromLonger(ss, es, n - 1, i);
    } else {
      var j := NewIssue(s, e, i);
      if e.Enter? {
        EnterComesFrom(ss, es, n - 1, i);
      } else {
        Provenance(ss, es, n - 1, j);
        RefreshComesFrom(ss, es, n - 1, i, j);
      }
    }
  }

  lemma EnterComesFrom(ss: seq<Sys>, es: seq<Event>, n: nat, i: Issue)
    requires IsRun(ss, es) && n < |es| && es[n].Enter?
    requires i.marker.token == ss[n].tasks[es[n].t].token && i.entered == ss[n].now && i.minted == ss[n].now
    requires Mints(ss[n], es[n], i.marker)
    ensures ComesFrom(ss, es, n + 1, i)
  {
    assert EntersAt(ss, es, n, i.marker.token);
  }

  // ── No session without a sign-in ─────────────────────────────────────────────────────────────

  /** The token a request came with, if it is not a sign-in. */
  function TokenOf(task: Task): Option<Token> {
    match task
    case Asking(_, purpose, _, _, _) =>
      (match purpose
       case ToAuthenticate(token) => Some(token)
       case ToLogin(_) => None
       case ToElevate(token) => Some(token)
       case ToAct(token, _) => Some(token))
    case Authenticated(token, _) => Some(token)
    case Entering(token, _) => Some(token)
    case Elevated(token, _, _, _) => Some(token)
  }

  /** It was minted by a sign-in. */
  predicate IsMinted(s: Sys, task: Task) {
    TokenOf(task).Some? ==> exists g :: g in s.grants && g.token == TokenOf(task).value
  }

  predicate AreMinted(s: Sys) {
    forall t | t in s.tasks :: IsMinted(s, s.tasks[t])
  }

  lemma StaysMinted(s: Sys, s': Sys, task: Task)
    requires IsMinted(s, task) && s.grants <= s'.grants
    ensures IsMinted(s', task)
  {
  }

  lemma TouchedIsMinted(s: Sys, e: Event, t: nat)
    requires AreMinted(s) && Enabled(s, e) && t in Apply(s, e).tasks && Touches(e, t)
    ensures IsMinted(s, Apply(s, e).tasks[t])
  {
    if t in s.tasks {
      assert IsMinted(s, s.tasks[t]);
    }
  }

  lemma MintedStepKept(s: Sys, e: Event)
    requires AreMinted(s) && Enabled(s, e)
    ensures AreMinted(Apply(s, e)) && s.grants <= Apply(s, e).grants
  {
    GrantsGrow(s, e);
    forall t | t in Apply(s, e).tasks ensures IsMinted(Apply(s, e), Apply(s, e).tasks[t]) {
      if Touches(e, t) {
        TouchedIsMinted(s, e, t);
      } else {
        OthersStay(s, e, t);
      }
      StaysMinted(s, Apply(s, e), Apply(s, e).tasks[t]);
    }
  }

  lemma GrantsGrow(s: Sys, e: Event)
    requires Enabled(s, e)
    ensures s.grants <= Apply(s, e).grants
  {
  }

  /** Whatever request is under way past a sign-in carries a token that a sign-in minted. */
  lemma OnlyMintedTokens(ss: seq<Sys>, es: seq<Event>, n: nat, t: nat)
    requires IsRun(ss, es) && n <= |es| && t in ss[n].tasks && TokenOf(ss[n].tasks[t]).Some?
    ensures exists g :: g in ss[n].grants && g.token == TokenOf(ss[n].tasks[t]).value
  {
    hide Apply, Enabled;
    AllMinted(ss, es, n);
    assert IsMinted(ss[n], ss[n].tasks[t]);
  }

  lemma {:induction false} AllMinted(ss: seq<Sys>, es: seq<Event>, n: nat)
    requires IsRun(ss, es) && n <= |es|
    ensures AreMinted(ss[n])
  {
    hide Apply, Enabled, AreMinted;
    if n == 0 {
      NoneAtFirst(ss[0]);
    } else {
      AllMinted(ss, es, n - 1);
      MintedStepKept(ss[n - 1], es[n - 1]);
    }
  }

  lemma NoneAtFirst(s: Sys)
    requires Init(s)
    ensures AreMinted(s)
  {
  }

  /** A request is let ask to act only within an hour of a passphrase entry in its own session, and
      within ten minutes of the entry or the refresh that minted the marker it shows. */
  lemma ElevationIsBounded(ss: seq<Sys>, es: seq<Event>, n: nat)
    requires IsRun(ss, es) && n < |es| && es[n].Act?
    ensures exists k: nat, m: nat :: (
              && k <= m < n
              && EntersAt(ss, es, k, es[n].marker.token) && Mints(ss[m], es[m], es[n].marker)
              && ss[n].now <= ss[k].now + 3600.0
              && ss[n].now <= ss[m].now + 600.0)
  {
    hide Apply, EntersAt, Mints;
    RunKeepsInv(ss, es, n);
    var i :| i in ss[n].issues && i.marker == es[n].marker;
    Provenance(ss, es, n, i);
    var k: nat, m: nat :| && k <= m < n && EntersAt(ss, es, k, i.marker.token) && Mints(ss[m], es[m], i.marker)
                          && ss[k].now == i.entered && ss[m].now == i.minted;
    RunKeepsInv(ss, es, k);
    RunKeepsInv(ss, es, m);
    assert IssueOk(ss[n].bumps, i);
  }

  lemma Extend(ss: seq<Sys>, es: seq<Event>, e: Event, s': Sys)
    requires IsRun(ss, es) && Enabled(ss[|es|], e) && s' == Apply(ss[|es|], e)
    ensures IsRun(ss + [s'], es + [e])
  {
  }

  lemma StepOn(ss: seq<Sys>, es: seq<Event>, s: Sys, e: Event) returns (ss': seq<Sys>, es': seq<Event>, s': Sys)
    requires IsRun(ss, es) && s == ss[|es|] && Enabled(s, e)
    ensures s' == Apply(s, e) && IsRun(ss', es') && |es'| == |es| + 1 && s' == ss'[|es'|]
  {
    s' := Apply(s, e);
    Extend(ss, es, e, s');
    ss', es' := ss + [s'], es + [e];
  }

  const ASKS_IN: Task := Asking(0, ToLogin("old"), 0.0, 1, None)

  lemma OldSignInAsks() returns (ss: seq<Sys>, es: seq<Event>, s: Sys)
    ensures IsRun(ss, es) && |es| == 2 && s == ss[2]
    ensures s == Sys("op", 0.0, [0.0], "old", "old", {"old"}, map[], map[0 := ASKS_IN], {}, {}, Revoked)
  {
    s := Sys("op", 0.0, [], "old", "old", {"old"}, map[], map[], {}, {}, NotResetting);
    ss, es := [s], [];
    ss, es, s := StepOn(ss, es, s, ResetRevoke);
    ss, es, s := StepOn(ss, es, s, Login(0, 0));
  }

  lemma OldSignIn() returns (ss: seq<Sys>, es: seq<Event>, s: Sys)
    ensures IsRun(ss, es) && |es| == 4 && s == ss[4]
    ensures s.grants == {Grant(Token("op", 1, 0), "old")} && Epoch(s) == 1 && s.stored == "old" && s.past == {"old"}
            && s.phase.Revoked?
  {
    ss, es, s := OldSignInAsks();
    ss, es, s := StepOn(ss, es, s, ServerReads(0));
    assert s.tasks[0] == ASKS_IN.(read := Some(1));
    ss, es, s := StepOn(ss, es, s, Answer(0));
  }

  /** The second revocation is needed: with the passphrase written and the dashboard restarted, a
      sign-in with the old passphrase can have left a token of the current epoch. */
  lemma GapLeavesAToken() returns (ss: seq<Sys>, es: seq<Event>, token: Token)
    ensures IsRun(ss, es) && |es| == 6 && ss[6].phase.Restarted?
    ensures OpenedWith(ss[6], token, Olds(ss[6])) && token.epoch == Epoch(ss[6])
  {
    var s;
    ss, es, s := OldSignIn();
    token := Token("op", 1, 0);
    assert Grant(token, "old") in s.grants;
    ss, es, s := StepOn(ss, es, s, ResetWrite("new"));
    ss, es, s := StepOn(ss, es, s, ResetRestart);
    assert "old" in Olds(s);
  }
}
