/**
 Telegram's updates: the client's offset, the server that forgets what an offset has passed, and the
 restarts in between.

 The poll loop is one thread; the thread that activates a new configuration confirms and re-executes
 beside it. A poll is asked, reaches the server, is answered when updates are there, and the answer
 arrives or is lost. Update numbers grow.
 */
module TelegramUpdates {
  import opened Wrappers

  function OffsetAfter(offset: nat, updates: seq<nat>): (r: nat)
    ensures r >= offset && forall u | u in updates :: u < r
    ensures r == offset || (r - 1 in updates)
  {
    if updates == [] then offset
    else
      var before, last := OffsetAfter(offset, updates[..|updates| - 1]), updates[|updates| - 1];
      assert updates == updates[..|updates| - 1] + [last];
      if before >= last + 1 then before else last + 1
  }

  /** What a confirmation asks with: nothing, before any update was handed out. */
  function Confirming(offset: nat): Option<nat> {
    if offset > 0 then Some(offset) else None
  }

  class TelegramClient {
    var offset: nat

    constructor ()
      ensures offset == 0
    {
      offset := 0;
    }

    /** `poll_updates`: the batch that arrived, or nothing when the call failed. */
    method PollUpdates(answer: Option<seq<nat>>) returns (updates: seq<nat>)
      modifies this
      ensures updates == if answer.Some? then answer.value else []
      ensures offset == OffsetAfter(old(offset), updates)
    {
      if answer.None? {
        return [];
      }
      updates := answer.value;
      for i := 0 to |updates|
        invariant offset == OffsetAfter(old(offset), updates[..i])
      {
        assert updates[..i + 1][..i] == updates[..i];
        offset := if offset >= updates[i] + 1 then offset else updates[i] + 1;
      }
      assert updates[..|updates|] == updates;
    }

    /** `confirm_updates`: the offset it asks with, if it asks; what is answered is ignored. */
    method ConfirmUpdates() returns (asked: Option<nat>)
      ensures asked == Confirming(offset)
      ensures offset == 0 ==> asked == None
      ensures offset > 0 ==> asked == Some(offset)
    {
      if offset > 0 {
        return Some(offset);
      }
      return None;
    }
  }

  // ── The protocol ─────────────────────────────────────────────────────────────────────────────

  datatype Poll = Idle | Asked(offset: nat) | Held(offset: nat) | Answered(batch: seq<nat>)

  datatype Confirm = NotConfirming | Sent(offset: nat) | Confirmed

  datatype Sys = Sys(
    pending: seq<nat>,        // the server's: not yet confirmed, oldest first
    latest: nat,              // the newest update there ever was
    offset: nat,
    poll: Poll,
    confirm: Confirm,
    delivered: seq<nat>,      // history: everything `poll_updates` ever handed out
    mine: set<nat>,           // history: everything this process was handed
    batch: seq<nat>,          // history: the last batch of it
    seen: nat,                // history: the highest offset of this process that reached the server
    carried: set<nat>)        // history: handed out before this process started, and still pending then

  datatype Event =
    | Arrive(update: nat)
    | Ask
    | PollReaches
    | Answer(count: nat)
    | Receive
    | PollFails
    | StartConfirm
    | ConfirmReaches
    | ConfirmFails
    | Reexec                  // after `confirm_updates`, whatever became of it
    | Crash                   // the process dies and is started again

  const LIMIT := 100

  const START := Sys([], 0, 0, Idle, NotConfirming, [], {}, [], 0, {})

  predicate Enabled(s: Sys, e: Event) {
    match e
    case Arrive(update) => update > s.latest
    case Ask => s.poll.Idle?
    case PollReaches => s.poll.Asked?
    case Answer(count) => s.poll.Held? && count <= |s.pending| && count <= LIMIT
    case Receive => s.poll.Answered?
    case PollFails => !s.poll.Idle?
    case StartConfirm => s.confirm.NotConfirming?
    case ConfirmReaches => s.confirm.Sent?
    case ConfirmFails => s.confirm.Sent?
    case Reexec => s.confirm.Confirmed?
    case Crash => true
  }

  /** An offset confirms everything below it. */
  function Above(updates: seq<nat>, offset: nat): (r: seq<nat>)
    ensures forall u :: u in r <==> u in updates && u >= offset
  {
    if updates == [] then []
    else
      assert updates == [updates[0]] + updates[1..];
      (if updates[0] >= offset then [updates[0]] else []) + Above(updates[1..], offset)
  }

  function Reach(s: Sys, offset: nat): Sys {
    s.(pending := Above(s.pending, offset), seen := if s.seen >= offset then s.seen else offset)
  }

  /** Handed out, and still pending: what a new process would be handed again. */
  function AtRisk(s: Sys): set<nat> {
    set u | u in s.delivered && u in s.pending
  }

  function Restart(s: Sys): Sys {
    s.(offset := 0, poll := Idle, confirm := NotConfirming, mine := {}, batch := [], seen := 0, carried := AtRisk(s))
  }

  function Apply(s: Sys, e: Event): Sys
    requires Enabled(s, e)
  {
    match e
    case Arrive(update) => s.(pending := s.pending + [update], latest := update)
    case Ask => s.(poll := Asked(s.offset))
    case PollReaches => Reach(s, s.poll.offset).(poll := Held(s.poll.offset))
    case Answer(count) => s.(poll := Answered(s.pending[..count]))
    case Receive =>
      s.(poll := Idle, offset := OffsetAfter(s.offset, s.poll.batch), delivered := s.delivered + s.poll.batch,
         mine := s.mine + (set u | u in s.poll.batch), batch := if s.poll.batch == [] then s.batch else s.poll.batch)
    case PollFails => s.(poll := Idle)
    case StartConfirm =>
      s.(confirm := match Confirming(s.offset) case Some(offset) => Sent(offset) case None => Confirmed)
    case ConfirmReaches => Reach(s, s.confirm.offset).(confirm := Confirmed)
    case ConfirmFails => s.(confirm := Confirmed)
    case Reexec => Restart(s)
    case Crash => Restart(s)
  }

  // ── What every step keeps ────────────────────────────────────────────────────────────────────

  /** An answer is the oldest updates still pending, a hundred at most. */
  lemma AnswerExactly(s: Sys, count: nat)
    requires s.poll.Held?
    ensures Enabled(s, Answer(count)) <==> count <= |s.pending| && count <= 100
    ensures Enabled(s, Answer(count)) ==> Apply(s, Answer(count)) == s.(poll := Answered(s.pending[..count]))
  {
  }

  predicate Ascending(updates: seq<nat>) {
    forall i, j | 0 <= i < j < |updates| :: updates[i] < updates[j]
  }

  predicate ServerInv(s: Sys) {
    && Ascending(s.pending)
    && (forall u | u in s.pending :: s.seen <= u <= s.latest)
    && (forall u | u in s.delivered :: u <= s.latest)
  }

  predicate PollInv(s: Sys) {
    && s.seen <= s.offset <= s.latest + 1
    && (s.poll.Asked? ==> s.poll.offset == s.offset)
    && (s.poll.Held? ==> s.poll.offset == s.offset && s.seen == s.offset)
    && (s.poll.Answered? ==> s.seen == s.offset && Ascending(s.poll.batch))
    && (s.poll.Answered? ==> forall u | u in s.poll.batch :: u in s.pending)
    && (s.poll.Answered? ==> forall u, w | u in s.pending && w in s.poll.batch && u <= w :: u in s.poll.batch)
    && (s.confirm.Sent? ==> s.confirm.offset <= s.offset)
  }

  predicate BatchInv(s: Sys) {
    && (forall u | u in s.batch :: u in s.mine)
    && (forall u | u in s.mine :: u < s.offset)
    && (s.seen < s.offset ==> s.offset - 1 in s.pending && s.offset - 1 in s.delivered && s.offset - 1 in s.batch)
    && (forall u | u in s.delivered && u in s.pending :: u in s.batch || u in s.carried)
  }

  predicate Inv(s: Sys) {
    ServerInv(s) && PollInv(s) && BatchInv(s)
  }

  lemma {:induction false} AboveAscending(updates: seq<nat>, offset: nat)
    requires Ascending(updates)
    ensures Ascending(Above(updates, offset))
  {
    if updates != [] {
      AboveAscending(updates[1..], offset);
      var rest := Above(updates[1..], offset);
      forall i | 0 <= i < |rest| ensures updates[0] < rest[i] {
        assert rest[i] in rest && rest[i] in updates[1..];
      }
    }
  }

  lemma ServerKept(s: Sys, e: Event)
    requires Inv(s) && Enabled(s, e)
    ensures ServerInv(Apply(s, e))
  {
    if e.PollReaches? {
      AboveAscending(s.pending, s.poll.offset);
    } else if e.ConfirmReaches? {
      AboveAscending(s.pending, s.confirm.offset);
    } else if e.Arrive? {
      assert forall i | 0 <= i < |s.pending| :: s.pending[i] in s.pending;
    }
  }

  lemma PollKept(s: Sys, e: Event)
    requires Inv(s) && Enabled(s, e)
    ensures PollInv(Apply(s, e))
  {
  }

  lemma BatchKept(s: Sys, e: Event)
    requires Inv(s) && Enabled(s, e)
    ensures BatchInv(Apply(s, e))
  {
  }

  lemma InvKept(s: Sys, e: Event)
    requires Inv(s) && Enabled(s, e)
    ensures Inv(Apply(s, e))
  {
    ServerKept(s, e);
    PollKept(s, e);
    BatchKept(s, e);
  }

  ghost predicate IsRun(ss: seq<Sys>, es: seq<Event>) {
    && |ss| == |es| + 1
    && ss[0] == START
    && forall i | 0 <= i < |es| :: Enabled(ss[i], es[i]) && ss[i + 1] == Apply(ss[i], es[i])
  }

  lemma {:induction false} RunKeepsInv(ss: seq<Sys>, es: seq<Event>, n: nat)
    requires IsRun(ss, es) && n <= |es|
    ensures Inv(ss[n])
  {
    if n > 0 {
      RunKeepsInv(ss, es, n - 1);
      InvKept(ss[n - 1], es[n - 1]);
    }
  }

  predicate IsRestart(e: Event) {
    e.Reexec? || e.Crash?
  }

  /** Everything handed out has been confirmed: the server has been asked with the offset as it is. */
  predicate Clean(s: Sys) {
    s.seen == s.offset
  }

  predicate IsOnce(updates: seq<nat>) {
    forall i, j | 0 <= i < j < |updates| :: updates[i] != updates[j]
  }

  /** In a run whose restarts were all clean. */
  predicate Unrepeated(s: Sys) {
    && s.carried == {}
    && (forall u | u in s.delivered && u in s.pending :: u < s.offset)
    && IsOnce(s.delivered)
  }

  lemma ReceiveUnrepeated(s: Sys)
    requires Inv(s) && Unrepeated(s) && s.poll.Answered?
    ensures Unrepeated(Apply(s, Receive))
  {
    var batch := s.poll.batch;
    forall u | u in batch ensures u !in s.delivered {
      assert u in s.pending && u >= s.seen;
    }
    assert forall i | 0 <= i < |batch| :: batch[i] in batch;
    assert forall i | 0 <= i < |s.delivered| :: s.delivered[i] in s.delivered;
  }

  lemma UnrepeatedKept(s: Sys, e: Event)
    requires Inv(s) && Unrepeated(s) && Enabled(s, e) && (IsRestart(e) ==> Clean(s))
    ensures Unrepeated(Apply(s, e))
  {
    if e.Receive? {
      ReceiveUnrepeated(s);
    }
  }

  /** No update is handed out twice, however polls fail and processes restart, as long as each restart
      finds everything handed out confirmed. */
  lemma {:induction false} AtMostOnce(ss: seq<Sys>, es: seq<Event>, n: nat)
    requires IsRun(ss, es) && n <= |es|
    requires forall i | 0 <= i < n && IsRestart(es[i]) :: Clean(ss[i])
    ensures Unrepeated(ss[n])
  {
    if n > 0 {
      AtMostOnce(ss, es, n - 1);
      RunKeepsInv(ss, es, n - 1);
      UnrepeatedKept(ss[n - 1], es[n - 1]);
    }
  }

  /** A restart is clean if and only if nothing this process was handed is still pending. */
  lemma CleanExactly(ss: seq<Sys>, es: seq<Event>, n: nat)
    requires IsRun(ss, es) && n <= |es|
    ensures Clean(ss[n]) <==> forall u | u in ss[n].batch :: u !in ss[n].pending
    ensures Clean(ss[n]) ==> AtRisk(ss[n]) <= ss[n].carried
  {
    RunKeepsInv(ss, es, n);
  }

  /** A confirmation that reached the server makes the restart clean, if nothing was handed out since
      it was asked. */
  lemma ConfirmingCleans(ss: seq<Sys>, es: seq<Event>, n: nat)
    requires IsRun(ss, es) && n < |es| && es[n].ConfirmReaches? && ss[n].confirm.offset == ss[n].offset
    ensures Clean(ss[n + 1])
  {
    RunKeepsInv(ss, es, n);
  }

  /** A restart that confirmed nothing repeats only the last batch this process was handed, or what it
      was itself started with. */
  lemma RepeatsOnlyTheLastBatch(ss: seq<Sys>, es: seq<Event>, n: nat)
    requires IsRun(ss, es) && n < |es| && IsRestart(es[n])
    ensures forall u | u in ss[n + 1].carried :: u in ss[n].batch || u in ss[n].carried
    ensures forall u | u in ss[n + 1].carried :: u in ss[n].delivered && u in ss[n].pending
  {
    RunKeepsInv(ss, es, n);
  }

  /** Within a process the offset stays above everything handed out, so nothing is handed out twice. */
  lemma NeverTwiceInAProcess(ss: seq<Sys>, es: seq<Event>, n: nat)
    requires IsRun(ss, es) && n <= |es|
    ensures forall u | u in ss[n].mine :: u < ss[n].offset
    ensures ss[n].poll.Answered?
            ==> Ascending(ss[n].poll.batch) && forall u | u in ss[n].poll.batch :: ss[n].offset <= u && u !in ss[n].mine
  {
    RunKeepsInv(ss, es, n);
  }

  lemma StepOn(ss: seq<Sys>, es: seq<Event>, s: Sys, e: Event) returns (ss': seq<Sys>, es': seq<Event>, s': Sys)
    requires IsRun(ss, es) && s == ss[|es|] && Enabled(s, e)
    ensures s' == Apply(s, e) && IsRun(ss', es') && |es'| == |es| + 1 && s' == ss'[|es'|]
    ensures ss' == ss + [s'] && es' == es + [e]
  {
    s' := Apply(s, e);
    ss', es' := ss + [s'], es + [e];
  }

  // ── An unclean restart repeats ───────────────────────────────────────────────────────────────

  predicate Twice(updates: seq<nat>, u: nat) {
    exists i, j :: 0 <= i < j < |updates| && updates[i] == u && updates[j] == u
  }

  /** Handed out twice, or about to be: still pending, and the offset has not passed it. */
  predicate IsDoomed(s: Sys, u: nat) {
    u in s.delivered && (Twice(s.delivered, u) || (u in s.pending && s.offset <= u))
  }

  lemma TwiceInBoth(a: seq<nat>, b: seq<nat>, u: nat)
    ensures Twice(a, u) ==> Twice(a + b, u)
    ensures u in a && u in b ==> Twice(a + b, u)
  {
    if Twice(a, u) {
      var i, j :| 0 <= i < j < |a| && a[i] == u && a[j] == u;
      assert (a + b)[i] == u && (a + b)[j] == u;
    }
    if u in a && u in b {
      var i :| 0 <= i < |a| && a[i] == u;
      var j :| 0 <= j < |b| && b[j] == u;
      assert (a + b)[i] == u && (a + b)[|a| + j] == u;
    }
  }

  lemma DoomedKept(s: Sys, e: Event, u: nat)
    requires Inv(s) && Enabled(s, e) && IsDoomed(s, u)
    ensures IsDoomed(Apply(s, e), u)
  {
    hide Twice;
    if e.Receive? {
      TwiceInBoth(s.delivered, s.poll.batch, u);
      if u !in s.poll.batch && u in s.pending {
        assert forall w | w in s.poll.batch :: w < u;
      }
    }
  }

  /** The one run goes on into the other without a restart. */
  ghost predicate Extends(ss: seq<Sys>, es: seq<Event>, ss': seq<Sys>, es': seq<Event>) {
    && IsRun(ss', es') && |es| <= |es'| && |ss| == |es| + 1
    && (forall i | 0 <= i < |es| :: es'[i] == es[i])
    && (forall i | 0 <= i < |ss| :: ss'[i] == ss[i])
    && (forall i | |es| <= i < |es'| :: !IsRestart(es'[i]))
  }

  lemma GoOn(ss0: seq<Sys>, es0: seq<Event>, ss: seq<Sys>, es: seq<Event>, s: Sys, e: Event, u: nat)
    returns (ss': seq<Sys>, es': seq<Event>, s': Sys)
    requires Extends(ss0, es0, ss, es) && s == ss[|es|] && Enabled(s, e) && !IsRestart(e) && IsDoomed(s, u)
    ensures Extends(ss0, es0, ss', es') && s' == Apply(s, e) && s' == ss'[|es'|] && IsDoomed(s', u) && Inv(s')
  {
    hide IsDoomed;
    RunKeepsInv(ss, es, |es|);
    DoomedKept(s, e, u);
    ss', es', s' := StepOn(ss, es, s, e);
    RunKeepsInv(ss', es', |es'|);
  }

  /** One poll, answered in full, hands out the doomed update or passes others below it. */
  lemma PollOnce(ss0: seq<Sys>, es0: seq<Event>, ss: seq<Sys>, es: seq<Event>, s: Sys, u: nat)
    returns (ss': seq<Sys>, es': seq<Event>, s': Sys)
    requires Extends(ss0, es0, ss, es) && s == ss[|es|] && s.poll.Idle? && IsDoomed(s, u) && !Twice(s.delivered, u)
    ensures Extends(ss0, es0, ss', es') && s' == ss'[|es'|] && s'.poll.Idle? && IsDoomed(s', u)
    ensures s'.offset > s.offset
  {
    hide Extends, Inv, Twice;
    ss', es', s' := GoOn(ss0, es0, ss, es, s, Ask, u);
    ss', es', s' := GoOn(ss0, es0, ss', es', s', PollReaches, u);
    assert u in s'.pending;
    ss', es', s' := GoOn(ss0, es0, ss', es', s', Answer(if |s'.pending| < LIMIT then |s'.pending| else LIMIT), u);
    assert s'.poll.batch != [] && s'.poll.batch[0] in s'.poll.batch;
    assert s'.poll.batch[0] in s'.pending && s'.poll.batch[0] >= s'.offset;
    ss', es', s' := GoOn(ss0, es0, ss', es', s', Receive, u);
  }

  lemma {:induction false} PollsOn(ss0: seq<Sys>, es0: seq<Event>, ss: seq<Sys>, es: seq<Event>, s: Sys, u: nat)
    returns (ss': seq<Sys>, es': seq<Event>)
    requires Extends(ss0, es0, ss, es) && s == ss[|es|] && s.poll.Idle? && IsDoomed(s, u)
    ensures Extends(ss0, es0, ss', es') && Twice(ss'[|es'|].delivered, u)
    decreases if Twice(s.delivered, u) then 0 else u - s.offset + 1
  {
    hide Extends, Twice;
    if Twice(s.delivered, u) {
      ss', es' := ss, es;
    } else {
      var s';
      ss', es', s' := PollOnce(ss0, es0, ss, es, s, u);
      ss', es' := PollsOn(ss0, es0, ss', es', s', u);
    }
  }

  /** From a doomed update's state, polling on hands it out twice, with no further restart. */
  lemma DoomedRepeats(ss: seq<Sys>, es: seq<Event>, u: nat) returns (ss': seq<Sys>, es': seq<Event>)
    requires IsRun(ss, es) && IsDoomed(ss[|es|], u)
    ensures Extends(ss, es, ss', es') && Twice(ss'[|es'|].delivered, u)
  {
    hide IsDoomed;
    var s := ss[|es|];
    ss', es' := ss, es;
    if !s.poll.Idle? {
      ss', es', s := GoOn(ss, es, ss', es', s, PollFails, u);
    }
    ss', es' := PollsOn(ss, es, ss', es', s, u);
  }

  lemma UncleanDooms(ss: seq<Sys>, es: seq<Event>, i: nat)
    requires IsRun(ss, es) && i < |es| && IsRestart(es[i]) && !Clean(ss[i])
    ensures ss[i].offset > 0 && IsDoomed(ss[i + 1], ss[i].offset - 1)
  {
    RunKeepsInv(ss, es, i);
  }

  lemma {:induction false} StaysDoomed(ss: seq<Sys>, es: seq<Event>, i: nat, n: nat, u: nat)
    requires IsRun(ss, es) && i <= n <= |es| && IsDoomed(ss[i], u)
    ensures IsDoomed(ss[n], u)
  {
    hide IsDoomed;
    if i < n {
      StaysDoomed(ss, es, i, n - 1, u);
      RunKeepsInv(ss, es, n - 1);
      DoomedKept(ss[n - 1], es[n - 1], u);
    }
  }

  ghost predicate RestartsAreClean(ss: seq<Sys>, es: seq<Event>)
    requires IsRun(ss, es)
  {
    forall i | 0 <= i < |es| && IsRestart(es[i]) :: Clean(ss[i])
  }

  /** However the run goes on without a restart, nothing is ever handed out twice. */
  ghost predicate NeverRepeats(ss: seq<Sys>, es: seq<Event>) {
    forall ss': seq<Sys>, es': seq<Event> | Extends(ss, es, ss', es') :: IsOnce(ss'[|es'|].delivered)
  }

  /** At most once, exactly: if every restart found everything confirmed, nothing is handed out twice
      however the run goes on until the next one; if any did not, the updates it left pending come again
      as soon as polling goes on. */
  lemma AtMostOnceExactly(ss: seq<Sys>, es: seq<Event>)
    requires IsRun(ss, es)
    ensures RestartsAreClean(ss, es) <==> NeverRepeats(ss, es)
  {
    hide IsDoomed, Clean;
    if RestartsAreClean(ss, es) {
      forall ss': seq<Sys>, es': seq<Event> | Extends(ss, es, ss', es') ensures IsOnce(ss'[|es'|].delivered) {
        AtMostOnce(ss', es', |es'|);
      }
    } else {
      var i :| 0 <= i < |es| && IsRestart(es[i]) && !Clean(ss[i]);
      UncleanDooms(ss, es, i);
      StaysDoomed(ss, es, i + 1, |es|, ss[i].offset - 1);
      var ss', es' := DoomedRepeats(ss, es, ss[i].offset - 1);
    }
  }

  // ── A confirmation that is not enough ────────────────────────────────────────────────────────

  lemma AboveOne(u: nat, offset: nat)
    requires u >= offset
    ensures Above([u], offset) == [u]
  {
    assert [u][1..] == [] && Above([], offset) == [];
  }

  lemma Fetch(ss: seq<Sys>, es: seq<Event>, s: Sys) returns (ss': seq<Sys>, es': seq<Event>, s': Sys)
    requires IsRun(ss, es) && s == ss[|es|] && s.poll.Idle? && |s.pending| == 1 && s.offset <= s.pending[0]
    ensures IsRun(ss', es') && |es'| == |es| + 3 && es' == es + [Ask, PollReaches, Answer(1)] && s' == ss'[|es'|]
    ensures s' == s.(poll := Answered(s.pending), seen := if s.seen >= s.offset then s.seen else s.offset)
  {
    ss', es', s' := StepOn(ss, es, s, Ask);
    AboveOne(s.pending[0], s.offset);
    assert s.pending == [s.pending[0]];
    ss', es', s' := StepOn(ss', es', s', PollReaches);
    ss', es', s' := StepOn(ss', es', s', Answer(1));
    assert s.pending[..1] == s.pending;
  }

  lemma SecondInFlight() returns (ss: seq<Sys>, es: seq<Event>, s: Sys)
    ensures IsRun(ss, es) && |es| == 9 && s == ss[9] && forall i | 0 <= i < 9 :: !IsRestart(es[i])
    ensures s == Sys([2], 2, 2, Answered([2]), NotConfirming, [1], {1}, [1], 2, {})
  {
    ss, es, s := [START], [], START;
    ss, es, s := StepOn(ss, es, s, Arrive(1));
    ss, es, s := Fetch(ss, es, s);
    assert OffsetAfter(0, [1]) == 2;
    ss, es, s := StepOn(ss, es, s, Receive);
    ss, es, s := StepOn(ss, es, s, Arrive(2));
    ss, es, s := SecondFetch(ss, es, s);
  }

  lemma SecondFetch(ss: seq<Sys>, es: seq<Event>, s: Sys) returns (ss': seq<Sys>, es': seq<Event>, s': Sys)
    requires IsRun(ss, es) && s == ss[|es|] && s == Sys([1, 2], 2, 2, Idle, NotConfirming, [1], {1}, [1], 0, {})
    ensures IsRun(ss', es') && |es'| == |es| + 3 && es' == es + [Ask, PollReaches, Answer(1)] && s' == ss'[|es'|]
    ensures s' == Sys([2], 2, 2, Answered([2]), NotConfirming, [1], {1}, [1], 2, {})
  {
    ss', es', s' := StepOn(ss, es, s, Ask);
    ss', es', s' := StepOn(ss', es', s', PollReaches);
    AboveOne(2, 2);
    assert [1, 2][1..] == [2] && Above(s.pending, 2) == Above([2], 2);
    assert s'.pending == [2] && [2][..1] == [2];
    ss', es', s' := StepOn(ss', es', s', Answer(1));
  }

  lemma ConfirmedBehindIt() returns (ss: seq<Sys>, es: seq<Event>, s: Sys)
    ensures IsRun(ss, es) && |es| == 11 && s == ss[11] && es[10].ConfirmReaches?
            && forall i | 0 <= i < 11 :: !IsRestart(es[i])
    ensures s == Sys([2], 2, 2, Answered([2]), Confirmed, [1], {1}, [1], 2, {})
  {
    ss, es, s := SecondInFlight();
    ss, es, s := StepOn(ss, es, s, StartConfirm);
    AboveOne(2, 2);
    ss, es, s := StepOn(ss, es, s, ConfirmReaches);
  }

  lemma ReceivedLate() returns (ss: seq<Sys>, es: seq<Event>, s: Sys)
    ensures IsRun(ss, es) && |es| == 12 && s == ss[12] && es[10].ConfirmReaches?
            && forall i | 0 <= i < 12 :: !IsRestart(es[i])
    ensures s == Sys([2], 2, 3, Idle, Confirmed, [1, 2], {1, 2}, [2], 2, {})
  {
    ss, es, s := ConfirmedBehindIt();
    assert OffsetAfter(2, [2]) == 3;
    ss, es, s := StepOn(ss, es, s, Receive);
  }

  /** The poll loop does not stop for a re-execution: a batch that arrives between the confirmation and
      it is handed out, and handed out again, although the confirmation succeeded. */
  lemma ConfirmedYetRepeated() returns (ss: seq<Sys>, es: seq<Event>)
    ensures IsRun(ss, es) && |es| == 17 && es[10].ConfirmReaches?
    ensures es[12].Reexec? && forall i | 0 <= i < 17 && i != 12 :: !IsRestart(es[i])
    ensures ss[17].delivered == [1, 2, 2]
  {
    var s;
    ss, es, s := ReceivedLate();
    ss, es, s := StepOn(ss, es, s, Reexec);
    ss, es, s := Fetch(ss, es, s);
    ss, es, s := StepOn(ss, es, s, Receive);
  }
}
