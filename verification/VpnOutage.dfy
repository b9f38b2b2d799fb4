/**
 Dating an outage of the VPN's forwarded port from gluetun's log (`check_vpn_port_forwarding`).

 A line is what the two patterns make of it; one whose timestamp cannot be read counts for nothing.
 `docker logs --since` is taken to cut by the timestamps in the lines. What the host answers is input.
 */
module VpnOutage {
  import opened Wrappers
  import opened Sorting

  const RENEWAL_GRACE: real := 9000.0
  const LOOKBACK: real := 43200.0

  datatype Line = Obtained(at: Option<real>) | Cleared(at: Option<real>) | Noise

  datatype Verdict =
    | Alert(unread: bool)               // `unread`: the log could not be read
    | Recovered                         // cleared while the check was running
    | WithinGrace(seconds: real)

  predicate Earlier(a: real, b: real) {
    a < b
  }

  function ObtainedAt(lines: seq<Line>): seq<real> {
    if lines == [] then []
    else
      ObtainedAt(lines[..|lines| - 1])
      + if lines[|lines| - 1].Obtained? && lines[|lines| - 1].at.Some? then [lines[|lines| - 1].at.value] else []
  }

  function ClearedAt(lines: seq<Line>): seq<real> {
    if lines == [] then []
    else
      ClearedAt(lines[..|lines| - 1])
      + if lines[|lines| - 1].Cleared? && lines[|lines| - 1].at.Some? then [lines[|lines| - 1].at.value] else []
  }

  /** The log as the lookback shows it. */
  function Recent(log: seq<Line>, now: real): seq<Line> {
    if log == [] then []
    else
      (if !log[0].Noise? && log[0].at.Some? && log[0].at.value >= now - LOOKBACK then [log[0]] else [])
          + Recent(log[1..], now)
  }

  /** `_gluetun_port_events` */
  method PortEvents(lines: seq<Line>) returns (obtained: seq<real>, cleared: seq<real>)
    ensures obtained == Sorted(ObtainedAt(lines), Earlier) && cleared == Sorted(ClearedAt(lines), Earlier)
  {
    obtained, cleared := [], [];
    for i := 0 to |lines|
      invariant obtained == ObtainedAt(lines[..i]) && cleared == ClearedAt(lines[..i])
    {
      assert lines[..i + 1][..i] == lines[..i];
      if lines[i].Obtained? && lines[i].at.Some? {
        obtained := obtained + [lines[i].at.value];
      } else if lines[i].Cleared? && lines[i].at.Some? {
        cleared := cleared + [lines[i].at.value];
      }
    }
    assert lines[..|lines|] == lines;
    obtained, cleared := Sorted(obtained, Earlier), Sorted(cleared, Earlier);
  }

  function After(moments: seq<real>, t: real): seq<real> {
    if moments == [] then [] else (if moments[0] > t then [moments[0]] else []) + After(moments[1..], t)
  }

  function Min(moments: seq<real>): (m: real)
    requires moments != []
    ensures m in moments && forall x | x in moments :: m <= x
  {
    if |moments| == 1 then moments[0]
    else
      var m := Min(moments[1..]);
      assert moments == [moments[0]] + moments[1..];
      if moments[0] < m then moments[0] else m
  }

  function Positive(x: real): real {
    if x > 0.0 then x else 0.0
  }

  /** `_seconds_since_port_lost`, of the events in the window. */
  function SinceLost(obtained: seq<real>, cleared: seq<real>, now: real): Option<real> {
    if obtained == [] then None
    else
      var unrecovered := After(cleared, obtained[|obtained| - 1]);
      if unrecovered == [] then None else Some(Positive(now - Min(unrecovered)))
  }

  function Since(lines: seq<Line>, now: real): Option<real> {
    SinceLost(Sorted(ObtainedAt(lines), Earlier), Sorted(ClearedAt(lines), Earlier), now)
  }

  /** `settled`, for a missing port. */
  function Settled(since: Option<real>, stillMissing: bool): Verdict {
    if since.None? || since.value >= RENEWAL_GRACE then
      if stillMissing then Alert(false) else Recovered
    else WithinGrace(since.value)
  }

  function Check(log: seq<Line>, now: real, stillMissing: bool): Verdict {
    Settled(Since(Recent(log, now), now), stillMissing)
  }

  /** The check on a missing port; `lines` is None when the log could not be read. */
  method CheckMissingPort(lines: Option<seq<Line>>, now: real, stillMissing: bool) returns (v: Verdict)
    ensures lines.None? ==> v == Alert(true)
    ensures lines.Some? ==> v == Settled(Since(lines.value, now), stillMissing)
  {
    if lines.None? {
      return Alert(true);
    }
    var obtained, cleared := PortEvents(lines.value);
    var since := SinceLost(obtained, cleared, now);
    if since.None? || since.value >= RENEWAL_GRACE {
      if !stillMissing {
        return Recovered;
      }
      return Alert(false);
    }
    return WithinGrace(since.value);
  }

  // ── What the log says ────────────────────────────────────────────────────────────────────────

  predicate GotPort(lines: seq<Line>, t: real) {
    Obtained(Some(t)) in lines
  }

  predicate LostPort(lines: seq<Line>, t: real) {
    Cleared(Some(t)) in lines
  }

  ghost predicate IsLastGot(lines: seq<Line>, t: real) {
    GotPort(lines, t) && forall u | GotPort(lines, u) :: u <= t
  }

  /** `s` is the first clear after the last port obtained. */
  ghost predicate IsStart(lines: seq<Line>, s: real, got: real) {
    IsLastGot(lines, got) && LostPort(lines, s) && got < s && forall u | LostPort(lines, u) && got < u :: s <= u
  }

  lemma {:induction false} StampsAre(lines: seq<Line>, t: real)
    ensures t in ObtainedAt(lines) <==> GotPort(lines, t)
    ensures t in ClearedAt(lines) <==> LostPort(lines, t)
  {
    if lines != [] {
      StampsAre(lines[..|lines| - 1], t);
      assert lines == lines[..|lines| - 1] + [lines[|lines| - 1]];
    }
  }

  lemma {:induction false} RecentIs(log: seq<Line>, now: real, line: Line)
    ensures line in Recent(log, now)
            <==> line in log && !line.Noise? && line.at.Some? && line.at.value >= now - 43200.0
  {
    if log != [] {
      RecentIs(log[1..], now, line);
      assert log == [log[0]] + log[1..];
    }
  }

  lemma {:induction false} AfterIs(moments: seq<real>, t: real, x: real)
    ensures x in After(moments, t) <==> x in moments && x > t
  {
    if moments != [] {
      AfterIs(moments[1..], t, x);
      assert moments == [moments[0]] + moments[1..];
    }
  }

  lemma LastIsLatest(lines: seq<Line>)
    requires Sorted(ObtainedAt(lines), Earlier) != []
    ensures var obtained := Sorted(ObtainedAt(lines), Earlier); IsLastGot(lines, obtained[|obtained| - 1])
  {
    var obtained := Sorted(ObtainedAt(lines), Earlier);
    var last := obtained[|obtained| - 1];
    SortedInOrder(ObtainedAt(lines), Earlier);
    SortedElements(ObtainedAt(lines), Earlier);
    assert last in obtained;
    StampsAre(lines, last);
    forall u | GotPort(lines, u) ensures u <= last {
      StampsAre(lines, u);
      var i :| 0 <= i < |obtained| && obtained[i] == u;
    }
  }

  lemma UnrecoveredIs(lines: seq<Line>, t: real, x: real)
    ensures x in After(Sorted(ClearedAt(lines), Earlier), t) <==> LostPort(lines, x) && x > t
  {
    AfterIs(Sorted(ClearedAt(lines), Earlier), t, x);
    SortedElements(ClearedAt(lines), Earlier);
    StampsAre(lines, x);
  }

  /** The clock starts at the first clear after the last obtain, and at nothing else. */
  lemma DatedFromTheStart(lines: seq<Line>, now: real)
    ensures Since(lines, now).Some?
            ==> exists s, got ::
                  IsStart(lines, s, got) && Since(lines, now).value == if now <= s then 0.0 else now - s
    ensures Since(lines, now).None? ==> forall s, got :: !IsStart(lines, s, got)
  {
    var obtained := Sorted(ObtainedAt(lines), Earlier);
    if obtained == [] {
      SortedElements(ObtainedAt(lines), Earlier);
      forall got ensures !GotPort(lines, got) {
        StampsAre(lines, got);
      }
    } else {
      var got := obtained[|obtained| - 1];
      LastIsLatest(lines);
      var unrecovered := After(Sorted(ClearedAt(lines), Earlier), got);
      forall x ensures x in unrecovered <==> LostPort(lines, x) && x > got {
        UnrecoveredIs(lines, got, x);
      }
      if unrecovered != [] {
        assert IsStart(lines, Min(unrecovered), got);
      } else {
        forall s, other ensures !IsStart(lines, s, other) {
          if IsLastGot(lines, other) {
            assert other == got;
          }
        }
      }
    }
  }

  lemma StartIsDated(lines: seq<Line>, now: real, s: real, got: real)
    requires IsStart(lines, s, got)
    ensures Since(lines, now) == Some(Positive(now - s))
  {
    DatedFromTheStart(lines, now);
  }

  /** No start that the log shows is younger than the grace. */
  ghost predicate NoYoungStart(lines: seq<Line>, now: real) {
    forall s, got | IsStart(lines, s, got) :: now - s >= 9000.0
  }

  /** When a missing port alerts, exactly: when the log dates no start, or an old enough one. */
  lemma AlertsExactly(log: seq<Line>, now: real)
    ensures Check(log, now, true) == Alert(false) <==> NoYoungStart(Recent(log, now), now)
  {
    var lines := Recent(log, now);
    DatedFromTheStart(lines, now);
    if NoYoungStart(lines, now) {
      if Since(lines, now).Some? {
        var s, got :| IsStart(lines, s, got) && Since(lines, now).value == Positive(now - s);
        assert now - s >= 9000.0;
      }
    } else {
      var s, got :| IsStart(lines, s, got) && now - s < 9000.0;
      StartIsDated(lines, now, s, got);
    }
  }

  /** A fault that is gone when it would alert is reported as recovered instead; within the grace it is reported
      as that either way. */
  lemma RecoversExactly(log: seq<Line>, now: real)
    ensures Check(log, now, false) == Recovered <==> Check(log, now, true) == Alert(false)
    ensures Check(log, now, false) != Recovered ==> Check(log, now, false) == Check(log, now, true)
    ensures !Check(log, now, false).Alert? && !Check(log, now, true).Recovered?
  {
  }

  predicate NoPort(lines: seq<Line>) {
    forall line | line in lines :: !line.Obtained?
  }

  /** Without a new port, the last one obtained is the same as long as the window shows it. */
  lemma SameLastGot(log: seq<Line>, more: seq<Line>, now: real, later: real, got: real, other: real)
    requires NoPort(more) && now <= later
    requires IsLastGot(Recent(log, now), got) && IsLastGot(Recent(log + more, later), other)
    ensures other == got
  {
    var line := Obtained(Some(other));
    RecentIs(log + more, later, line);
    RecentIs(log, now, line);
    assert GotPort(Recent(log, now), other);
    RecentIs(log, now, Obtained(Some(got)));
    RecentIs(log + more, later, Obtained(Some(got)));
    assert GotPort(Recent(log + more, later), got);
  }

  /** Once a dated outage alerts, every later scan alerts until a port is obtained, whatever clears are
      logged meanwhile and however far the window slides. */
  lemma AlertPersists(log: seq<Line>, more: seq<Line>, now: real, later: real, s: real, got: real)
    requires NoPort(more) && now <= later
    requires IsStart(Recent(log, now), s, got) && Check(log, now, true) == Alert(false)
    ensures Check(log + more, later, true) == Alert(false)
  {
    var lines, lines' := Recent(log, now), Recent(log + more, later);
    AlertsExactly(log, now);
    forall s', got' | IsStart(lines', s', got') ensures later - s' >= 9000.0 {
      SameLastGot(log, more, now, later, got, got');
      RecentIs(log, now, Cleared(Some(s)));
      RecentIs(log + more, later, Obtained(Some(got')));
      RecentIs(log + more, later, Cleared(Some(s)));
      assert LostPort(lines', s);
    }
    AlertsExactly(log + more, later);
  }

  /** Clears logged after the first never restart the clock. */
  lemma LaterClearsChangeNothing(log: seq<Line>, more: seq<Line>, now: real, later: real, s: real, got: real)
    requires NoPort(more) && now <= later && got >= later - 43200.0
    requires IsStart(Recent(log, now), s, got)
    requires forall t | Cleared(Some(t)) in more :: s <= t
    ensures IsStart(Recent(log + more, later), s, got)
    ensures Since(Recent(log + more, later), later) == Some(if later <= s then 0.0 else later - s)
  {
    var lines, lines' := Recent(log, now), Recent(log + more, later);
    forall line
      ensures line in lines'
              <==> (line in log || line in more) && !line.Noise? && line.at.Some? && line.at.value >= later - 43200.0
    {
      RecentIs(log + more, later, line);
    }
    forall line
      ensures line in lines <==> line in log && !line.Noise? && line.at.Some? && line.at.value >= now - 43200.0
    {
      RecentIs(log, now, line);
    }
    assert forall u | GotPort(lines', u) :: GotPort(lines, u);
    assert forall u | LostPort(lines', u) && got < u :: s <= u by {
      forall u | LostPort(lines', u) && got < u ensures s <= u {
        if Cleared(Some(u)) in log {
          assert LostPort(lines, u);
        }
      }
    }
    StartIsDated(lines', later, s, got);
  }

  /** A gap the log can date, shorter than the grace, never alerts. */
  lemma ShortGapNeverAlerts(log: seq<Line>, now: real, stillMissing: bool, s: real, got: real)
    requires IsStart(Recent(log, now), s, got) && now - s < 9000.0
    ensures Check(log, now, stillMissing) == WithinGrace(if now <= s then 0.0 else now - s)
  {
    StartIsDated(Recent(log, now), now, s, got);
  }

  /** An alert given because the window shows no obtain persists, too: nothing can date it. */
  lemma BareAlertPersists(log: seq<Line>, more: seq<Line>, now: real, later: real)
    requires NoPort(more) && now <= later && forall t :: !GotPort(Recent(log, now), t)
    ensures Check(log + more, later, true) == Alert(false)
  {
    hide Check, Recent;
    forall t ensures !GotPort(Recent(log + more, later), t) {
      assert Obtained(Some(t)) !in more;
      assert !GotPort(Recent(log, now), t);
      RecentIs(log + more, later, Obtained(Some(t)));
      RecentIs(log, now, Obtained(Some(t)));
    }
    AlertsExactly(log + more, later);
  }

  /** The one that lapses: a port was obtained and no clear was logged after it. The next clear starts
      the clock. */
  lemma UndatedAlertLapses(log: seq<Line>, now: real, later: real, got: real, cleared: real)
    requires IsLastGot(Recent(log, now), got) && (forall t | LostPort(Recent(log, now), t) :: t <= got)
    requires now <= later && later - 43200.0 <= got < cleared && later - cleared < 9000.0
    ensures Check(log + [Cleared(Some(cleared))], later, true)
            == WithinGrace(if later <= cleared then 0.0 else later - cleared)
  {
    var lines, lines' := Recent(log, now), Recent(log + [Cleared(Some(cleared))], later);
    forall t
      ensures GotPort(lines', t) <==> GotPort(lines, t) && t >= later - 43200.0
      ensures LostPort(lines', t) <==> (LostPort(lines, t) || t == cleared) && t >= later - 43200.0
    {
      RecentIs(log, now, Obtained(Some(t)));
      RecentIs(log, now, Cleared(Some(t)));
      RecentIs(log + [Cleared(Some(cleared))], later, Obtained(Some(t)));
      RecentIs(log + [Cleared(Some(cleared))], later, Cleared(Some(t)));
    }
    assert IsStart(lines', cleared, got);
    ShortGapNeverAlerts(log + [Cleared(Some(cleared))], later, true, cleared, got);
  }

  lemma LastGotExists(lines: seq<Line>, t: real) returns (got: real)
    requires GotPort(lines, t)
    ensures IsLastGot(lines, got)
  {
    var obtained := Sorted(ObtainedAt(lines), Earlier);
    StampsAre(lines, t);
    SortedElements(ObtainedAt(lines), Earlier);
    assert t in obtained;
    LastIsLatest(lines);
    got := obtained[|obtained| - 1];
  }

  ghost predicate Persists(log: seq<Line>, now: real) {
    forall more, later | NoPort(more) && now <= later :: Check(log + more, later, true) == Alert(false)
  }

  /** When an alert holds until a port is obtained, exactly: when the window shows no port obtained, or
      shows a clear after the last one. */
  lemma AlertPersistsExactly(log: seq<Line>, now: real)
    requires Check(log, now, true) == Alert(false)
    ensures Persists(log, now)
            <==> (forall t :: !GotPort(Recent(log, now), t)) || (exists s, got :: IsStart(Recent(log, now), s, got))
  {
    hide Check, Recent;
    var lines := Recent(log, now);
    if t :| GotPort(lines, t) {
      if s, got :| IsStart(lines, s, got) {
        forall more, later | NoPort(more) && now <= later ensures Check(log + more, later, true) == Alert(false) {
          AlertPersists(log, more, now, later, s, got);
        }
      } else {
        var got := LastGotExists(lines, t);
        SomeClearIsFirst(lines, got);
        var cleared := if got < now then now else got + 1.0;
        RecentIs(log, now, Obtained(Some(got)));
        UndatedAlertLapses(log, now, now, got, cleared);
        assert NoPort([Cleared(Some(cleared))]);
      }
    } else {
      forall more, later | NoPort(more) && now <= later ensures Check(log + more, later, true) == Alert(false) {
        BareAlertPersists(log, more, now, later);
      }
    }
  }

  lemma SomeClearIsFirst(lines: seq<Line>, got: real)
    requires IsLastGot(lines, got)
    ensures (forall u | LostPort(lines, u) :: u <= got) || exists s :: IsStart(lines, s, got)
  {
    hide After, ClearedAt, Min;
    var later := After(ClearedAt(lines), got);
    forall x ensures x in later <==> LostPort(lines, x) && x > got {
      AfterIs(ClearedAt(lines), got, x);
      StampsAre(lines, x);
    }
    if later != [] {
      assert IsStart(lines, Min(later), got);
    }
  }

  /** Such an alert, and the clear that ends it. */
  lemma UndatedRun()
    ensures var log := [Obtained(Some(0.0))];
            && Check(log, 60.0, true) == Alert(false)
            && Check(log + [Cleared(Some(120.0))], 180.0, true) == WithinGrace(60.0)
  {
    hide Since, Recent;
    var log := [Obtained(Some(0.0))];
    forall t ensures (GotPort(Recent(log, 60.0), t) <==> t == 0.0) && !LostPort(Recent(log, 60.0), t) {
      RecentIs(log, 60.0, Obtained(Some(t)));
      RecentIs(log, 60.0, Cleared(Some(t)));
    }
    AlertsExactly(log, 60.0);
    UndatedAlertLapses(log, 60.0, 180.0, 0.0, 120.0);
  }
}
