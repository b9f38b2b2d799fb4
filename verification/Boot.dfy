/**
 Boot-time bring-up of every stack under one time budget (`casa_boot`).

 The host is an oracle: what the n-th command does, how long it takes and how much time passes before
 it, are inputs. A command is killed when its timeout runs out, and no time passes between working a
 timeout out and starting the command under it. The order of the stacks is an input.
 */
module Boot {
  import opened Sorting
  import opened Texts
  import opened Wrappers

  const BOOT_TIMEOUT: real := 270.0
  const QUERY_TIMEOUT: real := 20.0
  const NO_VALUE := "<no value>"

  datatype Argv =
    | Up(file: string)
    | Recreate(files: seq<string>, service: string)
    | ListIds
    | Inspect(ids: seq<string>)
    | Services(file: string)

  /** `exit` is None when the command cannot be run at all. */
  datatype Outcome = Outcome(pause: real, duration: real, exit: Option<int>, stdout: seq<string>)

  type World = nat -> Outcome

  /** A command that was started; `exit` is None when it was killed. */
  datatype Call = Call(argv: Argv, start: real, end: real, exit: Option<int>)

  datatype Host = Host(now: real, next: nat, calls: seq<Call>)

  datatype Ran = NoTime | Killed | NotRunnable | Exited(code: int, stdout: seq<string>)

  datatype Container = Container(id: string, name: string, networkMode: string, configFiles: string,
                                 service: string, oneOff: string, state: string, exitCode: string)

  datatype Config = Config(paused: set<string>, resolve: string -> string)

  ghost predicate IsSane(w: World) {
    forall n :: w(n).pause >= 0.0 && w(n).duration >= 0.0
  }

  /** `_timeout` */
  function Timeout(limit: real, deadline: real, now: real): Option<real> {
    var remaining := deadline - now;
    if remaining > 0.0 then Some(if limit <= remaining then limit else remaining) else None
  }

  function Launch(w: World, h: Host, argv: Argv, limit: real, deadline: real): (Host, Ran) {
    var o, now := w(h.next), h.now + w(h.next).pause;
    match Timeout(limit, deadline, now)
    case None => (Host(now, h.next + 1, h.calls), NoTime)
    case Some(timeout) =>
      if o.exit.None? then (Host(now, h.next + 1, h.calls), NotRunnable)
      else if o.duration >= timeout then
        (Host(now + timeout, h.next + 1, h.calls + [Call(argv, now, now + timeout, None)]), Killed)
      else
        (Host(now + o.duration, h.next + 1, h.calls + [Call(argv, now, now + o.duration, o.exit)]),
         Exited(o.exit.value, o.stdout))
  }

  /** `_run_compose` */
  function RunCompose(w: World, h: Host, argv: Argv, deadline: real): (Host, int) {
    var (h', ran) := Launch(w, h, argv, BOOT_TIMEOUT, deadline);
    (h', if ran.Exited? then ran.code else if ran.NotRunnable? then 127 else 124)
  }

  /** `_docker_query`: the lines of its output. */
  function DockerQuery(w: World, h: Host, argv: Argv, deadline: real): (Host, Option<seq<string>>) {
    var (h', ran) := Launch(w, h, argv, QUERY_TIMEOUT, deadline);
    (h', if ran.Exited? && ran.code == 0 then Some(ran.stdout) else None)
  }

  // ── Containers ───────────────────────────────────────────────────────────────────────────────

  function RemovePrefix(s: string, prefix: string): string {
    if prefix <= s then s[|prefix|..] else s
  }

  function ParseRow(line: string): Option<Container> {
    var f := SplitOn(line, '\t');
    if |f| != 8 then None
    else Some(Container(f[0], RemovePrefix(f[1], "/"), f[2], f[3], f[4], f[5], f[6], f[7]))
  }

  function ParseRows(lines: seq<string>): Option<seq<Container>> {
    if lines == [] then Some([])
    else
      var first, rest := ParseRow(lines[0]), ParseRows(lines[1..]);
      if first.None? || rest.None? then None else Some([first.value] + rest.value)
  }

  /** `_containers`: every container, stopped ones too; None when any of it cannot be read. */
  function Containers(w: World, h: Host, deadline: real): (Host, Option<seq<Container>>) {
    var (h1, ids) := DockerQuery(w, h, ListIds, deadline);
    if ids.None? then (h1, None)
    else if NonEmpty(ids.value) == [] then (h1, Some([]))
    else
      var (h2, rows) := DockerQuery(w, h1, Inspect(NonEmpty(ids.value)), deadline);
      (h2, if rows.None? then None else ParseRows(rows.value))
  }

  predicate IsMissing(text: string) {
    text == "" || text == NO_VALUE
  }

  function ComposeFiles(text: string): seq<string> {
    if IsMissing(text) then [] else NonEmpty(SplitOn(text, ','))
  }

  predicate BelongsToActive(k: Config, c: Container, active: seq<string>) {
    exists i :: 0 <= i < |ComposeFiles(c.configFiles)| && k.resolve(ComposeFiles(c.configFiles)[i]) in active
  }

  predicate IsOneOff(c: Container) {
    Lower(c.oneOff) == "true"
  }

  // ── Dead namespaces ──────────────────────────────────────────────────────────────────────────

  const CONTAINER_MODE := "container:"

  predicate IsContainerId(s: string) {
    12 <= |s| <= 64 && forall i | 0 <= i < |s| :: '0' <= s[i] <= '9' || 'a' <= s[i] <= 'f'
  }

  function Matching(containers: seq<Container>, id: string): nat {
    if containers == [] then 0 else (if id <= containers[0].id then 1 else 0) + Matching(containers[1..], id)
  }

  predicate IsLive(id: string, containers: seq<Container>) {
    (exists c :: c in containers && c.name == id) || Matching(containers, id) == 1
  }

  /** The container shares the network of one that is gone, and an active stack can recreate it. */
  predicate NeedsRepair(k: Config, c: Container, containers: seq<Container>, active: seq<string>) {
    && c.name !in k.paused && !IsOneOff(c)
    && CONTAINER_MODE <= c.networkMode
    && IsContainerId(c.networkMode[|CONTAINER_MODE|..]) && !IsLive(c.networkMode[|CONTAINER_MODE|..], containers)
    && ComposeFiles(c.configFiles) != [] && !IsMissing(c.service)
    && BelongsToActive(k, c, active)
  }

  function RepairOf(c: Container): Argv {
    Recreate(ComposeFiles(c.configFiles), c.service)
  }

  function Repairs(k: Config, some: seq<Container>, containers: seq<Container>, active: seq<string>): seq<Container> {
    if some == [] then []
    else
      Repairs(k, some[..|some| - 1], containers, active)
      + if NeedsRepair(k, some[|some| - 1], containers, active) then [some[|some| - 1]] else []
  }

  /** The commands in order, and those of them that did not exit 0. */
  function RunAll(w: World, h: Host, argvs: seq<Argv>, deadline: real): (Host, seq<Argv>) {
    if argvs == [] then (h, [])
    else
      var (h1, failed) := RunAll(w, h, argvs[..|argvs| - 1], deadline);
      var (h2, code) := RunCompose(w, h1, argvs[|argvs| - 1], deadline);
      (h2, if code != 0 then failed + [argvs[|argvs| - 1]] else failed)
  }

  function ArgvsOf(repairs: seq<Container>): (argvs: seq<Argv>)
    ensures |argvs| == |repairs| && forall i | 0 <= i < |argvs| :: argvs[i] == RepairOf(repairs[i])
  {
    if repairs == [] then [] else [RepairOf(repairs[0])] + ArgvsOf(repairs[1..])
  }

  /** `repair_dead_namespace_references`: how many repairs failed; one, when nothing could be read. */
  function Repair(w: World, h: Host, k: Config, active: seq<string>, deadline: real): (Host, nat) {
    var (h1, containers) := Containers(w, h, deadline);
    if containers.None? then (h1, 1)
    else
      var (h2, failed) := RunAll(w, h1, ArgvsOf(Repairs(k, containers.value, containers.value, active)), deadline);
      (h2, |failed|)
  }

  // ── The final verification ───────────────────────────────────────────────────────────────────

  function Stripped(lines: seq<string>): set<string> {
    if lines == [] then {}
    else Stripped(lines[..|lines| - 1])
         + if Strip(lines[|lines| - 1]) == "" then {} else {Strip(lines[|lines| - 1])}
  }

  /** `_declared_services`, over the files read so far: None when any could not be read. */
  function Declared(w: World, h: Host, files: seq<string>, deadline: real): (Host, Option<set<string>>) {
    if files == [] then (h, Some({}))
    else
      var (h1, before) := Declared(w, h, files[..|files| - 1], deadline);
      if before.None? then (h1, None)
      else
        var (h2, output) := DockerQuery(w, h1, Services(files[|files| - 1]), deadline);
        (h2, if output.None? then None else Some(before.value + Stripped(output.value)))
  }

  predicate IsOrphan(c: Container, declared: Option<set<string>>) {
    declared.Some? && c.service != "" && c.service !in declared.value
  }

  predicate IsRequired(k: Config, c: Container, active: seq<string>, declared: Option<set<string>>) {
    BelongsToActive(k, c, active) && !IsOrphan(c, declared) && c.name !in k.paused && !IsOneOff(c)
  }

  predicate IsDown(k: Config, c: Container, active: seq<string>, declared: Option<set<string>>) {
    IsRequired(k, c, active, declared) && c.state != "running"
  }

  function UpsOf(stacks: seq<string>): (argvs: seq<Argv>)
    ensures |argvs| == |stacks| && forall i | 0 <= i < |argvs| :: argvs[i] == Up(stacks[i])
  {
    if stacks == [] then [] else [Up(stacks[0])] + UpsOf(stacks[1..])
  }

  function Resolved(k: Config, stacks: seq<string>): seq<string> {
    if stacks == [] then []
    else
      var before, file := Resolved(k, stacks[..|stacks| - 1]), k.resolve(stacks[|stacks| - 1]);
      if file in before then before else before + [file]
  }

  /** What the run came to. */
  datatype Report = Report(code: int, repairFailures: nat, retryFailed: seq<Argv>,
                           final: Option<seq<Container>>, declared: Option<set<string>>)

  /** `bring_up_all_stacks`, from the moment the deadline is set. */
  function BringUp(w: World, h: Host, k: Config, stacks: seq<string>, deadline: real): (Host, Report) {
    var active := Sorted(Resolved(k, stacks), TextBefore);
    var (h1, failed) := RunAll(w, h, UpsOf(stacks), deadline);
    var (h2, repairFailures) := Repair(w, h1, k, active, deadline);
    var (h3, retryFailed) := RunAll(w, h2, failed, deadline);
    var (h4, final) := Containers(w, h3, deadline);
    if final.None? then (h4, Report(1, repairFailures, retryFailed, None, None))
    else
      var (h5, declared) := Declared(w, h4, active, deadline);
      var bad := || (exists c :: c in final.value && IsDown(k, c, active, declared))
                 || retryFailed != [] || repairFailures != 0;
      (h5, Report(if bad then 1 else 0, repairFailures, retryFailed, final, declared))
  }

  // ── The budget ───────────────────────────────────────────────────────────────────────────────

  /** Time goes on, and every command started meanwhile starts before the deadline and ends by it. */
  predicate InBudget(h: Host, h': Host, deadline: real) {
    && h.now <= h'.now && h.calls <= h'.calls
    && forall i | |h.calls| <= i < |h'.calls| ::
         && h.now <= h'.calls[i].start < deadline
         && h'.calls[i].start <= h'.calls[i].end <= deadline
         && h'.calls[i].end <= h'.calls[i].start + Limit(h'.calls[i].argv)
  }

  /** Compose gets 270 seconds, a query 20. */
  function Limit(argv: Argv): real {
    if argv.Up? || argv.Recreate? then 270.0 else 20.0
  }

  lemma LaunchInBudget(w: World, h: Host, argv: Argv, limit: real, deadline: real)
    requires IsSane(w) && limit == Limit(argv)
    ensures InBudget(h, Launch(w, h, argv, limit, deadline).0, deadline)
  {
  }

  lemma InBudgetThen(a: Host, b: Host, c: Host, deadline: real)
    requires InBudget(a, b, deadline) && InBudget(b, c, deadline)
    ensures InBudget(a, c, deadline)
  {
    assert forall i | |a.calls| <= i < |b.calls| :: c.calls[i] == b.calls[i];
  }

  lemma ContainersInBudget(w: World, h: Host, deadline: real)
    requires IsSane(w)
    ensures InBudget(h, Containers(w, h, deadline).0, deadline)
  {
    var (h1, ids) := DockerQuery(w, h, ListIds, deadline);
    LaunchInBudget(w, h, ListIds, QUERY_TIMEOUT, deadline);
    if ids.Some? && NonEmpty(ids.value) != [] {
      LaunchInBudget(w, h1, Inspect(NonEmpty(ids.value)), QUERY_TIMEOUT, deadline);
      InBudgetThen(h, h1, Containers(w, h, deadline).0, deadline);
    }
  }

  lemma {:induction false} RunAllInBudget(w: World, h: Host, argvs: seq<Argv>, deadline: real)
    requires IsSane(w) && forall a | a in argvs :: a.Up? || a.Recreate?
    ensures InBudget(h, RunAll(w, h, argvs, deadline).0, deadline)
  {
    if argvs != [] {
      var (h1, failed) := RunAll(w, h, argvs[..|argvs| - 1], deadline);
      RunAllInBudget(w, h, argvs[..|argvs| - 1], deadline);
      LaunchInBudget(w, h1, argvs[|argvs| - 1], BOOT_TIMEOUT, deadline);
      InBudgetThen(h, h1, RunAll(w, h, argvs, deadline).0, deadline);
    }
  }

  lemma {:induction false} DeclaredInBudget(w: World, h: Host, files: seq<string>, deadline: real)
    requires IsSane(w)
    ensures InBudget(h, Declared(w, h, files, deadline).0, deadline)
  {
    if files != [] {
      var (h1, before) := Declared(w, h, files[..|files| - 1], deadline);
      DeclaredInBudget(w, h, files[..|files| - 1], deadline);
      if before.Some? {
        LaunchInBudget(w, h1, Services(files[|files| - 1]), QUERY_TIMEOUT, deadline);
        InBudgetThen(h, h1, Declared(w, h, files, deadline).0, deadline);
      }
    }
  }

  lemma RepairInBudget(w: World, h: Host, k: Config, active: seq<string>, deadline: real)
    requires IsSane(w)
    ensures InBudget(h, Repair(w, h, k, active, deadline).0, deadline)
  {
    var (h1, containers) := Containers(w, h, deadline);
    ContainersInBudget(w, h, deadline);
    if containers.Some? {
      var argvs := ArgvsOf(Repairs(k, containers.value, containers.value, active));
      RunAllInBudget(w, h1, argvs, deadline);
      InBudgetThen(h, h1, RunAll(w, h1, argvs, deadline).0, deadline);
    }
  }

  /** Every command of a boot ends by the deadline, and none is started once it has passed. */
  lemma BootKeepsItsBudget(w: World, h: Host, k: Config, stacks: seq<string>, deadline: real)
    requires IsSane(w)
    ensures InBudget(h, BringUp(w, h, k, stacks, deadline).0, deadline)
  {
    var active := Sorted(Resolved(k, stacks), TextBefore);
    var (h1, failed) := RunAll(w, h, UpsOf(stacks), deadline);
    RunAllInBudget(w, h, UpsOf(stacks), deadline);
    var (h2, repairFailures) := Repair(w, h1, k, active, deadline);
    RepairInBudget(w, h1, k, active, deadline);
    InBudgetThen(h, h1, h2, deadline);
    var (h3, retryFailed) := RunAll(w, h2, failed, deadline);
    RunAllFails(w, h, UpsOf(stacks), deadline);
    RunAllInBudget(w, h2, failed, deadline);
    InBudgetThen(h, h2, h3, deadline);
    var (h4, final) := Containers(w, h3, deadline);
    ContainersInBudget(w, h3, deadline);
    InBudgetThen(h, h3, h4, deadline);
    if final.Some? {
      DeclaredInBudget(w, h4, active, deadline);
      InBudgetThen(h, h4, Declared(w, h4, active, deadline).0, deadline);
    }
  }

  // ── The verdict ──────────────────────────────────────────────────────────────────────────────

  /** Among the calls from the `from`-th on, one of `argv` exited 0. */
  predicate Succeeded(calls: seq<Call>, from: nat, argv: Argv) {
    exists i :: from <= i < |calls| && calls[i].argv == argv && calls[i].exit == Some(0)
  }

  predicate AllOf(calls: seq<Call>, from: nat, argvs: seq<Argv>) {
    forall i | from <= i < |calls| :: calls[i].argv in argvs
  }

  predicate Distinct(argvs: seq<Argv>) {
    forall i, j | 0 <= i < j < |argvs| :: argvs[i] != argvs[j]
  }

  /** The call that a command makes, if it is started. */
  predicate Adds(h: Host, h': Host, argv: Argv, code: int) {
    || (h'.calls == h.calls && code != 0)
    || (|h'.calls| == |h.calls| + 1 && h'.calls[..|h.calls|] == h.calls && h'.calls[|h.calls|].argv == argv
        && (code == 0 <==> h'.calls[|h.calls|].exit == Some(0)))
  }

  lemma ComposeAdds(w: World, h: Host, argv: Argv, deadline: real)
    ensures Adds(h, RunCompose(w, h, argv, deadline).0, argv, RunCompose(w, h, argv, deadline).1)
  {
  }

  lemma SucceededNext(h: Host, h1: Host, h2: Host, argv: Argv, code: int, other: Argv)
    requires h.calls <= h1.calls && Adds(h1, h2, argv, code)
    ensures h.calls <= h2.calls
    ensures Succeeded(h2.calls, |h.calls|, other)
            <==> Succeeded(h1.calls, |h.calls|, other) || (other == argv && code == 0)
  {
    if Succeeded(h1.calls, |h.calls|, other) {
      var i :| |h.calls| <= i < |h1.calls| && h1.calls[i].argv == other && h1.calls[i].exit == Some(0);
      assert h2.calls[i] == h1.calls[i];
    }
    assert forall i | |h.calls| <= i < |h1.calls| :: h2.calls[i] == h1.calls[i];
  }

  /** The commands that failed are, in order, those of which no call exited 0. */
  lemma {:induction false} RunAllFails(w: World, h: Host, argvs: seq<Argv>, deadline: real)
    ensures var (h', failed) := RunAll(w, h, argvs, deadline);
            && h.calls <= h'.calls && AllOf(h'.calls, |h.calls|, argvs)
            && (forall a | a in failed :: a in argvs)
            && (forall a | a in argvs && a !in failed :: Succeeded(h'.calls, |h.calls|, a))
            && (Distinct(argvs) ==> Distinct(failed) && forall a | a in failed :: !Succeeded(h'.calls, |h.calls|, a))
  {
    if argvs != [] {
      var front, last := argvs[..|argvs| - 1], argvs[|argvs| - 1];
      RunAllFails(w, h, front, deadline);
      var (h1, before) := RunAll(w, h, front, deadline);
      var (h2, code) := RunCompose(w, h1, last, deadline);
      ComposeAdds(w, h1, last, deadline);
      assert argvs == front + [last];
      forall a
        ensures Succeeded(h2.calls, |h.calls|, a) <==> Succeeded(h1.calls, |h.calls|, a) || (a == last && code == 0)
      {
        SucceededNext(h, h1, h2, last, code, a);
      }
      AllOfNext(h, h1, h2, last, code, front);
      if Distinct(argvs) {
        assert last !in front;
        assert !Succeeded(h1.calls, |h.calls|, last);
      }
    }
  }

  lemma AllOfNext(h: Host, h1: Host, h2: Host, last: Argv, code: int, front: seq<Argv>)
    requires h.calls <= h1.calls && Adds(h1, h2, last, code) && AllOf(h1.calls, |h.calls|, front)
    ensures h.calls <= h2.calls && AllOf(h2.calls, |h.calls|, front + [last])
  {
    assert forall i | |h.calls| <= i < |h1.calls| :: h2.calls[i] == h1.calls[i];
  }

  /** No stack is brought up meanwhile. */
  predicate NoUp(h: Host, h': Host) {
    h.calls <= h'.calls && forall i | |h.calls| <= i < |h'.calls| :: !h'.calls[i].argv.Up?
  }

  lemma LaunchNoUp(w: World, h: Host, argv: Argv, limit: real, deadline: real)
    requires !argv.Up?
    ensures NoUp(h, Launch(w, h, argv, limit, deadline).0)
  {
  }

  lemma NoUpThen(a: Host, b: Host, c: Host)
    requires NoUp(a, b) && NoUp(b, c)
    ensures NoUp(a, c)
  {
    assert forall i | |a.calls| <= i < |b.calls| :: c.calls[i] == b.calls[i];
  }

  lemma ContainersNoUp(w: World, h: Host, deadline: real)
    ensures NoUp(h, Containers(w, h, deadline).0)
  {
    var (h1, ids) := DockerQuery(w, h, ListIds, deadline);
    LaunchNoUp(w, h, ListIds, QUERY_TIMEOUT, deadline);
    if ids.Some? && NonEmpty(ids.value) != [] {
      LaunchNoUp(w, h1, Inspect(NonEmpty(ids.value)), QUERY_TIMEOUT, deadline);
      NoUpThen(h, h1, Containers(w, h, deadline).0);
    }
  }

  lemma {:induction false} DeclaredNoUp(w: World, h: Host, files: seq<string>, deadline: real)
    ensures NoUp(h, Declared(w, h, files, deadline).0)
  {
    if files != [] {
      var (h1, before) := Declared(w, h, files[..|files| - 1], deadline);
      DeclaredNoUp(w, h, files[..|files| - 1], deadline);
      if before.Some? {
        LaunchNoUp(w, h1, Services(files[|files| - 1]), QUERY_TIMEOUT, deadline);
        NoUpThen(h, h1, Declared(w, h, files, deadline).0);
      }
    }
  }

  lemma RepairNoUp(w: World, h: Host, k: Config, active: seq<string>, deadline: real)
    ensures NoUp(h, Repair(w, h, k, active, deadline).0)
  {
    var (h1, containers) := Containers(w, h, deadline);
    ContainersNoUp(w, h, deadline);
    if containers.Some? {
      var argvs := ArgvsOf(Repairs(k, containers.value, containers.value, active));
      RunAllFails(w, h1, argvs, deadline);
      assert forall a | a in argvs :: a.Recreate?;
      NoUpThen(h, h1, RunAll(w, h1, argvs, deadline).0);
    }
  }

  /** Success over two stretches of the trace. */
  lemma SucceededOver(a: Host, b: Host, c: Host, argv: Argv)
    requires a.calls <= b.calls <= c.calls
    ensures Succeeded(c.calls, |a.calls|, argv)
            <==> Succeeded(b.calls, |a.calls|, argv) || Succeeded(c.calls, |b.calls|, argv)
  {
    assert forall i | |a.calls| <= i < |b.calls| :: c.calls[i] == b.calls[i];
    if Succeeded(b.calls, |a.calls|, argv) {
      var i :| |a.calls| <= i < |b.calls| && b.calls[i].argv == argv && b.calls[i].exit == Some(0);
      assert c.calls[i].argv == argv;
    }
  }

  lemma NoUpNoSuccess(a: Host, b: Host, file: string)
    requires NoUp(a, b)
    ensures !Succeeded(b.calls, |a.calls|, Up(file))
  {
  }

  /** Up to the retry, a stack is among the failed ones exactly if no `up` of it exited 0, at first or
      on retry. */
  lemma RetryFailsExactly(w: World, h: Host, k: Config, stacks: seq<string>, active: seq<string>, deadline: real,
                          file: string)
    requires file in stacks && forall i, j | 0 <= i < j < |stacks| :: stacks[i] != stacks[j]
    ensures var (h1, failed) := RunAll(w, h, UpsOf(stacks), deadline);
            var h2 := Repair(w, h1, k, active, deadline).0;
            var (h3, retryFailed) := RunAll(w, h2, failed, deadline);
            h.calls <= h3.calls && (Up(file) in retryFailed <==> !Succeeded(h3.calls, |h.calls|, Up(file)))
  {
    var (h1, failed) := RunAll(w, h, UpsOf(stacks), deadline);
    RunAllFails(w, h, UpsOf(stacks), deadline);
    var h2 := Repair(w, h1, k, active, deadline).0;
    RepairNoUp(w, h1, k, active, deadline);
    var (h3, retryFailed) := RunAll(w, h2, failed, deadline);
    RunAllFails(w, h2, failed, deadline);
    NoUpNoSuccess(h1, h2, file);
    SucceededOver(h, h1, h2, Up(file));
    SucceededOver(h, h2, h3, Up(file));
    var i :| 0 <= i < |stacks| && stacks[i] == file;
    assert UpsOf(stacks)[i] == Up(file);
    if Up(file) !in failed {
      assert Succeeded(h1.calls, |h.calls|, Up(file));
    } else if Up(file) !in retryFailed {
      assert Succeeded(h3.calls, |h2.calls|, Up(file));
    }
  }

  lemma {:induction false} RepairsAre(k: Config, some: seq<Container>, containers: seq<Container>, active: seq<string>,
                                      c: Container)
    ensures c in Repairs(k, some, containers, active) <==> c in some && NeedsRepair(k, c, containers, active)
  {
    if some != [] {
      RepairsAre(k, some[..|some| - 1], containers, active, c);
      assert some == some[..|some| - 1] + [some[|some| - 1]];
    }
  }

  /** With no repair failed, every container that needed one was recreated. */
  lemma RepairsSucceed(w: World, h: Host, k: Config, active: seq<string>, deadline: real, c: Container)
    requires Repair(w, h, k, active, deadline).1 == 0
    ensures Containers(w, h, deadline).1.Some?
    ensures var containers := Containers(w, h, deadline).1.value;
            c in containers && NeedsRepair(k, c, containers, active)
            ==> Succeeded(Repair(w, h, k, active, deadline).0.calls, |h.calls|, RepairOf(c))
  {
    hide NeedsRepair, Containers, RunAll, RepairOf;
    var (h1, containers) := Containers(w, h, deadline);
    ContainersNoUp(w, h, deadline);
    var repairs := Repairs(k, containers.value, containers.value, active);
    RunAllFails(w, h1, ArgvsOf(repairs), deadline);
    if c in containers.value && NeedsRepair(k, c, containers.value, active) {
      RepairsAre(k, containers.value, containers.value, active, c);
      var i :| 0 <= i < |repairs| && repairs[i] == c;
      assert ArgvsOf(repairs)[i] == RepairOf(c);
      SucceededOver(h, h1, RunAll(w, h1, ArgvsOf(repairs), deadline).0, RepairOf(c));
    }
  }

  /** What follows the retry brings nothing up. */
  lemma AfterRetry(w: World, h: Host, k: Config, stacks: seq<string>, deadline: real) returns (h2: Host, h3: Host)
    ensures var active := Sorted(Resolved(k, stacks), TextBefore);
            var (h1, failed) := RunAll(w, h, UpsOf(stacks), deadline);
            var (h', report) := BringUp(w, h, k, stacks, deadline);
            && (h2, report.repairFailures) == Repair(w, h1, k, active, deadline)
            && (h3, report.retryFailed) == RunAll(w, h2, failed, deadline)
            && h.calls <= h1.calls <= h2.calls <= h3.calls && NoUp(h3, h')
  {
    var active := Sorted(Resolved(k, stacks), TextBefore);
    var (h1, failed) := RunAll(w, h, UpsOf(stacks), deadline);
    RunAllFails(w, h, UpsOf(stacks), deadline);
    h2 := Repair(w, h1, k, active, deadline).0;
    RepairNoUp(w, h1, k, active, deadline);
    h3 := RunAll(w, h2, failed, deadline).0;
    RunAllFails(w, h2, failed, deadline);
    var (h4, final) := Containers(w, h3, deadline);
    ContainersNoUp(w, h3, deadline);
    if final.Some? {
      DeclaredNoUp(w, h4, active, deadline);
      NoUpThen(h3, h4, Declared(w, h4, active, deadline).0);
    }
  }

  /** The boot answers 0 exactly when some `up` of every stack exited 0, no repair failed, and no
      required container of the final snapshot is stopped. */
  lemma ZeroExactly(w: World, h: Host, k: Config, stacks: seq<string>, deadline: real)
    requires forall i, j | 0 <= i < j < |stacks| :: stacks[i] != stacks[j]
    ensures var (h', report) := BringUp(w, h, k, stacks, deadline);
            var active := Sorted(Resolved(k, stacks), TextBefore);
            && (report.code == 0 || report.code == 1)
            && (report.code == 0 <==>
              && (forall file | file in stacks :: Succeeded(h'.calls, |h.calls|, Up(file)))
              && report.repairFailures == 0
              && report.final.Some?
              && forall c | c in report.final.value && IsRequired(k, c, active, report.declared) ::
                   c.state == "running")
  {
    var (h', report) := BringUp(w, h, k, stacks, deadline);
    var active := Sorted(Resolved(k, stacks), TextBefore);
    var failed := RunAll(w, h, UpsOf(stacks), deadline).1;
    var h2, h3 := AfterRetry(w, h, k, stacks, deadline);
    RunAllFails(w, h, UpsOf(stacks), deadline);
    RunAllFails(w, h2, failed, deadline);
    forall file | file in stacks
      ensures Up(file) in report.retryFailed <==> !Succeeded(h'.calls, |h.calls|, Up(file))
    {
      RetryFailsExactly(w, h, k, stacks, active, deadline, file);
      NoUpNoSuccess(h3, h', file);
      SucceededOver(h, h3, h', Up(file));
    }
    if report.retryFailed != [] {
      var a := report.retryFailed[0];
      assert a in report.retryFailed && a in UpsOf(stacks);
      var i :| 0 <= i < |stacks| && UpsOf(stacks)[i] == a;
      assert stacks[i] in stacks;
    }
  }

  /** ... and then every container that shared the network of one that was gone was recreated. */
  lemma ZeroMeansRepaired(w: World, h: Host, k: Config, stacks: seq<string>, deadline: real, c: Container)
    requires BringUp(w, h, k, stacks, deadline).1.code == 0
    ensures var active := Sorted(Resolved(k, stacks), TextBefore);
            var h1 := RunAll(w, h, UpsOf(stacks), deadline).0;
            var containers := Containers(w, h1, deadline).1;
            containers.Some? && (c in containers.value && NeedsRepair(k, c, containers.value, active)
                                 ==> Succeeded(BringUp(w, h, k, stacks, deadline).0.calls, |h.calls|, RepairOf(c)))
  {
    var active := Sorted(Resolved(k, stacks), TextBefore);
    var h1 := RunAll(w, h, UpsOf(stacks), deadline).0;
    var h2, h3 := AfterRetry(w, h, k, stacks, deadline);
    var h' := BringUp(w, h, k, stacks, deadline).0;
    RepairsSucceed(w, h1, k, active, deadline, c);
    SucceededOver(h, h1, h2, RepairOf(c));
    SucceededOver(h, h2, h3, RepairOf(c));
    SucceededOver(h, h3, h', RepairOf(c));
  }

  // ── One command ──────────────────────────────────────────────────────────────────────────────

  /** A command is started exactly if time is left and it can be run at all; it ends when it is done, or is killed at
      its limit or at the deadline, whichever comes first. */
  lemma LaunchExactly(w: World, h: Host, argv: Argv, limit: real, deadline: real)
    ensures var (h', ran) := Launch(w, h, argv, limit, deadline);
            var o, start := w(h.next), h.now + w(h.next).pause;
            && h'.next == h.next + 1
            && if start >= deadline then ran == NoTime && h'.calls == h.calls && h'.now == start
               else if o.exit.None? then ran == NotRunnable && h'.calls == h.calls && h'.now == start
               else if o.duration < limit && start + o.duration < deadline then
                 && ran == Exited(o.exit.value, o.stdout) && h'.now == start + o.duration
                 && h'.calls == h.calls + [Call(argv, start, start + o.duration, o.exit)]
               else
                 && ran == Killed && h'.now == (if start + limit <= deadline then start + limit else deadline)
                 && h'.calls == h.calls + [Call(argv, start, h'.now, None)]
  {
  }

  /** Compose gets 270 seconds; a command that could not be run answers 127, and one that had no time or was killed
      124. */
  lemma ComposeExactly(w: World, h: Host, argv: Argv, deadline: real)
    ensures var (h', ran) := Launch(w, h, argv, 270.0, deadline);
            && RunCompose(w, h, argv, deadline).0 == h'
            && RunCompose(w, h, argv, deadline).1
               == if ran.Exited? then ran.code else if ran == NotRunnable then 127 else 124
  {
  }

  /** A query gets 20 seconds, and answers only if it exits 0. */
  lemma QueryExactly(w: World, h: Host, argv: Argv, deadline: real, lines: seq<string>)
    ensures var (h', ran) := Launch(w, h, argv, 20.0, deadline);
            && DockerQuery(w, h, argv, deadline).0 == h'
            && (DockerQuery(w, h, argv, deadline).1 == Some(lines) <==> ran == Exited(0, lines))
  {
  }

  /** The rows are the containers, in order; one bad row makes all of it unreadable. */
  lemma {:induction false} RowsExactly(lines: seq<string>)
    ensures ParseRows(lines).None? <==> exists line :: line in lines && ParseRow(line).None?
    ensures ParseRows(lines).Some?
            ==> && |ParseRows(lines).value| == |lines|
                && forall i | 0 <= i < |lines| :: ParseRow(lines[i]) == Some(ParseRows(lines).value[i])
  {
    hide ParseRow;
    if lines != [] {
      RowsExactly(lines[1..]);
      assert lines == [lines[0]] + lines[1..];
      assert forall i | 0 < i < |lines| :: lines[i] == lines[1..][i - 1];
    }
  }

  /** The snapshot: the ids first, then one inspection of them all; no ids, no containers. */
  lemma ContainersExactly(w: World, h: Host, deadline: real)
    ensures var (h1, ids) := DockerQuery(w, h, ListIds, deadline);
            && (ids.None? ==> Containers(w, h, deadline) == (h1, None))
            && (ids.Some? && (forall id | id in ids.value :: id == "") ==> Containers(w, h, deadline) == (h1, Some([])))
            && (ids.Some? && (exists id :: id in ids.value && id != "")
                ==> var (h2, rows) := DockerQuery(w, h1, Inspect(NonEmpty(ids.value)), deadline);
                    && Containers(w, h, deadline).0 == h2
                    && Containers(w, h, deadline).1 == if rows.Some? then ParseRows(rows.value) else None)
  {
    hide DockerQuery, ParseRows, NonEmpty;
    var ids := DockerQuery(w, h, ListIds, deadline).1;
    if ids.Some? {
      NonEmptyAre(ids.value);
      if NonEmpty(ids.value) != [] {
        assert NonEmpty(ids.value)[0] in NonEmpty(ids.value);
        var h1 := DockerQuery(w, h, ListIds, deadline).0;
        var rows := DockerQuery(w, h1, Inspect(NonEmpty(ids.value)), deadline).1;
        assert Containers(w, h, deadline).1 == if rows.None? then None else ParseRows(rows.value);
      }
    }
  }

  /** A repair pass that cannot read the containers counts as one failure, and runs nothing further. */
  lemma UnreadableRepairFails(w: World, h: Host, k: Config, active: seq<string>, deadline: real)
    ensures var (h1, containers) := Containers(w, h, deadline);
            containers.None? ==> Repair(w, h, k, active, deadline) == (h1, 1)
  {
  }

  // ── On the fields themselves ─────────────────────────────────────────────────────────────────

  /** A row of `docker inspect`, in the order of its format; the name comes with a slash. */
  function RowText(c: Container): string {
    c.id + ("\t" + (("/" + c.name) + ("\t" + (c.networkMode + ("\t" + (c.configFiles + ("\t" + RowEnd(c))))))))
  }

  function RowEnd(c: Container): string {
    c.service + ("\t" + (c.oneOff + ("\t" + (c.state + ("\t" + c.exitCode)))))
  }

  /** Eight fields without tabs, joined by tabs, read as the container with these fields; the slash before its
      name is dropped. Any other number of tabs is no row. */
  lemma RowReads(c: Container)
    requires '\t' !in c.id && '\t' !in c.name && '\t' !in c.networkMode && '\t' !in c.configFiles
    requires '\t' !in c.service && '\t' !in c.oneOff && '\t' !in c.state && '\t' !in c.exitCode
    ensures ParseRow(RowText(c)) == Some(c)
  {
    hide SplitOn;
    SplitsAt(c.state, c.exitCode);
    SplitOnNone(c.exitCode, '\t');
    SplitsAt(c.oneOff, c.state + ("\t" + c.exitCode));
    SplitsAt(c.service, c.oneOff + ("\t" + (c.state + ("\t" + c.exitCode))));
    var fromService := c.service + ("\t" + (c.oneOff + ("\t" + (c.state + ("\t" + c.exitCode)))));
    SplitsAt(c.configFiles, fromService);
    SplitsAt(c.networkMode, c.configFiles + ("\t" + fromService));
    SplitsAt("/" + c.name, c.networkMode + ("\t" + (c.configFiles + ("\t" + fromService))));
    SplitsAt(c.id, ("/" + c.name) + ("\t" + (c.networkMode + ("\t" + (c.configFiles + ("\t" + fromService))))));
    assert ("/" + c.name)[1..] == c.name;
  }

  lemma SplitsAt(field: string, rest: string)
    requires '\t' !in field
    ensures SplitOn(field + ("\t" + rest), '\t') == [field] + SplitOn(rest, '\t')
  {
    SplitOnBoth(field, rest, '\t');
    SplitOnNone(field, '\t');
  }

  lemma RowNeedsSevenTabs(line: string)
    ensures ParseRow(line).Some? <==> multiset(line)['\t'] == 7
  {
    PartsAreCounted(line, '\t');
  }

  /** The only container whose id begins so. */
  predicate IsOnly(containers: seq<Container>, id: string, i: nat) {
    i < |containers| && id <= containers[i].id
    && forall j | 0 <= j < |containers| && j != i :: !(id <= containers[j].id)
  }

  /** What a `container:` mode can refer to: a container's name, or the start of exactly one id. */
  ghost predicate TargetIsThere(id: string, containers: seq<Container>) {
    (exists c :: c in containers && c.name == id) || exists i :: IsOnly(containers, id, i)
  }

  lemma {:induction false} NoneMatches(containers: seq<Container>, id: string)
    ensures Matching(containers, id) == 0 <==> forall i | 0 <= i < |containers| :: !(id <= containers[i].id)
  {
    if containers != [] {
      NoneMatches(containers[1..], id);
      assert forall i | 0 < i < |containers| :: containers[i] == containers[1..][i - 1];
    }
  }

  lemma OnlyInRest(containers: seq<Container>, id: string, i: nat)
    requires containers != [] && !(id <= containers[0].id)
    ensures IsOnly(containers[1..], id, i) <==> IsOnly(containers, id, i + 1)
  {
    var rest := containers[1..];
    assert forall j | 0 <= j < |rest| :: rest[j] == containers[j + 1];
    assert forall j | 0 < j < |containers| :: containers[j] == rest[j - 1];
  }

  lemma {:induction false} OneMatchesExactly(containers: seq<Container>, id: string)
    ensures Matching(containers, id) == 1 <==> exists i :: IsOnly(containers, id, i)
  {
    if containers != [] {
      var rest := containers[1..];
      OneMatchesExactly(rest, id);
      NoneMatches(rest, id);
      assert forall j | 0 < j < |containers| :: containers[j] == rest[j - 1];
      if id <= containers[0].id {
        assert forall i | IsOnly(containers, id, i) :: i == 0;
        assert (forall j | 0 <= j < |rest| :: !(id <= rest[j].id)) <==> IsOnly(containers, id, 0) by {
          assert forall j | 0 <= j < |rest| :: rest[j] == containers[j + 1];
        }
      } else {
        forall i: nat ensures IsOnly(rest, id, i) <==> IsOnly(containers, id, i + 1) {
          OnlyInRest(containers, id, i);
        }
        forall i: nat | IsOnly(containers, id, i) ensures exists n :: IsOnly(rest, id, n) {
          assert i != 0;
          OnlyInRest(containers, id, i - 1);
        }
      }
    }
  }

  lemma LiveIsThere(id: string, containers: seq<Container>)
    ensures IsLive(id, containers) <==> TargetIsThere(id, containers)
  {
    OneMatchesExactly(containers, id);
  }

  /** One of the container's compose files is an active stack's. */
  ghost predicate IsOfActiveStack(k: Config, c: Container, active: seq<string>) {
    c.configFiles != "<no value>"
    && exists path :: path in SplitOn(c.configFiles, ',') && path != "" && k.resolve(path) in active
  }

  lemma ActiveIs(k: Config, c: Container, active: seq<string>)
    ensures BelongsToActive(k, c, active) <==> IsOfActiveStack(k, c, active)
    ensures IsOfActiveStack(k, c, active) ==> ComposeFiles(c.configFiles) == NonEmpty(SplitOn(c.configFiles, ',')) != []
  {
    hide SplitOn, NonEmpty;
    var files := NonEmpty(SplitOn(c.configFiles, ','));
    NonEmptyAre(SplitOn(c.configFiles, ','));
    SplitOnNone("", ',');
    if path :| path in SplitOn(c.configFiles, ',') && path != "" && k.resolve(path) in active {
      assert path in files;
      assert c.configFiles == "" ==> path in [""];
      if !IsMissing(c.configFiles) {
        var i :| 0 <= i < |files| && files[i] == path;
        assert k.resolve(ComposeFiles(c.configFiles)[i]) in active;
      }
    }
    if BelongsToActive(k, c, active) {
      var i :| 0 <= i < |ComposeFiles(c.configFiles)| && k.resolve(ComposeFiles(c.configFiles)[i]) in active;
      assert ComposeFiles(c.configFiles)[i] in files;
    }
  }

  /** It shares the network of a container that is gone. */
  ghost predicate HasDeadNetwork(c: Container, containers: seq<Container>) {
    exists id :: && c.networkMode == "container:" + id
                 && 12 <= |id| <= 64 && (forall x | x in id :: x in "0123456789abcdef")
                 && !TargetIsThere(id, containers)
  }

  lemma HexDigits(c: char)
    ensures c in "0123456789abcdef" <==> '0' <= c <= '9' || 'a' <= c <= 'f'
  {
  }

  lemma DeadNetworkIs(c: Container, containers: seq<Container>)
    ensures HasDeadNetwork(c, containers)
            <==> && CONTAINER_MODE <= c.networkMode && IsContainerId(c.networkMode[|CONTAINER_MODE|..])
                 && !IsLive(c.networkMode[|CONTAINER_MODE|..], containers)
  {
    hide IsLive, TargetIsThere;
    forall x: char ensures x in "0123456789abcdef" <==> '0' <= x <= '9' || 'a' <= x <= 'f' {
      HexDigits(x);
    }
    if CONTAINER_MODE <= c.networkMode {
      var id := c.networkMode[|CONTAINER_MODE|..];
      assert c.networkMode == "container:" + id;
      LiveIsThere(id, containers);
      assert forall other: string | c.networkMode == "container:" + other :: other == id by {
        forall other: string | c.networkMode == "container:" + other ensures other == id {
          assert ("container:" + other)[|CONTAINER_MODE|..] == other;
        }
      }
      assert forall i | 0 <= i < |id| :: id[i] in id;
    } else {
      assert forall other: string :: CONTAINER_MODE <= "container:" + other;
    }
  }

  /** What the repair pass recreates, exactly: a container of an active stack that is neither paused nor one-off,
      has a service, and shares the network of a container that is gone. */
  lemma RepairedExactly(k: Config, containers: seq<Container>, active: seq<string>, c: Container)
    ensures c in Repairs(k, containers, containers, active)
            <==> && c in containers && HasDeadNetwork(c, containers) && IsOfActiveStack(k, c, active)
                 && c.name !in k.paused && Lower(c.oneOff) != "true" && c.service != "" && c.service != "<no value>"
  {
    hide IsLive, HasDeadNetwork, IsOfActiveStack, BelongsToActive, ComposeFiles, IsContainerId, Lower;
    RepairsAre(k, containers, containers, active, c);
    DeadNetworkIs(c, containers);
    ActiveIs(k, c, active);
    assert NO_VALUE == "<no value>";
  }

  lemma {:induction false} ResolvedAre(k: Config, stacks: seq<string>)
    ensures forall file :: file in Resolved(k, stacks) <==> exists stack :: stack in stacks && k.resolve(stack) == file
  {
    if stacks != [] {
      var front, last := stacks[..|stacks| - 1], stacks[|stacks| - 1];
      ResolvedAre(k, front);
      assert stacks == front + [last];
    }
  }

  /** A boot that answers 0 has recreated every container that shared the network of one that was gone. */
  lemma DeadAreRecreated(w: World, h: Host, k: Config, stacks: seq<string>, deadline: real, c: Container, id: string,
                         path: string, stack: string)
    requires BringUp(w, h, k, stacks, deadline).1.code == 0
    requires var seen := Containers(w, RunAll(w, h, UpsOf(stacks), deadline).0, deadline).1;
             seen.Some? ==> c in seen.value && !TargetIsThere(id, seen.value)
    requires c.networkMode == "container:" + id && 12 <= |id| <= 64 && forall x | x in id :: x in "0123456789abcdef"
    requires c.configFiles != "<no value>" && path in SplitOn(c.configFiles, ',') && path != ""
    requires stack in stacks && k.resolve(path) == k.resolve(stack)
    requires c.name !in k.paused && Lower(c.oneOff) != "true" && c.service != "" && c.service != "<no value>"
    ensures Succeeded(BringUp(w, h, k, stacks, deadline).0.calls, |h.calls|,
                      Recreate(NonEmpty(SplitOn(c.configFiles, ',')), c.service))
  {
    hide SplitOn, NonEmpty, TargetIsThere, BringUp, Containers, RunAll, NeedsRepair, BelongsToActive, ComposeFiles,
         Resolved;
    var active := Sorted(Resolved(k, stacks), TextBefore);
    var h1 := RunAll(w, h, UpsOf(stacks), deadline).0;
    ZeroMeansRepaired(w, h, k, stacks, deadline, c);
    var seen := Containers(w, h1, deadline).1.value;
    ResolvedAre(k, stacks);
    SortedElements(Resolved(k, stacks), TextBefore);
    assert IsOfActiveStack(k, c, active) && HasDeadNetwork(c, seen);
    ActiveIs(k, c, active);
    RepairedExactly(k, seen, active, c);
    RepairsAre(k, seen, seen, active, c);
  }

  lemma {:induction false} OnlyTheseRun(w: World, h: Host, argvs: seq<Argv>, deadline: real)
    ensures AllOf(RunAll(w, h, argvs, deadline).0.calls, |h.calls|, argvs)
    ensures h.calls <= RunAll(w, h, argvs, deadline).0.calls
  {
    RunAllFails(w, h, argvs, deadline);
  }

  /** ... and the repair pass recreates nothing else: a container whose network is there is never recreated on its
      own account. */
  lemma OnlyTheDeadAreRecreated(w: World, h: Host, k: Config, active: seq<string>, deadline: real, i: nat)
    requires var h' := Repair(w, h, k, active, deadline).0;
             |h.calls| <= i < |h'.calls| && h'.calls[i].argv.Recreate?
    ensures var containers := Containers(w, h, deadline).1;
            containers.Some?
            && exists c :: c in containers.value && HasDeadNetwork(c, containers.value) && IsOfActiveStack(k, c, active)
                 && c.name !in k.paused && Lower(c.oneOff) != "true"
                 && Repair(w, h, k, active, deadline).0.calls[i].argv
                    == Recreate(NonEmpty(SplitOn(c.configFiles, ',')), c.service)
  {
    hide SplitOn, NonEmpty, HasDeadNetwork, IsOfActiveStack, RunAll, Containers, Repairs, ComposeFiles, Lower;
    var (h1, containers) := Containers(w, h, deadline);
    QueriesRecreateNothing(w, h, deadline);
    if containers.Some? {
      var repairs := Repairs(k, containers.value, containers.value, active);
      var argvs := ArgvsOf(repairs);
      OnlyTheseRun(w, h1, argvs, deadline);
      var h' := RunAll(w, h1, argvs, deadline).0;
      var n :| 0 <= n < |argvs| && argvs[n] == h'.calls[i].argv;
      assert repairs[n] in repairs;
      RepairedExactly(k, containers.value, active, repairs[n]);
      ActiveIs(k, repairs[n], active);
    }
  }

  lemma QueriesRecreateNothing(w: World, h: Host, deadline: real)
    ensures var h1 := Containers(w, h, deadline).0;
            h.calls <= h1.calls && forall i | |h.calls| <= i < |h1.calls| :: !h1.calls[i].argv.Recreate?
  {
  }

  /** Which containers the final verification asks for, exactly. */
  lemma RequiredExactly(k: Config, c: Container, active: seq<string>, declared: Option<set<string>>)
    ensures IsRequired(k, c, active, declared)
            <==> && IsOfActiveStack(k, c, active) && c.name !in k.paused && Lower(c.oneOff) != "true"
                 && !(declared.Some? && c.service != "" && c.service !in declared.value)
  {
    hide SplitOn, NonEmpty, BelongsToActive, IsOfActiveStack;
    ActiveIs(k, c, active);
  }

  lemma {:induction false} StrippedAre(lines: seq<string>)
    ensures forall name ::
              name in Stripped(lines) <==> name != "" && exists line :: line in lines && Strip(line) == name
  {
    hide Strip;
    if lines != [] {
      var front, last := lines[..|lines| - 1], lines[|lines| - 1];
      StrippedAre(front);
      assert lines == front + [last];
    }
  }

  // ── The script ───────────────────────────────────────────────────────────────────────────────

  class BootHost {
    const world: World
    const config: Config
    var now: real
    var next: nat
    var calls: seq<Call>

    function Snapshot(): Host
      reads this
    {
      Host(now, next, calls)
    }

    constructor (world: World, config: Config, now: real)
      ensures this.world == world && this.config == config && Snapshot() == Host(now, 0, [])
    {
      this.world, this.config, this.now, next, calls := world, config, now, 0, [];
    }

    method Run(argv: Argv, limit: real, deadline: real) returns (ran: Ran)
      modifies this
      ensures (Snapshot(), ran) == Launch(world, old(Snapshot()), argv, limit, deadline)
    {
      var o := world(next);
      next := next + 1;
      now := now + o.pause;
      if deadline - now <= 0.0 {
        return NoTime;
      }
      var timeout := if limit <= deadline - now then limit else deadline - now;
      if o.exit.None? {
        return NotRunnable;
      }
      var start := now;
      if o.duration >= timeout {
        now := now + timeout;
        calls := calls + [Call(argv, start, now, None)];
        return Killed;
      }
      now := now + o.duration;
      calls := calls + [Call(argv, start, now, o.exit)];
      return Exited(o.exit.value, o.stdout);
    }

    method RunComposeCommand(argv: Argv, deadline: real) returns (code: int)
      modifies this
      ensures (Snapshot(), code) == RunCompose(world, old(Snapshot()), argv, deadline)
    {
      var ran := Run(argv, BOOT_TIMEOUT, deadline);
      code := match ran
        case NoTime => 124
        case Killed => 124
        case NotRunnable => 127
        case Exited(exit, _) => exit;
    }

    method Query(argv: Argv, deadline: real) returns (lines: Option<seq<string>>)
      modifies this
      ensures (Snapshot(), lines) == DockerQuery(world, old(Snapshot()), argv, deadline)
    {
      var ran := Run(argv, QUERY_TIMEOUT, deadline);
      lines := if ran.Exited? && ran.code == 0 then Some(ran.stdout) else None;
    }

    method ReadContainers(deadline: real) returns (containers: Option<seq<Container>>)
      modifies this
      ensures (Snapshot(), containers) == Containers(world, old(Snapshot()), deadline)
    {
      var ids := Query(ListIds, deadline);
      if ids.None? {
        return None;
      }
      if NonEmpty(ids.value) == [] {
        return Some([]);
      }
      var rows := Query(Inspect(NonEmpty(ids.value)), deadline);
      if rows.None? {
        return None;
      }
      return ParseRows(rows.value);
    }

    /** Each command once, whatever became of those before it. */
    method RunEach(argvs: seq<Argv>, deadline: real) returns (failed: seq<Argv>)
      modifies this
      ensures (Snapshot(), failed) == RunAll(world, old(Snapshot()), argvs, deadline)
    {
      failed := [];
      for i := 0 to |argvs|
        invariant (Snapshot(), failed) == RunAll(world, old(Snapshot()), argvs[..i], deadline)
      {
        assert argvs[..i + 1][..i] == argvs[..i];
        var code := RunComposeCommand(argvs[i], deadline);
        if code != 0 {
          failed := failed + [argvs[i]];
        }
      }
      assert argvs[..|argvs|] == argvs;
    }

    method RepairDeadNamespaces(active: seq<string>, deadline: real) returns (failures: nat)
      modifies this
      ensures (Snapshot(), failures) == Repair(world, old(Snapshot()), config, active, deadline)
    {
      var containers := ReadContainers(deadline);
      if containers.None? {
        return 1;
      }
      var repairs: seq<Container> := [];
      for i := 0 to |containers.value|
        invariant Snapshot() == Containers(world, old(Snapshot()), deadline).0
        invariant repairs == Repairs(config, containers.value[..i], containers.value, active)
      {
        assert containers.value[..i + 1][..i] == containers.value[..i];
        if NeedsRepair(config, containers.value[i], containers.value, active) {
          repairs := repairs + [containers.value[i]];
        }
      }
      assert containers.value[..|containers.value|] == containers.value;
      var failed := RunEach(ArgvsOf(repairs), deadline);
      failures := |failed|;
    }

    method DeclaredServices(files: seq<string>, deadline: real) returns (declared: Option<set<string>>)
      modifies this
      ensures (Snapshot(), declared) == Declared(world, old(Snapshot()), files, deadline)
    {
      var services: set<string> := {};
      for i := 0 to |files|
        invariant (Snapshot(), Some(services)) == Declared(world, old(Snapshot()), files[..i], deadline)
      {
        assert files[..i + 1][..i] == files[..i];
        var output := Query(Services(files[i]), deadline);
        if output.None? {
          DeclaredStops(world, old(Snapshot()), files, deadline, i + 1);
          return None;
        }
        services := services + Stripped(output.value);
      }
      assert files[..|files|] == files;
      declared := Some(services);
    }

    method BringUpAllStacks(stacks: seq<string>, deadline: real) returns (code: int)
      modifies this
      ensures Snapshot() == BringUp(world, old(Snapshot()), config, stacks, deadline).0
      ensures code == BringUp(world, old(Snapshot()), config, stacks, deadline).1.code
    {
      var active := Sorted(Resolved(config, stacks), TextBefore);
      var failed := RunEach(UpsOf(stacks), deadline);
      var repairFailures := RepairDeadNamespaces(active, deadline);
      var retryFailed := RunEach(failed, deadline);
      var final := ReadContainers(deadline);
      if final.None? {
        return 1;
      }
      var declared := DeclaredServices(active, deadline);
      if exists c :: c in final.value && IsDown(config, c, active, declared) {
        return 1;
      }
      if retryFailed != [] {
        return 1;
      }
      if repairFailures != 0 {
        return 1;
      }
      return 0;
    }
  }

  /** Once a file's services cannot be read, no further file is asked about. */
  lemma {:induction false} DeclaredStops(w: World, h: Host, files: seq<string>, deadline: real, i: nat)
    requires i <= |files| && Declared(w, h, files[..i], deadline).1.None?
    ensures Declared(w, h, files, deadline) == Declared(w, h, files[..i], deadline)
    decreases |files|
  {
    if i == |files| {
      assert files[..i] == files;
    } else {
      assert files[..|files| - 1][..i] == files[..i];
      DeclaredStops(w, h, files[..|files| - 1], deadline, i);
    }
  }
}
