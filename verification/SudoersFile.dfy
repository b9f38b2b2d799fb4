/** The rendered file as sudo reads it, and what it then grants, against the gate. */
module SudoersFile {
  import opened SudoGate
  import opened SudoPattern
  import opened SudoReader
  import opened SudoRule
  import opened Sudoers
  import opened Sorting
  import opened Texts
  import opened Wrappers
  import LineDiff

  // What sudo reads are patterns: a command typed is granted if one of them fits it. The file is read for
  // every allowlist; only sound rules read as their own commands (`FileReads`), and only units without
  // wildcards grant no others (`RuleIsExact`). Against the gate the file errs exactly where a rule cannot be
  // read, or reaches a command the gate refuses through a wildcard, a `#`, a newline or blanks
  // (`SudoAgreesWithGate`).

  // ── The whole file ───────────────────────────────────────────────────────────────────────────

  function AllCommands(p: Provider, rules: seq<Rule>): seq<string> {
    if rules == [] then [] else Commands(p, rules[0].actions, rules[0].unit) + AllCommands(p, rules[1..])
  }

  function AllReads(p: Provider, user: string, rules: seq<Rule>): Option<seq<string>> {
    if rules == [] then Some([]) else Both(Reads(p, user, rules[0]), AllReads(p, user, rules[1..]))
  }

  lemma EmptyReadsNothing(user: string)
    ensures ReadFile(user, "") == Some([])
  {
    assert LineDiff.Split("") == [""] && IsComment("");
    CommentsReadNothing(user, [""]);
  }

  lemma {:induction false} LinesRead(p: Provider, user: string, rules: seq<Rule>)
    requires rules != []
    ensures ReadFile(user, LineDiff.Join(LinesOf(p, user, rules)) + "\n") == AllReads(p, user, rules)
  {
    hide LineOf, ReadFile, Both;
    var line := LineOf(p, user, rules[0]);
    LinesOfFirst(p, user, rules);
    EmptyReadsNothing(user);
    NothingBefore(Reads(p, user, rules[0]));
    if |rules| == 1 {
      OneLineOf(line);
      ReadsBoth(user, line, "");
      assert line + "\n" + "" == line + "\n";
      assert AllReads(p, user, rules[1..]) == Some([]);
    } else {
      var rest := LineDiff.Join(LinesOf(p, user, rules[1..]));
      LinesRead(p, user, rules[1..]);
      ReadsBoth(user, line, rest + "\n");
      JoinFirst(line, LinesOf(p, user, rules[1..]));
      assert (line + "\n" + rest) + "\n" == line + "\n" + (rest + "\n");
    }
  }

  lemma OneLineOf(line: string)
    ensures LineDiff.Join([line]) == line && forall rest: seq<string> | rest == [] :: [line] + rest == [line]
  {
  }

  lemma JoinFirst(line: string, lines: seq<string>)
    requires lines != []
    ensures LineDiff.Join([line] + lines) == line + "\n" + LineDiff.Join(lines)
  {
    assert ([line] + lines)[1..] == lines;
  }

  lemma LinesOfFirst(p: Provider, user: string, rules: seq<Rule>)
    requires rules != []
    ensures LinesOf(p, user, rules) == [LineOf(p, user, rules[0])] + LinesOf(p, user, rules[1..])
  {
    hide LineOf;
  }

  lemma HeaderReads(user: string)
    ensures ReadFile(user, Header()) == Some([])
  {
    hide ReadLine, IsComment;
    HeaderIsComment();
    OneLine(Header());
    CommentsReadNothing(user, [Header()]);
  }

  lemma HeaderIsComment()
    ensures IsComment(Header()) && '\n' !in Header()
  {
    assert Header()[0] == '#' && SkipGaps(Header()) == Header();
  }

  /** The file reads as its rules, one after the other, whatever they hold. */
  lemma FileIsItsRules(p: Provider, user: string, rules: seq<Rule>)
    ensures ReadFile(user, Snippet(LinesOf(p, user, rules))) == AllReads(p, user, rules)
  {
    hide LineOf, Header, ReadFile, Both;
    if rules == [] {
      EmptyReadsNothing(user);
    } else {
      LinesRead(p, user, rules);
      HeaderReads(user);
      ReadsBoth(user, Header(), LineDiff.Join(LinesOf(p, user, rules)) + "\n");
      NothingBefore(AllReads(p, user, rules));
    }
  }

  lemma SameRest(a: seq<string>, x: seq<string>, y: seq<string>)
    ensures a + x == a + y <==> x == y
  {
    assert (a + x)[|a|..] == x && (a + y)[|a|..] == y;
  }

  lemma Regroup3(a: seq<string>, b: seq<string>, c: seq<string>)
    ensures (a + b) + c == a + (b + c)
  {
  }

  /** A readable rule's commands, then: its own if it is sound, and otherwise not. */
  lemma RuleStarts(p: Provider, user: string, r: Rule)
    requires IsUser(user) && Keeps(p, r.unit) && Reads(p, user, r).Some?
    ensures Reads(p, user, r).value != [] && r.actions != [] && |Commands(p, r.actions, r.unit)| == |r.actions|
    ensures IsSound(r) <==> Reads(p, user, r).value == Commands(p, r.actions, r.unit)
    ensures IsWhole(r.unit) ==> |Reads(p, user, r).value| >= |r.actions|
    ensures !IsWhole(r.unit)
            ==> forall i | 0 <= i < |r.actions| :: Reads(p, user, r).value[0] != Commands(p, r.actions, r.unit)[i]
  {
    hide Reads, Heads, Further, IsSound, IsWhole, Command, Keeps;
    LineReads(p, user, r);
    RuleReads(p, user, r);
    HeadsCount(p, r);
    if !IsWhole(r.unit) {
      forall i | 0 <= i < |r.actions| ensures Heads(p, r)[0] != Commands(p, r.actions, r.unit)[i] {
        CutIsNoCommand(p, r, r.actions[i]);
      }
    }
  }

  /** Commands read early never fall back in step: whatever is read besides stays ahead. */
  lemma {:induction false} InStep(p: Provider, user: string, rules: seq<Rule>, ahead: seq<string>)
    requires IsUser(user) && (forall r | r in rules :: Keeps(p, r.unit)) && AllReads(p, user, rules).Some?
    requires ahead + AllReads(p, user, rules).value == AllCommands(p, rules)
    ensures ahead == [] && forall r | r in rules :: IsSound(r)
  {
    hide Reads, IsSound, IsWhole, Commands, Keeps;
    if rules == [] {
      assert ahead == [];
    } else {
      var r := rules[0];
      assert r in rules && rules == [r] + rules[1..];
      var own, commands := Reads(p, user, r).value, Commands(p, r.actions, r.unit);
      var rest, more := AllReads(p, user, rules[1..]).value, AllCommands(p, rules[1..]);
      RuleStarts(p, user, r);
      assert ahead + (own + rest) == commands + more;
      NotBehind(ahead, own, rest, commands, more, IsWhole(r.unit));
      Regroup3(ahead, own, rest);
      var further := Ahead(ahead + own, commands, rest, more);
      InStep(p, user, rules[1..], further);
      NothingRemains(commands);
      Shorter(ahead, own, commands, IsWhole(r.unit));
    }
  }

  lemma NothingRemains(commands: seq<string>)
    ensures commands + [] == commands
  {
  }

  lemma NotBehind(ahead: seq<string>, own: seq<string>, rest: seq<string>, commands: seq<string>, more: seq<string>,
                  whole: bool)
    requires ahead + (own + rest) == commands + more && own != []
    requires whole ==> |own| >= |commands|
    requires !whole ==> forall i | 0 <= i < |commands| :: own[0] != commands[i]
    ensures |ahead + own| >= |commands|
  {
    assert (ahead + (own + rest))[|ahead|] == own[0];
    assert |ahead| < |commands| ==> (commands + more)[|ahead|] == commands[|ahead|];
  }

  lemma Ahead(read: seq<string>, commands: seq<string>, rest: seq<string>, more: seq<string>)
    returns (further: seq<string>)
    requires |read| >= |commands| && read + rest == commands + more
    ensures read == commands + further && further + rest == more
  {
    further := read[|commands|..];
    assert (read + rest)[..|commands|] == read[..|commands|] && (commands + more)[..|commands|] == commands;
    assert read == commands + further;
    Regroup3(commands, further, rest);
    SameRest(commands, further + rest, more);
  }

  lemma Shorter(ahead: seq<string>, own: seq<string>, commands: seq<string>, whole: bool)
    requires ahead + own == commands && own != []
    requires whole ==> |own| >= |commands|
    requires !whole ==> forall i | 0 <= i < |commands| :: own[0] != commands[i]
    ensures ahead == [] && own == commands && whole
  {
    assert (ahead + own)[|ahead|] == own[0];
    if whole {
      assert ahead == [] && [] + own == own;
    }
  }

  lemma {:induction false} SoundReads(p: Provider, user: string, rules: seq<Rule>)
    requires IsUser(user) && forall r | r in rules :: Keeps(p, r.unit) && IsSound(r)
    ensures AllReads(p, user, rules) == Some(AllCommands(p, rules))
  {
    hide Reads, IsSound, Commands, Keeps;
    if rules != [] {
      assert rules[0] in rules;
      LineReads(p, user, rules[0]);
      SoundReads(p, user, rules[1..]);
    }
  }

  /** Sudo reads the file as exactly the commands of its rules if and only if every rule is sound. */
  lemma FileReads(p: Provider, user: string, rules: seq<Rule>)
    requires IsUser(user) && forall r | r in rules :: Keeps(p, r.unit)
    ensures ReadFile(user, Snippet(LinesOf(p, user, rules))) == Some(AllCommands(p, rules))
            <==> forall r | r in rules :: IsSound(r)
  {
    hide IsSound, ReadFile, Snippet, LinesOf;
    FileIsItsRules(p, user, rules);
    if forall r | r in rules :: IsSound(r) {
      SoundReads(p, user, rules);
    } else if AllReads(p, user, rules) == Some(AllCommands(p, rules)) {
      assert [] + AllReads(p, user, rules).value == AllCommands(p, rules);
      InStep(p, user, rules, []);
    }
  }

  // ── What one pattern grants ──────────────────────────────────────────────────────────────────

  predicate Granted(patterns: seq<string>, command: string) {
    exists c :: c in patterns && Fits(c, command)
  }

  /** No blank that could be taken for the one before an action. */
  predicate IsOneWord(unit: string) {
    unit != "" && ' ' !in unit
  }

  lemma OwnCommand(p: Provider, a: Action, u: string, b: Action, v: string)
    requires p.Mos? ==> IsOneWord(u) && IsOneWord(v)
    ensures Command(p, a, u) == Command(p, b, v) <==> a == b && u == v
  {
    if Command(p, a, u) == Command(p, b, v) {
      if p.Mos? {
        TailsDiffer(u, a.Word(), v, b.Word(), "/usr/sbin/service ");
      } else {
        TailsDiffer(a.Word(), u, b.Word(), v, "/usr/bin/systemctl ");
      }
      WordsDiffer(a, b);
    }
  }

  lemma BeforeSpace(x: string, tail: string)
    requires ' ' !in x
    ensures UpTo(x + (" " + tail), ' ') == |x|
  {
    var s := x + (" " + tail);
    assert s[|x|] == ' ' && forall i | 0 <= i < |x| :: s[i] == x[i] && s[i] in x;
  }

  lemma TailsDiffer(x: string, y: string, z: string, w: string, head: string)
    requires head + (x + (" " + y)) == head + (z + (" " + w)) && ' ' !in x && ' ' !in z
    ensures x == z && y == w
  {
    var s, t := x + (" " + y), z + (" " + w);
    assert (head + s)[|head|..] == s && (head + t)[|head|..] == t;
    BeforeSpace(x, y);
    BeforeSpace(z, w);
    assert s[..|x|] == x && t[..|z|] == z;
    assert s[|x| + 1..] == y && t[|z| + 1..] == w;
  }

  lemma SystemctlHead(action: Action, unit: string)
    ensures Command(Systemd, action, unit) == BeforeUnit(Systemd, action) + unit
  {
    CommandParts(Systemd, action, unit);
    assert unit + "" == unit;
  }

  lemma SystemctlFits(a: Action, u: string, b: Action, v: string)
    ensures Fits(Command(Systemd, a, u), Command(Systemd, b, v)) <==> a == b && Fits(u, v)
  {
    hide Fits, Command, BeforeUnit;
    var head, text := BeforeUnit(Systemd, a), Command(Systemd, b, v);
    SystemctlHead(a, u);
    BeforeIsPlain(Systemd, a);
    FitsAfter(head, u, text);
    if head <= text {
      SystemctlHead(a, text[|head|..]);
      assert text == head + text[|head|..];
      OwnCommand(Systemd, a, text[|head|..], b, v);
    } else if a == b {
      SystemctlHead(a, v);
    }
  }

  lemma MosUnitIsPlain(unit: string)
    requires Keeps(Mos, unit)
    ensures IsLiteral(unit)
  {
    PlainIsLiteral(unit);
  }

  lemma MosCommandIsLiteral(action: Action, unit: string)
    requires IsUnit(Mos, unit)
    ensures IsLiteral(Command(Mos, action, unit))
  {
    WordIsNotMeta(action);
    PlainIsLiteral(Command(Mos, action, unit));
  }

  lemma CommandIsLiteral(p: Provider, action: Action, unit: string)
    requires Keeps(p, unit) && IsWhole(unit) && IsLiteral(unit)
    ensures IsLiteral(Command(p, action, unit))
  {
    hide IsLiteral, Command, BeforeUnit, IsWhole;
    if p.Mos? {
      MosUnit(unit);
      MosCommandIsLiteral(action, unit);
    } else {
      BeforeIsPlain(Systemd, action);
      SystemctlHead(action, unit);
      LiteralAfter(BeforeUnit(Systemd, action), unit);
    }
  }

  lemma CommandsAreExact(p: Provider, r: Rule)
    requires Keeps(p, r.unit) && IsWhole(r.unit) && r.actions != []
    ensures var commands := Commands(p, r.actions, r.unit);
            (forall command :: Granted(commands, command) <==> command in commands) <==> IsLiteral(r.unit)
  {
    hide Fits, Command, IsLiteral, IsWhole;
    var commands := Commands(p, r.actions, r.unit);
    if IsLiteral(r.unit) {
      forall command ensures Granted(commands, command) <==> command in commands {
        forall i | 0 <= i < |commands| ensures Fits(commands[i], command) <==> command == commands[i] {
          CommandIsLiteral(p, r.actions[i], r.unit);
          LiteralFits(commands[i], command);
        }
      }
    } else {
      SomeOtherCommand(p, r);
    }
  }

  lemma SomeOtherCommand(p: Provider, r: Rule)
    requires r.actions != [] && Keeps(p, r.unit) && !IsLiteral(r.unit)
    ensures exists command ::
            !(Granted(Commands(p, r.actions, r.unit), command) <==> command in Commands(p, r.actions, r.unit))
  {
    hide Fits, Command;
    if p.Mos? {
      MosUnitIsPlain(r.unit);
    } else {
      var other := OtherThanItself(r.unit);
      var commands, command := Commands(p, r.actions, r.unit), Command(Systemd, r.actions[0], other);
      forall i | 0 <= i < |commands|
        ensures Fits(commands[i], command) <==> r.actions[i] == r.actions[0] && Fits(r.unit, other)
        ensures commands[i] == command <==> r.actions[i] == r.actions[0] && r.unit == other
      {
        SystemctlFits(r.actions[i], r.unit, r.actions[0], other);
        OwnCommand(Systemd, r.actions[i], r.unit, r.actions[0], other);
      }
      assert Fits(r.unit, other) ==> Granted(commands, command) by { assert commands[0] in commands; }
      assert r.unit == other ==> command in commands by { assert commands[0] in commands; }
      assert !(Granted(commands, command) <==> command in commands);
    }
  }

  /** Any rule that is rendered reads as its own commands, and grants these and no others, if and only if it
      is sound and its unit holds no wildcard: no `*`, no `?`, no bracket that closes, and no backslash. */
  lemma RuleIsExact(p: Provider, user: string, r: Rule)
    requires IsUser(user) && Keeps(p, r.unit)
    ensures var commands := Commands(p, r.actions, r.unit);
            && Reads(p, user, r) == Some(commands)
            && (forall command :: Granted(commands, command) <==> command in commands)
            <==> IsSound(r) && IsLiteral(r.unit)
  {
    hide Reads, Granted, IsLiteral, Keeps, Commands;
    LineReads(p, user, r);
    if IsSound(r) {
      CommandsAreExact(p, r);
    }
  }

  /** A systemd name that quotes, with no other wildcard, loses its own unit: the rule for `a\x2db` grants
      `ax2db`. */
  lemma QuotingLosesTheUnit(r: Rule, action: Action)
    requires !IsLiteral(r.unit) && !HasWild(r.unit)
    ensures !Granted(Commands(Systemd, r.actions, r.unit), Command(Systemd, action, r.unit))
  {
    hide Fits, Command, IsLiteral, HasWild;
    if Fits(r.unit, r.unit) {
      FitsShorter(r.unit, r.unit);
    }
    forall i | 0 <= i < |r.actions|
      ensures !Fits(Commands(Systemd, r.actions, r.unit)[i], Command(Systemd, action, r.unit))
    {
      SystemctlFits(r.actions[i], r.unit, action, r.unit);
    }
  }

  lemma MountGrantsAnother()
    ensures Fits("a\\x2db", "ax2db") && !IsLiteral("a\\x2db") && !HasWild("a\\x2db")
  {
    var p, text := "a\\x2db", "ax2db";
    assert p[1..] == "\\x2db" && p[1..][2..] == "2db" && text[1..] == "x2db" && text[1..][1..] == "2db";
    PlainIsLiteral("2db");
    LiteralFits("2db", "2db");
    LiteralHasNoWild("2db");
  }

  // ── What one rule grants ─────────────────────────────────────────────────────────────────────

  /** A rule that sudo cannot read: it has no action, or a later line of it is neither blank nor a comment nor
      a rule of the user's. It takes the whole file with it. */
  predicate IsUnreadable(p: Provider, user: string, r: Rule) {
    r.actions == [] || Further(p, user, r).None?
  }

  /** The actions that survive the unit. */
  function LeftActions(r: Rule): seq<Action> {
    if IsWhole(r.unit) || r.actions == [] then r.actions else r.actions[..1]
  }

  /** What a rule lets sudo do to a unit: its own unit, cut and squeezed, fits as a pattern; or a later line
      of its glob grants the command. */
  predicate Reaches(p: Provider, user: string, r: Rule, unit: string, action: Action) {
    || (action in LeftActions(r) && if p.Mos? then r.unit == unit else Fits(Squeeze(UnitHead(r.unit)), unit))
    || (GlobReads(user, r.glob).Some? && Granted(GlobReads(user, r.glob).value, Command(p, action, unit)))
  }

  lemma UnitFacts(p: Provider, unit: string)
    requires IsUnit(p, unit)
    ensures IsOneWord(unit) && IsLiteral(unit) && IsWhole(unit) && IsTidy(unit, true) && Keeps(p, unit)
    ensures Squeeze(unit) == unit && UnitHead(unit) == unit
  {
    hide IsTidy, IsLiteral, UnitHead, Squeeze;
    PlainIsLiteral(unit);
    NoGapsTidy(unit, true);
    SqueezeTidy(unit);
    WholeHead(unit);
  }

  /** A command cut and squeezed fits what its unit fits. */
  lemma SqueezedFits(a: Action, h: string, b: Action, unit: string)
    requires IsOneWord(unit)
    ensures Fits(Squeeze(BeforeUnit(Systemd, a) + h), Command(Systemd, b, unit)) <==> a == b && Fits(Squeeze(h), unit)
  {
    hide Fits, Squeeze, Command, BeforeUnit;
    SqueezedCommand(Systemd, a, h);
    if Squeeze(h) == "" {
      BareFitsNothing(a, b, unit);
      assert !Fits("", unit) by { NothingFits(unit); }
    } else {
      SystemctlHead(a, Squeeze(h));
      SystemctlFits(a, Squeeze(h), b, unit);
    }
  }

  lemma NothingFits(unit: string)
    requires unit != ""
    ensures !Fits("", unit)
  {
  }

  lemma BareFitsNothing(a: Action, b: Action, unit: string)
    requires unit != ""
    ensures !Fits(Bare(Systemd, a), Command(Systemd, b, unit))
  {
    hide Fits, IsLiteral;
    var head, text, rest := "/usr/bin/systemctl ", Command(Systemd, b, unit), b.Word() + (" " + unit);
    assert Bare(Systemd, a) == head + a.Word() && text == head + rest && text[|head|..] == rest;
    assert rest[|b.Word()|] == ' ';
    WordIsNotMeta(a);
    FitsAfter(head, a.Word(), text);
    PlainIsLiteral(a.Word());
    LiteralFits(a.Word(), rest);
    assert forall i | 0 <= i < |a.Word()| :: a.Word()[i] != ' ';
  }

  lemma SystemdHeadsGrant(r: Rule, unit: string, action: Action)
    requires r.actions != [] && IsOneWord(unit)
    ensures Granted(Heads(Systemd, r), Command(Systemd, action, unit))
            <==> action in LeftActions(r) && Fits(Squeeze(UnitHead(r.unit)), unit)
  {
    hide Fits, Squeeze, Command, UnitHead, IsWhole, BeforeUnit;
    var heads, command := Heads(Systemd, r), Command(Systemd, action, unit);
    WholeHead(r.unit);
    forall i | 0 <= i < |heads|
      ensures |heads| == |LeftActions(r)|
      ensures Fits(heads[i], command) <==> LeftActions(r)[i] == action && Fits(Squeeze(UnitHead(r.unit)), unit)
    {
      SystemctlHead(r.actions[i], r.unit);
      SqueezedFits(r.actions[i], UnitHead(r.unit), action, unit);
    }
    HeadsAndActions(r);
    GrantedByAny(heads, LeftActions(r), Fits(Squeeze(UnitHead(r.unit)), unit), action, command);
  }

  lemma HeadsAndActions(r: Rule)
    requires r.actions != []
    ensures |Heads(Systemd, r)| == |LeftActions(r)|
  {
  }

  lemma GrantedByAny(heads: seq<string>, actions: seq<Action>, fits: bool, action: Action, command: string)
    requires |heads| == |actions|
    requires forall i | 0 <= i < |heads| :: Fits(heads[i], command) <==> actions[i] == action && fits
    ensures Granted(heads, command) <==> action in actions && fits
  {
    hide Fits;
    if action in actions && fits {
      var i :| 0 <= i < |actions| && actions[i] == action;
      assert heads[i] in heads;
    }
  }

  lemma MosHeadsGrant(r: Rule, unit: string, action: Action)
    requires r.actions != [] && IsUnit(Mos, unit) && Keeps(Mos, r.unit) && IsWhole(r.unit)
    ensures Granted(Heads(Mos, r), Command(Mos, action, unit)) <==> action in LeftActions(r) && r.unit == unit
  {
    hide Fits, Squeeze, Command, IsWhole, IsLiteral;
    var heads, command := Heads(Mos, r), Command(Mos, action, unit);
    MosUnit(r.unit);
    UnitFacts(Mos, unit);
    UnitFacts(Mos, r.unit);
    forall i | 0 <= i < |heads| ensures Fits(heads[i], command) <==> LeftActions(r)[i] == action && r.unit == unit {
      MosCommandIsTidy(r.actions[i], r.unit);
      MosCommandIsLiteral(r.actions[i], r.unit);
      LiteralFits(heads[i], command);
      OwnCommand(Mos, r.actions[i], r.unit, action, unit);
    }
    GrantedByAny(heads, LeftActions(r), r.unit == unit, action, command);
  }

  lemma GrantedByEither(a: seq<string>, b: seq<string>, command: string)
    ensures Granted(a + b, command) <==> Granted(a, command) || Granted(b, command)
  {
    hide Fits;
    if Granted(a, command) {
      var c :| c in a && Fits(c, command);
      assert c in a + b;
    }
    if Granted(b, command) {
      var c :| c in b && Fits(c, command);
      assert c in a + b;
    }
  }

  /** What a rule that can be read grants, for any unit of the provider's kind. */
  lemma RuleGrants(p: Provider, user: string, r: Rule, unit: string, action: Action)
    requires IsUser(user) && Keeps(p, r.unit) && IsUnit(p, unit)
    ensures Reads(p, user, r).None? <==> IsUnreadable(p, user, r)
    ensures !IsUnreadable(p, user, r)
            ==> (Granted(Reads(p, user, r).value, Command(p, action, unit)) <==> Reaches(p, user, r, unit, action))
  {
    hide Reads, Heads, Further, GlobReads, Command, Granted, Fits, Squeeze, UnitHead, LeftActions, IsWhole, Keeps;
    RuleReads(p, user, r);
    UnitLinesAddNothing(p, user, r);
    if !IsUnreadable(p, user, r) {
      GrantedByEither(Heads(p, r), Further(p, user, r).value, Command(p, action, unit));
      UnitFacts(p, unit);
      if p.Mos? {
        if !IsWhole(r.unit) {
          MosNewlineIsUnreadable(user, r);
        }
        MosHeadsGrant(r, unit, action);
      } else {
        SystemdHeadsGrant(r, unit, action);
      }
    }
  }

  lemma NoneGranted(command: string)
    ensures !Granted([], command)
  {
  }

  lemma {:induction false} FileGrants(p: Provider, user: string, rules: seq<Rule>, unit: string, action: Action)
    requires IsUser(user) && IsUnit(p, unit) && forall r | r in rules :: Keeps(p, r.unit)
    ensures AllReads(p, user, rules).None? <==> exists r :: r in rules && IsUnreadable(p, user, r)
    ensures AllReads(p, user, rules).Some?
            ==> (Granted(AllReads(p, user, rules).value, Command(p, action, unit))
                 <==> exists r :: r in rules && Reaches(p, user, r, unit, action))
  {
    hide Reads, Granted, Command, IsUnreadable, Reaches, Keeps, IsUnit;
    if rules == [] {
      NoneGranted(Command(p, action, unit));
    } else {
      var r := rules[0];
      assert r in rules && rules == [r] + rules[1..];
      FileGrants(p, user, rules[1..], unit, action);
      RuleGrants(p, user, r, unit, action);
      if AllReads(p, user, rules).Some? {
        var own, rest := Reads(p, user, r).value, AllReads(p, user, rules[1..]).value;
        GrantedByEither(own, rest, Command(p, action, unit));
      }
    }
  }

  // ── The file and the gate ────────────────────────────────────────────────────────────────────

  /** A rule reaches the command though it is not sound, or its unit holds a wildcard. */
  predicate Overreaching(p: Provider, user: string, rules: seq<Rule>, unit: string, action: Action) {
    exists r :: r in rules && !(IsSound(r) && IsLiteral(r.unit)) && Reaches(p, user, r, unit, action)
  }

  lemma SoundReaches(p: Provider, user: string, r: Rule, unit: string, action: Action)
    requires IsSound(r) && IsLiteral(r.unit)
    ensures Reaches(p, user, r, unit, action) <==> action in r.actions && r.unit == unit
  {
    hide GlobReads, Command, Fits, Squeeze, UnitHead, IsWhole, IsTidy, IsQuiet, IsLiteral;
    SqueezeTidy(r.unit);
    WholeHead(r.unit);
    LiteralFits(r.unit, unit);
    QuietGlob(user, r.glob);
    NoneGranted(Command(p, action, unit));
  }

  lemma OwnReaches(p: Provider, user: string, r: Rule, unit: string, action: Action)
    requires IsUnit(p, unit) && r.unit == unit && action in r.actions
    ensures Reaches(p, user, r, unit, action)
  {
    hide GlobReads, Command, Fits, Squeeze, UnitHead, IsLiteral, IsTidy, IsWhole, Granted;
    UnitFacts(p, unit);
    LiteralFits(unit, unit);
  }

  lemma ReachedIs(p: Provider, user: string, rules: seq<Rule>, unit: string, action: Action)
    requires IsUnit(p, unit)
    ensures (exists r :: r in rules && Reaches(p, user, r, unit, action))
            <==> HasRule(rules, unit, action) || Overreaching(p, user, rules, unit, action)
  {
    hide Reaches, IsSound, IsLiteral, IsUnit;
    forall r | r in rules && IsSound(r) && IsLiteral(r.unit)
      ensures Reaches(p, user, r, unit, action) <==> action in r.actions && r.unit == unit
    {
      SoundReaches(p, user, r, unit, action);
    }
    if HasRule(rules, unit, action) {
      var r :| r in rules && r.unit == unit && action in r.actions;
      OwnReaches(p, user, r, unit, action);
    }
  }

  lemma RulesAreKept(p: Provider, list: Allowlist, discovered: seq<string>, fnmatch: Fnmatch)
    ensures forall r | r in Rules(p, list, discovered, fnmatch) :: Keeps(p, r.unit)
  {
    forall r | r in Rules(p, list, discovered, fnmatch) ensures Keeps(p, r.unit) {
      UnitRulesAre(p, list.units, r);
      GlobRulesAre(p, list.globs, discovered, fnmatch, r);
    }
  }

  predicate Agree(patterns: Option<seq<string>>, command: string, accepted: bool) {
    patterns.Some? && (Granted(patterns.value, command) <==> accepted)
  }

  /** Sudo against the gate, for every allowlist and every discovered unit of the provider's kind. The file
      can be read if and only if each of its rules can; then sudo grants what the gate accepts, and beyond it
      exactly what a rule reaches that is not sound, or whose unit holds a wildcard. So they agree if and only
      if every rule can be read and none such reaches a command that the gate refuses. */
  lemma SudoAgreesWithGate(p: Provider, user: string, list: Allowlist, discovered: seq<string>, fnmatch: Fnmatch,
                           unit: string, action: Action)
    requires IsUnit(p, unit) && unit in discovered && IsUser(user)
    ensures var rules := Rules(p, list, discovered, fnmatch);
            var patterns := ReadFile(user, Snippet(LinesOf(p, user, rules)));
            var accepted := Accepts(p, list, fnmatch, SudoUnitCommand(p, action, unit));
            && (patterns.None? <==> exists r :: r in rules && IsUnreadable(p, user, r))
            && (patterns.Some? ==> (Granted(patterns.value, Command(p, action, unit))
                                    <==> accepted || Overreaching(p, user, rules, unit, action)))
            && (Agree(patterns, Command(p, action, unit), accepted)
                <==> && (forall r | r in rules :: !IsUnreadable(p, user, r))
                     && (Overreaching(p, user, rules, unit, action) ==> accepted))
  {
    hide Accepts, Rules, HasRule, SudoUnitCommand, Command, Snippet, LinesOf, Granted, ReadFile, Reaches, IsUnreadable,
         Keeps, IsUnit, Overreaching;
    var rules := Rules(p, list, discovered, fnmatch);
    FileIsItsRules(p, user, rules);
    RulesAreKept(p, list, discovered, fnmatch);
    FileGrants(p, user, rules, unit, action);
    ReachedIs(p, user, rules, unit, action);
    FileAgreesWithGate(p, list, discovered, fnmatch, unit, action);
  }

  lemma SoundIsReadable(p: Provider, user: string, r: Rule)
    requires IsUser(user) && Keeps(p, r.unit) && IsSound(r)
    ensures !IsUnreadable(p, user, r)
  {
    hide Reads, Further, Heads;
    LineReads(p, user, r);
    RuleReads(p, user, r);
  }

  /** With sound rules and no wildcard, they agree on every such unit. */
  lemma SoundAgrees(p: Provider, user: string, list: Allowlist, discovered: seq<string>, fnmatch: Fnmatch,
                    unit: string, action: Action)
    requires IsUnit(p, unit) && unit in discovered && IsUser(user)
    requires forall r | r in Rules(p, list, discovered, fnmatch) :: IsSound(r) && IsLiteral(r.unit)
    ensures Agree(ReadFile(user, Snippet(LinesOf(p, user, Rules(p, list, discovered, fnmatch)))),
                  Command(p, action, unit), Accepts(p, list, fnmatch, SudoUnitCommand(p, action, unit)))
  {
    hide Accepts, Rules, SudoUnitCommand, Command, Snippet, LinesOf, Granted, ReadFile, Reaches, IsUnreadable, Keeps,
         IsUnit, IsSound, IsLiteral;
    var rules := Rules(p, list, discovered, fnmatch);
    RulesAreKept(p, list, discovered, fnmatch);
    forall r | r in rules ensures !IsUnreadable(p, user, r) {
      SoundIsReadable(p, user, r);
    }
    SudoAgreesWithGate(p, user, list, discovered, fnmatch, unit, action);
  }

  /** On MOS no unit rendered can hold a wildcard. */
  lemma MosIsLiteral(list: Allowlist, discovered: seq<string>, fnmatch: Fnmatch)
    ensures forall r | r in Rules(Mos, list, discovered, fnmatch) :: IsLiteral(r.unit)
  {
    RulesAreKept(Mos, list, discovered, fnmatch);
    forall r | r in Rules(Mos, list, discovered, fnmatch) ensures IsLiteral(r.unit) {
      MosUnitIsPlain(r.unit);
    }
  }

  // ── Where it errs ────────────────────────────────────────────────────────────────────────────

  /** Sudo grants the command, and the gate refuses it. */
  ghost predicate GrantsRefused(p: Provider, user: string, list: Allowlist, discovered: seq<string>, fnmatch: Fnmatch,
                                unit: string, action: Action) {
    var patterns := ReadFile(user, Snippet(LinesOf(p, user, Rules(p, list, discovered, fnmatch))));
    && patterns.Some? && Granted(patterns.value, Command(p, action, unit))
    && !Accepts(p, list, fnmatch, SudoUnitCommand(p, action, unit))
  }

  lemma LoneRuleGrants(user: string, list: Allowlist, discovered: seq<string>, fnmatch: Fnmatch, r: Rule,
                       unit: string, action: Action)
    requires IsUser(user) && IsUnit(Systemd, unit) && Rules(Systemd, list, discovered, fnmatch) == [r]
    requires !IsUnreadable(Systemd, user, r) && Reaches(Systemd, user, r, unit, action)
    requires !Allowed(list, fnmatch, unit, action.Word())
    ensures GrantsRefused(Systemd, user, list, discovered, fnmatch, unit, action)
  {
    hide Accepts, Allowed, Rules, SudoUnitCommand, Command, Snippet, LinesOf, Granted, ReadFile, Reaches, IsUnreadable;
    FileIsItsRules(Systemd, user, [r]);
    FileGrants(Systemd, user, [r], unit, action);
    assert r in [r];
    UnitIsOnePiece(Systemd, unit);
    GateIsTheAllowlist(Systemd, list, fnmatch, action, unit);
  }

  lemma LoneUnitRule(g: UnitGrant, discovered: seq<string>, fnmatch: Fnmatch)
    ensures Rules(Systemd, Allowlist([g], []), discovered, fnmatch) == [Rule(g.unit, g.actions, None)]
  {
    assert [g][..0] == [];
    assert UnitRules(Systemd, [g][..0]) == [] && GlobRules(Systemd, [], discovered, fnmatch) == [];
    assert [] + [Rule(g.unit, g.actions, None)] == [Rule(g.unit, g.actions, None)];
    assert UnitRules(Systemd, [g]) == [Rule(g.unit, g.actions, None)];
  }

  lemma LoneGlobRule(g: GlobGrant, unit: string, fnmatch: Fnmatch)
    requires fnmatch(unit, g.glob)
    ensures Rules(Systemd, Allowlist([], [g]), [unit], fnmatch) == [Rule(unit, g.actions, Some(g.glob))]
  {
    assert [g][..0] == [] && [unit][1..] == [];
    assert Matched(Systemd, [unit], fnmatch, g.glob) == [unit];
    assert Sorted([unit], TextBefore) == [unit] by { SortedOne(unit); }
    var rules := RulesOf([unit], g);
    assert rules == [Rule(unit, g.actions, Some(g.glob))];
    assert GlobRules(Systemd, [g][..0], [unit], fnmatch) == [] && [] + rules == rules;
    assert GlobRules(Systemd, [g], [unit], fnmatch) == rules;
  }

  lemma SortedOne(unit: string)
    ensures Sorted([unit], TextBefore) == [unit]
  {
    SortedElements([unit], TextBefore);
  }

  lemma PlainIsReadable(user: string, r: Rule)
    requires IsUser(user) && r.actions != [] && r.glob.None? && '\n' !in r.unit
    ensures !IsUnreadable(Systemd, user, r)
  {
    hide Further;
    UnitLinesAddNothing(Systemd, user, r);
  }

  /** A systemd grant for the unit `*` is rendered as it stands: sudo lets any unit be stopped, and the gate
      none. */
  lemma StarGrantsEverything(user: string, fnmatch: Fnmatch, unit: string)
    requires IsUnit(Systemd, unit) && IsUser(user)
    ensures GrantsRefused(Systemd, user, Allowlist([UnitGrant("*", [Stop])], []), [unit], fnmatch, unit, Stop)
  {
    hide GrantsRefused, IsUnreadable, Fits, Command, GlobReads;
    var r := Rule("*", [Stop], None);
    LoneUnitRule(UnitGrant("*", [Stop]), [unit], fnmatch);
    PlainIsReadable(user, r);
    WholeHead("*");
    SqueezeTidy("*");
    StarFits(unit);
    LoneRuleGrants(user, Allowlist([UnitGrant("*", [Stop])], []), [unit], fnmatch, r, unit, Stop);
  }

  /** A `#` in a systemd name ends the rule there: the grant for `nas#x` lets sudo stop `nas`, which nobody
      declared. No wildcard is needed. */
  lemma HashGrantsAnother(user: string, fnmatch: Fnmatch, unit: string, rest: string)
    requires IsUnit(Systemd, unit) && IsUser(user) && '\n' !in rest
    ensures var list := Allowlist([UnitGrant(unit + "#" + rest, [Stop])], []);
            GrantsRefused(Systemd, user, list, [unit], fnmatch, unit, Stop)
  {
    hide GrantsRefused, IsUnreadable, Fits, Command, GlobReads, Squeeze, UnitHead, IsLiteral, IsTidy, IsUnit;
    var name := unit + "#" + rest;
    var r := Rule(name, [Stop], None);
    LoneUnitRule(UnitGrant(name, [Stop]), [unit], fnmatch);
    UnitFacts(Systemd, unit);
    PlainIsReadable(user, r);
    HeadAtHash(unit, rest);
    LiteralFits(unit, unit);
    assert |name| > |unit|;
    LoneRuleGrants(user, Allowlist([UnitGrant(name, [Stop])], []), [unit], fnmatch, r, unit, Stop);
  }

  lemma {:induction false} HeadAtHash(unit: string, rest: string)
    requires IsWhole(unit)
    ensures UnitHead(unit + "#" + rest) == unit
  {
    var name := unit + "#" + rest;
    if unit != "" {
      assert name[1..] == unit[1..] + "#" + rest && name[0] == unit[0] && unit[0] in unit;
      HeadAtHash(unit[1..], rest);
      assert [unit[0]] + unit[1..] == unit;
    }
  }

  /** The example with a newline in a glob: what follows it is a line of the file. */
  function TwoLineGlob(user: string, before: string, other: string, after: string): string {
    before + "\n" + (LineOf(Systemd, user, Rule(other, [Stop], None)) + "\n" + ("#" + after))
  }

  lemma TwoLineReads(user: string, before: string, other: string, after: string)
    requires IsUser(user) && IsUnit(Systemd, other) && '\n' !in before && '\n' !in after
    ensures GlobReads(user, Some(TwoLineGlob(user, before, other, after))) == Some([Command(Systemd, Stop, other)])
  {
    hide ReadLines, Command, LineOf, IsUnit, IsTidy, IsQuiet;
    var r := Rule(other, [Stop], None);
    var line, last := LineOf(Systemd, user, r), "#" + after + "'";
    UnitFacts(Systemd, other);
    QuietNone();
    LineReads(Systemd, user, r);
    assert Commands(Systemd, [Stop], other) == [Command(Systemd, Stop, other)];
    assert TwoLineGlob(user, before, other, after) + "'" == before + ("\n" + (line + "\n" + last));
    NextLines(before, line + "\n" + last);
    ReadsBoth(user, line, last);
    LastLineIsComment(user, after);
    NothingBefore(Some([Command(Systemd, Stop, other)]));
  }

  lemma QuietNone()
    ensures IsQuiet(None)
  {
  }

  lemma LastLineIsComment(user: string, after: string)
    requires '\n' !in after
    ensures ReadFile(user, "#" + after + "'") == Some([])
  {
    hide ReadLine;
    var last := "#" + after + "'";
    assert last[0] == '#' && SkipGaps(last) == last;
    OneLine(last);
    CommentsReadNothing(user, [last]);
  }

  /** A glob is pasted into a comment, so a newline in it begins a line of its own: a glob that matches one
      unit lets sudo stop another, which it does not match. */
  lemma GlobAddsARule(user: string, fnmatch: Fnmatch, unit: string, other: string, before: string, after: string)
    requires IsUser(user) && IsUnit(Systemd, unit) && IsUnit(Systemd, other) && '\n' !in before && '\n' !in after
    requires fnmatch(unit, TwoLineGlob(user, before, other, after))
    requires !fnmatch(other, TwoLineGlob(user, before, other, after))
    ensures var g := GlobGrant(TwoLineGlob(user, before, other, after), [Stop]);
            GrantsRefused(Systemd, user, Allowlist([], [g]), [unit], fnmatch, other, Stop)
  {
    hide GrantsRefused, Fits, Command, IsUnit, TwoLineGlob, IsLiteral, GlobReads, Further;
    var g := GlobGrant(TwoLineGlob(user, before, other, after), [Stop]);
    var r := Rule(unit, [Stop], Some(g.glob));
    LoneGlobRule(g, unit, fnmatch);
    TwoLineReads(user, before, other, after);
    UnitFacts(Systemd, unit);
    UnitFacts(Systemd, other);
    UnitLinesAddNothing(Systemd, user, r);
    ItsOwn(Systemd, Stop, other);
    LoneRuleGrants(user, Allowlist([], [g]), [unit], fnmatch, r, other, Stop);
  }

  lemma ItsOwn(p: Provider, action: Action, unit: string)
    requires IsUnit(p, unit)
    ensures Granted([Command(p, action, unit)], Command(p, action, unit))
  {
    hide Fits, Command, IsLiteral;
    UnitFacts(p, unit);
    CommandIsLiteral(p, action, unit);
    LiteralFits(Command(p, action, unit), Command(p, action, unit));
    assert Command(p, action, unit) in [Command(p, action, unit)];
  }
}
