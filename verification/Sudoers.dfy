/**
 The sudoers file the setup wizard renders from the allowlist (`generate_sudoers_snippet`), and where
 it parts from the gate.

 The header stands for the generated file's comment lines; its wording is not modelled.
 */
module Sudoers {
  import opened Sorting
  import opened SudoGate
  import opened Texts
  import opened Wrappers
  import LineDiff

  function Header(): string {
    "# Generated"
  }

  /** One line of the file: a unit, what may be done to it, and the glob it came from. */
  datatype Rule = Rule(unit: string, actions: seq<Action>, glob: Option<string>)

  predicate IsMeta(c: char) {
    c == ',' || c == ':' || c == '=' || c == '\\'
  }

  /** `_sudoers_escape` */
  function Escape(text: string): string {
    if text == "" then "" else (if IsMeta(text[0]) then ['\\', text[0]] else [text[0]]) + Escape(text[1..])
  }

  /** `_sudoers_command` */
  function Command(p: Provider, action: Action, unit: string): string {
    if p.Mos? then "/usr/sbin/service " + (unit + (" " + action.Word()))
    else "/usr/bin/systemctl " + (action.Word() + (" " + unit))
  }

  /** `_MOS_UNIT_NAME_RE.match`: its `$` also matches before a final newline. */
  predicate MosName(unit: string) {
    IsUnit(Mos, unit) || (unit != "" && unit[|unit| - 1] == '\n' && IsUnit(Mos, unit[..|unit| - 1]))
  }

  predicate Keeps(p: Provider, unit: string) {
    p.Systemd? || MosName(unit)
  }

  function UnitRules(p: Provider, grants: seq<UnitGrant>): seq<Rule> {
    if grants == [] then []
    else
      var g := grants[|grants| - 1];
      UnitRules(p, grants[..|grants| - 1]) + if Keeps(p, g.unit) then [Rule(g.unit, g.actions, None)] else []
  }

  function Matched(p: Provider, units: seq<string>, fnmatch: Fnmatch, glob: string): seq<string> {
    if units == [] then []
    else
      (if fnmatch(units[0], glob) && Keeps(p, units[0]) then [units[0]] else []) + Matched(p, units[1..], fnmatch, glob)
  }

  function RulesOf(units: seq<string>, g: GlobGrant): (rules: seq<Rule>)
    ensures |rules| == |units| && forall i | 0 <= i < |units| :: rules[i] == Rule(units[i], g.actions, Some(g.glob))
  {
    if units == [] then [] else [Rule(units[0], g.actions, Some(g.glob))] + RulesOf(units[1..], g)
  }

  function GlobRules(p: Provider, grants: seq<GlobGrant>, discovered: seq<string>, fnmatch: Fnmatch): seq<Rule> {
    if grants == [] then []
    else
      var g := grants[|grants| - 1];
      GlobRules(p, grants[..|grants| - 1], discovered, fnmatch)
      + RulesOf(Sorted(Matched(p, discovered, fnmatch, g.glob), TextBefore), g)
  }

  function Rules(p: Provider, list: Allowlist, discovered: seq<string>, fnmatch: Fnmatch): seq<Rule> {
    UnitRules(p, list.units) + GlobRules(p, list.globs, discovered, fnmatch)
  }

  function Commands(p: Provider, actions: seq<Action>, unit: string): (commands: seq<string>)
    ensures |commands| == |actions| && forall i | 0 <= i < |actions| :: commands[i] == Command(p, actions[i], unit)
  {
    seq(|actions|, i requires 0 <= i < |actions| => Command(p, actions[i], unit))
  }

  function Listed(commands: seq<string>): string {
    if commands == [] then "" else if |commands| == 1 then commands[0] else commands[0] + (", " + Listed(commands[1..]))
  }

  function Opening(user: string): string {
    user + " ALL=(root) NOPASSWD: "
  }

  function Comment(glob: Option<string>): string {
    if glob.None? then "" else "  # matched glob '" + glob.value + "'"
  }

  function LineOf(p: Provider, user: string, r: Rule): string {
    Opening(user) + (Listed(Commands(p, r.actions, Escape(r.unit))) + Comment(r.glob))
  }

  function LinesOf(p: Provider, user: string, rules: seq<Rule>): seq<string> {
    seq(|rules|, i requires 0 <= i < |rules| => LineOf(p, user, rules[i]))
  }

  function Snippet(lines: seq<string>): string {
    if lines == [] then "" else Header() + "\n" + (LineDiff.Join(lines) + "\n")
  }

  lemma LinesOfOneMore(p: Provider, user: string, rules: seq<Rule>, r: Rule)
    ensures LinesOf(p, user, rules + [r]) == LinesOf(p, user, rules) + [LineOf(p, user, r)]
  {
    hide LineOf;
  }

  lemma LinesOfBoth(p: Provider, user: string, a: seq<Rule>, b: seq<Rule>)
    ensures LinesOf(p, user, a + b) == LinesOf(p, user, a) + LinesOf(p, user, b)
  {
    hide LineOf;
  }

  method RenderLine(p: Provider, user: string, unit: string, actions: seq<Action>, glob: Option<string>)
    returns (line: string)
    ensures line == LineOf(p, user, Rule(unit, actions, glob))
  {
    var escaped := Escape(unit);
    line := Opening(user) + (Listed(Commands(p, actions, escaped)) + Comment(glob));
  }

  method UnitLines(p: Provider, user: string, grants: seq<UnitGrant>) returns (lines: seq<string>)
    ensures lines == LinesOf(p, user, UnitRules(p, grants))
  {
    hide LineOf;
    lines := [];
    for i := 0 to |grants|
      invariant lines == LinesOf(p, user, UnitRules(p, grants[..i]))
    {
      var g := grants[i];
      assert grants[..i + 1][..i] == grants[..i];
      if Keeps(p, g.unit) {
        var line := RenderLine(p, user, g.unit, g.actions, None);
        lines := lines + [line];
        LinesOfOneMore(p, user, UnitRules(p, grants[..i]), Rule(g.unit, g.actions, None));
      }
    }
    assert grants[..|grants|] == grants;
  }

  method GlobLines(p: Provider, user: string, g: GlobGrant, matched: seq<string>) returns (lines: seq<string>)
    ensures lines == LinesOf(p, user, RulesOf(matched, g))
  {
    hide LineOf;
    lines := [];
    for i := 0 to |matched|
      invariant |lines| == i && forall j | 0 <= j < i :: lines[j] == LineOf(p, user, RulesOf(matched, g)[j])
    {
      var line := RenderLine(p, user, matched[i], g.actions, Some(g.glob));
      lines := lines + [line];
    }
  }

  method AllGlobLines(p: Provider, user: string, grants: seq<GlobGrant>, discovered: seq<string>, fnmatch: Fnmatch)
    returns (lines: seq<string>)
    ensures lines == LinesOf(p, user, GlobRules(p, grants, discovered, fnmatch))
  {
    hide LineOf, Matched;
    lines := [];
    for i := 0 to |grants|
      invariant lines == LinesOf(p, user, GlobRules(p, grants[..i], discovered, fnmatch))
    {
      assert grants[..i + 1][..i] == grants[..i];
      var matched := Sorted(Matched(p, discovered, fnmatch, grants[i].glob), TextBefore);
      var more := GlobLines(p, user, grants[i], matched);
      LinesOfBoth(p, user, GlobRules(p, grants[..i], discovered, fnmatch), RulesOf(matched, grants[i]));
      lines := lines + more;
    }
    assert grants[..|grants|] == grants;
  }

  method GenerateSudoersSnippet(p: Provider, user: string, list: Allowlist, discovered: seq<string>, fnmatch: Fnmatch)
    returns (text: string)
    ensures text == Snippet(LinesOf(p, user, Rules(p, list, discovered, fnmatch)))
  {
    hide LineOf, GlobRules, UnitRules;
    var lines := UnitLines(p, user, list.units);
    var more := AllGlobLines(p, user, list.globs, discovered, fnmatch);
    LinesOfBoth(p, user, UnitRules(p, list.units), GlobRules(p, list.globs, discovered, fnmatch));
    lines := lines + more;
    if lines == [] {
      return "";
    }
    text := Header() + "\n" + (LineDiff.Join(lines) + "\n");
  }

  // ── The file and the gate ────────────────────────────────────────────────────────────────────

  predicate HasRule(rules: seq<Rule>, unit: string, action: Action) {
    exists r :: r in rules && r.unit == unit && action in r.actions
  }

  predicate UnitGranted(grants: seq<UnitGrant>, unit: string, action: Action) {
    exists g :: g in grants && g.unit == unit && action in g.actions
  }

  predicate GlobGranted(grants: seq<GlobGrant>, fnmatch: Fnmatch, unit: string, action: Action) {
    exists g :: g in grants && fnmatch(unit, g.glob) && action in g.actions
  }

  lemma WordsDiffer(a: Action, b: Action)
    ensures a.Word() == b.Word() <==> a == b
  {
    assert Start.Word()[2] == 'a' && Stop.Word()[2] == 'o' && Restart.Word()[2] == 's';
  }

  lemma GrantsAction(actions: seq<Action>, action: Action)
    ensures Grants(actions, action.Word()) <==> action in actions
  {
    forall a: Action ensures a.Word() == action.Word() <==> a == action {
      WordsDiffer(a, action);
    }
  }

  lemma AllowedIs(list: Allowlist, fnmatch: Fnmatch, unit: string, action: Action)
    ensures Allowed(list, fnmatch, unit, action.Word())
            <==> UnitGranted(list.units, unit, action) || GlobGranted(list.globs, fnmatch, unit, action)
  {
    LowerStays(action.Word());
    forall actions: seq<Action> ensures Grants(actions, action.Word()) <==> action in actions {
      GrantsAction(actions, action);
    }
  }

  lemma {:induction false} UnitRulesAre(p: Provider, grants: seq<UnitGrant>, r: Rule)
    ensures r in UnitRules(p, grants)
            <==> Keeps(p, r.unit) && r.glob.None? && UnitGrant(r.unit, r.actions) in grants
  {
    if grants != [] {
      UnitRulesAre(p, grants[..|grants| - 1], r);
      assert grants == grants[..|grants| - 1] + [grants[|grants| - 1]];
    }
  }

  lemma {:induction false} MatchedAre(p: Provider, units: seq<string>, fnmatch: Fnmatch, glob: string, unit: string)
    ensures unit in Matched(p, units, fnmatch, glob) <==> unit in units && fnmatch(unit, glob) && Keeps(p, unit)
  {
    if units != [] {
      MatchedAre(p, units[1..], fnmatch, glob, unit);
      assert units == [units[0]] + units[1..];
    }
  }

  predicate FromGlob(p: Provider, grants: seq<GlobGrant>, discovered: seq<string>, fnmatch: Fnmatch, r: Rule) {
    && Keeps(p, r.unit) && r.unit in discovered
    && r.glob.Some? && fnmatch(r.unit, r.glob.value) && GlobGrant(r.glob.value, r.actions) in grants
  }

  lemma OneGlob(p: Provider, g: GlobGrant, discovered: seq<string>, fnmatch: Fnmatch, r: Rule)
    ensures r in RulesOf(Sorted(Matched(p, discovered, fnmatch, g.glob), TextBefore), g)
            <==> FromGlob(p, [g], discovered, fnmatch, r)
  {
    var matched := Matched(p, discovered, fnmatch, g.glob);
    MatchedAre(p, discovered, fnmatch, g.glob, r.unit);
    SortedElements(matched, TextBefore);
    var units := Sorted(matched, TextBefore);
    if r.unit in units {
      var i :| 0 <= i < |units| && units[i] == r.unit;
      assert RulesOf(units, g)[i] in RulesOf(units, g);
    }
  }

  lemma {:induction false} GlobRulesAre(p: Provider, grants: seq<GlobGrant>, discovered: seq<string>, fnmatch: Fnmatch,
                                        r: Rule)
    ensures r in GlobRules(p, grants, discovered, fnmatch) <==> FromGlob(p, grants, discovered, fnmatch, r)
  {
    if grants != [] {
      GlobRulesAre(p, grants[..|grants| - 1], discovered, fnmatch, r);
      OneGlob(p, grants[|grants| - 1], discovered, fnmatch, r);
      assert grants == grants[..|grants| - 1] + [grants[|grants| - 1]];
    }
  }

  /** Which rules the file holds. */
  lemma RulesAre(p: Provider, list: Allowlist, discovered: seq<string>, fnmatch: Fnmatch, unit: string, action: Action)
    ensures HasRule(Rules(p, list, discovered, fnmatch), unit, action)
            <==> Keeps(p, unit)
                 && (UnitGranted(list.units, unit, action)
                     || (unit in discovered && GlobGranted(list.globs, fnmatch, unit, action)))
  {
    var rules := Rules(p, list, discovered, fnmatch);
    forall r ensures r in rules <==>
        || (Keeps(p, r.unit) && r.glob.None? && UnitGrant(r.unit, r.actions) in list.units)
        || FromGlob(p, list.globs, discovered, fnmatch, r)
    {
      UnitRulesAre(p, list.units, r);
      GlobRulesAre(p, list.globs, discovered, fnmatch, r);
    }
    if Keeps(p, unit) && UnitGranted(list.units, unit, action) {
      var g :| g in list.units && g.unit == unit && action in g.actions;
      assert Rule(unit, g.actions, None) in rules;
    }
    if Keeps(p, unit) && unit in discovered && GlobGranted(list.globs, fnmatch, unit, action) {
      var g :| g in list.globs && fnmatch(unit, g.glob) && action in g.actions;
      assert g == GlobGrant(g.glob, g.actions);
      assert Rule(unit, g.actions, Some(g.glob)) in rules;
    }
  }

  /** What the allowlist declares of a unit, its globs reaching only what was discovered. */
  predicate Declared(list: Allowlist, discovered: seq<string>, fnmatch: Fnmatch, unit: string, action: Action) {
    UnitGranted(list.units, unit, action) || (unit in discovered && GlobGranted(list.globs, fnmatch, unit, action))
  }

  /** The file and the gate agree on every discovered unit that the provider could name: a rule is
      rendered exactly when the gate lets the command through. */
  lemma FileAgreesWithGate(p: Provider, list: Allowlist, discovered: seq<string>, fnmatch: Fnmatch, unit: string,
                           action: Action)
    requires IsUnit(p, unit) && unit in discovered
    ensures HasRule(Rules(p, list, discovered, fnmatch), unit, action)
            <==> Accepts(p, list, fnmatch, SudoUnitCommand(p, action, unit))
  {
    UnitIsOnePiece(p, unit);
    RulesAre(p, list, discovered, fnmatch, unit, action);
    AllowedIs(list, fnmatch, unit, action);
    GateIsTheAllowlist(p, list, fnmatch, action, unit);
  }

  /** ... discovered or not, a rendered rule for such a unit is one the gate lets through. */
  lemma RenderedIsAccepted(p: Provider, list: Allowlist, discovered: seq<string>, fnmatch: Fnmatch, unit: string,
                           action: Action)
    requires IsUnit(p, unit) && HasRule(Rules(p, list, discovered, fnmatch), unit, action)
    ensures Accepts(p, list, fnmatch, SudoUnitCommand(p, action, unit))
  {
    UnitIsOnePiece(p, unit);
    RulesAre(p, list, discovered, fnmatch, unit, action);
    AllowedIs(list, fnmatch, unit, action);
    GateIsTheAllowlist(p, list, fnmatch, action, unit);
  }

  /** Beyond those names they part exactly when the name is declared and kept, but no name to the gate (the
      wizard renders any systemd name, one with a blank inside included), or when the gate lets it through
      unrendered: a glob matches it that no discovery brought to it, or the wizard drops it. */
  lemma WhenTheyDisagree(p: Provider, list: Allowlist, discovered: seq<string>, fnmatch: Fnmatch, unit: string,
                         action: Action)
    requires Pieces(unit) == [unit] && Strip(unit) == unit
    ensures var rendered := Keeps(p, unit) && Declared(list, discovered, fnmatch, unit, action);
            (HasRule(Rules(p, list, discovered, fnmatch), unit, action)
             <==> !Accepts(p, list, fnmatch, SudoUnitCommand(p, action, unit)))
            <==> || (rendered && !UnitMatches(p, unit))
                 || (!rendered && UnitMatches(p, unit)
                     && (UnitGranted(list.units, unit, action) || GlobGranted(list.globs, fnmatch, unit, action)))
  {
    hide Pieces, Strip, Accepts, Rules, HasRule, UnitMatches, SudoUnitCommand;
    RulesAre(p, list, discovered, fnmatch, unit, action);
    AllowedIs(list, fnmatch, unit, action);
    GateIsTheAllowlist(p, list, fnmatch, action, unit);
  }

  /** On systemd, for any name at all: the wizard renders what is declared, separators and blanks included;
      the gate lets through what it makes of the name's first piece and of the rest as commands. */
  lemma SystemdDisagreesExactly(list: Allowlist, discovered: seq<string>, fnmatch: Fnmatch, unit: string,
                                action: Action)
    ensures var first := Strip(Pieces(unit)[0]);
            var passes := && UnitMatches(Systemd, first) && Allowed(list, fnmatch, first, action.Word())
                          && forall s | s in Stripped(Pieces(unit)[1..]) :: Refused(Systemd, list, fnmatch, s).None?;
            (HasRule(Rules(Systemd, list, discovered, fnmatch), unit, action)
             <==> !Accepts(Systemd, list, fnmatch, SudoUnitCommand(Systemd, action, unit)))
            <==> (Declared(list, discovered, fnmatch, unit, action) <==> !passes)
  {
    hide Pieces, Strip, Accepts, Rules, HasRule, UnitMatches, SudoUnitCommand, Allowed, Refused, Stripped;
    RulesAre(Systemd, list, discovered, fnmatch, unit, action);
    SystemctlGate(list, fnmatch, action, unit);
  }

  lemma {:induction false} StartIsOnePiece(s: string, tail: string)
    requires Pieces(s + tail) == [s + tail]
    ensures Pieces(s) == [s]
  {
    hide Pieces;
    if s == "" {
      OnePiece(s);
    } else {
      OnePieceStarts(s + tail);
      assert (s + tail)[1..] == s[1..] + tail && (s + tail)[0] == s[0];
      StartIsOnePiece(s[1..], tail);
      assert [s[0]] + s[1..] == s;
      assert "&&" <= s ==> "&&" <= s + tail;
      PieceMore(s[0], s[1..]);
    }
  }

  lemma {:induction false} EndIsOnePiece(head: string, s: string)
    requires Pieces(head + s) == [head + s]
    ensures Pieces(s) == [s]
  {
    hide Pieces;
    if head == "" {
      assert head + s == s;
    } else {
      OnePieceStarts(head + s);
      assert (head + s)[1..] == head[1..] + s;
      EndIsOnePiece(head[1..], s);
    }
  }

  /** A systemd name with blanks around it is rendered as it stands, and the gate answers for the name
      without them; on MOS it is not rendered. */
  lemma BlankEnds(p: Provider, list: Allowlist, discovered: seq<string>, fnmatch: Fnmatch, unit: string, action: Action)
    requires Pieces(unit) == [unit] && Strip(unit) != unit
    ensures HasRule(Rules(p, list, discovered, fnmatch), unit, action)
            <==> p.Systemd? && Declared(list, discovered, fnmatch, unit, action)
    ensures Accepts(p, list, fnmatch, SudoUnitCommand(p, action, unit))
            <==> Accepts(p, list, fnmatch, SudoUnitCommand(p, action, Strip(unit)))
  {
    hide Pieces, Strip, Accepts, Rules, HasRule, UnitMatches, Allowed, SudoUnitCommand, MosName;
    RulesAre(p, list, discovered, fnmatch, unit, action);
    BlankIsNoMosName(unit);
    GateIsTheAllowlist(p, list, fnmatch, action, unit);
    var left, right := StripSplits(unit);
    EndIsOnePiece(left, Strip(unit) + right);
    StartIsOnePiece(Strip(unit), right);
    StripTwice(unit);
    GateIsTheAllowlist(p, list, fnmatch, action, Strip(unit));
  }

  lemma StripTwice(s: string)
    ensures Strip(Strip(s)) == Strip(s)
  {
    hide StripEnd;
    StripEnds(s);
    if Strip(s) != "" {
      StripOwn(Strip(s));
    } else {
      assert Strip("") == "" by { StripNothing(); }
    }
  }

  lemma StripNothing()
    ensures Strip("") == ""
  {
  }

  lemma BlankIsNoMosName(unit: string)
    requires Pieces(unit) == [unit] && Strip(unit) != unit
    ensures !MosName(unit)
  {
    hide Strip, Pieces;
    if IsUnit(Mos, unit) {
      UnitIsOnePiece(Mos, unit);
    } else if MosName(unit) {
      assert unit == unit[..|unit| - 1] + "\n";
      EndIsOnePiece(unit[..|unit| - 1], "\n");
      OnePieceStarts("\n");
    }
  }

  /** Such a unit exists: systemd writes a dash in a mount path as `\x2d`. */
  lemma EscapedMountIsRenderedOnly(fnmatch: Fnmatch)
    requires fnmatch("a\\x2db", "*")
    ensures var list := Allowlist([], [GlobGrant("*", [Stop])]);
            && HasRule(Rules(Systemd, list, ["a\\x2db"], fnmatch), "a\\x2db", Stop)
            && !Accepts(Systemd, list, fnmatch, SudoUnitCommand(Systemd, Stop, "a\\x2db"))
  {
    hide HasRule, Rules, Accepts, Allowed, SudoUnitCommand, Strip;
    var unit, list := "a\\x2db", Allowlist([], [GlobGrant("*", [Stop])]);
    assert unit[1] == '\\' && !UnitMatches(Systemd, unit);
    OnePiece(unit);
    StripOwn(unit);
    assert unit in ["a\\x2db"];
    assert list.globs[0] in list.globs && GlobGranted(list.globs, fnmatch, unit, Stop);
    RulesAre(Systemd, list, ["a\\x2db"], fnmatch, unit, Stop);
    GateIsTheAllowlist(Systemd, list, fnmatch, Stop, unit);
  }

  lemma {:induction false} PiecesAtNewline(a: string, b: string)
    requires IsPlain(a)
    ensures Pieces(a + "\n" + b) == [a] + Pieces(b)
  {
    PiecesAfter(a, "\n" + b);
    assert a + "\n" + b == a + ("\n" + b) && ("\n" + b)[1..] == b;
    assert a + "" == a;
  }

  lemma CutCommandIsRefused(list: Allowlist, fnmatch: Fnmatch, unit: string)
    requires IsUnit(Mos, unit)
    ensures Refused(Mos, list, fnmatch, "sudo" + (" " + ("service" + (" " + unit)))).Some?
  {
    AfterOwnSpacedWord("sudo", "service" + (" " + unit));
    AfterOwnSpacedWord("service", unit);
    OwnUnitLength(Mos, unit, "");
    assert unit + "" == unit;
    CommandMentionsSudo("service" + (" " + unit));
  }

  lemma FirstSegment(a: string, b: string)
    requires IsPlain(a) && a != "" && !IsSpace(a[0]) && !IsSpace(a[|a| - 1])
    ensures a in Segments(a + "\n" + b)
  {
    hide Pieces, Strip, Stripped;
    PiecesAtNewline(a, b);
    StripOwn(a);
    FirstSegmentFirst([a] + Pieces(b));
  }

  lemma UnitIsPlain(unit: string)
    requires IsUnit(Mos, unit)
    ensures unit != "" && IsPlain(unit) && !IsSpace(unit[|unit| - 1])
  {
  }

  lemma CutCommand(action: Action, unit: string)
    requires IsUnit(Mos, unit)
    ensures var a := "sudo" + (" " + ("service" + (" " + unit)));
            a in Segments(SudoUnitCommand(Mos, action, unit + "\n"))
  {
    hide Pieces, Stripped, Strip, IsPlain, Segments, IsSpace, IsUnit;
    var a, b := "sudo" + (" " + ("service" + (" " + unit))), " " + action.Word();
    UnitIsPlain(unit);
    WordIsPlain(action);
    assert !IsSpace('s') by { LetterIsNoSpace(); }
    CutsThere(action, unit);
    BothPlain(" ", unit);
    BothPlain("service", " " + unit);
    BothPlain(" ", "service" + (" " + unit));
    BothPlain("sudo", " " + ("service" + (" " + unit)));
    assert a[|a| - 1] == unit[|unit| - 1];
    FirstSegment(a, b);
  }

  lemma LetterIsNoSpace()
    ensures !IsSpace('s')
  {
  }

  lemma CutsThere(action: Action, unit: string)
    ensures SudoUnitCommand(Mos, action, unit + "\n")
            == ("sudo" + (" " + ("service" + (" " + unit)))) + "\n" + (" " + action.Word())
  {
    var b := " " + action.Word();
    assert (unit + "\n") + b == unit + ("\n" + b);
    Regrouped("sudo", " ", "service", " ", unit, "\n" + b);
  }

  /** On MOS a final newline slips past the wizard's pattern: such a unit is rendered, in two lines,
      wherever it is declared, and the gate refuses it. */
  lemma NewlineIsRenderedOnly(list: Allowlist, discovered: seq<string>, fnmatch: Fnmatch, unit: string, action: Action)
    requires IsUnit(Mos, unit)
    ensures HasRule(Rules(Mos, list, discovered, fnmatch), unit + "\n", action)
            <==> Declared(list, discovered, fnmatch, unit + "\n", action)
    ensures !Accepts(Mos, list, fnmatch, SudoUnitCommand(Mos, action, unit + "\n"))
  {
    hide Refused, Segments, SudoUnitCommand, Rules, HasRule;
    assert (unit + "\n")[..|unit|] == unit;
    RulesAre(Mos, list, discovered, fnmatch, unit + "\n", action);
    CutCommandIsRefused(list, fnmatch, unit);
    CutCommand(action, unit);
  }

  /** On MOS, rule and gate disagree on a name the wizard keeps exactly when it is declared with a final
      newline, or granted by a glob alone without having been discovered. */
  lemma MosDisagreesExactly(list: Allowlist, discovered: seq<string>, fnmatch: Fnmatch, unit: string, action: Action)
    requires Keeps(Mos, unit)
    ensures (HasRule(Rules(Mos, list, discovered, fnmatch), unit, action)
             <==> !Accepts(Mos, list, fnmatch, SudoUnitCommand(Mos, action, unit)))
            <==> if unit[|unit| - 1] == '\n' then Declared(list, discovered, fnmatch, unit, action)
                 else && GlobGranted(list.globs, fnmatch, unit, action)
                      && unit !in discovered && !UnitGranted(list.units, unit, action)
  {
    hide Accepts, Rules, HasRule, UnitMatches, SudoUnitCommand, Allowed, Strip, Pieces;
    if unit[|unit| - 1] == '\n' {
      var name := unit[..|unit| - 1];
      assert unit == name + "\n" && IsUnit(Mos, name);
      NewlineIsRenderedOnly(list, discovered, fnmatch, name, action);
    } else {
      UnitIsOnePiece(Mos, unit);
      RulesAre(Mos, list, discovered, fnmatch, unit, action);
      AllowedIs(list, fnmatch, unit, action);
      GateIsTheAllowlist(Mos, list, fnmatch, action, unit);
    }
  }

  // ── The text of a line ───────────────────────────────────────────────────────────────────────

  /** Two actions on a systemd unit that a glob brought in, as they stand in the file. */
  lemma SystemdLineIs(user: string, unit: string, glob: string)
    requires forall i | 0 <= i < |unit| :: unit[i] != ',' && unit[i] != ':' && unit[i] != '=' && unit[i] != '\\'
    ensures LineOf(Systemd, user, Rule(unit, [Stop, Start], Some(glob)))
            == (user + " ALL=(root) NOPASSWD: ")
               + ((("/usr/bin/systemctl stop " + unit) + (", " + ("/usr/bin/systemctl start " + unit)))
                  + ("  # matched glob '" + glob + "'"))
  {
    hide Command, Escape;
    NothingEscaped(unit);
    var commands := Commands(Systemd, [Stop, Start], unit);
    StopAndStart(unit);
    assert commands[0] == "/usr/bin/systemctl stop " + unit && commands[1] == "/usr/bin/systemctl start " + unit;
    assert |commands| == 2 && commands[1..] == [commands[1]];
    assert Listed(commands) == commands[0] + (", " + Listed(commands[1..]));
    assert Comment(Some(glob)) == "  # matched glob '" + glob + "'";
    assert Opening(user) == user + " ALL=(root) NOPASSWD: ";
  }

  lemma StopAndStart(unit: string)
    ensures Command(Systemd, Stop, unit) == "/usr/bin/systemctl stop " + unit
    ensures Command(Systemd, Start, unit) == "/usr/bin/systemctl start " + unit
  {
  }

  /** ... and one on a MOS unit that is granted by name. */
  lemma MosLineIs(user: string, unit: string)
    requires forall i | 0 <= i < |unit| :: unit[i] != ',' && unit[i] != ':' && unit[i] != '=' && unit[i] != '\\'
    ensures LineOf(Mos, user, Rule(unit, [Restart], None))
            == user + " ALL=(root) NOPASSWD: " + "/usr/sbin/service " + unit + " restart"
  {
    NothingEscaped(unit);
    assert Command(Mos, Restart, unit) == "/usr/sbin/service " + unit + " restart";
  }

  lemma {:induction false} NothingEscaped(unit: string)
    requires forall i | 0 <= i < |unit| :: unit[i] != ',' && unit[i] != ':' && unit[i] != '=' && unit[i] != '\\'
    ensures Escape(unit) == unit
  {
    if unit != "" {
      NothingEscaped(unit[1..]);
    }
  }

  /** The four metacharacters are what a backslash is put before. */
  lemma EscapedIs(c: char)
    ensures Escape([c]) == if c as int in {44, 58, 61, 92} then ['\\', c] else [c]
  {
    assert [c][1..] == "";
  }

  /** The grants by name come first. */
  lemma NamesComeFirst(p: Provider, list: Allowlist, discovered: seq<string>, fnmatch: Fnmatch)
    ensures var rules := Rules(p, list, discovered, fnmatch);
            forall i, j | 0 <= i < j < |rules| && rules[j].glob.None? :: rules[i].glob.None?
  {
    var names, globs := UnitRules(p, list.units), GlobRules(p, list.globs, discovered, fnmatch);
    forall r | r in names ensures r.glob.None? {
      UnitRulesAre(p, list.units, r);
    }
    forall r | r in globs ensures r.glob.Some? {
      GlobRulesAre(p, list.globs, discovered, fnmatch, r);
    }
    var rules := names + globs;
    assert forall i | 0 <= i < |names| :: rules[i] == names[i] && names[i] in names;
    assert forall i | |names| <= i < |rules| :: rules[i] == globs[i - |names|] && globs[i - |names|] in globs;
  }

  /** Each glob's units are in alphabetical order. */
  lemma GlobUnitsInOrder(p: Provider, g: GlobGrant, discovered: seq<string>, fnmatch: Fnmatch)
    ensures var rules := RulesOf(Sorted(Matched(p, discovered, fnmatch, g.glob), TextBefore), g);
            forall i, j | 0 <= i < j < |rules| :: !TextBefore(rules[j].unit, rules[i].unit)
  {
    var matched := Matched(p, discovered, fnmatch, g.glob);
    forall a, b, c
      ensures TextBefore(a, b) ==> !TextBefore(b, a)
      ensures !TextBefore(b, a) && !TextBefore(c, b) ==> !TextBefore(c, a)
    {
      TextOrder(a, b, c);
    }
    SortedInOrder(matched, TextBefore);
  }
}
