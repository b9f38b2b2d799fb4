/**
 The runtime gate for `sudo` (`_check_sudo_allowlist`): every segment of a command that mentions sudo
 must be a declared action on a declared unit, spelt the way this host's provider spells it.

 Regular expressions are deterministic scans. `fnmatch` is a parameter. Letters are compared as
 `re.IGNORECASE` compares them, non-ASCII folds included.
 */
module SudoGate {
  import opened Texts
  import opened Wrappers

  datatype Provider = Systemd | Mos

  datatype Action = Start | Stop | Restart {
    function Word(): string {
      match this
      case Start => "start"
      case Stop => "stop"
      case Restart => "restart"
    }
  }

  datatype UnitGrant = UnitGrant(unit: string, actions: seq<Action>)
  datatype GlobGrant = GlobGrant(glob: string, actions: seq<Action>)
  datatype Allowlist = Allowlist(units: seq<UnitGrant>, globs: seq<GlobGrant>)

  datatype Refusal = NoSuchShape(segment: string) | NotDeclared(segment: string, action: string, unit: string)

  type Fnmatch = (string, string) -> bool

  predicate IsLetterOrDigit(c: char) {
    'A' <= c <= 'Z' || 'a' <= c <= 'z' || '0' <= c <= '9'
  }

  /** The unit names a provider has: `_UNIT_NAME_RE`, `_MOS_UNIT_NAME_RE`. */
  predicate IsUnitChar(p: Provider, c: char) {
    IsLetterOrDigit(c) || c == '_' || c == '-' || (p.Systemd? && (c == '.' || c == '@' || c == ':'))
  }

  predicate IsUnit(p: Provider, unit: string) {
    unit != "" && forall i | 0 <= i < |unit| :: IsUnitChar(p, unit[i])
  }

  /** The folds that `re.IGNORECASE` adds to `[A-Za-z]`. */
  predicate Folds(c: char) {
    c in {'\U{0130}', '\U{0131}', '\U{017F}', '\U{212A}'}
  }

  predicate Alike(c: char, letter: char) {
    || c == letter
    || ('A' <= c <= 'Z' && c as int + 32 == letter as int)
    || (c == '\U{017F}' && letter == 's')
    || (c == '\U{212A}' && letter == 'k')
    || (c in {'\U{0130}', '\U{0131}'} && letter == 'i')
  }

  // ── Segments ─────────────────────────────────────────────────────────────────────────────────

  function Pieces(s: string): (pieces: seq<string>)
    ensures |pieces| > 0
  {
    if s == "" then [""]
    else if "&&" <= s || "||" <= s then [""] + Pieces(s[2..])
    else if s[0] == ';' || s[0] == '|' || s[0] == '\n' then [""] + Pieces(s[1..])
    else
      var rest := Pieces(s[1..]);
      [[s[0]] + rest[0]] + rest[1..]
  }

  function Stripped(pieces: seq<string>): seq<string> {
    if pieces == [] then []
    else if Strip(pieces[0]) == "" then Stripped(pieces[1..])
    else [Strip(pieces[0])] + Stripped(pieces[1..])
  }

  function Segments(command: string): seq<string> {
    Stripped(Pieces(command))
  }

  // ── The one shape ────────────────────────────────────────────────────────────────────────────

  /** What follows `word`, letter case aside. */
  function AfterWord(s: string, word: string): (r: Option<string>)
    ensures r.Some? ==> |word| <= |s| && r.value == s[|word|..]
  {
    if word == "" then Some(s)
    else if s == "" || !Alike(s[0], word[0]) then None
    else AfterWord(s[1..], word[1..])
  }

  /** `\s+` */
  function AfterSpaces(s: string): (r: Option<string>)
    ensures r.Some? ==> |r.value| < |s|
  {
    if s == "" || !IsSpace(s[0]) then None else Some(SkipSpaces(s))
  }

  /** `word\s+` */
  function AfterSpacedWord(s: string, word: string): Option<string> {
    var rest := AfterWord(s, word);
    if rest.None? then None else AfterSpaces(rest.value)
  }

  predicate UnitMatches(p: Provider, s: string) {
    s != "" && forall i | 0 <= i < |s| :: IsUnitChar(p, s[i]) || Folds(s[i])
  }

  /** `(start|stop|restart)` and what follows: no alternative begins another. */
  function ActionAt(s: string): (r: Option<(string, string)>)
    ensures r.Some? ==> s == r.value.0 + r.value.1
  {
    if AfterWord(s, "start").Some? then Some((s[..5], s[5..]))
    else if AfterWord(s, "stop").Some? then Some((s[..4], s[4..]))
    else if AfterWord(s, "restart").Some? then Some((s[..7], s[7..]))
    else None
  }

  function UnitLength(p: Provider, s: string): (n: nat)
    ensures n <= |s|
  {
    if s == "" || !(IsUnitChar(p, s[0]) || Folds(s[0])) then 0 else 1 + UnitLength(p, s[1..])
  }

  function MatchSystemctl(s: string): Option<(string, string)> {
    var command := AfterSpacedWord(s, "systemctl");
    if command.None? then None
    else
      var action := ActionAt(command.value);
      if action.None? then None
      else
        var unit := AfterSpaces(action.value.1);
        if unit.Some? && UnitMatches(Systemd, unit.value) then Some((unit.value, action.value.0)) else None
  }

  function MatchService(s: string): Option<(string, string)> {
    var command := AfterSpacedWord(s, "service");
    if command.None? then None
    else
      var n := UnitLength(Mos, command.value);
      var action := AfterSpaces(command.value[n..]);
      if n == 0 || action.None? then None
      else
        var word := ActionAt(action.value);
        if word.Some? && word.value.1 == "" then Some((command.value[..n], word.value.0)) else None
  }

  /** The unit and the action a segment names. */
  function Match(p: Provider, segment: string): Option<(string, string)> {
    var command := AfterSpacedWord(segment, "sudo");
    if command.None? then None
    else if p.Mos? then MatchService(command.value)
    else MatchSystemctl(command.value)
  }

  predicate IsWordChar(c: char) {
    IsLetterOrDigit(c) || c == '_'
  }

  /** `\bsudo\b` somewhere */
  predicate MentionsSudo(s: string) {
    exists i :: 0 <= i <= |s| && (i == 0 || !IsWordChar(s[i - 1])) && AfterWord(s[i..], "sudo").Some?
                && (i + 4 >= |s| || !IsWordChar(s[i + 4]))
  }

  predicate Grants(actions: seq<Action>, word: string) {
    exists a :: a in actions && a.Word() == word
  }

  predicate Allowed(list: Allowlist, fnmatch: Fnmatch, unit: string, action: string) {
    || (exists g :: g in list.units && g.unit == unit && Grants(g.actions, Lower(action)))
    || (exists g :: g in list.globs && fnmatch(unit, g.glob) && Grants(g.actions, Lower(action)))
  }

  /** Why a segment is refused, if it is. */
  function Refused(p: Provider, list: Allowlist, fnmatch: Fnmatch, segment: string): Option<Refusal> {
    if !MentionsSudo(segment) then None
    else
      match Match(p, segment)
      case None => Some(NoSuchShape(segment))
      case Some((unit, action)) =>
        if Allowed(list, fnmatch, unit, action) then None else Some(NotDeclared(segment, Lower(action), unit))
  }

  predicate Accepts(p: Provider, list: Allowlist, fnmatch: Fnmatch, command: string) {
    forall segment | segment in Segments(command) :: Refused(p, list, fnmatch, segment).None?
  }

  function Head(p: Provider): string {
    if p.Mos? then "service" else "systemctl"
  }

  function Tail(p: Provider, action: Action, unit: string): string {
    if p.Mos? then unit + (" " + action.Word()) else action.Word() + (" " + unit)
  }

  function SudoUnitCommand(p: Provider, action: Action, unit: string): string {
    "sudo" + (" " + (Head(p) + (" " + Tail(p, action, unit))))
  }

  /** The gate: it raises at the first segment it refuses. */
  method CheckSudoAllowlist(p: Provider, list: Allowlist, fnmatch: Fnmatch, command: string)
    returns (error: Option<Refusal>)
    ensures error.None? <==> Accepts(p, list, fnmatch, command)
    ensures error.Some? ==> exists i :: 0 <= i < |Segments(command)|
                              && Refused(p, list, fnmatch, Segments(command)[i]) == error
                              && forall j | 0 <= j < i :: Refused(p, list, fnmatch, Segments(command)[j]).None?
  {
    hide Refused, Segments;
    var segments := Segments(command);
    for i := 0 to |segments|
      invariant forall j | 0 <= j < i :: Refused(p, list, fnmatch, segments[j]).None?
    {
      var refusal := Refused(p, list, fnmatch, segments[i]);
      if refusal.Some? {
        return refusal;
      }
    }
    return None;
  }

  // ── What the gate makes of a unit command ────────────────────────────────────────────────────

  predicate IsCommandChar(c: char) {
    c != '&' && c != '|' && c != ';' && c != '\n'
  }

  lemma {:induction false} OnePiece(s: string)
    requires forall i | 0 <= i < |s| :: IsCommandChar(s[i])
    ensures Pieces(s) == [s]
  {
    if s != "" {
      OnePiece(s[1..]);
      assert s[0] != '&' && s[0] != '|';
      assert s == [s[0]] + s[1..];
    }
  }

  lemma {:induction false} AfterOwnWord(word: string, tail: string)
    ensures AfterWord(word + tail, word) == Some(tail)
  {
    if word == "" {
      assert word + tail == tail;
    } else {
      assert (word + tail)[1..] == word[1..] + tail;
      AfterOwnWord(word[1..], tail);
    }
  }

  lemma AfterOwnSpace(tail: string)
    requires tail != "" && !IsSpace(tail[0])
    ensures AfterSpaces(" " + tail) == Some(tail)
  {
    var s := " " + tail;
    assert s[1..] == tail && s[0] == ' ';
    assert SkipSpaces(s) == SkipSpaces(tail) == tail;
  }

  lemma AfterOwnSpacedWord(word: string, tail: string)
    requires tail != "" && !IsSpace(tail[0])
    ensures AfterSpacedWord(word + (" " + tail), word) == Some(tail)
  {
    AfterOwnWord(word, " " + tail);
    AfterOwnSpace(tail);
  }

  lemma OwnAction(action: Action, tail: string)
    ensures ActionAt(action.Word() + tail) == Some((action.Word(), tail))
  {
    var s := action.Word() + tail;
    AfterOwnWord(action.Word(), tail);
    assert s[..|action.Word()|] == action.Word() && s[|action.Word()|..] == tail;
    match action
    case Start =>
    case Stop =>
      assert s[2] == 'o';
      assert AfterWord(s[2..], "art").None?;
      assert AfterWord(s[1..], "tart").None?;
      assert AfterWord(s, "start").None?;
    case Restart =>
      assert s[0] == 'r';
  }

  lemma {:induction false} OwnUnitLength(p: Provider, unit: string, tail: string)
    requires tail == "" || !(IsUnitChar(p, tail[0]) || Folds(tail[0]))
    ensures UnitLength(p, unit + tail) <= |unit|
    ensures UnitLength(p, unit + tail) == |unit|
            <==> forall i | 0 <= i < |unit| :: IsUnitChar(p, unit[i]) || Folds(unit[i])
  {
    if unit == "" {
      assert unit + tail == tail;
    } else {
      assert (unit + tail)[1..] == unit[1..] + tail;
      OwnUnitLength(p, unit[1..], tail);
      assert forall i | 1 <= i < |unit| :: unit[i] == unit[1..][i - 1];
    }
  }

  lemma LowerStays(s: string)
    requires forall i | 0 <= i < |s| :: !('A' <= s[i] <= 'Z')
    ensures Lower(s) == s
  {
  }

  lemma CommandMentionsSudo(tail: string)
    ensures MentionsSudo("sudo" + (" " + tail))
  {
    var command := "sudo" + (" " + tail);
    AfterOwnWord("sudo", " " + tail);
    assert command[0..] == command && command[4] == ' ';
  }

  predicate IsPlain(s: string) {
    forall i | 0 <= i < |s| :: IsCommandChar(s[i])
  }

  lemma BothPlain(a: string, b: string)
    requires IsPlain(a) && IsPlain(b)
    ensures IsPlain(a + b)
  {
  }

  lemma WordIsPlain(action: Action)
    ensures IsPlain(action.Word()) && IsPlain(" ") && IsPlain("sudo") && IsPlain("systemctl") && IsPlain("service")
  {
  }

  lemma PieceFront(c: char, s: string)
    requires c != '|' && c != ';' && c != '\n' && !("&&" <= [c] + s)
    ensures Pieces([c] + s) == [[c] + Pieces(s)[0]] + Pieces(s)[1..]
  {
    assert ([c] + s)[1..] == s && ([c] + s)[0] == c;
  }

  lemma {:induction false} PiecesAfter(head: string, s: string)
    requires IsPlain(head)
    ensures Pieces(head + s) == [head + Pieces(s)[0]] + Pieces(s)[1..]
  {
    hide Pieces;
    if head == "" {
      assert head + s == s && head + Pieces(s)[0] == Pieces(s)[0];
    } else {
      var c, rest := head[0], head[1..];
      PiecesAfter(rest, s);
      PlainFront(head, s);
      PieceFront(c, rest + s);
      FirstOfPieces(rest + Pieces(s)[0], Pieces(s)[1..]);
      FrontOf(head, Pieces(s)[0]);
    }
  }

  lemma PlainFront(head: string, s: string)
    requires head != "" && IsPlain(head)
    ensures head + s == [head[0]] + (head[1..] + s) && IsPlain(head[1..])
    ensures head[0] != '|' && head[0] != ';' && head[0] != '\n' && !("&&" <= [head[0]] + (head[1..] + s))
  {
    assert ([head[0]] + (head[1..] + s))[0] == head[0] && head[0] != '&';
  }

  lemma FrontOf(head: string, s: string)
    requires head != ""
    ensures [head[0]] + (head[1..] + s) == head + s
  {
  }

  lemma OneOf(first: string, rest: seq<string>, s: string)
    requires [first] + rest == [s]
    ensures first == s && rest == []
  {
    assert ([first] + rest)[0] == first;
  }

  lemma NotEmptyFirst(rest: seq<string>, s: string)
    requires s != ""
    ensures [""] + rest != [s]
  {
    assert ([""] + rest)[0] == "";
  }

  /** A text in one piece begins with no separator. */
  lemma OnePieceStarts(s: string)
    requires s != "" && Pieces(s) == [s]
    ensures !("&&" <= s) && s[0] != '|' && s[0] != ';' && s[0] != '\n' && Pieces(s[1..]) == [s[1..]]
  {
    forall rest: seq<string> ensures [""] + rest != [s] {
      NotEmptyFirst(rest, s);
    }
    var rest := Pieces(s[1..]);
    OneOf([s[0]] + rest[0], rest[1..], s);
    assert rest[0] == s[1..] && rest == [rest[0]];
  }

  lemma NoneAcross(s: string, tail: string)
    requires s != "" && !("&&" <= s) && IsPlain(tail)
    ensures !("&&" <= s + tail)
  {
    var both := s + tail;
    if |s| > 1 {
      assert both[0] == s[0] && both[1] == s[1];
    } else if tail != "" {
      assert both[1] == tail[0];
    }
  }

  lemma PieceMore(c: char, s: string)
    requires Pieces(s) == [s] && c != '|' && c != ';' && c != '\n' && !("&&" <= [c] + s)
    ensures Pieces([c] + s) == [[c] + s]
  {
    assert ([c] + s)[1..] == s && ([c] + s)[0] == c;
  }

  lemma {:induction false} OnePieceMore(s: string, tail: string)
    requires Pieces(s) == [s] && IsPlain(tail)
    ensures Pieces(s + tail) == [s + tail]
  {
    hide Pieces;
    if s == "" {
      OnePiece(tail);
      assert s + tail == tail;
    } else {
      OnePieceStarts(s);
      OnePieceMore(s[1..], tail);
      assert [s[0]] + (s[1..] + tail) == s + tail;
      NoneAcross(s, tail);
      PieceMore(s[0], s[1..] + tail);
    }
  }

  // ── Blanks around a unit ─────────────────────────────────────────────────────────────────────

  lemma {:induction false} StripEndAfter(head: string, s: string)
    requires head != "" && !IsSpace(head[|head| - 1])
    ensures StripEnd(head + s) == head + StripEnd(s)
  {
    if s == "" || !IsSpace(s[|s| - 1]) {
      assert (head + s)[|head + s| - 1] == if s == "" then head[|head| - 1] else s[|s| - 1];
    } else {
      assert (head + s)[..|head + s| - 1] == head + s[..|s| - 1];
      StripEndAfter(head, s[..|s| - 1]);
    }
  }

  /** Stripping the end first leaves the same middle. */
  lemma EitherEndFirst(left: string, middle: string, right: string)
    requires AllSpace(left) && AllSpace(right) && middle != "" && !IsSpace(middle[0]) && !IsSpace(middle[|middle| - 1])
    ensures StripEnd(left + (middle + right)) == left + middle
  {
    hide IsSpace, AllSpace, StripEnd;
    var head := left + middle;
    StripEndAfter(head, right);
    StripEndSplits(right);
    assert left + (middle + right) == head + right && head[|head| - 1] == middle[|middle| - 1];
    assert head + "" == head;
  }

  lemma StripFirst(s: string)
    requires s != "" && !IsSpace(s[0])
    ensures Strip(s) == StripEnd(s)
  {
  }

  // ── The gate on systemd ──────────────────────────────────────────────────────────────────────

  lemma ActionThenUnit(action: Action, unit: string)
    ensures MatchSystemctl("systemctl" + (" " + (action.Word() + StripEnd(" " + unit))))
            == if UnitMatches(Systemd, Strip(unit)) then Some((Strip(unit), action.Word())) else None
  {
    hide ActionAt, AfterSpacedWord, StripEnd, SkipSpaces, Strip;
    var t := StripEnd(" " + unit);
    AfterOwnSpacedWord("systemctl", action.Word() + t);
    OwnAction(action, t);
    TrimmedUnit(unit);
  }

  lemma TrimmedUnit(unit: string)
    ensures var t := StripEnd(" " + unit);
            AfterSpaces(t) == if Strip(unit) == "" then None else Some(Strip(unit))
  {
    hide StripEnd, SkipSpaces, Strip;
    var u := Strip(unit);
    var left, right := StripSplits(unit);
    StripEndSplits(" " + unit);
    if u == "" {
      assert AllSpace(" " + unit);
    } else {
      assert " " + unit == (" " + left) + (u + right);
      EitherEndFirst(" " + left, u, right);
      SkipSpacesAfter(" " + left, u);
      SkipOwn(u);
    }
  }

  lemma Regrouped(a: string, b: string, c: string, d: string, e: string, rest: string)
    ensures a + (b + (c + (d + (e + rest)))) == (a + (b + (c + (d + e)))) + rest
  {
  }

  lemma SystemctlCommand(action: Action, unit: string)
    ensures SudoUnitCommand(Systemd, action, unit)
            == ("sudo" + (" " + ("systemctl" + (" " + action.Word())))) + (" " + unit)
    ensures SudoUnitCommand(Systemd, action, unit)
            == ("sudo" + (" " + ("systemctl" + (" " + (action.Word() + " "))))) + unit
  {
    Regrouped("sudo", " ", "systemctl", " ", action.Word(), " " + unit);
    Regrouped("sudo", " ", "systemctl", " ", action.Word() + " ", unit);
    assert action.Word() + (" " + unit) == (action.Word() + " ") + unit;
  }

  lemma SystemctlSegment(action: Action, unit: string)
    ensures var s := Strip(SudoUnitCommand(Systemd, action, unit));
            && s != "" && MentionsSudo(s)
            && Match(Systemd, s)
               == if UnitMatches(Systemd, Strip(unit)) then Some((Strip(unit), action.Word())) else None
  {
    hide Strip, StripEnd, MatchSystemctl, UnitMatches, MentionsSudo, AfterSpacedWord;
    var head, t := "sudo" + (" " + ("systemctl" + (" " + action.Word()))), StripEnd(" " + unit);
    var rest := "systemctl" + (" " + (action.Word() + t));
    SystemctlCommand(action, unit);
    assert head[|head| - 1] == action.Word()[|action.Word()| - 1];
    StripEndAfter(head, " " + unit);
    StripFirst(head + (" " + unit));
    Regrouped("sudo", " ", "systemctl", " ", action.Word(), t);
    CommandMentionsSudo(rest);
    AfterOwnSpacedWord("sudo", rest);
    ActionThenUnit(action, unit);
  }

  lemma SegmentDecides(p: Provider, list: Allowlist, fnmatch: Fnmatch, s: string)
    requires MentionsSudo(s)
    ensures Refused(p, list, fnmatch, s).None?
            <==> Match(p, s).Some? && Allowed(list, fnmatch, Match(p, s).value.0, Match(p, s).value.1)
  {
  }

  lemma FirstSegmentFirst(pieces: seq<string>)
    requires pieces != [] && Strip(pieces[0]) != ""
    ensures Stripped(pieces) == [Strip(pieces[0])] + Stripped(pieces[1..])
  {
  }

  lemma SystemctlSegments(action: Action, unit: string)
    ensures Segments(SudoUnitCommand(Systemd, action, unit))
            == [Strip(SudoUnitCommand(Systemd, action, Pieces(unit)[0]))] + Stripped(Pieces(unit)[1..])
  {
    hide Strip, Stripped, Pieces, IsPlain, MentionsSudo, Match;
    var head := "sudo" + (" " + ("systemctl" + (" " + (action.Word() + " "))));
    WordIsPlain(action);
    BothPlain(action.Word(), " ");
    BothPlain(" ", action.Word() + " ");
    BothPlain("systemctl", " " + (action.Word() + " "));
    BothPlain(" ", "systemctl" + (" " + (action.Word() + " ")));
    BothPlain("sudo", " " + ("systemctl" + (" " + (action.Word() + " "))));
    SystemctlCommand(action, unit);
    SystemctlCommand(action, Pieces(unit)[0]);
    PiecesAfter(head, unit);
    SystemctlSegment(action, Pieces(unit)[0]);
    FirstSegmentFirst(Pieces(head + unit));
  }

  /** On systemd the gate, asked about any name at all, answers for what stands before its first
      separator, blanks around it aside, and lets the rest through only as commands of their own. */
  lemma SystemctlGate(list: Allowlist, fnmatch: Fnmatch, action: Action, unit: string)
    ensures var first := Strip(Pieces(unit)[0]);
            Accepts(Systemd, list, fnmatch, SudoUnitCommand(Systemd, action, unit))
            <==> && UnitMatches(Systemd, first) && Allowed(list, fnmatch, first, action.Word())
                 && forall s | s in Stripped(Pieces(unit)[1..]) :: Refused(Systemd, list, fnmatch, s).None?
  {
    hide Pieces, Strip, Stripped, Refused, Match, Allowed, UnitMatches, MentionsSudo, Segments, SudoUnitCommand;
    var own := Strip(SudoUnitCommand(Systemd, action, Pieces(unit)[0]));
    SystemctlSegments(action, unit);
    SystemctlSegment(action, Pieces(unit)[0]);
    SegmentDecides(Systemd, list, fnmatch, own);
    assert forall s :: s in [own] + Stripped(Pieces(unit)[1..]) <==> s == own || s in Stripped(Pieces(unit)[1..]);
  }

  // ── The gate on MOS ──────────────────────────────────────────────────────────────────────────

  lemma {:induction false} AfterWordIsAlike(s: string, word: string)
    requires AfterWord(s, word).Some? && forall i | 0 <= i < |word| :: 'a' <= word[i] <= 'z'
    ensures ' ' !in s[..|word|]
  {
    if word != "" {
      AfterWordIsAlike(s[1..], word[1..]);
      assert s[..|word|] == [s[0]] + s[1..][..|word| - 1];
    }
  }

  lemma ActionHasNoBlank(s: string)
    requires ActionAt(s).Some? && ActionAt(s).value.1 == ""
    ensures ' ' !in s
  {
    hide AfterWord;
    var word := if AfterWord(s, "start").Some? then "start"
                else if AfterWord(s, "stop").Some? then "stop" else "restart";
    AfterWordIsAlike(s, word);
    assert s[..|word|] == s;
  }

  lemma {:induction false} UnitLengthStops(p: Provider, s: string)
    ensures var n := UnitLength(p, s); n < |s| ==> !(IsUnitChar(p, s[n]) || Folds(s[n]))
    ensures forall i | 0 <= i < UnitLength(p, s) :: IsUnitChar(p, s[i]) || Folds(s[i])
  {
    if s != "" && (IsUnitChar(p, s[0]) || Folds(s[0])) {
      UnitLengthStops(p, s[1..]);
      assert forall i | 1 <= i < UnitLength(p, s) :: s[i] == s[1..][i - 1];
    }
  }

  lemma UnitCharsAreNotSpace(p: Provider, c: char)
    requires IsUnitChar(p, c) || Folds(c)
    ensures !IsSpace(c)
  {
  }

  lemma BreaksInside(unit: string, tail: string)
    requires unit != "" && !UnitMatches(Mos, unit)
    ensures UnitLength(Mos, unit + tail) < |unit|
  {
    UnitLengthStops(Mos, unit + tail);
    assert forall i | 0 <= i < |unit| :: unit[i] == (unit + tail)[i];
  }

  /** No action stands behind a blank that follows part of a name. */
  lemma NoActionAfter(unit: string, tail: string, n: nat)
    requires n < |unit| && !IsSpace(unit[|unit| - 1]) && ' ' in tail
    ensures var after := AfterSpaces((unit + tail)[n..]);
            after.Some? ==> ActionAt(after.value).None? || ActionAt(after.value).value.1 != ""
  {
    hide ActionAt, SkipSpaces, IsSpace;
    var s := (unit + tail)[n..];
    SkipSpacesSplits(s);
    if IsSpace(s[0]) {
      var w := SkipSpaces(s);
      var k := |s| - |w|;
      assert s[|unit| - 1 - n] == unit[|unit| - 1];
      assert AllSpace(s[..k]) && w == s[k..];
      var i :| 0 <= i < |tail| && tail[i] == ' ';
      assert s[|unit| - n + i] == tail[i];
      assert w[|unit| - n + i - k] == ' ';
      if ActionAt(w).Some? && ActionAt(w).value.1 == "" {
        ActionHasNoBlank(w);
      }
    }
  }

  /** Whatever follows a broken name, no action ends the command. */
  lemma BrokenUnit(action: Action, unit: string, right: string)
    requires unit != "" && !IsSpace(unit[0]) && !IsSpace(unit[|unit| - 1]) && AllSpace(right) && !UnitMatches(Mos, unit)
    ensures MatchService("service" + (" " + (unit + (right + (" " + action.Word()))))).None?
  {
    hide ActionAt, AfterSpacedWord, AfterSpaces, IsSpace, UnitMatches, UnitLength;
    var tail := right + (" " + action.Word());
    AfterOwnSpacedWord("service", unit + tail);
    BreaksInside(unit, tail);
    var n := UnitLength(Mos, unit + tail);
    NoActionAfterBlanks(unit, right, action, n);
  }

  lemma NoActionAfterBlanks(unit: string, right: string, action: Action, n: nat)
    requires n < |unit| && !IsSpace(unit[|unit| - 1])
    ensures var after := AfterSpaces((unit + (right + (" " + action.Word())))[n..]);
            after.Some? ==> ActionAt(after.value).None? || ActionAt(after.value).value.1 != ""
  {
    var tail := right + (" " + action.Word());
    assert tail[|right|] == ' ';
    NoActionAfter(unit, tail, n);
  }

  lemma WholeUnit(action: Action, unit: string, right: string)
    requires AllSpace(right) && UnitMatches(Mos, unit)
    ensures MatchService("service" + (" " + (unit + (right + (" " + action.Word()))))) == Some((unit, action.Word()))
  {
    hide ActionAt, AfterSpacedWord, SkipSpaces;
    var tail := right + (" " + action.Word());
    var rest := unit + tail;
    UnitCharsAreNotSpace(Mos, unit[0]);
    AfterOwnSpacedWord("service", rest);
    OwnUnitLength(Mos, unit, tail);
    assert rest[..|unit|] == unit && rest[|unit|..] == tail;
    assert tail == (right + " ") + action.Word();
    SkipSpacesAfter(right + " ", action.Word());
    SkipOwn(action.Word());
    OwnAction(action, "");
    assert action.Word() + "" == action.Word();
  }

  lemma BlankUnit(action: Action)
    ensures MatchService("service" + (" " + action.Word())).None?
  {
    hide ActionAt, AfterSpacedWord;
    AfterOwnSpacedWord("service", action.Word());
    OwnUnitLength(Mos, action.Word(), "");
    assert action.Word() + "" == action.Word();
  }

  lemma ServiceSkips(left: string, rest: string)
    requires AllSpace(left) && rest != "" && !IsSpace(rest[0])
    ensures MatchService("service" + (" " + (left + rest))) == MatchService("service" + (" " + rest))
  {
    hide ActionAt;
    AfterOwnWord("service", " " + (left + rest));
    assert " " + (left + rest) == (" " + left) + rest;
    SkipSpacesAfter(" " + left, rest);
    SkipOwn(rest);
    AfterOwnSpacedWord("service", rest);
  }

  lemma BlankUnitIsNone(action: Action, unit: string, left: string, right: string)
    requires AllSpace(left) && AllSpace(right) && unit == left + ("" + right)
    ensures MatchService("service" + (" " + (unit + (" " + action.Word())))).None?
  {
    hide MatchService;
    assert unit + (" " + action.Word()) == (left + (right + " ")) + action.Word();
    ServiceSkips(left + (right + " "), action.Word());
    BlankUnit(action);
  }

  lemma MatchesService(action: Action, unit: string)
    ensures MatchService("service" + (" " + (unit + (" " + action.Word()))))
            == if UnitMatches(Mos, Strip(unit)) then Some((Strip(unit), action.Word())) else None
  {
    hide ActionAt, AfterSpacedWord, Strip, MatchService, IsSpace, AllSpace;
    var u := Strip(unit);
    var left, right := StripSplits(unit);
    var tail := right + (" " + action.Word());
    if u == "" {
      BlankUnitIsNone(action, unit, left, right);
    } else {
      assert unit + (" " + action.Word()) == left + (u + tail);
      assert (u + tail)[0] == u[0];
      ServiceSkips(left, u + tail);
      if UnitMatches(Mos, u) {
        WholeUnit(action, u, right);
      } else {
        BrokenUnit(action, u, right);
      }
    }
  }

  lemma ServiceCommand(action: Action, unit: string)
    ensures SudoUnitCommand(Mos, action, unit) == ("sudo" + (" " + ("service" + " "))) + (unit + (" " + action.Word()))
  {
  }

  lemma ServiceIsOnePiece(action: Action, unit: string)
    requires Pieces(unit) == [unit]
    ensures Pieces(SudoUnitCommand(Mos, action, unit)) == [SudoUnitCommand(Mos, action, unit)]
  {
    hide Pieces, IsPlain;
    var head, tail := "sudo" + (" " + ("service" + " ")), " " + action.Word();
    WordIsPlain(action);
    BothPlain("service", " ");
    BothPlain(" ", "service" + " ");
    BothPlain("sudo", " " + ("service" + " "));
    BothPlain(" ", action.Word());
    OnePieceMore(unit, tail);
    PiecesAfter(head, unit + tail);
    ServiceCommand(action, unit);
    OnlyFirst(unit + tail);
  }

  lemma OnlyFirst(s: string)
    ensures [s][0] == s && [s][1..] == []
  {
  }

  lemma ServiceSegments(action: Action, unit: string)
    requires Pieces(unit) == [unit]
    ensures Segments(SudoUnitCommand(Mos, action, unit)) == [SudoUnitCommand(Mos, action, unit)]
  {
    hide Pieces, Stripped;
    var command := SudoUnitCommand(Mos, action, unit);
    ServiceIsOnePiece(action, unit);
    assert command[0] == 's' && command[|command| - 1] == action.Word()[|action.Word()| - 1];
    StripOwn(command);
    FirstSegmentFirst([command]);
    NothingStripped();
    OnlyFirst(command);
  }

  lemma StripOwn(s: string)
    requires s != "" && !IsSpace(s[0]) && !IsSpace(s[|s| - 1])
    ensures Strip(s) == s
  {
  }

  lemma NothingStripped()
    ensures Stripped([]) == []
  {
  }

  lemma ServiceGate(list: Allowlist, fnmatch: Fnmatch, action: Action, unit: string)
    requires Pieces(unit) == [unit]
    ensures Accepts(Mos, list, fnmatch, SudoUnitCommand(Mos, action, unit))
            <==> UnitMatches(Mos, Strip(unit)) && Allowed(list, fnmatch, Strip(unit), action.Word())
  {
    hide Pieces, Strip, Refused, Allowed, UnitMatches, MentionsSudo, Segments, MatchService;
    var rest := "service" + (" " + (unit + (" " + action.Word())));
    ServiceSegments(action, unit);
    CommandMentionsSudo(rest);
    AfterOwnSpacedWord("sudo", rest);
    MatchesService(action, unit);
    SegmentDecides(Mos, list, fnmatch, "sudo" + (" " + rest));
    assert "sudo" + (" " + rest) in Segments(SudoUnitCommand(Mos, action, unit));
  }

  lemma ServiceSegment(text: string)
    ensures var s := Strip("sudo" + (" " + ("service" + (" " + text))));
            s != "" && MentionsSudo(s) && Match(Mos, s) == MatchService("service" + StripEnd(" " + text))
  {
    hide Strip, StripEnd, MatchService, MentionsSudo, AfterSpacedWord;
    var head, t := "sudo" + (" " + "service"), StripEnd(" " + text);
    StripEndAfter(head, " " + text);
    assert head + (" " + text) == "sudo" + (" " + ("service" + (" " + text)));
    StripFirst(head + (" " + text));
    assert head + t == "sudo" + (" " + ("service" + t));
    CommandMentionsSudo("service" + t);
    AfterOwnSpacedWord("sudo", "service" + t);
  }

  lemma ServiceHead(text: string)
    ensures ("sudo" + (" " + ("service" + " "))) + text == "sudo" + (" " + ("service" + (" " + text)))
    ensures IsPlain("sudo" + (" " + ("service" + " ")))
  {
    hide IsPlain;
    WordIsPlain(Start);
    BothPlain("service", " ");
    BothPlain(" ", "service" + " ");
    BothPlain("sudo", " " + ("service" + " "));
    FourParts("sudo", " ", "service", " ", text);
  }

  lemma FourParts(a: string, b: string, c: string, d: string, rest: string)
    ensures (a + (b + (c + d))) + rest == a + (b + (c + (d + rest)))
  {
  }

  lemma MosSegments(action: Action, unit: string)
    ensures var pieces := Pieces(unit + (" " + action.Word()));
            Segments(SudoUnitCommand(Mos, action, unit))
            == [Strip("sudo" + (" " + ("service" + (" " + pieces[0]))))] + Stripped(pieces[1..])
  {
    hide Strip, Stripped, Pieces, IsPlain, MentionsSudo, Match, SudoUnitCommand;
    var head, text := "sudo" + (" " + ("service" + " ")), unit + (" " + action.Word());
    ServiceCommand(action, unit);
    ServiceHead(Pieces(text)[0]);
    PiecesAfter(head, text);
    ServiceSegment(Pieces(text)[0]);
    FirstOfPieces(head + Pieces(text)[0], Pieces(text)[1..]);
    FirstSegmentFirst(Pieces(head + text));
  }

  lemma FirstOfPieces(first: string, rest: seq<string>)
    ensures ([first] + rest)[0] == first && ([first] + rest)[1..] == rest
  {
  }

  /** On MOS the gate, asked about any name at all, answers for the name and the action that stand before the
      first separator, and lets the rest through only as commands of their own. */
  lemma MosGate(list: Allowlist, fnmatch: Fnmatch, action: Action, unit: string)
    ensures var pieces := Pieces(unit + (" " + action.Word()));
            var named := MatchService("service" + StripEnd(" " + pieces[0]));
            Accepts(Mos, list, fnmatch, SudoUnitCommand(Mos, action, unit))
            <==> && named.Some? && Allowed(list, fnmatch, named.value.0, named.value.1)
                 && forall s | s in Stripped(pieces[1..]) :: Refused(Mos, list, fnmatch, s).None?
  {
    hide Pieces, Strip, Stripped, StripEnd, Refused, Match, MatchService, Allowed, MentionsSudo, Segments,
         SudoUnitCommand;
    var pieces := Pieces(unit + (" " + action.Word()));
    var own := Strip("sudo" + (" " + ("service" + (" " + pieces[0]))));
    MosSegments(action, unit);
    ServiceSegment(pieces[0]);
    SegmentDecides(Mos, list, fnmatch, own);
    assert forall s :: s in [own] + Stripped(pieces[1..]) <==> s == own || s in Stripped(pieces[1..]);
  }

  // ── Both ─────────────────────────────────────────────────────────────────────────────────────

  /** Asked about a name without a separator, the gate answers what the allowlist says of that name
      without the blanks around it, provided it is one the provider's shape can hold. */
  lemma GateIsTheAllowlist(p: Provider, list: Allowlist, fnmatch: Fnmatch, action: Action, unit: string)
    requires Pieces(unit) == [unit]
    ensures Accepts(p, list, fnmatch, SudoUnitCommand(p, action, unit))
            <==> UnitMatches(p, Strip(unit)) && Allowed(list, fnmatch, Strip(unit), action.Word())
  {
    hide Accepts, Allowed, UnitMatches, SudoUnitCommand, Strip;
    if p.Mos? {
      ServiceGate(list, fnmatch, action, unit);
    } else {
      SystemctlGate(list, fnmatch, action, unit);
      NothingStripped();
      assert Pieces(unit)[1..] == [];
    }
  }

  lemma UnitIsOnePiece(p: Provider, unit: string)
    requires IsUnit(p, unit)
    ensures Pieces(unit) == [unit] && Strip(unit) == unit && UnitMatches(p, unit)
  {
    hide Pieces, Strip;
    OnePiece(unit);
    StripOwn(unit);
  }
}
