/**
 What sudo reads of one rendered rule, whatever its unit, its actions and its glob.

 - A `#` or a newline in the unit ends the first line's list, so it keeps one command, cut there.
 - A rule without actions opens a list that stays empty.
 - A glob, which is pasted into the comment, is read on after its first newline.
 - The further lines that a newline in the unit makes add no command (`UnitLinesAddNothing`), and on MOS
   they cannot be read (`MosNewlineIsUnreadable`).

 So any rule reads as `RuleReads` says, and only a sound one reads as its own commands (`LineReads`).
 */
module SudoRule {
  import opened SudoGate
  import opened SudoPattern
  import opened Sudoers
  import opened SudoReader
  import opened Wrappers
  import LineDiff

  predicate Cuts(c: char) {
    c == '#' || c == '\n'
  }

  /** The unit up to what ends its list. */
  function UnitHead(unit: string): (h: string)
    ensures h <= unit && '#' !in h && '\n' !in h && (|h| < |unit| ==> Cuts(unit[|h|]))
  {
    if unit == "" || Cuts(unit[0]) then "" else [unit[0]] + UnitHead(unit[1..])
  }

  predicate IsWhole(unit: string) {
    '#' !in unit && '\n' !in unit
  }

  lemma WholeHead(unit: string)
    ensures UnitHead(unit) == unit <==> IsWhole(unit)
    ensures |UnitHead(unit)| == |unit| <==> IsWhole(unit)
  {
    if |UnitHead(unit)| < |unit| {
      assert unit[|UnitHead(unit)|] in unit;
    }
  }

  /** The commands of the first line. */
  function Heads(p: Provider, r: Rule): seq<string>
    requires r.actions != []
  {
    if IsWhole(r.unit) then SqueezedAll(Commands(p, r.actions, r.unit))
    else [Squeeze(BeforeUnit(p, r.actions[0]) + UnitHead(r.unit))]
  }

  /** What the rule's other lines read as. */
  function Further(p: Provider, user: string, r: Rule): Option<seq<string>> {
    ReadLines(user, LineDiff.Split(LineOf(p, user, r))[1..])
  }

  function Reads(p: Provider, user: string, r: Rule): Option<seq<string>> {
    ReadFile(user, LineOf(p, user, r))
  }

  /** What the lines of a glob after its first read as, the last one with the quote that closes it. */
  function GlobReads(user: string, glob: Option<string>): Option<seq<string>> {
    if glob.None? then Some([]) else ReadLines(user, LineDiff.Split(glob.value + "'")[1..])
  }

  // ── The first line ───────────────────────────────────────────────────────────────────────────

  lemma CommentLines(glob: Option<string>)
    ensures LineDiff.Split(Comment(glob))[1..]
            == if glob.None? then [] else LineDiff.Split(glob.value + "'")[1..]
    ensures IsComment(LineDiff.Split(Comment(glob))[0])
    ensures var first := LineDiff.Split(Comment(glob))[0]; first == "" || (|first| > 2 && first[..3] == "  #")
  {
    if glob.Some? {
      var text := glob.value + "'";
      assert Comment(glob) == "  # matched glob '" + text;
      SplitAfter("  # matched glob '", text);
      var first := "  # matched glob '" + LineDiff.Split(text)[0];
      Prepend(' ', "  # matched glob '", LineDiff.Split(text)[0], LineDiff.Split(text)[1..]);
      assert SkipGaps(first) == SkipGaps(first[1..]) == SkipGaps(first[1..][1..]);
      assert first[1..][1..][0] == '#' && first[..3] == "  #";
    } else {
      assert LineDiff.Split("") == [""];
    }
  }

  lemma PlainCommands(p: Provider, r: Rule)
    requires IsWhole(r.unit) && r.actions != []
    ensures forall i | 0 <= i < |r.actions| :: IsCommand(Commands(p, r.actions, r.unit)[i])
    ensures Commands(p, r.actions, Escape(r.unit)) == EscapedAll(Commands(p, r.actions, r.unit))
    ensures '\n' !in Listed(EscapedAll(Commands(p, r.actions, r.unit)))
  {
    hide Command, Squeeze, Escape;
    var commands := Commands(p, r.actions, r.unit);
    forall i | 0 <= i < |commands|
      ensures IsCommand(commands[i]) && '\n' !in EscapedAll(commands)[i]
      ensures Commands(p, r.actions, Escape(r.unit))[i] == EscapedAll(commands)[i]
    {
      EscapeCommand(p, r.actions[i], r.unit);
      CommandIsOne(p, r.actions[i], r.unit);
      EscapeAddsNoNewline(commands[i]);
    }
    ListedNoNewline(EscapedAll(commands));
  }

  lemma CommandIsOne(p: Provider, action: Action, unit: string)
    requires IsWhole(unit)
    ensures IsCommand(Command(p, action, unit)) && '\n' !in Command(p, action, unit)
  {
    hide Squeeze, BeforeUnit, AfterUnit, Command;
    var head, tail := BeforeUnit(p, action), AfterUnit(p, action);
    CommandParts(p, action, unit);
    BeforeIsPlain(p, action);
    AfterIsPlain(p, action);
    assert '#' !in head + (unit + tail) && '\n' !in head + (unit + tail);
    assert head + (unit + tail) == [head[0]] + (head[1..] + (unit + tail));
    SqueezeBegins(head[0], head[1..] + (unit + tail));
  }

  lemma SqueezeBegins(c: char, s: string)
    requires !IsGap(c)
    ensures Squeeze([c] + s) == Typed(s, [c], false).0 && [c] <= Squeeze([c] + s)
  {
    assert ([c] + s)[1..] == s && Add("", false, [c]) == [c];
    TypedGrows(s, [c], false);
  }

  lemma {:induction false} ListedNoNewline(commands: seq<string>)
    requires forall i | 0 <= i < |commands| :: '\n' !in commands[i]
    ensures '\n' !in Listed(commands)
  {
    if commands != [] {
      ListedNoNewline(commands[1..]);
    }
  }

  lemma WholeReads(p: Provider, user: string, r: Rule)
    requires IsUser(user) && IsWhole(r.unit) && r.actions != []
    ensures Reads(p, user, r) == Both(Some(Heads(p, r)), Further(p, user, r))
    ensures Further(p, user, r) == GlobReads(user, r.glob)
  {
    hide ReadFile, ReadList, ReadLines, Opening, Comment, Listed, Commands, Both, IsWhole;
    var commands := Commands(p, r.actions, r.unit);
    PlainCommands(p, r);
    CommentLines(r.glob);
    OpenedReads(user, Listed(EscapedAll(commands)), Comment(r.glob));
    ListReads(commands, LineDiff.Split(Comment(r.glob))[0]);
    GlobReadsAre(user, r.glob);
  }

  lemma GlobReadsAre(user: string, glob: Option<string>)
    ensures GlobReads(user, glob) == ReadLines(user, LineDiff.Split(Comment(glob))[1..])
  {
    hide ReadLine;
    CommentLines(glob);
  }

  lemma EmptyReads(p: Provider, user: string, r: Rule)
    requires IsUser(user) && r.actions == []
    ensures Reads(p, user, r) == None
  {
    hide ReadFile, ReadLines, Opening, Comment;
    CommentLines(r.glob);
    var first := LineDiff.Split(Comment(r.glob))[0];
    assert "" + Comment(r.glob) == Comment(r.glob) && "" + first == first;
    OpenedReads(user, "", Comment(r.glob));
    ReadEnd(first, "", false);
  }

  /** The list, from where its first unit is cut. */
  lemma CutList(p: Provider, r: Rule) returns (rest: string)
    requires r.actions != [] && !IsWhole(r.unit)
    ensures Listed(Commands(p, r.actions, Escape(r.unit))) + Comment(r.glob)
            == Escape(BeforeUnit(p, r.actions[0]) + UnitHead(r.unit)) + rest
    ensures rest != "" && Cuts(rest[0])
  {
    hide Comment, BeforeUnit, AfterUnit, Command, Listed, Escape, IsWhole;
    var a, h := r.actions[0], UnitHead(r.unit);
    WholeHead(r.unit);
    var after := r.unit[|h|..];
    assert r.unit == h + after;
    EscapeBoth(h, after);
    EscapedCut(after);
    BeforeIsPlain(p, a);
    NothingToEscape(BeforeUnit(p, a));
    EscapeBoth(BeforeUnit(p, a), h);
    CommandParts(p, a, Escape(r.unit));
    var commands := Commands(p, r.actions, Escape(r.unit));
    var more := ListedBegins(commands);
    rest := Escape(after) + (AfterUnit(p, a) + (more + Comment(r.glob)));
    CutParts(BeforeUnit(p, a), Escape(h), Escape(after), AfterUnit(p, a), more, Comment(r.glob));
  }

  lemma CutParts(a: string, b: string, c: string, d: string, e: string, f: string)
    ensures ((a + ((b + c) + d)) + e) + f == (a + b) + (c + (d + (e + f)))
  {
  }

  lemma EscapedCut(after: string)
    requires after != "" && Cuts(after[0])
    ensures Escape(after) != "" && Cuts(Escape(after)[0])
  {
  }

  lemma ListedBegins(commands: seq<string>) returns (more: string)
    requires commands != []
    ensures Listed(commands) == commands[0] + more
  {
    more := if |commands| == 1 then "" else ", " + Listed(commands[1..]);
    assert |commands| == 1 ==> commands[0] + "" == commands[0];
  }

  lemma CutEndsTheList(rest: string)
    requires rest != "" && Cuts(rest[0])
    ensures IsComment(LineDiff.Split(rest)[0])
  {
  }

  lemma CutReads(p: Provider, user: string, r: Rule)
    requires IsUser(user) && !IsWhole(r.unit) && r.actions != []
    ensures Reads(p, user, r) == Both(Some(Heads(p, r)), Further(p, user, r))
  {
    hide ReadFile, ReadList, ReadLines, Opening, Comment, Listed, Commands, Both, BeforeUnit, IsWhole, IsComment,
         Squeeze, Escape;
    var begun := BeforeUnit(p, r.actions[0]) + UnitHead(r.unit);
    var rest := CutList(p, r);
    CutEndsTheList(rest);
    BegunIsOne(p, r.actions[0], UnitHead(r.unit));
    EscapeAddsNoNewline(begun);
    OpenedReads(user, Escape(begun), rest);
    LastReads(begun, LineDiff.Split(rest)[0]);
  }

  lemma BegunIsOne(p: Provider, action: Action, h: string)
    requires '#' !in h && '\n' !in h
    ensures IsCommand(BeforeUnit(p, action) + h) && '\n' !in BeforeUnit(p, action) + h
  {
    hide Squeeze, BeforeUnit;
    var head := BeforeUnit(p, action);
    BeforeIsPlain(p, action);
    assert '#' !in head + h && '\n' !in head + h;
    assert head + h == [head[0]] + (head[1..] + h);
    SqueezeBegins(head[0], head[1..] + h);
  }

  /** What any rule reads as. */
  lemma RuleReads(p: Provider, user: string, r: Rule)
    requires IsUser(user)
    ensures Reads(p, user, r)
            == if r.actions == [] then None else Both(Some(Heads(p, r)), Further(p, user, r))
  {
    hide Reads, Heads, Further, IsWhole;
    if r.actions == [] {
      EmptyReads(p, user, r);
    } else if IsWhole(r.unit) {
      WholeReads(p, user, r);
    } else {
      CutReads(p, user, r);
    }
  }

  // ── The other lines ──────────────────────────────────────────────────────────────────────────

  /** After `before`, every `=` is quoted. */
  predicate IsQuoted(before: char, s: string)
    decreases s
  {
    s == "" || ((s[0] == '=' ==> before == '\\') && IsQuoted(s[0], s[1..]))
  }

  lemma QuotedAnywhere(before: char, s: string)
    requires IsQuoted('\n', s)
    ensures IsQuoted(before, s)
  {
  }

  lemma {:induction false} QuotedBoth(before: char, a: string, b: string)
    requires IsQuoted(before, a) && IsQuoted('\n', b)
    ensures IsQuoted(before, a + b)
    decreases a
  {
    if a == "" {
      assert a + b == b;
      QuotedAnywhere(before, b);
    } else {
      assert (a + b)[1..] == a[1..] + b;
      QuotedBoth(a[0], a[1..], b);
    }
  }

  lemma {:induction false} NoneToQuote(before: char, s: string)
    requires '=' !in s
    ensures IsQuoted(before, s)
    decreases s
  {
    if s != "" {
      NoneToQuote(s[0], s[1..]);
    }
  }

  lemma {:induction false} EscapeQuotes(before: char, s: string)
    requires before != '\\'
    ensures IsQuoted(before, Escape(s))
    decreases s
  {
    if s != "" {
      EscapeQuotes('\n', s[1..]);
      var piece, rest := if IsMeta(s[0]) then ['\\', s[0]] else [s[0]], Escape(s[1..]);
      assert Escape(s) == piece + rest;
      assert IsQuoted(before, piece) by {
        assert piece[1..] == if IsMeta(s[0]) then [s[0]] else "";
        assert IsMeta(s[0]) ==> piece[1..][1..] == "";
      }
      QuotedBoth(before, piece, rest);
    }
  }

  lemma CommandIsQuoted(p: Provider, action: Action, unit: string)
    ensures IsQuoted('\n', Command(p, action, Escape(unit)))
  {
    hide BeforeUnit, AfterUnit, Escape, IsQuoted, Command;
    var head, tail := BeforeUnit(p, action), AfterUnit(p, action);
    CommandParts(p, action, Escape(unit));
    BeforeIsPlain(p, action);
    AfterIsPlain(p, action);
    assert forall i | 0 <= i < |head| :: head[i] != '=';
    assert forall i | 0 <= i < |tail| :: tail[i] != '=';
    NoneToQuote('\n', head);
    NoneToQuote('\n', tail);
    EscapeQuotes('\n', unit);
    QuotedBoth('\n', Escape(unit), tail);
    QuotedBoth('\n', head, Escape(unit) + tail);
  }

  lemma {:induction false} ListIsQuoted(commands: seq<string>)
    requires forall i | 0 <= i < |commands| :: IsQuoted('\n', commands[i])
    ensures IsQuoted('\n', Listed(commands))
  {
    if |commands| > 1 {
      ListIsQuoted(commands[1..]);
      NoneToQuote('\n', ", ");
      QuotedBoth('\n', ", ", Listed(commands[1..]));
      QuotedBoth('\n', commands[0], ", " + Listed(commands[1..]));
    }
  }

  lemma {:induction false} LinesAreQuoted(before: char, s: string)
    requires IsQuoted(before, s)
    ensures IsQuoted(before, LineDiff.Split(s)[0])
    ensures forall i | 0 < i < |LineDiff.Split(s)| :: IsQuoted('\n', LineDiff.Split(s)[i])
    decreases s
  {
    if s != "" {
      LinesAreQuoted(s[0], s[1..]);
      var rest := LineDiff.Split(s[1..]);
      if s[0] != '\n' {
        assert ([s[0]] + rest[0])[1..] == rest[0];
      }
    }
  }

  lemma {:induction false} QuotedAt(before: char, s: string, k: nat)
    requires IsQuoted(before, s) && 0 < k < |s| && s[k] == '='
    ensures s[k - 1] == '\\'
    decreases s
  {
    if k > 1 {
      QuotedAt(s[0], s[1..], k - 1);
    }
  }

  lemma {:induction false} SkipsOnlyGaps(s: string) returns (n: nat)
    ensures n <= |s| && SkipGaps(s) == s[n..] && forall i | 0 <= i < n :: IsGap(s[i])
  {
    n := 0;
    if s != "" && IsGap(s[0]) {
      var m := SkipsOnlyGaps(s[1..]);
      n := m + 1;
      assert s[1..][m..] == s[n..];
      assert forall i | 0 < i < n :: s[i] == s[1..][i - 1];
    }
  }

  /** A line that quotes every `=` before its comment is no rule of the user's. */
  lemma QuotedIsNoRule(user: string, x: string, y: string)
    requires IsUser(user) && IsQuoted('\n', x) && (y == "" || (|y| > 2 && y[..3] == "  #"))
    ensures ReadLine(user, x + y) == None || ReadLine(user, x + y) == Some([])
  {
    hide IsQuoted, ReadList, IsComment;
    var line := x + y;
    var n := SkipsOnlyGaps(line);
    if Opening(user) <= line[n..] {
      var k := n + |user| + 4;
      OpeningIsPlain(user);
      OpeningEquals(user);
      assert line[n..][|user| + 4] == '=' && line[n..][|user| + 3] == 'L';
      assert line[k] == '=' && line[k - 1] == 'L';
      if k < |x| {
        QuotedAt('\n', x, k);
      } else {
        HashInside(x, y, n, k);
      }
    }
  }

  lemma HashInside(x: string, y: string, n: nat, k: nat)
    requires |y| > 2 && y[..3] == "  #" && |x| <= k < |x + y| && (x + y)[k] == '='
    requires n <= k && forall i | 0 <= i < n :: IsGap((x + y)[i])
    ensures n <= |x| + 2 < k && (x + y)[|x| + 2] == '#'
  {
    assert y[0] == y[..3][0] && y[1] == y[..3][1] && y[2] == y[..3][2];
    assert (x + y)[|x|] == y[0] && (x + y)[|x| + 1] == y[1] && (x + y)[|x| + 2] == y[2];
  }

  lemma OpeningEquals(user: string)
    ensures |Opening(user)| > |user| + 4 && Opening(user)[|user| + 3] == 'L' && Opening(user)[|user| + 4] == '='
  {
  }

  lemma {:induction false} NoneOrNothing(user: string, lines: seq<string>)
    requires forall i | 0 <= i < |lines| :: ReadLine(user, lines[i]) == None || ReadLine(user, lines[i]) == Some([])
    ensures ReadLines(user, lines) == None || ReadLines(user, lines) == Some([])
  {
    if lines != [] {
      NoneOrNothing(user, lines[1..]);
      NothingBefore(ReadLines(user, lines[1..]));
    }
  }

  /** A newline in a unit adds no command: its other lines are blank, comments, or errors. */
  lemma UnitLinesAddNothing(p: Provider, user: string, r: Rule)
    requires IsUser(user)
    ensures Further(p, user, r) == None || Further(p, user, r) == GlobReads(user, r.glob)
    ensures '\n' !in r.unit ==> Further(p, user, r) == GlobReads(user, r.glob)
  {
    hide ReadLines, ReadLine, Opening, Comment, Listed, Commands, IsQuoted;
    var list, comment := Listed(Commands(p, r.actions, Escape(r.unit))), LineDiff.Split(Comment(r.glob));
    var front := LineDiff.Split(list);
    assert Opening(user) + (list + Comment(r.glob)) == LineOf(p, user, r);
    AfterOpening(user, list + Comment(r.glob));
    SplitBoth(list, Comment(r.glob));
    GlobReadsAre(user, r.glob);
    CommentLines(r.glob);
    RuleListIsQuoted(p, r);
    LinesAreQuoted('\n', list);
    if |front| == 1 {
      assert front[..0] + ([front[0] + comment[0]] + comment[1..]) == [front[0] + comment[0]] + comment[1..];
      assert ([front[0] + comment[0]] + comment[1..])[1..] == comment[1..];
    } else {
      var last := front[|front| - 1] + comment[0];
      var own := front[1..|front| - 1] + [last];
      OwnLines(front, last, comment[1..]);
      forall i | 0 <= i < |own| ensures ReadLine(user, own[i]) == None || ReadLine(user, own[i]) == Some([]) {
        if i < |own| - 1 {
          QuotedIsNoRule(user, front[i + 1], "");
          assert front[i + 1] + "" == front[i + 1];
        } else {
          QuotedIsNoRule(user, front[|front| - 1], comment[0]);
        }
      }
      NoneOrNothing(user, own);
      ReadLinesBoth(user, own, comment[1..]);
      NothingBefore(ReadLines(user, comment[1..]));
      if '\n' !in r.unit {
        ListHasNoNewline(p, r);
        OneLine(list);
      }
    }
  }

  lemma AfterOpening(user: string, text: string)
    requires IsUser(user)
    ensures LineDiff.Split(Opening(user) + text)[1..] == LineDiff.Split(text)[1..]
  {
    hide Opening;
    OpeningIsPlain(user);
    SplitAfter(Opening(user), text);
  }

  lemma OwnLines(front: seq<string>, last: string, rest: seq<string>)
    requires |front| > 1
    ensures (front[..|front| - 1] + ([last] + rest))[1..] == (front[1..|front| - 1] + [last]) + rest
  {
  }

  lemma RuleListIsQuoted(p: Provider, r: Rule)
    ensures IsQuoted('\n', Listed(Commands(p, r.actions, Escape(r.unit))))
  {
    hide Command, IsQuoted, Listed;
    forall i | 0 <= i < |r.actions| ensures IsQuoted('\n', Commands(p, r.actions, Escape(r.unit))[i]) {
      CommandIsQuoted(p, r.actions[i], r.unit);
    }
    ListIsQuoted(Commands(p, r.actions, Escape(r.unit)));
  }

  lemma ListHasNoNewline(p: Provider, r: Rule)
    requires '\n' !in r.unit
    ensures '\n' !in Listed(Commands(p, r.actions, Escape(r.unit)))
  {
    hide Command, Listed, BeforeUnit, AfterUnit;
    EscapeAddsNoNewline(r.unit);
    forall i | 0 <= i < |r.actions| ensures '\n' !in Commands(p, r.actions, Escape(r.unit))[i] {
      CommandParts(p, r.actions[i], Escape(r.unit));
      BeforeIsPlain(p, r.actions[i]);
      AfterIsPlain(p, r.actions[i]);
    }
    ListedNoNewline(Commands(p, r.actions, Escape(r.unit)));
  }

  // ── Sound rules ──────────────────────────────────────────────────────────────────────────────

  /** The lines of a glob after its first are all comments or blank. */
  predicate IsQuiet(glob: Option<string>) {
    glob.Some? ==> var lines := LineDiff.Split(glob.value + "'"); forall i | 0 < i < |lines| :: IsComment(lines[i])
  }

  /** A rule that its line can hold: some action; a unit without `#` or newline, whose blanks are single and
      inside; and no newline in its glob but before a comment or a blank line. */
  predicate IsSound(r: Rule) {
    r.actions != [] && IsWhole(r.unit) && IsTidy(r.unit, true) && IsQuiet(r.glob)
  }

  lemma TypedPlain(s: string, command: string, gap: bool)
    requires s != "" && forall i | 0 <= i < |s| :: !IsGap(s[i])
    ensures Typed(s, command, gap) == (Add(command, gap, s), false)
    decreases |s|
  {
    if |s| > 1 {
      TypedPlain(s[1..], Add(command, gap, [s[0]]), false);
      assert Add(Add(command, gap, [s[0]]), false, s[1..]) == Add(command, gap, [s[0]] + s[1..]);
      assert s == [s[0]] + s[1..];
    } else {
      assert s == [s[0]] && s[1..] == "";
    }
  }

  /** The command before its unit and the blank between them. */
  function Bare(p: Provider, action: Action): string {
    if p.Mos? then "/usr/sbin/service" else "/usr/bin/systemctl" + (" " + action.Word())
  }

  lemma WordsTyped(start: string, word: string)
    requires start != "" && word != "" && (forall i | 0 <= i < |start| :: !IsGap(start[i]))
    requires forall i | 0 <= i < |word| :: !IsGap(word[i])
    ensures Typed(start + (" " + (word + " ")), "", false) == (start + (" " + word), true)
    ensures Typed(start + " ", "", false) == (start, true)
  {
    hide Typed;
    TypedPlain(start, "", false);
    assert Add("", false, start) == start;
    TypedPlain(word, start, true);
    TypedBlank(start);
    TypedBlank(start + (" " + word));
    TypedBoth(start, " ", "", false);
    TypedBoth(start, " " + (word + " "), "", false);
    TypedBoth(" ", word + " ", start, false);
    TypedBoth(word, " ", start, true);
  }

  lemma BareTyped(p: Provider, action: Action)
    ensures Typed(BeforeUnit(p, action), "", false) == (Bare(p, action), true)
    ensures BeforeUnit(p, action) == Bare(p, action) + " " && Bare(p, action) != ""
  {
    hide Typed;
    WordIsNotMeta(action);
    if p.Mos? {
      WordsTyped("/usr/sbin/service", action.Word());
      assert "/usr/sbin/service " == "/usr/sbin/service" + " ";
    } else {
      WordsTyped("/usr/bin/systemctl", action.Word());
      assert "/usr/bin/systemctl " + (action.Word() + " ") == "/usr/bin/systemctl" + (" " + (action.Word() + " "));
      assert "/usr/bin/systemctl" + (" " + (action.Word() + " ")) == "/usr/bin/systemctl" + (" " + action.Word()) + " ";
    }
  }

  lemma TypedBlank(command: string)
    ensures Typed(" ", command, false) == (command, true)
  {
    assert " "[1..] == "";
  }

  /** A command, its unit squeezed on its own. */
  lemma SqueezedCommand(p: Provider, action: Action, h: string)
    ensures Squeeze(BeforeUnit(p, action) + h)
            == if Squeeze(h) == "" then Bare(p, action) else BeforeUnit(p, action) + Squeeze(h)
  {
    hide Typed, BeforeUnit;
    BareTyped(p, action);
    TypedBoth(BeforeUnit(p, action), h, "", false);
    TypedAfter(h, Bare(p, action), "", false);
  }

  lemma SqueezeTidy(s: string)
    requires IsTidy(s, true)
    ensures s != "" && Squeeze(s) == s
  {
    TidyIsKept(s[1..], [s[0]], false);
    assert [s[0]] + s[1..] == s && Add("", false, [s[0]]) == [s[0]];
  }

  lemma {:induction false} NoGapsTidy(s: string, gap: bool)
    requires (s != "" || !gap) && forall i | 0 <= i < |s| :: !IsGap(s[i])
    ensures IsTidy(s, gap)
  {
    if s != "" {
      NoGapsTidy(s[1..], false);
    }
  }

  lemma MosUnit(unit: string)
    requires Keeps(Mos, unit) && IsWhole(unit)
    ensures IsUnit(Mos, unit) && IsTidy(unit, true) && forall i | 0 <= i < |unit| :: !IsGap(unit[i])
  {
    assert unit != "" ==> unit[|unit| - 1] in unit;
    NoGapsTidy(unit, true);
  }

  lemma MosCommandIsTidy(action: Action, unit: string)
    requires unit != "" && forall i | 0 <= i < |unit| :: !IsGap(unit[i])
    ensures Squeeze(Command(Mos, action, unit)) == Command(Mos, action, unit)
  {
    hide Typed, BeforeUnit, Command;
    BareTyped(Mos, action);
    WordIsNotMeta(action);
    CommandParts(Mos, action, unit);
    TypedBoth(BeforeUnit(Mos, action), unit + (" " + action.Word()), "", false);
    TypedBoth(unit, " " + action.Word(), Bare(Mos, action), true);
    TypedPlain(unit, Bare(Mos, action), true);
    TypedBoth(" ", action.Word(), Bare(Mos, action) + (" " + unit), false);
    TypedBlank(Bare(Mos, action) + (" " + unit));
    TypedPlain(action.Word(), Bare(Mos, action) + (" " + unit), true);
    assert (Bare(Mos, action) + (" " + unit)) + (" " + action.Word())
        == (Bare(Mos, action) + " ") + (unit + (" " + action.Word()));
  }

  /** A command is read as it stands exactly if its unit is tidy. */
  lemma CommandIsTidy(p: Provider, action: Action, unit: string)
    requires Keeps(p, unit) && IsWhole(unit)
    ensures Squeeze(Command(p, action, unit)) == Command(p, action, unit) <==> IsTidy(unit, true)
  {
    hide Typed, Squeeze, Command, IsTidy, IsWhole;
    if p.Mos? {
      MosUnit(unit);
      assert unit != "";
      MosCommandIsTidy(action, unit);
    } else {
      CommandParts(p, action, unit);
      assert unit + "" == unit;
      SystemctlIsTidy(action, unit);
    }
  }

  lemma SystemctlIsTidy(action: Action, unit: string)
    ensures Squeeze(BeforeUnit(Systemd, action) + unit) == BeforeUnit(Systemd, action) + unit <==> IsTidy(unit, true)
  {
    hide Typed, BeforeUnit;
    BareTyped(Systemd, action);
    TypedBoth(BeforeUnit(Systemd, action), unit, "", false);
    TidyIsKept(unit, Bare(Systemd, action), true);
  }

  lemma {:induction false} CommentsReadNothing(user: string, lines: seq<string>)
    ensures ReadLines(user, lines) == Some([]) <==> forall i | 0 <= i < |lines| :: IsComment(lines[i])
  {
    if lines != [] {
      CommentsReadNothing(user, lines[1..]);
      NothingBefore(ReadLines(user, lines[1..]));
      LineReadsSomething(user, lines[0]);
      assert forall i | 0 < i < |lines| :: lines[i] == lines[1..][i - 1];
    }
  }

  lemma {:induction false} ListIsNotEmpty(s: string, command: string, gap: bool)
    ensures ReadList(s, command, gap) != Some([])
    decreases |s|
  {
    if s != "" && s[0] != '#' {
      if IsGap(s[0]) {
        ListIsNotEmpty(s[1..], command, true);
      } else if s[0] == '\\' {
        if |s| > 1 {
          ListIsNotEmpty(s[2..], Add(command, gap, if IsQuotedWild(s[1]) then s[..2] else [s[1]]), false);
        }
      } else {
        ListIsNotEmpty(s[1..], Add(command, gap, [s[0]]), false);
      }
    }
  }

  lemma LineReadsSomething(user: string, line: string)
    ensures ReadLine(user, line) == Some([]) <==> IsComment(line)
  {
    hide Opening;
    if !IsComment(line) && Opening(user) <= SkipGaps(line) {
      ListIsNotEmpty(SkipGaps(line)[|Opening(user)|..], "", false);
    }
  }

  lemma QuietGlob(user: string, glob: Option<string>)
    ensures GlobReads(user, glob) == Some([]) <==> IsQuiet(glob)
  {
    hide ReadLines, IsComment;
    if glob.Some? {
      var lines := LineDiff.Split(glob.value + "'");
      CommentsReadNothing(user, lines[1..]);
      assert forall i | 0 < i < |lines| :: lines[i] == lines[1..][i - 1];
    }
  }

  lemma CutIsNoCommand(p: Provider, r: Rule, other: Action)
    requires r.actions != [] && !IsWhole(r.unit)
    ensures Heads(p, r)[0] != Command(p, other, r.unit)
  {
    hide Command, BeforeUnit, AfterUnit, Typed;
    var a, h := r.actions[0], UnitHead(r.unit);
    var c := if '#' in r.unit then '#' else '\n';
    BeforeIsPlain(p, a);
    assert c !in BeforeUnit(p, a) + h;
    TypedKeepsOut(BeforeUnit(p, a) + h, "", false, c);
    CommandParts(p, other, r.unit);
    assert c in BeforeUnit(p, other) + (r.unit + AfterUnit(p, other));
  }

  lemma HeadsAreCommands(p: Provider, r: Rule)
    requires r.actions != [] && Keeps(p, r.unit) && IsWhole(r.unit)
    ensures Heads(p, r) == Commands(p, r.actions, r.unit) <==> IsTidy(r.unit, true)
  {
    hide Command, IsTidy, IsWhole, Squeeze;
    forall i | 0 <= i < |r.actions|
      ensures Heads(p, r)[i] == Commands(p, r.actions, r.unit)[i] <==> IsTidy(r.unit, true)
    {
      CommandIsTidy(p, r.actions[i], r.unit);
    }
    assert Heads(p, r)[0] == Commands(p, r.actions, r.unit)[0] <==> IsTidy(r.unit, true);
  }

  lemma MoreThanItself(a: seq<string>, more: seq<string>, b: seq<string>)
    requires |a| == |b|
    ensures a + more == b <==> a == b && more == []
  {
    if a + more == b {
      assert |more| == 0;
      assert a + more == a;
    }
  }

  /** Sudo reads a rendered rule as exactly its own commands if and only if the rule is sound. */
  lemma LineReads(p: Provider, user: string, r: Rule)
    requires IsUser(user) && Keeps(p, r.unit)
    ensures Reads(p, user, r) == Some(Commands(p, r.actions, r.unit)) <==> IsSound(r)
  {
    hide Reads, Heads, Further, GlobReads, IsTidy, IsQuiet, Commands, Keeps;
    RuleReads(p, user, r);
    if r.actions != [] && Further(p, user, r).Some? {
      var more := Further(p, user, r).value;
      UnitLinesAddNothing(p, user, r);
      QuietGlob(user, r.glob);
      if IsWhole(r.unit) {
        assert |Heads(p, r)| == |Commands(p, r.actions, r.unit)| by { HeadsCount(p, r); }
        HeadsAreCommands(p, r);
        MoreThanItself(Heads(p, r), more, Commands(p, r.actions, r.unit));
      } else {
        CutIsNoCommand(p, r, r.actions[0]);
        HeadsCount(p, r);
        assert (Heads(p, r) + more)[0] == Heads(p, r)[0];
      }
    } else {
      UnitLinesAddNothing(p, user, r);
      QuietGlob(user, r.glob);
    }
  }

  lemma HeadsCount(p: Provider, r: Rule)
    requires r.actions != []
    ensures Heads(p, r) != [] && |Commands(p, r.actions, r.unit)| == |r.actions|
    ensures IsWhole(r.unit) ==> |Heads(p, r)| == |r.actions|
    ensures Commands(p, r.actions, r.unit)[0] == Command(p, r.actions[0], r.unit)
  {
  }

  // ── A newline on MOS ─────────────────────────────────────────────────────────────────────────

  lemma ActionLineIsNoRule(user: string, action: Action, after: string)
    requires IsUser(user) && IsAfterWord(after)
    ensures ReadLine(user, " " + (action.Word() + after)).None?
  {
    hide ReadList, Opening, IsAfterWord;
    var s := action.Word() + after;
    WordIsNotMeta(action);
    assert action.Word()[0] in action.Word();
    assert (" " + s)[1..] == s && s[0] == action.Word()[0];
    assert SkipGaps(" " + s) == s;
    NoOpeningThere(user, action.Word(), after);
  }

  lemma OpeningAll(user: string)
    ensures |Opening(user)| > |user| + 1 && Opening(user)[..|user|] == user
    ensures Opening(user)[|user|] == ' ' && Opening(user)[|user| + 1] == 'A'
  {
  }

  lemma NoOpeningThere(user: string, word: string, after: string)
    requires IsUser(user) && (forall i | 0 <= i < |word| :: !IsGap(word[i])) && IsAfterWord(after)
    ensures !(Opening(user) <= word + after)
  {
    hide Opening, IsAfterWord;
    var s := word + after;
    if Opening(user) <= s {
      OpeningAll(user);
      assert s[|user|] == ' ' && s[|user| + 1] == 'A';
      assert forall i | 0 <= i < |user| :: s[i] == Opening(user)[..|user|][i];
      FirstBlank(word, after, |user|);
    }
  }

  /** What can stand behind the action of a command: nothing, another command, or a comment. */
  predicate IsAfterWord(after: string) {
    after == "" || (|after| > 2 && after[..3] == ", /") || (|after| > 1 && after[..2] == "  ")
  }

  lemma FirstBlank(word: string, after: string, k: nat)
    requires IsAfterWord(after) && forall i | 0 <= i < |word| :: !IsGap(word[i])
    requires k + 1 < |word + after| && (word + after)[k] == ' ' && forall i | 0 <= i < k :: !IsGap((word + after)[i])
    ensures (word + after)[k + 1] != 'A'
  {
    var s := word + after;
    assert forall i | 0 <= i < |word| :: s[i] == word[i];
    assert forall i | 0 <= i < |after| :: s[|word| + i] == after[i];
    if |after| > 2 && after[..3] == ", /" {
      assert after[0] == after[..3][0] && after[1] == after[..3][1] && after[2] == after[..3][2];
    } else {
      assert after[0] == after[..2][0] && after[1] == after[..2][1];
    }
  }

  lemma ListedAfter(commands: seq<string>, tail: string) returns (after: string)
    requires commands != [] && (forall i | 0 <= i < |commands| :: "/" <= commands[i])
    requires tail == "" || (|tail| > 1 && tail[..2] == "  ")
    ensures Listed(commands) + tail == commands[0] + after && IsAfterWord(after)
  {
    if |commands| == 1 {
      after := tail;
    } else {
      after := ", " + Listed(commands[1..]) + tail;
      assert "/" <= commands[1];
      var more := ListedBegins(commands[1..]);
      assert after[2] == Listed(commands[1..])[0] == commands[1][0] == '/';
      assert after[..3] == ", /";
      assert Listed(commands) + tail == commands[0] + after;
    }
  }

  /** A list whose first unit ends in a newline. */
  lemma MosList(r: Rule) returns (name: string, after: string)
    requires Keeps(Mos, r.unit) && !IsWhole(r.unit) && r.actions != []
    ensures '\n' !in name && IsAfterWord(after)
    ensures Listed(Commands(Mos, r.actions, Escape(r.unit))) + Comment(r.glob)
            == ("/usr/sbin/service " + name) + ("\n" + (" " + (r.actions[0].Word() + after)))
  {
    hide Comment, Listed, Escape, IsAfterWord, Command, IsWhole, Keeps;
    var commands := Commands(Mos, r.actions, Escape(r.unit));
    NotWholeIsNewline(r.unit);
    var front := r.unit[..|r.unit| - 1];
    CommentSpaces(r.glob);
    forall i | 0 <= i < |commands| ensures "/" <= commands[i] {
      CommandStarts(Mos, r.actions[i], Escape(r.unit));
    }
    after := ListedAfter(commands, Comment(r.glob));
    EscapeBoth(front, "\n");
    NothingToEscape("\n");
    EscapeAddsNoNewline(front);
    name := Escape(front);
    NewlineParts(r.actions[0], name, after);
  }

  /** The lines after the first, then. */
  lemma MosLines(user: string, r: Rule) returns (after: string)
    requires IsUser(user) && Keeps(Mos, r.unit) && !IsWhole(r.unit) && r.actions != []
    ensures LineDiff.Split(LineOf(Mos, user, r))[1..] == LineDiff.Split(" " + (r.actions[0].Word() + after))
    ensures IsAfterWord(after)
  {
    hide Opening, Comment, Listed, Escape, IsAfterWord, Commands, IsWhole, Keeps;
    var name;
    name, after := MosList(r);
    AfterOpening(user, Listed(Commands(Mos, r.actions, Escape(r.unit))) + Comment(r.glob));
    NextLines("/usr/sbin/service " + name, " " + (r.actions[0].Word() + after));
  }

  lemma NextLines(head: string, more: string)
    requires '\n' !in head
    ensures LineDiff.Split(head + ("\n" + more))[1..] == LineDiff.Split(more)
  {
    SplitAfter(head, "\n" + more);
    SplitAtNewline(more);
  }

  /** A MOS name with a final newline leaves its action on a line of its own, which sudo does not read: the
      whole file is refused. */
  lemma MosNewlineIsUnreadable(user: string, r: Rule)
    requires IsUser(user) && Keeps(Mos, r.unit) && !IsWhole(r.unit) && r.actions != []
    ensures Further(Mos, user, r).None?
  {
    hide ReadLines, LineOf;
    var after := MosLines(user, r);
    UnreadableLine(user, r.actions[0], after);
  }

  lemma UnreadableLine(user: string, action: Action, after: string)
    requires IsUser(user) && IsAfterWord(after)
    ensures ReadLines(user, LineDiff.Split(" " + (action.Word() + after))).None?
  {
    hide ReadLine, Opening, IsAfterWord;
    WordIsNotMeta(action);
    var first := LineDiff.Split(after)[0];
    SplitAfter(action.Word(), after);
    SplitAfter(" ", action.Word() + after);
    Prepend(' ', action.Word(), first, LineDiff.Split(after)[1..]);
    FirstLineStarts(after);
    ActionLineIsNoRule(user, action, first);
  }

  lemma FirstLineStarts(after: string)
    requires IsAfterWord(after)
    ensures IsAfterWord(LineDiff.Split(after)[0])
  {
    if after == "" {
      assert LineDiff.Split(after) == [""];
    } else {
      var n := if |after| > 2 && after[..3] == ", /" then 3 else 2;
      SplitAfter(after[..n], after[n..]);
      assert after[..n] + after[n..] == after;
      var first := after[..n] + LineDiff.Split(after[n..])[0];
      assert first[..n] == after[..n];
    }
  }

  lemma NotWholeIsNewline(unit: string)
    requires Keeps(Mos, unit) && !IsWhole(unit)
    ensures unit != "" && unit == unit[..|unit| - 1] + "\n" && '\n' !in unit[..|unit| - 1]
  {
  }

  lemma CommentSpaces(glob: Option<string>)
    ensures Comment(glob) == "" || (|Comment(glob)| > 1 && Comment(glob)[..2] == "  ")
  {
  }

  lemma CommandStarts(p: Provider, action: Action, unit: string)
    ensures "/" <= Command(p, action, unit)
  {
  }

  lemma NewlineParts(action: Action, name: string, after: string)
    ensures Command(Mos, action, name + "\n") + after
            == ("/usr/sbin/service " + name) + ("\n" + (" " + (action.Word() + after)))
  {
    Regrouped("/usr/sbin/service ", name, "\n", " ", action.Word(), after);
    assert (name + "\n") + (" " + action.Word()) == name + ("\n" + (" " + action.Word()));
    assert "/usr/sbin/service " + (name + ("\n" + (" " + (action.Word() + after))))
        == ("/usr/sbin/service " + name) + ("\n" + (" " + (action.Word() + after)));
  }
}
