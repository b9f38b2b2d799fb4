/**
 How sudo reads a sudoers line of the form the wizard writes.

 - A backslash takes the next character literally, unless it quotes a wildcard.
 - A comma ends a command.
 - `#` begins a comment, wherever it stands.
 - Runs of blanks count as one, and none before or after a command counts.
 - A bare `:` or `=` is an error, and so is an empty command.

 A line that is neither blank, a comment nor of that form is taken for an error: directives, aliases and
 the rules of other users are not read.
 */
module SudoReader {
  import opened SudoGate
  import opened SudoPattern
  import opened Sudoers
  import opened Wrappers
  import LineDiff

  predicate IsGap(c: char) {
    c == ' ' || c == '\t'
  }

  predicate IsQuotedWild(c: char) {
    c == '*' || c == '?' || c == '[' || c == ']' || c == '!' || c == '^'
  }

  /** A piece of a command; `gap` says that blanks came before it. */
  function Add(command: string, gap: bool, piece: string): string {
    command + ((if gap && command != "" then " " else "") + piece)
  }

  /** The commands of a list, `command` being the one begun; an empty one is an error. */
  function ReadList(s: string, command: string, gap: bool): Option<seq<string>>
    decreases |s|
  {
    if s == "" || s[0] == '#' then if command == "" then None else Some([command])
    else if IsGap(s[0]) then ReadList(s[1..], command, true)
    else if s[0] == '\\' then
      if |s| == 1 then None
      else ReadList(s[2..], Add(command, gap, if IsQuotedWild(s[1]) then s[..2] else [s[1]]), false)
    else if s[0] == ':' || s[0] == '=' then None
    else if s[0] == ',' then
      var rest := ReadList(s[1..], "", false);
      if rest.None? || command == "" then None else Some([command] + rest.value)
    else ReadList(s[1..], Add(command, gap, [s[0]]), false)
  }

  function SkipGaps(s: string): string {
    if s != "" && IsGap(s[0]) then SkipGaps(s[1..]) else s
  }

  predicate IsComment(line: string) {
    SkipGaps(line) == "" || SkipGaps(line)[0] == '#'
  }

  function ReadLine(user: string, line: string): Option<seq<string>> {
    if IsComment(line) then Some([])
    else if Opening(user) <= SkipGaps(line) then ReadList(SkipGaps(line)[|Opening(user)|..], "", false)
    else None
  }

  function Both(a: Option<seq<string>>, b: Option<seq<string>>): Option<seq<string>> {
    if a.None? || b.None? then None else Some(a.value + b.value)
  }

  function ReadLines(user: string, lines: seq<string>): Option<seq<string>> {
    if lines == [] then Some([]) else Both(ReadLine(user, lines[0]), ReadLines(user, lines[1..]))
  }

  /** Every command the text grants to `user`. */
  function ReadFile(user: string, text: string): Option<seq<string>> {
    ReadLines(user, LineDiff.Split(text))
  }

  predicate IsUser(user: string) {
    user != "" && forall i | 0 <= i < |user| :: !IsGap(user[i]) && user[i] != '#' && user[i] != '\n'
  }

  // ── Escaping ─────────────────────────────────────────────────────────────────────────────────

  function Unescape(s: string): string {
    if s == "" then ""
    else if s[0] == '\\' && |s| > 1 then [s[1]] + Unescape(s[2..])
    else [s[0]] + Unescape(s[1..])
  }

  /** No two names render alike. */
  lemma {:induction false} EscapeIsInjective(text: string)
    ensures Unescape(Escape(text)) == text
  {
    if text != "" {
      EscapeIsInjective(text[1..]);
      var escaped := Escape(text);
      if IsMeta(text[0]) {
        assert escaped[2..] == Escape(text[1..]);
      } else {
        assert escaped[1..] == Escape(text[1..]);
      }
    }
  }

  lemma {:induction false} EscapeBoth(a: string, b: string)
    ensures Escape(a + b) == Escape(a) + Escape(b)
  {
    if a == "" {
      assert a + b == b;
    } else {
      assert (a + b)[1..] == a[1..] + b;
      EscapeBoth(a[1..], b);
    }
  }

  lemma {:induction false} NothingToEscape(s: string)
    requires forall i | 0 <= i < |s| :: !IsMeta(s[i])
    ensures Escape(s) == s
  {
    if s != "" {
      NothingToEscape(s[1..]);
    }
  }

  lemma {:induction false} EscapeAddsNoNewline(text: string)
    ensures '\n' in Escape(text) <==> '\n' in text
  {
    if text != "" {
      EscapeAddsNoNewline(text[1..]);
      assert text == [text[0]] + text[1..];
    }
  }

  lemma WordIsNotMeta(action: Action)
    ensures forall i | 0 <= i < |action.Word()| :: !IsMeta(action.Word()[i]) && !IsSpecial(action.Word()[i])
    ensures forall i | 0 <= i < |action.Word()| :: !IsGap(action.Word()[i])
    ensures action.Word() != "" && '#' !in action.Word() && '\n' !in action.Word()
  {
  }

  /** What a command says before the unit. */
  function BeforeUnit(p: Provider, action: Action): string {
    if p.Mos? then "/usr/sbin/service " else "/usr/bin/systemctl " + (action.Word() + " ")
  }

  /** ... and after it. */
  function AfterUnit(p: Provider, action: Action): string {
    if p.Mos? then " " + action.Word() else ""
  }

  lemma CommandParts(p: Provider, action: Action, unit: string)
    ensures Command(p, action, unit) == BeforeUnit(p, action) + (unit + AfterUnit(p, action))
  {
    if p.Systemd? {
      assert unit + "" == unit;
      assert action.Word() + (" " + unit) == (action.Word() + " ") + unit;
    }
  }

  lemma BeforeIsPlain(p: Provider, action: Action)
    ensures var head := BeforeUnit(p, action);
            forall i | 0 <= i < |head| :: !IsMeta(head[i]) && !IsSpecial(head[i]) && head[i] != '#' && head[i] != '\n'
    ensures BeforeUnit(p, action) != "" && !IsGap(BeforeUnit(p, action)[0])
  {
    WordIsNotMeta(action);
  }

  lemma AfterIsPlain(p: Provider, action: Action)
    ensures var tail := AfterUnit(p, action);
            forall i | 0 <= i < |tail| :: !IsMeta(tail[i]) && !IsSpecial(tail[i]) && tail[i] != '#' && tail[i] != '\n'
  {
    WordIsNotMeta(action);
  }

  lemma EscapeCommand(p: Provider, action: Action, unit: string)
    ensures Escape(Command(p, action, unit)) == Command(p, action, Escape(unit))
  {
    hide Escape, BeforeUnit, AfterUnit, Command;
    CommandParts(p, action, unit);
    CommandParts(p, action, Escape(unit));
    BeforeIsPlain(p, action);
    AfterIsPlain(p, action);
    NothingToEscape(BeforeUnit(p, action));
    NothingToEscape(AfterUnit(p, action));
    EscapeBoth(BeforeUnit(p, action), unit + AfterUnit(p, action));
    EscapeBoth(unit, AfterUnit(p, action));
  }

  // ── Blanks ───────────────────────────────────────────────────────────────────────────────────

  /** What text makes of a command begun: the command, and whether a blank is owed. */
  function Typed(s: string, command: string, gap: bool): (string, bool) {
    if s == "" then (command, gap)
    else if IsGap(s[0]) then Typed(s[1..], command, true)
    else Typed(s[1..], Add(command, gap, [s[0]]), false)
  }

  /** Runs of blanks made one, and none at the ends. */
  function Squeeze(s: string): string {
    Typed(s, "", false).0
  }

  lemma {:induction false} TypedBoth(a: string, b: string, command: string, gap: bool)
    ensures Typed(a + b, command, gap) == Typed(b, Typed(a, command, gap).0, Typed(a, command, gap).1)
  {
    if a == "" {
      assert a + b == b;
    } else {
      assert (a + b)[1..] == a[1..] + b;
      TypedBoth(a[1..], b, if IsGap(a[0]) then command else Add(command, gap, [a[0]]), IsGap(a[0]));
    }
  }

  /** Whether sudo takes the text as it stands, after something or after a blank. */
  predicate IsTidy(s: string, gap: bool) {
    if s == "" then !gap
    else if IsGap(s[0]) then !gap && s[0] == ' ' && IsTidy(s[1..], true)
    else IsTidy(s[1..], false)
  }

  lemma {:induction false} TypedGrows(s: string, command: string, gap: bool)
    ensures command <= Typed(s, command, gap).0
    ensures |Typed(s, command, gap).0| <= |command| + |s| + if gap then 1 else 0
    ensures gap && command != "" && Typed(s, command, gap).0 != command ==> command + " " <= Typed(s, command, gap).0
  {
    if s != "" {
      if IsGap(s[0]) {
        TypedGrows(s[1..], command, true);
      } else {
        TypedGrows(s[1..], Add(command, gap, [s[0]]), false);
        assert gap && command != "" ==> Add(command, gap, [s[0]]) == command + " " + [s[0]];
      }
    }
  }

  function Owed(command: string, gap: bool): string {
    if gap then command + " " else command
  }

  lemma {:induction false} TidyIsKept(s: string, command: string, gap: bool)
    requires command != ""
    ensures Typed(s, command, gap).0 == Owed(command, gap) + s <==> IsTidy(s, gap)
  {
    if s == "" {
      assert Owed(command, gap) + s == Owed(command, gap);
    } else if IsGap(s[0]) {
      TypedGrows(s[1..], command, true);
      if !gap && s[0] == ' ' {
        TidyIsKept(s[1..], command, true);
        assert Owed(command, true) + s[1..] == command + s;
      } else if !gap {
        assert (command + s)[|command|] == '\t';
        assert Typed(s, command, gap).0 != command
               ==> (command + " ")[|command|] == Typed(s, command, gap).0[|command|];
      }
    } else {
      TidyIsKept(s[1..], Add(command, gap, [s[0]]), false);
      assert Add(command, gap, [s[0]]) + s[1..] == Owed(command, gap) + s;
    }
  }

  /** After a command and a blank, the rest is squeezed on its own. */
  lemma {:induction false} TypedAfter(s: string, command: string, rest: string, gap: bool)
    requires command != ""
    ensures Typed(s, if rest == "" then command else command + " " + rest, gap || rest == "").0
            == if Typed(s, rest, gap).0 == "" then command else command + " " + Typed(s, rest, gap).0
  {
    if s != "" {
      var begun := if rest == "" then command else command + " " + rest;
      if IsGap(s[0]) {
        TypedAfter(s[1..], command, rest, true);
      } else {
        assert Add(begun, gap || rest == "", [s[0]]) == command + " " + Add(rest, gap, [s[0]]);
        TypedAfter(s[1..], command, Add(rest, gap, [s[0]]), false);
      }
    }
  }

  lemma {:induction false} TypedKeepsOut(s: string, command: string, gap: bool, c: char)
    requires c != ' ' && c !in s && c !in command
    ensures c !in Typed(s, command, gap).0
  {
    if s != "" {
      TypedKeepsOut(s[1..], if IsGap(s[0]) then command else Add(command, gap, [s[0]]), IsGap(s[0]), c);
    }
  }

  // ── One list ─────────────────────────────────────────────────────────────────────────────────

  lemma ReadOne(c: char, rest: string, command: string, gap: bool)
    requires c != '#'
    ensures ReadList((if IsMeta(c) then ['\\', c] else [c]) + rest, command, gap)
            == if IsGap(c) then ReadList(rest, command, true) else ReadList(rest, Add(command, gap, [c]), false)
  {
    var s := (if IsMeta(c) then ['\\', c] else [c]) + rest;
    assert if IsMeta(c) then s[2..] == rest && s[1] == c else s[1..] == rest;
  }

  lemma {:induction false} ReadEscaped(text: string, tail: string, command: string, gap: bool)
    requires '#' !in text
    ensures ReadList(Escape(text) + tail, command, gap)
            == ReadList(tail, Typed(text, command, gap).0, Typed(text, command, gap).1)
  {
    hide ReadList;
    if text == "" {
      assert Escape(text) + tail == tail;
    } else {
      var piece := if IsMeta(text[0]) then ['\\', text[0]] else [text[0]];
      assert Escape(text) + tail == piece + (Escape(text[1..]) + tail);
      ReadOne(text[0], Escape(text[1..]) + tail, command, gap);
      ReadEscaped(text[1..], tail, if IsGap(text[0]) then command else Add(command, gap, [text[0]]), IsGap(text[0]));
    }
  }

  /** What ends a list: blanks, and a comment or nothing. */
  lemma {:induction false} ReadEnd(tail: string, command: string, gap: bool)
    requires IsComment(tail)
    ensures ReadList(tail, command, gap) == if command == "" then None else Some([command])
  {
    if tail != "" && IsGap(tail[0]) {
      ReadEnd(tail[1..], command, true);
    }
  }

  lemma ReadComma(more: string, command: string, gap: bool)
    requires command != ""
    ensures ReadList(", " + more, command, gap) == Both(Some([command]), ReadList(more, "", true))
  {
    assert (", " + more)[1..] == " " + more && (" " + more)[1..] == more;
  }

  lemma GapBeforeList(s: string)
    ensures ReadList(s, "", true) == ReadList(s, "", false)
  {
  }

  function EscapedAll(commands: seq<string>): (r: seq<string>)
    ensures |r| == |commands| && forall i | 0 <= i < |r| :: r[i] == Escape(commands[i])
  {
    seq(|commands|, i requires 0 <= i < |commands| => Escape(commands[i]))
  }

  function SqueezedAll(commands: seq<string>): (r: seq<string>)
    ensures |r| == |commands| && forall i | 0 <= i < |r| :: r[i] == Squeeze(commands[i])
  {
    seq(|commands|, i requires 0 <= i < |commands| => Squeeze(commands[i]))
  }

  predicate IsCommand(command: string) {
    '#' !in command && Squeeze(command) != ""
  }

  lemma LastReads(last: string, tail: string)
    requires IsCommand(last) && IsComment(tail)
    ensures ReadList(Escape(last) + tail, "", false) == Some([Squeeze(last)])
  {
    hide ReadList;
    ReadEscaped(last, tail, "", false);
    ReadEnd(tail, Typed(last, "", false).0, Typed(last, "", false).1);
  }

  lemma FirstReads(first: string, more: string)
    requires IsCommand(first)
    ensures ReadList(Escape(first) + (", " + more), "", false)
            == Both(Some([Squeeze(first)]), ReadList(more, "", false))
  {
    hide ReadList, Both;
    ReadEscaped(first, ", " + more, "", false);
    ReadComma(more, Typed(first, "", false).0, Typed(first, "", false).1);
    GapBeforeList(more);
  }

  lemma ListedIs(commands: seq<string>, tail: string)
    requires commands != []
    ensures Listed(EscapedAll(commands)) + tail
            == if |commands| == 1 then Escape(commands[0]) + tail
               else Escape(commands[0]) + (", " + (Listed(EscapedAll(commands[1..])) + tail))
  {
    hide Escape;
    if |commands| > 1 {
      assert EscapedAll(commands)[1..] == EscapedAll(commands[1..]);
      Regroup4(Escape(commands[0]), ", ", Listed(EscapedAll(commands[1..])), tail);
    }
  }

  lemma Regroup4(a: string, b: string, c: string, d: string)
    ensures (a + (b + c)) + d == a + (b + (c + d))
  {
  }

  lemma SqueezedFirst(commands: seq<string>)
    requires commands != []
    ensures SqueezedAll(commands) == [Squeeze(commands[0])] + SqueezedAll(commands[1..])
  {
    hide Squeeze;
  }

  /** A list of commands and what ends it read as the commands, their blanks squeezed. */
  lemma {:induction false} ListReads(commands: seq<string>, tail: string)
    requires commands != [] && (forall i | 0 <= i < |commands| :: IsCommand(commands[i])) && IsComment(tail)
    ensures ReadList(Listed(EscapedAll(commands)) + tail, "", false) == Some(SqueezedAll(commands))
  {
    hide ReadList, IsCommand, IsComment, Escape, Listed, Squeeze;
    ListedIs(commands, tail);
    SqueezedFirst(commands);
    if |commands| == 1 {
      LastReads(commands[0], tail);
      assert [Squeeze(commands[0])] + SqueezedAll(commands[1..]) == [Squeeze(commands[0])];
    } else {
      ListReads(commands[1..], tail);
      FirstReads(commands[0], Listed(EscapedAll(commands[1..])) + tail);
    }
  }

  // ── Lines ────────────────────────────────────────────────────────────────────────────────────

  lemma {:induction false} SplitAfter(s: string, text: string)
    requires '\n' !in s
    ensures LineDiff.Split(s + text) == [s + LineDiff.Split(text)[0]] + LineDiff.Split(text)[1..]
  {
    if s == "" {
      assert s + text == text && s + LineDiff.Split(text)[0] == LineDiff.Split(text)[0];
    } else {
      SplitAfter(s[1..], text);
      assert (s + text)[1..] == s[1..] + text && (s + text)[0] == s[0] && s[0] in s;
      assert [s[0]] + s[1..] == s;
      Prepend(s[0], s[1..], LineDiff.Split(text)[0], LineDiff.Split(text)[1..]);
    }
  }

  lemma Prepend(c: char, s: string, first: string, rest: seq<string>)
    ensures ([s + first] + rest)[0] == s + first && ([s + first] + rest)[1..] == rest
    ensures [c] + (s + first) == ([c] + s) + first
  {
  }

  lemma SplitAtNewline(rest: string)
    ensures LineDiff.Split("\n" + rest) == [""] + LineDiff.Split(rest)
  {
    assert ("\n" + rest)[1..] == rest;
  }

  lemma OneLine(s: string)
    requires '\n' !in s
    ensures LineDiff.Split(s) == [s]
  {
    SplitAfter(s, "");
    assert s + "" == s && LineDiff.Split("") == [""];
  }

  lemma {:induction false} ReadLinesBoth(user: string, a: seq<string>, b: seq<string>)
    ensures ReadLines(user, a + b) == Both(ReadLines(user, a), ReadLines(user, b))
  {
    hide ReadLine;
    if a == [] {
      assert a + b == b;
      NothingBefore(ReadLines(user, b));
    } else {
      assert (a + b)[1..] == a[1..] + b && (a + b)[0] == a[0];
      ReadLinesBoth(user, a[1..], b);
      BothRegroup(ReadLine(user, a[0]), ReadLines(user, a[1..]), ReadLines(user, b));
    }
  }

  lemma NothingBefore(x: Option<seq<string>>)
    ensures Both(Some([]), x) == x && Both(x, Some([])) == x
  {
    if x.Some? {
      assert [] + x.value == x.value && x.value + [] == x.value;
    }
  }

  lemma BothRegroup(a: Option<seq<string>>, b: Option<seq<string>>, c: Option<seq<string>>)
    ensures Both(a, Both(b, c)) == Both(Both(a, b), c)
  {
    if a.Some? && b.Some? && c.Some? {
      assert a.value + (b.value + c.value) == (a.value + b.value) + c.value;
    }
  }

  lemma OpeningIsPlain(user: string)
    requires IsUser(user)
    ensures forall i | 0 <= i < |Opening(user)| :: Opening(user)[i] != '#' && Opening(user)[i] != '\n'
    ensures Opening(user) != "" && !IsGap(Opening(user)[0])
  {
  }

  /** A text that opens as the wizard's lines do: its first line is a list, the others are read on. */
  lemma OpenedReads(user: string, list: string, rest: string)
    requires IsUser(user) && '\n' !in list
    ensures ReadFile(user, Opening(user) + (list + rest))
            == Both(ReadList(list + LineDiff.Split(rest)[0], "", false), ReadLines(user, LineDiff.Split(rest)[1..]))
    ensures LineDiff.Split(Opening(user) + (list + rest))[1..] == LineDiff.Split(rest)[1..]
  {
    hide ReadList, Opening;
    var first := list + LineDiff.Split(rest)[0];
    OpeningIsPlain(user);
    SplitAfter(list, rest);
    SplitAfter(Opening(user), list + rest);
    Prepend(' ', list, LineDiff.Split(rest)[0], LineDiff.Split(rest)[1..]);
    Prepend(' ', Opening(user), first, LineDiff.Split(rest)[1..]);
    OpenedLine(user, first);
  }

  lemma OpenedLine(user: string, list: string)
    requires IsUser(user)
    ensures ReadLine(user, Opening(user) + list) == ReadList(list, "", false)
  {
    hide ReadList, Opening;
    OpeningIsPlain(user);
    var line := Opening(user) + list;
    assert Opening(user)[0] == line[0];
    assert SkipGaps(line) == line && line[|Opening(user)|..] == list;
  }

  lemma {:induction false} SplitBoth(a: string, b: string)
    ensures var front, back := LineDiff.Split(a), LineDiff.Split(b);
            LineDiff.Split(a + b) == front[..|front| - 1] + ([front[|front| - 1] + back[0]] + back[1..])
  {
    var back := LineDiff.Split(b);
    if a == "" {
      assert a + b == b && LineDiff.Split(a) == [""] && "" + back[0] == back[0];
      assert [""][..0] + ([back[0]] + back[1..]) == back;
    } else {
      var rest := LineDiff.Split(a[1..]);
      SplitBoth(a[1..], b);
      assert (a + b)[1..] == a[1..] + b && (a + b)[0] == a[0];
      JoinedAgain(a[0], rest, back);
    }
  }

  /** Prepending a character or a line to both sides of `SplitBoth`. */
  lemma JoinedAgain(c: char, rest: seq<string>, back: seq<string>)
    requires rest != [] && back != []
    ensures var joined := rest[..|rest| - 1] + ([rest[|rest| - 1] + back[0]] + back[1..]);
            && (var front := [""] + rest;
                [""] + joined == front[..|front| - 1] + ([front[|front| - 1] + back[0]] + back[1..]))
            && (var front := [[c] + rest[0]] + rest[1..];
                [[c] + joined[0]] + joined[1..] == front[..|front| - 1] + ([front[|front| - 1] + back[0]] + back[1..]))
  {
    var joined := rest[..|rest| - 1] + ([rest[|rest| - 1] + back[0]] + back[1..]);
    var front := [[c] + rest[0]] + rest[1..];
    if |rest| == 1 {
      assert [c] + (rest[0] + back[0]) == ([c] + rest[0]) + back[0];
      assert joined == [rest[0] + back[0]] + back[1..];
      assert joined[1..] == back[1..];
      assert front == [[c] + rest[0]];
      assert front[..0] + ([front[0] + back[0]] + back[1..]) == [front[0] + back[0]] + back[1..];
    } else {
      assert joined[0] == rest[0];
      assert front[|front| - 1] == rest[|rest| - 1];
      assert front[..|front| - 1] == [[c] + rest[0]] + rest[1..|rest| - 1];
      assert joined[1..] == rest[1..|rest| - 1] + ([rest[|rest| - 1] + back[0]] + back[1..]);
    }
    var front' := [""] + rest;
    assert front'[..|front'| - 1] == [""] + rest[..|rest| - 1];
  }

  /** Lines that follow one another are read one after the other. */
  lemma ReadsBoth(user: string, a: string, b: string)
    ensures ReadFile(user, a + "\n" + b) == Both(ReadFile(user, a), ReadFile(user, b))
  {
    hide ReadLines;
    var front := LineDiff.Split(a);
    assert a + "\n" + b == a + ("\n" + b);
    SplitBoth(a, "\n" + b);
    SplitAtNewline(b);
    var back := [""] + LineDiff.Split(b);
    assert front[|front| - 1] + back[0] == front[|front| - 1] && back[1..] == LineDiff.Split(b);
    EndAndMore(front, LineDiff.Split(b));
    ReadLinesBoth(user, front, LineDiff.Split(b));
  }

  lemma EndAndMore(front: seq<string>, more: seq<string>)
    requires front != []
    ensures front[..|front| - 1] + ([front[|front| - 1]] + more) == front + more
  {
  }
}
