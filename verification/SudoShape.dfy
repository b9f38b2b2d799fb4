/**
 The gate's patterns, on the text of a command: which segments it cuts a command into, which of them mention
 sudo, and exactly which of those it lets through.
 */
module SudoShape {
  import opened SudoGate
  import opened Texts
  import opened Wrappers

  // ── Segments ─────────────────────────────────────────────────────────────────────────────────

  /** A separator that no longer one begins at: `&&`, `||`, `;`, a newline, or a bar alone. */
  predicate IsSeparator(sep: string, after: string) {
    sep in {"&&", "||", ";", "\n"} || (sep == "|" && (after == "" || after[0] != '|'))
  }

  lemma SplitHere(sep: string, after: string)
    requires IsSeparator(sep, after)
    ensures Pieces(sep + after) == [""] + Pieces(after)
  {
    var s := sep + after;
    assert s[|sep|..] == after;
    assert sep == "|" && after != "" ==> s[1] == after[0];
    assert |sep| == 1 ==> !("&&" <= s) by {
      if |sep| == 1 { assert s[0] == sep[0] && sep[0] != '&'; }
    }
  }

  /** Each separator ends a piece. */
  lemma {:induction false} SeparatorCuts(before: string, sep: string, after: string)
    requires Pieces(before) == [before] && IsSeparator(sep, after)
    requires before == "" || (before[|before| - 1] != '&' && before[|before| - 1] != '|')
    ensures Pieces(before + (sep + after)) == [before] + Pieces(after)
  {
    hide Pieces;
    if before == "" {
      assert before + (sep + after) == sep + after;
      SplitHere(sep, after);
    } else {
      OnePieceStarts(before);
      SeparatorCuts(before[1..], sep, after);
      OneMoreFront(before, sep + after, before[1..], Pieces(after));
    }
  }

  lemma NotDoubled(before: string, tail: string)
    requires before != "" && !("&&" <= before) && (|before| > 1 || before[0] != '&')
    ensures !("&&" <= before + tail)
  {
    var s := before + tail;
    assert s[0] == before[0] && (|before| > 1 ==> s[1] == before[1]);
  }

  lemma OneMoreFront(before: string, tail: string, front: string, rest: seq<string>)
    requires before != "" && front == before[1..] && Pieces(front + tail) == [front] + rest
    requires !("&&" <= before) && before[0] != '|' && before[0] != ';' && before[0] != '\n'
    requires |before| > 1 || before[0] != '&'
    ensures Pieces(before + tail) == [before] + rest
  {
    hide Pieces;
    NotDoubled(before, tail);
    FrontRegroup(before, tail, front);
    PieceFront(before[0], front + tail);
    FirstOfPieces(front, rest);
  }

  lemma FrontRegroup(before: string, tail: string, front: string)
    requires before != "" && front == before[1..]
    ensures before + tail == [before[0]] + (front + tail) && [before[0]] + front == before
  {
  }

  predicate SeparatorAt(s: string, i: nat)
    requires i < |s|
  {
    s[i] == ';' || s[i] == '|' || s[i] == '\n' || "&&" <= s[i..]
  }

  predicate HasSeparator(s: string) {
    exists i :: 0 <= i < |s| && SeparatorAt(s, i)
  }

  lemma SeparatorShifts(s: string, i: nat)
    requires 0 < i < |s|
    ensures SeparatorAt(s, i) <==> SeparatorAt(s[1..], i - 1)
  {
    assert s[1..][i - 1..] == s[i..];
  }

  lemma SeparatorInside(s: string)
    requires s != ""
    ensures HasSeparator(s)
            <==> s[0] == ';' || s[0] == '|' || s[0] == '\n' || "&&" <= s || HasSeparator(s[1..])
  {
    assert s[0..] == s;
    assert SeparatorAt(s, 0) <==> s[0] == ';' || s[0] == '|' || s[0] == '\n' || "&&" <= s;
    hide SeparatorAt;
    forall i | 0 < i < |s| ensures SeparatorAt(s, i) <==> SeparatorAt(s[1..], i - 1) {
      SeparatorShifts(s, i);
    }
    if HasSeparator(s[1..]) {
      var i :| 0 <= i < |s[1..]| && SeparatorAt(s[1..], i);
      assert SeparatorAt(s, i + 1);
    }
  }

  /** ... and nothing else does. */
  lemma {:induction false} OnePieceExactly(s: string)
    ensures Pieces(s) == [s] <==> !HasSeparator(s)
  {
    hide Pieces, HasSeparator;
    if s == "" {
      OnePiece(s);
      assert !HasSeparator("") by { NothingHasNone(); }
    } else {
      OnePieceExactly(s[1..]);
      SeparatorInside(s);
      assert [s[0]] + s[1..] == s;
      if Pieces(s) == [s] {
        OnePieceStarts(s);
        assert !("||" <= s);
      }
      if !HasSeparator(s) {
        PieceMore(s[0], s[1..]);
      }
    }
  }

  lemma NothingHasNone()
    ensures !HasSeparator("")
  {
  }

  // ── Words and blanks ─────────────────────────────────────────────────────────────────────────

  /** Letter case aside, and the folds of `re.IGNORECASE`. */
  predicate IsLike(w: string, word: string) {
    |w| == |word| && forall i | 0 <= i < |w| :: Alike(w[i], word[i])
  }

  predicate IsGap(g: string) {
    g != "" && AllSpace(g)
  }

  lemma {:induction false} AfterWordIs(s: string, word: string)
    ensures AfterWord(s, word) == if |word| <= |s| && IsLike(s[..|word|], word) then Some(s[|word|..]) else None
  {
    if word != "" && s != "" {
      AfterWordIs(s[1..], word[1..]);
      assert |word| <= |s| ==> forall i | 0 < i < |word| :: s[..|word|][i] == s[1..][..|word| - 1][i - 1];
      assert |word| <= |s| ==> s[..|word|][0] == s[0];
    }
  }

  lemma AfterLike(w: string, word: string, rest: string)
    requires IsLike(w, word)
    ensures AfterWord(w + rest, word) == Some(rest)
  {
    AfterWordIs(w + rest, word);
    assert (w + rest)[..|word|] == w && (w + rest)[|word|..] == rest;
  }

  predicate StartsBlank(s: string) {
    s != "" && IsSpace(s[0])
  }

  lemma AfterGap(g: string, rest: string)
    requires IsGap(g) && !StartsBlank(rest)
    ensures AfterSpaces(g + rest) == Some(rest)
  {
    SkipSpacesAfter(g, rest);
    SkipOwn(rest);
    assert (g + rest)[0] == g[0];
  }

  lemma AfterLikeAndGap(w: string, word: string, g: string, rest: string)
    requires IsLike(w, word) && IsGap(g) && !StartsBlank(rest)
    ensures AfterSpacedWord(w + (g + rest), word) == Some(rest)
  {
    AfterLike(w, word, g + rest);
    AfterGap(g, rest);
  }

  lemma GapBefore(s: string) returns (g: string)
    requires AfterSpaces(s).Some?
    ensures IsGap(g) && s == g + AfterSpaces(s).value && !StartsBlank(AfterSpaces(s).value)
  {
    SkipSpacesSplits(s);
    g := s[..|s| - |SkipSpaces(s)|];
  }

  lemma WordBefore(s: string, word: string) returns (w: string, g: string)
    requires AfterSpacedWord(s, word).Some?
    ensures IsLike(w, word) && IsGap(g) && !StartsBlank(AfterSpacedWord(s, word).value)
    ensures s == w + (g + AfterSpacedWord(s, word).value)
  {
    hide AfterSpaces, AfterWord;
    AfterWordIs(s, word);
    w := s[..|word|];
    g := GapBefore(s[|word|..]);
    assert s == w + s[|word|..];
  }

  predicate IsActionWord(w: string) {
    IsLike(w, "start") || IsLike(w, "stop") || IsLike(w, "restart")
  }

  lemma ActionBegins(w: string, rest: string)
    requires IsActionWord(w)
    ensures ActionAt(w + rest) == Some((w, rest))
  {
    var s := w + rest;
    AfterWordIs(s, "start");
    AfterWordIs(s, "stop");
    AfterWordIs(s, "restart");
    assert s[..|w|] == w && s[|w|..] == rest;
    assert s[0] == w[0] && s[1] == w[1] && s[2] == w[2];
    assert |s| >= 5 ==> s[..5][0] == s[0] && s[..5][2] == s[2];
    assert s[..4][0] == s[0] && s[..4][2] == s[2];
  }

  lemma ActionIs(s: string)
    requires ActionAt(s).Some?
    ensures IsActionWord(ActionAt(s).value.0)
  {
    AfterWordIs(s, "start");
    AfterWordIs(s, "stop");
    AfterWordIs(s, "restart");
  }

  // ── The two shapes ───────────────────────────────────────────────────────────────────────────

  lemma UnitStarts(p: Provider, unit: string, rest: string)
    requires UnitMatches(p, unit)
    ensures !StartsBlank(unit + rest) && unit + rest != ""
  {
    UnitCharsAreNotSpace(p, unit[0]);
  }

  lemma ActionStarts(w: string, rest: string)
    requires IsActionWord(w)
    ensures !StartsBlank(w + rest) && w + rest != ""
  {
    LikeIsNoSpace(w[0], if IsLike(w, "restart") then 'r' else 's');
  }

  lemma LikeIsNoSpace(c: char, letter: char)
    requires Alike(c, letter) && 'a' <= letter <= 'z'
    ensures !IsSpace(c)
  {
  }

  /** `sudo systemctl ACTION UNIT` */
  ghost predicate IsSystemctl(s: string, unit: string, action: string) {
    exists w, g, c, g', g'' ::
      && IsLike(w, "sudo") && IsGap(g) && IsLike(c, "systemctl") && IsGap(g') && IsActionWord(action) && IsGap(g'')
      && UnitMatches(Systemd, unit) && s == w + (g + (c + (g' + (action + (g'' + unit)))))
  }

  lemma SystemctlMatches(w: string, g: string, c: string, g': string, action: string, g'': string, unit: string)
    requires IsLike(w, "sudo") && IsGap(g) && IsLike(c, "systemctl") && IsGap(g') && IsActionWord(action) && IsGap(g'')
    requires UnitMatches(Systemd, unit)
    ensures Match(Systemd, w + (g + (c + (g' + (action + (g'' + unit)))))) == Some((unit, action))
  {
    hide ActionAt, AfterSpacedWord, AfterSpaces, UnitMatches, IsLike, IsActionWord;
    var rest := action + (g'' + unit);
    WordStarts(c, "systemctl", g' + rest);
    AfterLikeAndGap(w, "sudo", g, c + (g' + rest));
    ActionStarts(action, g'' + unit);
    AfterLikeAndGap(c, "systemctl", g', rest);
    ActionBegins(action, g'' + unit);
    UnitStarts(Systemd, unit, "");
    assert unit + "" == unit;
    AfterGap(g'', unit);
  }

  lemma WordStarts(w: string, word: string, rest: string)
    requires IsLike(w, word) && word != "" && 'a' <= word[0] <= 'z'
    ensures !StartsBlank(w + rest)
  {
    LikeIsNoSpace(w[0], word[0]);
  }

  /** On systemd a segment names a unit and an action exactly if it has that one shape. */
  lemma SystemctlExactly(s: string, unit: string, action: string)
    ensures Match(Systemd, s) == Some((unit, action)) <==> IsSystemctl(s, unit, action)
  {
    hide ActionAt, AfterSpacedWord, AfterSpaces, UnitMatches, IsLike, IsActionWord, Match;
    if IsSystemctl(s, unit, action) {
      var w, g, c, g', g'' :|
        && IsLike(w, "sudo") && IsGap(g) && IsLike(c, "systemctl") && IsGap(g') && IsActionWord(action) && IsGap(g'')
        && UnitMatches(Systemd, unit) && s == w + (g + (c + (g' + (action + (g'' + unit)))));
      SystemctlMatches(w, g, c, g', action, g'', unit);
    }
    if Match(Systemd, s) == Some((unit, action)) {
      SystemctlParts(s);
    }
  }

  lemma SystemctlParts(s: string)
    requires Match(Systemd, s).Some?
    ensures IsSystemctl(s, Match(Systemd, s).value.0, Match(Systemd, s).value.1)
  {
    hide ActionAt, AfterSpacedWord, AfterSpaces, UnitMatches, IsLike, IsActionWord;
    var w, g := WordBefore(s, "sudo");
    var command := AfterSpacedWord(s, "sudo").value;
    var c, g' := WordBefore(command, "systemctl");
    var rest := AfterSpacedWord(command, "systemctl").value;
    ActionIs(rest);
    var g'' := GapBefore(ActionAt(rest).value.1);
  }

  /** `sudo service UNIT ACTION` */
  ghost predicate IsService(s: string, unit: string, action: string) {
    exists w, g, c, g', g'' ::
      && IsLike(w, "sudo") && IsGap(g) && IsLike(c, "service") && IsGap(g') && IsActionWord(action) && IsGap(g'')
      && UnitMatches(Mos, unit) && s == w + (g + (c + (g' + (unit + (g'' + action)))))
  }

  lemma ServiceMatches(w: string, g: string, c: string, g': string, unit: string, g'': string, action: string)
    requires IsLike(w, "sudo") && IsGap(g) && IsLike(c, "service") && IsGap(g') && IsActionWord(action) && IsGap(g'')
    requires UnitMatches(Mos, unit)
    ensures Match(Mos, w + (g + (c + (g' + (unit + (g'' + action)))))) == Some((unit, action))
  {
    hide ActionAt, AfterSpacedWord, AfterSpaces, IsLike, IsActionWord, UnitLength, UnitMatches;
    var rest := unit + (g'' + action);
    WordStarts(c, "service", g' + rest);
    AfterLikeAndGap(w, "sudo", g, c + (g' + rest));
    UnitStarts(Mos, unit, g'' + action);
    AfterLikeAndGap(c, "service", g', rest);
    GreedyUnit(unit, g'', action);
    assert rest[..|unit|] == unit && rest[|unit|..] == g'' + action;
    ActionStarts(action, "");
    ActionBegins(action, "");
    assert action + "" == action;
    AfterGap(g'', action);
  }

  lemma GreedyUnit(unit: string, g: string, rest: string)
    requires UnitMatches(Mos, unit) && IsGap(g)
    ensures UnitLength(Mos, unit + (g + rest)) == |unit| > 0
  {
    assert (g + rest)[0] == g[0];
    if IsUnitChar(Mos, g[0]) || Folds(g[0]) {
      UnitCharsAreNotSpace(Mos, g[0]);
    }
    OwnUnitLength(Mos, unit, g + rest);
  }

  /** ... and on MOS, that other one. */
  lemma ServiceExactly(s: string, unit: string, action: string)
    ensures Match(Mos, s) == Some((unit, action)) <==> IsService(s, unit, action)
  {
    hide ActionAt, AfterSpacedWord, AfterSpaces, UnitMatches, IsLike, IsActionWord, Match;
    if IsService(s, unit, action) {
      var w, g, c, g', g'' :|
        && IsLike(w, "sudo") && IsGap(g) && IsLike(c, "service") && IsGap(g') && IsActionWord(action) && IsGap(g'')
        && UnitMatches(Mos, unit) && s == w + (g + (c + (g' + (unit + (g'' + action)))));
      ServiceMatches(w, g, c, g', unit, g'', action);
    }
    if Match(Mos, s) == Some((unit, action)) {
      ServiceParts(s);
    }
  }

  lemma ServiceParts(s: string)
    requires Match(Mos, s).Some?
    ensures IsService(s, Match(Mos, s).value.0, Match(Mos, s).value.1)
  {
    hide ActionAt, AfterSpacedWord, AfterSpaces, IsLike, IsActionWord, UnitLength;
    var w, g := WordBefore(s, "sudo");
    var command := AfterSpacedWord(s, "sudo").value;
    var c, g' := WordBefore(command, "service");
    var rest := AfterSpacedWord(command, "service").value;
    var n := UnitLength(Mos, rest);
    UnitLengthStops(Mos, rest);
    var unit := rest[..n];
    assert forall i | 0 <= i < |unit| :: unit[i] == rest[i];
    var g'' := GapBefore(rest[n..]);
    var action := AfterSpaces(rest[n..]).value;
    ActionIs(action);
    assert ActionAt(action).value.0 + "" == ActionAt(action).value.0;
    assert rest == unit + (g'' + action);
  }

  // ── The word ─────────────────────────────────────────────────────────────────────────────────

  /** The word `sudo` stands in it, with no word character on either side. */
  ghost predicate HasTheWord(s: string) {
    exists before, w, after :: s == before + (w + after) && IsLike(w, "sudo")
      && (before == "" || !IsWordChar(before[|before| - 1])) && (after == "" || !IsWordChar(after[0]))
  }

  predicate MentionedAt(s: string, i: nat) {
    i <= |s| && (i == 0 || !IsWordChar(s[i - 1])) && AfterWord(s[i..], "sudo").Some?
    && (i + 4 >= |s| || !IsWordChar(s[i + 4]))
  }

  lemma FoundThere(s: string, i: nat)
    requires MentionedAt(s, i)
    ensures HasTheWord(s)
  {
    hide AfterWord, IsLike, IsWordChar;
    AfterWordIs(s[i..], "sudo");
    var before, w, after := s[..i], s[i..][..4], s[i + 4..];
    assert s == before + (w + after);
  }

  lemma StandsThere(before: string, w: string, after: string)
    requires IsLike(w, "sudo")
    requires (before == "" || !IsWordChar(before[|before| - 1])) && (after == "" || !IsWordChar(after[0]))
    ensures MentionedAt(before + (w + after), |before|)
  {
    hide AfterWord, IsLike, IsWordChar;
    var s := before + (w + after);
    FourLetters(w);
    AfterLike(w, "sudo", after);
    assert s[|before|..] == w + after;
    assert before != "" ==> s[|before| - 1] == before[|before| - 1];
    assert after != "" ==> s[|before| + 4] == after[0];
  }

  lemma MentionsExactly(s: string)
    ensures MentionsSudo(s) <==> HasTheWord(s)
  {
    hide MentionedAt, IsLike, IsWordChar, AfterWord;
    assert MentionsSudo(s) <==> exists i: nat :: MentionedAt(s, i) by { MentionedSomewhere(s); }
    if i: nat :| MentionedAt(s, i) {
      FoundThere(s, i);
    }
    if HasTheWord(s) {
      var before, w, after :| s == before + (w + after) && IsLike(w, "sudo")
        && (before == "" || !IsWordChar(before[|before| - 1])) && (after == "" || !IsWordChar(after[0]));
      StandsThere(before, w, after);
    }
  }

  lemma MentionedSomewhere(s: string)
    ensures MentionsSudo(s) <==> exists i: nat :: MentionedAt(s, i)
  {
    hide AfterWord, IsWordChar;
    forall i: nat | MentionedAt(s, i) ensures MentionsSudo(s) {
    }
    if MentionsSudo(s) {
      var i :| 0 <= i <= |s| && (i == 0 || !IsWordChar(s[i - 1])) && AfterWord(s[i..], "sudo").Some?
               && (i + 4 >= |s| || !IsWordChar(s[i + 4]));
      assert MentionedAt(s, i);
    }
  }

  lemma FourLetters(w: string)
    requires IsLike(w, "sudo")
    ensures |w| == 4
  {
  }

  /** The letters that `sudo` may be spelt with, by number. */
  lemma SudoIsSpelt(w: string)
    ensures IsLike(w, "sudo")
            <==> |w| == 4 && w[0] as int in {83, 115, 0x17F} && w[1] as int in {85, 117} && w[2] as int in {68, 100}
                 && w[3] as int in {79, 111}
  {
  }

  lemma LikeExactly(c: char, letter: char)
    requires 97 <= letter as int <= 122
    ensures Alike(c, letter)
            <==> || c == letter || c as int + 32 == letter as int || (c as int == 0x17F && letter == 's')
                 || (c as int == 0x212A && letter == 'k') || (c as int in {0x130, 0x131} && letter == 'i')
  {
  }

  /** The folds that fall into `[A-Za-z]`. */
  lemma FoldsExactly(c: char)
    ensures Folds(c) <==> c as int in {0x130, 0x131, 0x17F, 0x212A}
  {
  }

  lemma WordCharacters(c: char)
    ensures IsWordChar(c) <==> 65 <= c as int <= 90 || 97 <= c as int <= 122 || 48 <= c as int <= 57 || c as int == 95
  {
  }

  lemma UnitCharacters(p: Provider, c: char)
    ensures IsUnitChar(p, c)
            <==> || 65 <= c as int <= 90 || 97 <= c as int <= 122 || 48 <= c as int <= 57 || c as int in {45, 95}
                 || (p.Systemd? && c as int in {46, 58, 64})
  {
  }

  // ── The gate ─────────────────────────────────────────────────────────────────────────────────

  /** A grant of the allowlist declares the action, in lower case, on the unit. */
  ghost predicate IsGranted(list: Allowlist, fnmatch: Fnmatch, unit: string, action: string) {
    || (exists g, a :: g in list.units && g.unit == unit && a in g.actions && a.Word() == Lower(action))
    || (exists g, a :: g in list.globs && fnmatch(unit, g.glob) && a in g.actions && a.Word() == Lower(action))
  }

  lemma GrantedIs(list: Allowlist, fnmatch: Fnmatch, unit: string, action: string)
    ensures Allowed(list, fnmatch, unit, action) <==> IsGranted(list, fnmatch, unit, action)
  {
    hide Lower;
  }

  ghost predicate HasShape(p: Provider, s: string, unit: string, action: string) {
    if p.Mos? then IsService(s, unit, action) else IsSystemctl(s, unit, action)
  }

  /** Of a segment that has the word, the gate lets through exactly what has the one shape and is declared: whatever
      else stands in it, before or after, is refused. */
  lemma LetThroughExactly(p: Provider, list: Allowlist, fnmatch: Fnmatch, s: string)
    ensures Refused(p, list, fnmatch, s).None?
            <==> (HasTheWord(s)
                ==> exists unit, action :: HasShape(p, s, unit, action) && IsGranted(list, fnmatch, unit, action))
  {
    hide Match, MentionsSudo, Allowed, IsSystemctl, IsService, HasTheWord, IsGranted;
    MentionsExactly(s);
    forall unit, action ensures Match(p, s) == Some((unit, action)) <==> HasShape(p, s, unit, action) {
      if p.Mos? {
        ServiceExactly(s, unit, action);
      } else {
        SystemctlExactly(s, unit, action);
      }
    }
    if Match(p, s).Some? {
      var (unit, action) := Match(p, s).value;
      GrantedIs(list, fnmatch, unit, action);
      assert HasShape(p, s, unit, action);
    }
  }
}
