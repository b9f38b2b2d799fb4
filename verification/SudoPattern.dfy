/**
 How sudo compares a granted command with the one typed: `fnmatch` over the whole text, blanks and
 slashes included. `*` stands for any text, `?` for any character, `[...]` for one of its members, and a
 backslash for the character after it.

 Character classes such as `[:alpha:]` are read as plain members.
 */
module SudoPattern {
  import opened Wrappers

  /** Just past the `]` that closes a bracket, from `i` on. */
  function BracketEnd(p: string, i: nat): (end: Option<nat>)
    requires i <= |p|
    ensures end.Some? ==> i < end.value <= |p| && (p[i] != ']' ==> i + 1 < end.value)
    decreases |p| - i
  {
    if i == |p| then None
    else if p[i] == ']' then Some(i + 1)
    else if p[i] == '\\' && i + 1 < |p| then BracketEnd(p, i + 2)
    else BracketEnd(p, i + 1)
  }

  /** Where the members of a bracket begin: past a sign that negates it. */
  function Members(p: string): (n: nat)
    requires p != ""
    ensures 1 <= n <= |p|
  {
    if |p| > 1 && (p[1] == '!' || p[1] == '^') then 2 else 1
  }

  /** The length of the bracket that `p` opens, if it closes: a `]` that comes first is a member. */
  function Bracket(p: string): (n: Option<nat>)
    requires p != ""
    ensures n.Some? ==> 3 <= n.value <= |p|
  {
    var first := Members(p);
    if first == |p| then None
    else if p[first] == ']' then BracketEnd(p, first + 1)
    else BracketEnd(p, first)
  }

  predicate InList(members: string, c: char) {
    if members == "" then false
    else if members[0] == '\\' && |members| > 1 then members[1] == c || InList(members[2..], c)
    else if |members| > 2 && members[1] == '-' then members[0] <= c <= members[2] || InList(members[3..], c)
    else members[0] == c || InList(members[1..], c)
  }

  predicate InBracket(p: string, c: char)
    requires p != "" && Bracket(p).Some?
  {
    InList(p[Members(p)..Bracket(p).value - 1], c) <==> Members(p) == 1
  }

  /** `fnmatch(pattern, text, 0) == 0` */
  predicate Fits(p: string, text: string)
    decreases |p|, |text|
  {
    if p == "" then text == ""
    else if p[0] == '*' then Fits(p[1..], text) || (text != "" && Fits(p, text[1..]))
    else if text == "" then false
    else if p[0] == '?' then Fits(p[1..], text[1..])
    else if p[0] == '\\' then |p| > 1 && p[1] == text[0] && Fits(p[2..], text[1..])
    else if p[0] == '[' && Bracket(p).Some? then InBracket(p, text[0]) && Fits(p[Bracket(p).value..], text[1..])
    else p[0] == text[0] && Fits(p[1..], text[1..])
  }

  /** No wildcard: no `*`, `?` or backslash, and no bracket that closes. */
  predicate IsLiteral(p: string) {
    p == "" || (p[0] != '*' && p[0] != '?' && p[0] != '\\' && (p[0] == '[' ==> Bracket(p).None?) && IsLiteral(p[1..]))
  }

  predicate IsSpecial(c: char) {
    c == '*' || c == '?' || c == '\\' || c == '['
  }

  lemma {:induction false} LiteralFits(p: string, text: string)
    requires IsLiteral(p)
    ensures Fits(p, text) <==> text == p
  {
    if p != "" && text != "" {
      LiteralFits(p[1..], text[1..]);
      assert text == [text[0]] + text[1..] && p == [p[0]] + p[1..];
    }
  }

  /** A wildcard that leaves a choice: a star or a question mark that nothing quotes. */
  predicate HasWild(p: string) {
    if p == "" then false
    else if p[0] == '*' || p[0] == '?' then true
    else if p[0] == '\\' then |p| > 1 && HasWild(p[2..])
    else if p[0] == '[' && Bracket(p).Some? then HasWild(p[Bracket(p).value..])
    else HasWild(p[1..])
  }

  /** Without one, quoting and brackets make what fits shorter than the pattern. */
  lemma {:induction false} FitsShorter(p: string, text: string)
    requires !HasWild(p) && Fits(p, text)
    ensures |text| <= |p| && (|text| == |p| ==> IsLiteral(p))
  {
    if p != "" {
      if p[0] == '\\' {
        FitsShorter(p[2..], text[1..]);
      } else if p[0] == '[' && Bracket(p).Some? {
        FitsShorter(p[Bracket(p).value..], text[1..]);
      } else {
        FitsShorter(p[1..], text[1..]);
      }
    }
  }

  /** With one, whatever fits is not alone. */
  lemma {:induction false} FitsAnother(p: string, text: string) returns (other: string)
    requires HasWild(p) && Fits(p, text)
    ensures other != text && Fits(p, other)
  {
    if p[0] == '*' {
      other := "a" + text;
      assert other[1..] == text;
      assert |other| != |text|;
    } else if p[0] == '?' {
      other := [if text[0] == 'a' then 'b' else 'a'] + text[1..];
      assert other[1..] == text[1..] && other[0] != text[0];
    } else {
      var next := if p[0] == '\\' then 2 else if p[0] == '[' && Bracket(p).Some? then Bracket(p).value else 1;
      var rest := FitsAnother(p[next..], text[1..]);
      other := [text[0]] + rest;
      assert other[1..] == rest && other[0] == text[0] && text == [text[0]] + text[1..];
    }
  }

  lemma {:induction false} LiteralHasNoWild(p: string)
    requires IsLiteral(p)
    ensures !HasWild(p)
  {
    if p != "" {
      LiteralHasNoWild(p[1..]);
    }
  }

  /** A pattern with a wildcard, quoting included, does not stand for itself alone. */
  lemma OtherThanItself(p: string) returns (text: string)
    requires !IsLiteral(p)
    ensures Fits(p, text) <==> text != p
  {
    if !Fits(p, p) {
      text := p;
      return;
    }
    if HasWild(p) {
      text := FitsAnother(p, p);
    } else {
      FitsShorter(p, p);
    }
  }

  /** A pattern grants its own text and nothing else if and only if it holds no wildcard. */
  lemma PatternIsExact(p: string)
    ensures (forall text :: Fits(p, text) <==> text == p) <==> IsLiteral(p)
  {
    if IsLiteral(p) {
      forall text ensures Fits(p, text) <==> text == p {
        LiteralFits(p, text);
      }
    } else {
      var text := OtherThanItself(p);
    }
  }

  /** Plain text before a pattern is compared as it stands. */
  lemma {:induction false} FitsAfter(head: string, p: string, text: string)
    requires forall i | 0 <= i < |head| :: !IsSpecial(head[i])
    ensures Fits(head + p, text) <==> head <= text && Fits(p, text[|head|..])
  {
    if head == "" {
      assert head + p == p && text[0..] == text;
    } else {
      assert (head + p)[1..] == head[1..] + p && (head + p)[0] == head[0];
      if text != "" {
        FitsAfter(head[1..], p, text[1..]);
        assert head <= text <==> head[0] == text[0] && head[1..] <= text[1..] by { PrefixOfBoth(head, text); }
        if head <= text {
          assert text[1..][|head| - 1..] == text[|head|..];
        }
      }
    }
  }

  lemma {:induction false} LiteralAfter(head: string, p: string)
    requires IsLiteral(p) && forall i | 0 <= i < |head| :: !IsSpecial(head[i])
    ensures IsLiteral(head + p)
  {
    if head == "" {
      assert head + p == p;
    } else {
      assert (head + p)[1..] == head[1..] + p && (head + p)[0] == head[0];
      LiteralAfter(head[1..], p);
    }
  }

  lemma PrefixOfBoth(a: string, b: string)
    requires a != "" && b != ""
    ensures a <= b <==> a[0] == b[0] && a[1..] <= b[1..]
  {
    if a[0] == b[0] && a[1..] <= b[1..] {
      assert forall i | 1 <= i < |a| :: a[i] == a[1..][i - 1] && b[i] == b[1..][i - 1];
    }
  }

  lemma {:induction false} PlainIsLiteral(p: string)
    requires forall i | 0 <= i < |p| :: !IsSpecial(p[i])
    ensures IsLiteral(p)
  {
    if p != "" {
      PlainIsLiteral(p[1..]);
    }
  }

  /** A star alone fits anything. */
  lemma {:induction false} StarFits(text: string)
    ensures Fits("*", text)
  {
    if text != "" {
      StarFits(text[1..]);
    } else {
      assert "*"[1..] == "";
    }
  }
}
