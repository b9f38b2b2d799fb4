/** What the modules share about strings: white space, splitting, letter case. */
module Texts {
  /** `str.isspace`, which is also the regular expression's `\s`. */
  predicate IsSpace(c: char) {
    || '\t' <= c <= '\r' || '\U{001C}' <= c <= ' ' || '\U{2000}' <= c <= '\U{200A}'
    || c == '\U{0085}' || c == '\U{00A0}' || c == '\U{1680}' || c == '\U{2028}' || c == '\U{2029}'
    || c == '\U{202F}' || c == '\U{205F}' || c == '\U{3000}'
  }

  function SkipSpaces(s: string): (r: string)
    ensures |r| <= |s|
  {
    if s != "" && IsSpace(s[0]) then SkipSpaces(s[1..]) else s
  }

  predicate AllSpace(s: string) {
    forall i | 0 <= i < |s| :: IsSpace(s[i])
  }

  lemma {:induction false} SkipSpacesAfter(blank: string, s: string)
    requires AllSpace(blank)
    ensures SkipSpaces(blank + s) == SkipSpaces(s)
  {
    if blank == "" {
      assert blank + s == s;
    } else {
      assert (blank + s)[1..] == blank[1..] + s && IsSpace((blank + s)[0]);
      SkipSpacesAfter(blank[1..], s);
    }
  }

  lemma SkipOwn(s: string)
    requires s == "" || !IsSpace(s[0])
    ensures SkipSpaces(s) == s
  {
  }

  function StripEnd(s: string): string {
    if s != "" && IsSpace(s[|s| - 1]) then StripEnd(s[..|s| - 1]) else s
  }

  /** `s.strip()` */
  function Strip(s: string): string {
    StripEnd(SkipSpaces(s))
  }

  lemma {:induction false} StripEndSplits(s: string)
    ensures StripEnd(s) <= s && AllSpace(s[|StripEnd(s)|..])
    ensures StripEnd(s) != "" ==> !IsSpace(StripEnd(s)[|StripEnd(s)| - 1])
    ensures StripEnd(s) == "" <==> AllSpace(s)
  {
    if s != "" && IsSpace(s[|s| - 1]) {
      StripEndSplits(s[..|s| - 1]);
      assert s == s[..|s| - 1] + [s[|s| - 1]];
    }
  }

  lemma {:induction false} SkipSpacesSplits(s: string)
    ensures var r := SkipSpaces(s); AllSpace(s[..|s| - |r|]) && s == s[..|s| - |r|] + r && (r != "" ==> !IsSpace(r[0]))
  {
    if s != "" && IsSpace(s[0]) {
      SkipSpacesSplits(s[1..]);
      assert s == [s[0]] + s[1..];
    }
  }

  lemma StripEnds(s: string)
    ensures Strip(s) != "" ==> !IsSpace(Strip(s)[0]) && !IsSpace(Strip(s)[|Strip(s)| - 1])
    ensures |Strip(s)| <= |SkipSpaces(s)|
  {
    hide SkipSpaces, StripEnd, IsSpace, AllSpace;
    SkipSpacesSplits(s);
    StripEndSplits(SkipSpaces(s));
  }

  /** A text is its stripped form between blanks. */
  lemma StripSplits(s: string) returns (left: string, right: string)
    ensures AllSpace(left) && AllSpace(right) && s == left + (Strip(s) + right)
    ensures Strip(s) != "" ==> !IsSpace(Strip(s)[0]) && !IsSpace(Strip(s)[|Strip(s)| - 1])
  {
    hide SkipSpaces, StripEnd, IsSpace, AllSpace;
    var r := SkipSpaces(s);
    StripEnds(s);
    SkipSpacesSplits(s);
    StripEndSplits(r);
    left, right := s[..|s| - |r|], r[|Strip(s)|..];
    assert r == Strip(s) + right;
  }

  function UpTo(s: string, c: char): (n: nat)
    ensures n <= |s| && (n < |s| ==> s[n] == c) && forall i | 0 <= i < n :: s[i] != c
  {
    if s == "" || s[0] == c then 0 else 1 + UpTo(s[1..], c)
  }

  /** `s.split(c)` */
  function SplitOn(s: string, c: char): (parts: seq<string>)
    ensures |parts| > 0
  {
    if s == "" then [""]
    else
      var rest := SplitOn(s[1..], c);
      if s[0] == c then [""] + rest else [[s[0]] + rest[0]] + rest[1..]
  }

  function NonEmpty(parts: seq<string>): seq<string> {
    if parts == [] then [] else (if parts[0] == "" then [] else [parts[0]]) + NonEmpty(parts[1..])
  }

  lemma {:induction false} SplitOnBoth(a: string, b: string, c: char)
    ensures SplitOn(a + ([c] + b), c) == SplitOn(a, c) + SplitOn(b, c)
  {
    var s := a + ([c] + b);
    if a == "" {
      assert s[1..] == b && s[0] == c;
    } else {
      SplitOnBoth(a[1..], b, c);
      assert s[1..] == a[1..] + ([c] + b) && s[0] == a[0];
      FirstOfBoth(SplitOn(a[1..], c), SplitOn(b, c));
    }
  }

  lemma FirstOfBoth(a: seq<string>, b: seq<string>)
    requires a != []
    ensures (a + b)[0] == a[0] && (a + b)[1..] == a[1..] + b
    ensures forall x: string :: [x] + (a[1..] + b) == ([x] + a[1..]) + b
    ensures forall x: string :: [x] + (a + b) == ([x] + a) + b
  {
  }

  lemma {:induction false} SplitOnNone(s: string, c: char)
    requires c !in s
    ensures SplitOn(s, c) == [s]
  {
    if s != "" {
      assert s[0] in s && s[0] != c;
      SplitOnNone(s[1..], c);
      assert [s[0]] + s[1..] == s;
    }
  }

  lemma {:induction false} NonEmptyBoth(a: seq<string>, b: seq<string>)
    ensures NonEmpty(a + b) == NonEmpty(a) + NonEmpty(b)
  {
    if a == [] {
      assert a + b == b;
    } else {
      assert (a + b)[1..] == a[1..] + b;
      NonEmptyBoth(a[1..], b);
      ThreeParts(if a[0] == "" then [] else [a[0]], NonEmpty(a[1..]), NonEmpty(b));
    }
  }

  lemma ThreeParts(a: seq<string>, b: seq<string>, c: seq<string>)
    ensures a + (b + c) == (a + b) + c
  {
  }

  function LowerChar(c: char): char {
    if 'A' <= c <= 'Z' then (c as int + 32) as char else c
  }

  /** `lower`, of ASCII letters. */
  function Lower(s: string): string {
    seq(|s|, i requires 0 <= i < |s| => LowerChar(s[i]))
  }

  /** `lower` on the letters themselves; anything else stays. */
  lemma LowerLetters()
    ensures Lower("ABCDEFGHIJKLMNOPQRSTUVWXYZ") == "abcdefghijklmnopqrstuvwxyz"
    ensures forall c: char | (c as int) < 65 || 90 < c as int :: LowerChar(c) == c
  {
  }

  /** One part more than there are separators. */
  lemma {:induction false} PartsAreCounted(s: string, c: char)
    ensures |SplitOn(s, c)| == multiset(s)[c] + 1
  {
    if s != "" {
      PartsAreCounted(s[1..], c);
      assert s == [s[0]] + s[1..];
    }
  }

  lemma {:induction false} PartsHaveNone(s: string, c: char)
    ensures forall part | part in SplitOn(s, c) :: c !in part
  {
    if s != "" {
      PartsHaveNone(s[1..], c);
      var rest := SplitOn(s[1..], c);
      assert rest[0] in rest;
    }
  }

  lemma {:induction false} NonEmptyAre(parts: seq<string>)
    ensures forall part :: part in NonEmpty(parts) <==> part in parts && part != ""
  {
    if parts != [] {
      NonEmptyAre(parts[1..]);
      assert parts == [parts[0]] + parts[1..];
    }
  }
}
