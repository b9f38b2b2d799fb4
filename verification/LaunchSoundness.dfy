/**
 The textual check against the meaning of the rules it reads: every link it offers opens.

 A text that spells a rule is cut into pieces; the check's regular expressions never see them. So the
 proof first reads the scans back into pieces, then argues about trees:

 - what the host check strikes out are whole pieces: host terms, bars, parentheses and blanks;
 - a rule of these pieces is a disjunction of hosts, however it is parenthesised, so it accepts a
   request for any host it names (`HostRule`);
 - a trailing exclusion is a conjunct `!(...)` of the rule's last disjunct, because `&&` binds tighter
   than `||`; it holds on the path `/` when none of its paths covers the root (`ExcludedRule`);
 - so every host taken from the left side is served at the root (`LinkableHostsAreServed`).

 The other direction, that rules of hosts, alone or with such an exclusion, lose none of them, is
 `HostRulesAreOffered` and `ExcludedRulesAreOffered`.
 */
module LaunchSoundness {
  import opened Texts
  import opened Wrappers
  import opened TraefikRule
  import opened LaunchLinks

  // ── From characters to pieces ────────────────────────────────────────────────────────────────

  /** What the three replacements and the strip amount to, character by character. */
  predicate Clean(s: string) {
    || s == ""
    || ("||" <= s && Clean(s[2..]))
    || ((s[0] == '(' || s[0] == ')' || IsSpace(s[0])) && Clean(s[1..]))
  }

  lemma {:induction false} HostOnlyIsClean(s: string)
    requires AllSpace(Without(Without(Without(s, "||"), "("), ")"))
    ensures Clean(s)
    decreases |s|
  {
    if s == "" {
    } else if "||" <= s {
      HostOnlyIsClean(s[2..]);
    } else {
      var bars := Without(s[1..], "||");
      assert Without(s, "||") == [s[0]] + bars;
      assert ([s[0]] + bars)[1..] == bars;
      if s[0] == '(' {
        assert Without([s[0]] + bars, "(") == Without(bars, "(");
      } else {
        var opens := Without(bars, "(");
        assert Without([s[0]] + bars, "(") == [s[0]] + opens;
        assert ([s[0]] + opens)[1..] == opens;
        if s[0] == ')' {
          assert Without([s[0]] + opens, ")") == Without(opens, ")");
        } else {
          var rest := Without(opens, ")");
          assert Without([s[0]] + opens, ")") == [s[0]] + rest;
          assert ([s[0]] + rest)[0] == s[0];
          assert forall i | 0 <= i < |rest| :: rest[i] == ([s[0]] + rest)[i + 1];
        }
      }
      HostOnlyIsClean(s[1..]);
    }
  }

  lemma ValidTail(ps: seq<Piece>, n: nat)
    requires ValidPieces(ps) && n <= |ps|
    ensures ValidPieces(ps[n..])
  {
  }

  lemma {:induction false} UpToIs(v: string, c: char, tail: string)
    requires c !in v
    ensures UpTo(v + [c] + tail, c) == |v|
  {
    if v != "" {
      assert (v + [c] + tail)[1..] == v[1..] + [c] + tail;
      UpToIs(v[1..], c, tail);
    }
  }

  lemma Cancel(a: string, x: string, b: string, y: string)
    requires a + x == b + y && |a| == |b|
    ensures a == b && x == y
  {
    assert (a + x)[..|a|] == a && (b + y)[..|a|] == b && (a + x)[|a|..] == x && (b + y)[|a|..] == y;
  }

  function LetterRun(s: string): nat {
    if s == "" || !IsLetter(s[0]) then 0 else 1 + LetterRun(s[1..])
  }

  lemma {:induction false} LetterRunIs(a: string, x: string)
    requires (forall i | 0 <= i < |a| :: IsLetter(a[i])) && (x == "" || !IsLetter(x[0]))
    ensures LetterRun(a + x) == |a|
  {
    if a == "" {
      assert a + x == x;
    } else {
      assert (a + x)[1..] == a[1..] + x;
      LetterRunIs(a[1..], x);
    }
  }

  lemma FirstChar(ps: seq<Piece>)
    requires ValidPieces(ps) && ps != []
    ensures PiecesText(ps) != "" && PiecesText(ps)[0] == PieceText(ps[0])[0]
    ensures IsLetter(PiecesText(ps)[0]) <==> ps[0].Name?
    ensures IsSpace(PiecesText(ps)[0]) <==> ps[0].Space?
  {
    assert ValidPiece(ps[0]);
  }

  lemma NamePiece(ps: seq<Piece>, word: string, tail: string)
    requires ValidPieces(ps) && Letters(word) && tail != "" && !IsLetter(tail[0])
    requires PiecesText(ps) == word + tail
    ensures ps != [] && ps[0] == Name(word) && PiecesText(ps[1..]) == tail && ValidPieces(ps[1..])
  {
    assert PiecesText(ps)[0] == word[0];
    FirstChar(ps);
    ValidTail(ps, 1);
    if |ps| > 1 {
      FirstChar(ps[1..]);
    }
    assert ValidPiece(ps[0]);
    LetterRunIs(ps[0].name, PiecesText(ps[1..]));
    LetterRunIs(word, tail);
    Cancel(ps[0].name, PiecesText(ps[1..]), word, tail);
  }

  predicate IsSymbol(p: Piece) {
    p.LP? || p.RP? || p.AndOp? || p.OrOp? || p.NotOp?
  }

  lemma SymbolPiece(ps: seq<Piece>, p: Piece, tail: string)
    requires ValidPieces(ps) && IsSymbol(p) && PiecesText(ps) == PieceText(p) + tail
    ensures ps != [] && ps[0] == p && PiecesText(ps[1..]) == tail && ValidPieces(ps[1..])
  {
    assert PiecesText(ps)[0] == PieceText(p)[0];
    FirstChar(ps);
    ValidTail(ps, 1);
    Cancel(PieceText(ps[0]), PiecesText(ps[1..]), PieceText(p), tail);
  }

  lemma StringPiece(ps: seq<Piece>, value: string, tail: string)
    requires ValidPieces(ps) && '`' !in value && PiecesText(ps) == "`" + (value + ("`" + tail))
    ensures ps != [] && ps[0] == Str('`', value) && PiecesText(ps[1..]) == tail && ValidPieces(ps[1..])
  {
    var v := FirstString(ps);
    hide ValidPieces, PiecesText;
    SameString(v, PiecesText(ps[1..]), value, tail);
  }

  lemma FirstString(ps: seq<Piece>) returns (v: string)
    requires ValidPieces(ps) && PiecesText(ps) != "" && PiecesText(ps)[0] == '`'
    ensures ps != [] && ps[0] == Str('`', v) && '`' !in v && ValidPieces(ps[1..])
    ensures PiecesText(ps) == "`" + (v + ("`" + PiecesText(ps[1..])))
  {
    FirstChar(ps);
    ValidTail(ps, 1);
    v := ps[0].value;
    assert ValidPiece(ps[0]);
    hide ValidPieces;
    QuotedConcat(v, PiecesText(ps[1..]));
  }

  lemma QuotedConcat(v: string, after: string)
    ensures ['`'] + v + ['`'] + after == "`" + (v + ("`" + after))
  {
  }

  lemma SameString(v: string, after: string, value: string, tail: string)
    requires '`' !in v && '`' !in value && "`" + (v + ("`" + after)) == "`" + (value + ("`" + tail))
    ensures v == value && after == tail
  {
    Cancel("`", v + ("`" + after), "`", value + ("`" + tail));
    UpToBacktick(v, after);
    UpToBacktick(value, tail);
    Cancel(v, "`" + after, value, "`" + tail);
    Cancel("`", after, "`", tail);
  }

  lemma {:induction false} UpToBacktick(v: string, tail: string)
    requires '`' !in v
    ensures UpTo(v + ("`" + tail), '`') == |v|
  {
    if v == "" {
      assert v + ("`" + tail) == "`" + tail;
    } else {
      assert (v + ("`" + tail))[1..] == v[1..] + ("`" + tail);
      UpToBacktick(v[1..], tail);
    }
  }

  /** A quoted term, as text. */
  function TermText(word: string, value: string, tail: string): string {
    word + ("(" + ("`" + (value + ("`" + (")" + tail)))))
  }

  /** A quoted term in the characters is a name, a parenthesis, a string and a parenthesis. */
  lemma TermPieces(ps: seq<Piece>, word: string, value: string, tail: string)
    requires ValidPieces(ps) && Letters(word) && '`' !in value && PiecesText(ps) == TermText(word, value, tail)
    ensures |ps| >= 4 && ps[0] == Name(word) && ps[1] == LP && ps[2] == Str('`', value) && ps[3] == RP
    ensures PiecesText(ps[4..]) == tail && ValidPieces(ps[4..])
  {
    NamePiece(ps, word, "(" + ("`" + (value + ("`" + (")" + tail)))));
    SymbolPiece(ps[1..], LP, "`" + (value + ("`" + (")" + tail))));
    assert ps[1..][1..] == ps[2..];
    StringPiece(ps[2..], value, ")" + tail);
    assert ps[2..][1..] == ps[3..];
    SymbolPiece(ps[3..], RP, tail);
    assert ps[3..][1..] == ps[4..];
  }

  lemma TermTextRegroup(word: string, value: string, tail: string)
    ensures TermText(word, value, tail) == (word + "(`") + (value + ("`)" + tail))
  {
    assert "`)" + tail == "`" + (")" + tail);
    var x := value + ("`)" + tail);
    assert (word + "(`") + x == word + ("(" + ("`" + x));
  }

  lemma AfterOpening(s: string, word: string) returns (rest: string)
    requires QuotedAt(s, word).Some?
    ensures s == (word + "(`") + rest && QuoteEnd(rest) == QuotedAt(s, word)
  {
    hide QuoteEnd;
    rest := s[|word + "(`"|..];
  }

  lemma QuotedText(s: string, word: string)
    requires QuotedAt(s, word).Some?
    ensures var (value, tail) := QuotedAt(s, word).value; '`' !in value && s == TermText(word, value, tail)
  {
    hide QuotedAt, QuoteEnd, TermText;
    var rest := AfterOpening(s, word);
    var (value, tail) := QuoteEnd(rest).value;
    TermTextRegroup(word, value, tail);
  }

  /** The pieces a host-only rule is made of. */
  predicate HostPiece(p: Piece) {
    p.LP? || p.RP? || p.OrOp? || p.Str? || p == Name("Host")
  }

  predicate HostPieces(lexemes: seq<Piece>) {
    forall i | 0 <= i < |lexemes| :: HostPiece(lexemes[i])
  }

  function Strings(lexemes: seq<Piece>): seq<string> {
    if lexemes == [] then []
    else (if lexemes[0].Str? then [lexemes[0].value] else []) + Strings(lexemes[1..])
  }

  lemma TailOfBoth<T>(a: seq<T>, b: seq<T>)
    ensures if a == [] then a + b == b else (a + b)[1..] == a[1..] + b
  {
  }

  lemma {:induction false} StringsOfBoth(a: seq<Piece>, b: seq<Piece>)
    ensures Strings(a + b) == Strings(a) + Strings(b)
  {
    TailOfBoth(a, b);
    if a != [] {
      StringsOfBoth(a[1..], b);
    }
  }

  lemma TermTextThen(word: string, value: string, tail: string, post: string)
    ensures TermText(word, value, tail) + post == TermText(word, value, tail + post)
  {
    Assoc(")", tail, post);
    Assoc("`", ")" + tail, post);
    Assoc(value, "`" + (")" + tail), post);
    Assoc("`", value + ("`" + (")" + tail)), post);
    Assoc("(", "`" + (value + ("`" + (")" + tail))), post);
    Assoc(word, "(" + ("`" + (value + ("`" + (")" + tail)))), post);
  }

  lemma Assoc(a: string, b: string, c: string)
    ensures a + b + c == a + (b + c)
  {
  }

  lemma {:induction false} LexemesOfTerm(ps: seq<Piece>, word: string, value: string)
    requires |ps| >= 4 && ps[0] == Name(word) && ps[1] == LP && ps[2] == Str('`', value) && ps[3] == RP
    ensures Lexemes(ps) == TermLexemes(word, value) + Lexemes(ps[4..])
  {
    assert ps[1..][1..] == ps[2..] && ps[2..][1..] == ps[3..] && ps[3..][1..] == ps[4..];
    assert Lexemes(ps[3..]) == [RP] + Lexemes(ps[4..]);
    assert Lexemes(ps[2..]) == [Str('`', value)] + Lexemes(ps[3..]);
    assert Lexemes(ps[1..]) == [LP] + Lexemes(ps[2..]);
  }

  lemma NotHost(s: string)
    requires s != "" && s[0] != 'H'
    ensures HostAt(s) == None
  {
    assert ("Host" + "(`")[0] == 'H';
  }

  lemma CleanHead(c: char, left: string)
    requires Clean([c] + left)
    ensures c == '|' ==> left != "" && left[0] == '|' && Clean(left[1..])
    ensures c != '|' ==> (c == '(' || c == ')' || IsSpace(c)) && Clean(left)
  {
    assert ([c] + left)[1..] == left;
    if c == '|' {
      assert ([c] + left)[2..] == left[1..];
    }
  }

  lemma BarPiece(ps: seq<Piece>, pre: string, post: string) returns (pre': string)
    requires ValidPieces(ps) && PiecesText(ps) == pre + post && (post == "" || post[0] == '&')
    requires pre != "" && pre[0] == '|' && ps != [] && ps[0] == OrOp
    ensures |pre| >= 2 && pre[1] == '|' && pre' == pre[2..] && PiecesText(ps[1..]) == pre' + post
  {
    assert (pre + post)[1] == '|';
    pre' := pre[2..];
    assert pre == "||" + pre';
    Assoc("||", pre', post);
    Cancel("||", PiecesText(ps[1..]), "||", pre' + post);
  }

  /** Outside a host term, one character is struck off the front. */
  lemma PlainHead(s: string)
    requires s != "" && HostAt(s) == None
    ensures WithoutHosts(s) == [s[0]] + WithoutHosts(s[1..]) && Hosts(s) == Hosts(s[1..])
  {
  }

  lemma SeparatorHosts(pre: string)
    requires pre != "" && pre[0] != '|' && HostAt(pre) == None && Clean(WithoutHosts(pre))
    ensures (pre[0] == '(' || pre[0] == ')' || IsSpace(pre[0])) && Clean(WithoutHosts(pre[1..]))
            && Hosts(pre[1..]) == Hosts(pre)
  {
    hide Clean, WithoutHosts, Hosts, HostAt;
    PlainHead(pre);
    CleanHead(pre[0], WithoutHosts(pre[1..]));
  }

  lemma BarHosts(pre: string)
    requires |pre| >= 2 && pre[0] == pre[1] == '|' && Clean(WithoutHosts(pre))
    ensures Clean(WithoutHosts(pre[2..])) && Hosts(pre[2..]) == Hosts(pre)
  {
    NotHost(pre);
    NotHost(pre[1..]);
    hide Clean, WithoutHosts, Hosts, HostAt;
    PlainHead(pre);
    PlainHead(pre[1..]);
    assert pre[1..][1..] == pre[2..];
    CleanHead('|', WithoutHosts(pre[1..]));
    assert WithoutHosts(pre[1..])[1..] == WithoutHosts(pre[2..]);
  }

  /** Text that begins with a bar, cleanly, begins with no letter of a host term. */
  lemma CleanStart(pre: string)
    requires pre != "" && HostAt(pre) == None && Clean(WithoutHosts(pre))
    ensures pre[0] == '|' || pre[0] == '(' || pre[0] == ')' || IsSpace(pre[0])
  {
    PlainHead(pre);
    CleanHead(pre[0], WithoutHosts(pre[1..]));
  }

  lemma SeparatorPiece(ps: seq<Piece>, pre: string, post: string) returns (pre': string)
    requires ValidPieces(ps) && PiecesText(ps) == pre + post && (post == "" || post[0] == '&')
    requires pre != "" && HostAt(pre) == None && Clean(WithoutHosts(pre))
    ensures ps != [] && (ps[0].Space? || ps[0].LP? || ps[0].RP? || ps[0].OrOp?)
    ensures ValidPieces(ps[1..]) && PiecesText(ps[1..]) == pre' + post
    ensures |pre'| < |pre| && Clean(WithoutHosts(pre')) && Hosts(pre') == Hosts(pre)
  {
    hide WithoutHosts, Hosts, Clean, HostAt;
    var c := pre[0];
    assert (pre + post)[0] == c;
    FirstChar(ps);
    ValidTail(ps, 1);
    CleanStart(pre);
    if c == '|' {
      pre' := BarPiece(ps, pre, post);
      BarHosts(pre);
    } else {
      SeparatorHosts(pre);
      pre' := SinglePiece(ps, pre, post);
    }
  }

  lemma SinglePiece(ps: seq<Piece>, pre: string, post: string) returns (pre': string)
    requires ps != [] && PiecesText(ps) == pre + post && pre != "" && PieceText(ps[0]) == [pre[0]]
    ensures pre' == pre[1..] && PiecesText(ps[1..]) == pre' + post
  {
    pre' := pre[1..];
    assert pre == [pre[0]] + pre';
    Assoc([pre[0]], pre', post);
    Cancel([pre[0]], PiecesText(ps[1..]), [pre[0]], pre' + post);
  }

  lemma QuotedPieces(ps: seq<Piece>, pre: string, post: string, word: string)
    requires ValidPieces(ps) && PiecesText(ps) == pre + post && Letters(word) && QuotedAt(pre, word).Some?
    ensures var (value, tail) := QuotedAt(pre, word).value;
            |ps| >= 4 && Lexemes(ps) == TermLexemes(word, value) + Lexemes(ps[4..])
            && PiecesText(ps[4..]) == tail + post && ValidPieces(ps[4..])
  {
    var (value, tail) := QuotedAt(pre, word).value;
    QuotedText(pre, word);
    TermTextThen(word, value, tail, post);
    TermPieces(ps, word, value, tail + post);
    LexemesOfTerm(ps, word, value);
  }

  lemma HostTermStrings(host: string, head: seq<Piece>)
    requires HostPieces(head)
    ensures var term := [Name("Host"), LP, Str('`', host), RP];
            HostPieces(term + head) && Strings(term + head) == [host] + Strings(head)
  {
    var term := [Name("Host"), LP, Str('`', host), RP];
    StringsOfBoth(term, head);
    assert term[1..] == [LP, Str('`', host), RP] && [LP, Str('`', host), RP][1..] == [Str('`', host), RP];
    assert [Str('`', host), RP][1..] == [RP] && Strings([RP]) == [] && Strings([Str('`', host), RP]) == [host];
    assert Strings([LP, Str('`', host), RP]) == [host];
  }

  lemma HostHead(pre: string)
    requires HostAt(pre).Some?
    ensures var (host, tail) := HostAt(pre).value;
            && pre != "" && QuotedAt(pre, "Host") == Some((host, tail)) && Letters("Host")
            && Hosts(pre) == [host] + Hosts(tail) && WithoutHosts(pre) == WithoutHosts(tail)
  {
  }

  lemma HostPiecesFirst(ps: seq<Piece>, pre: string, post: string)
    requires ValidPieces(ps) && PiecesText(ps) == pre + post && HostAt(pre).Some?
    ensures var (host, tail) := HostAt(pre).value;
            |ps| >= 4 && Lexemes(ps) == [Name("Host"), LP, Str('`', host), RP] + Lexemes(ps[4..])
            && PiecesText(ps[4..]) == tail + post && ValidPieces(ps[4..])
  {
    hide ValidPieces, PiecesText, Lexemes, HostAt, QuotedAt;
    HostHead(pre);
    QuotedPieces(ps, pre, post, "Host");
  }

  lemma SeparatorStrings(p: Piece, head: seq<Piece>)
    requires (p.LP? || p.RP? || p.OrOp?) && HostPieces(head)
    ensures HostPieces([p] + head) && Strings([p] + head) == Strings(head)
  {
    StringsOfBoth([p], head);
    assert Strings([p]) == [];
    assert [] + Strings(head) == Strings(head);
  }

  lemma LexemesFirst(ps: seq<Piece>)
    requires ps != []
    ensures Lexemes(ps) == if ps[0].Space? then Lexemes(ps[1..]) else [ps[0]] + Lexemes(ps[1..])
  {
  }

  lemma NoPieces(ps: seq<Piece>)
    ensures Lexemes(ps) == [] + Lexemes(ps) && HostPieces([]) && Strings([]) == [] == Hosts("")
  {
  }

  /** Reading a rule the check accepts cuts it where a lexer would, up to its end or to an `&`. */
  lemma {:induction false} HostOnlyPieces(ps: seq<Piece>, pre: string, post: string)
    returns (head: seq<Piece>, qs: seq<Piece>)
    requires ValidPieces(ps) && PiecesText(ps) == pre + post && (post == "" || post[0] == '&')
    requires Clean(WithoutHosts(pre))
    ensures Lexemes(ps) == head + Lexemes(qs) && HostPieces(head) && Strings(head) == Hosts(pre)
    ensures ValidPieces(qs) && PiecesText(qs) == post
    decreases |pre|
  {
    hide ValidPieces, PiecesText, Lexemes, HostAt, Clean, HostPieces, Strings, Hosts, WithoutHosts;
    if pre == "" {
      head, qs := [], ps;
      NoPieces(ps);
      assert pre + post == post;
    } else if HostAt(pre).Some? {
      var (host, tail) := HostAt(pre).value;
      HostHead(pre);
      HostPiecesFirst(ps, pre, post);
      head, qs := HostOnlyPieces(ps[4..], tail, post);
      HostTermStrings(host, head);
      Regroup([Name("Host"), LP, Str('`', host), RP], head, Lexemes(qs));
      head := [Name("Host"), LP, Str('`', host), RP] + head;
    } else {
      var pre' := SeparatorPiece(ps, pre, post);
      head, qs := HostOnlyPieces(ps[1..], pre', post);
      LexemesFirst(ps);
      if !ps[0].Space? {
        SeparatorStrings(ps[0], head);
        Regroup([ps[0]], head, Lexemes(qs));
        head := [ps[0]] + head;
      }
    }
  }

  lemma Regroup(a: seq<Piece>, b: seq<Piece>, c: seq<Piece>)
    ensures a + (b + c) == a + b + c
  {
  }

  lemma {:induction false} SpacePieces(ps: seq<Piece>) returns (qs: seq<Piece>)
    requires ValidPieces(ps)
    ensures ValidPieces(qs) && PiecesText(qs) == SkipSpaces(PiecesText(ps)) && Lexemes(qs) == Lexemes(ps)
  {
    if ps == [] {
      qs := ps;
    } else {
      FirstChar(ps);
      if ps[0].Space? {
        ValidTail(ps, 1);
        assert PiecesText(ps)[1..] == PiecesText(ps[1..]);
        qs := SpacePieces(ps[1..]);
      } else {
        qs := ps;
      }
    }
  }

  /** The lexemes of path terms joined by bars. */
  function Terms(terms: seq<(string, string)>): seq<Piece>
    requires terms != []
  {
    var term := [Name(terms[0].0), LP, Str('`', terms[0].1), RP];
    if |terms| == 1 then term else term + [OrOp] + Terms(terms[1..])
  }

  function Paths(terms: seq<(string, string)>): seq<string> {
    if terms == [] then [] else [terms[0].1] + Paths(terms[1..])
  }

  predicate PathTerms(terms: seq<(string, string)>) {
    terms != [] && forall i | 0 <= i < |terms| :: IsPathWord(terms[i].0)
  }

  predicate IsPathWord(word: string) {
    word == "Path" || word == "PathPrefix"
  }

  lemma TermAtWord(text: string) returns (word: string)
    requires TermAt(text).Some?
    ensures IsPathWord(word) && Letters(word) && QuotedAt(text, word) == TermAt(text)
  {
    hide QuotedAt;
    word := if QuotedAt(text, "PathPrefix").Some? then "PathPrefix" else "Path";
  }

  lemma TermPiecesAt(ps: seq<Piece>, text: string, word: string, value: string, tail: string)
    requires ValidPieces(ps) && PiecesText(ps) == text && Letters(word) && QuotedAt(text, word) == Some((value, tail))
    ensures |ps| >= 4 && Lexemes(ps) == TermLexemes(word, value) + Lexemes(ps[4..])
    ensures PiecesText(ps[4..]) == tail && ValidPieces(ps[4..])
  {
    assert text == text + "" && tail == tail + "";
    QuotedPieces(ps, text, "", word);
  }

  lemma SymbolLexeme(ps: seq<Piece>, p: Piece)
    requires ValidPieces(ps) && IsSymbol(p) && PieceText(p) <= PiecesText(ps)
    ensures ps != [] && Lexemes(ps) == [p] + Lexemes(ps[1..]) && ValidPieces(ps[1..])
    ensures PiecesText(ps[1..]) == PiecesText(ps)[|PieceText(p)|..]
  {
    hide PiecesText, ValidPieces, PieceText;
    var tail := PiecesText(ps)[|PieceText(p)|..];
    assert PiecesText(ps) == PieceText(p) + tail;
    SymbolPiece(ps, p, tail);
  }

  lemma SymbolThenSpaces(ps: seq<Piece>, p: Piece) returns (qs: seq<Piece>)
    requires ValidPieces(ps) && IsSymbol(p) && PieceText(p) <= PiecesText(ps)
    ensures Lexemes(ps) == [p] + Lexemes(qs) && ValidPieces(qs)
    ensures PiecesText(qs) == SkipSpaces(PiecesText(ps)[|PieceText(p)|..])
  {
    SymbolLexeme(ps, p);
    qs := SpacePieces(ps[1..]);
  }

  function TermLexemes(word: string, path: string): seq<Piece> {
    [Name(word), LP, Str('`', path), RP]
  }

  lemma OneTerm(word: string, path: string)
    requires IsPathWord(word)
    ensures var terms := [(word, path)];
            PathTerms(terms) && Terms(terms) + [RP] == TermLexemes(word, path) + [RP] && Paths(terms) == [path]
  {
    assert [(word, path)][1..] == [];
  }

  lemma TermsCons(word: string, path: string, others: seq<(string, string)>)
    requires IsPathWord(word) && PathTerms(others)
    ensures var terms := [(word, path)] + others;
            PathTerms(terms) && Paths(terms) == [path] + Paths(others)
            && Terms(terms) + [RP] == TermLexemes(word, path) + ([OrOp] + (Terms(others) + [RP]))
  {
    var terms := [(word, path)] + others;
    assert terms[1..] == others;
    assert Terms(terms) == TermLexemes(word, path) + [OrOp] + Terms(others);
  }

  lemma GroupCases(text: string)
    requires GroupAt(text).Some?
    ensures TermAt(text).Some?
    ensures var (path, tail) := TermAt(text).value; var rest := SkipSpaces(tail);
            if "||" <= rest then
              && GroupAt(SkipSpaces(rest[2..])).Some?
              && GroupAt(text).value == [path] + GroupAt(SkipSpaces(rest[2..])).value
            else ")" <= rest && SkipSpaces(rest[1..]) == "" && GroupAt(text).value == [path]
  {
  }

  lemma LastTerm(qs: seq<Piece>)
    requires ValidPieces(qs) && ")" <= PiecesText(qs) && SkipSpaces(PiecesText(qs)[1..]) == ""
    ensures Lexemes(qs) == [RP]
  {
    var rs := SymbolThenSpaces(qs, RP);
    NoText(rs);
  }

  lemma {:induction false} GroupPieces(ps: seq<Piece>, text: string) returns (terms: seq<(string, string)>)
    requires ValidPieces(ps) && text == PiecesText(ps) && GroupAt(text).Some?
    ensures PathTerms(terms) && Paths(terms) == GroupAt(text).value
    ensures Lexemes(ps) == Terms(terms) + [RP]
    decreases |text|
  {
    hide TermAt, PiecesText, ValidPieces, Paths, PathTerms, Terms;
    GroupCases(text);
    var word := TermAtWord(text);
    var (path, tail) := TermAt(text).value;
    TermPiecesAt(ps, text, word, path, tail);
    var qs := SpacePieces(ps[4..]);
    if "||" <= SkipSpaces(tail) {
      var rs := SymbolThenSpaces(qs, OrOp);
      var others := GroupPieces(rs, PiecesText(rs));
      TermsCons(word, path, others);
      terms := [(word, path)] + others;
    } else {
      LastTerm(qs);
      OneTerm(word, path);
      terms := [(word, path)];
    }
  }

  lemma NoText(ps: seq<Piece>)
    requires ValidPieces(ps) && PiecesText(ps) == ""
    ensures ps == []
  {
    if ps != [] {
      FirstChar(ps);
    }
  }

  lemma ExclusionPieces(ps: seq<Piece>) returns (terms: seq<(string, string)>)
    requires ValidPieces(ps) && ExcludedAt(PiecesText(ps)).Some?
    ensures PathTerms(terms) && Paths(terms) == ExcludedAt(PiecesText(ps)).value
    ensures Lexemes(ps) == [AndOp] + ([NotOp] + ([LP] + (Terms(terms) + [RP])))
  {
    var qs := SymbolThenSpaces(ps, AndOp);
    var rest := PiecesText(qs);
    assert "!" <= rest;
    SymbolLexeme(qs, NotOp);
    assert "(" <= rest[1..] && rest[1..][1..] == rest[2..];
    var rs := SymbolThenSpaces(qs[1..], LP);
    terms := GroupPieces(rs, PiecesText(rs));
  }

  // ── From pieces to meaning ───────────────────────────────────────────────────────────────────

  /** How many parentheses are open after the lexemes. */
  function Depth(lexemes: seq<Piece>): int {
    if lexemes == [] then 0
    else Depth(lexemes[..|lexemes| - 1])
         + (match lexemes[|lexemes| - 1] case LP => 1 case RP => -1 case _ => 0)
  }

  lemma {:induction false} DepthOfBoth(a: seq<Piece>, b: seq<Piece>)
    ensures Depth(a + b) == Depth(a) + Depth(b)
  {
    if b == [] {
      assert a + b == a;
    } else {
      var front := b[..|b| - 1];
      assert (a + b)[..|a + b| - 1] == a + front;
      DepthOfBoth(a, front);
    }
  }

  /** Parentheses balance, and no prefix closes one it did not open. */
  ghost predicate Balanced(lexemes: seq<Piece>) {
    Depth(lexemes) == 0 && forall k | 0 <= k <= |lexemes| :: Depth(lexemes[..k]) >= 0
  }

  lemma BalancedBoth(a: seq<Piece>, b: seq<Piece>)
    requires Balanced(a) && Balanced(b)
    ensures Balanced(a + b)
  {
    DepthOfBoth(a, b);
    forall k | 0 <= k <= |a + b| ensures Depth((a + b)[..k]) >= 0 {
      if k <= |a| {
        assert (a + b)[..k] == a[..k];
      } else {
        assert (a + b)[..k] == a + b[..k - |a|];
        DepthOfBoth(a, b[..k - |a|]);
      }
    }
  }

  lemma BalancedInside(inner: seq<Piece>)
    requires Balanced(inner)
    ensures Balanced([LP] + inner + [RP])
    ensures forall k | 0 < k <= |inner| + 1 :: Depth(([LP] + inner + [RP])[..k]) >= 1
  {
    var all := [LP] + inner + [RP];
    assert Depth([LP]) == 1 && Depth([RP]) == -1;
    DepthOfBoth([LP], inner);
    DepthOfBoth([LP] + inner, [RP]);
    forall k | 0 < k <= |inner| + 1 ensures Depth(all[..k]) >= 1 {
      assert all[..k] == [LP] + inner[..k - 1];
      DepthOfBoth([LP], inner[..k - 1]);
    }
    forall k | 0 <= k <= |all| ensures Depth(all[..k]) >= 0 {
      if k == |all| {
        assert all[..k] == all;
      }
    }
  }

  lemma {:induction false} BalancedPlain(lexemes: seq<Piece>)
    requires forall i | 0 <= i < |lexemes| :: !lexemes[i].LP? && !lexemes[i].RP?
    ensures Balanced(lexemes)
  {
    if lexemes != [] {
      var front := lexemes[..|lexemes| - 1];
      BalancedPlain(front);
      forall k | 0 <= k <= |lexemes| ensures Depth(lexemes[..k]) >= 0 {
        if k < |lexemes| {
          assert lexemes[..k] == front[..k];
        } else {
          assert lexemes[..k] == lexemes;
        }
      }
    }
  }

  lemma {:induction false} ArgumentsPlain(lexemes: seq<Piece>, args: seq<string>)
    requires AreArguments(lexemes, args)
    ensures forall i | 0 <= i < |lexemes| :: lexemes[i].Str? || lexemes[i].Comma?
  {
    if |args| > 1 {
      ArgumentsPlain(lexemes[2..], args[1..]);
    }
  }

  lemma MatcherBalanced(lexemes: seq<Piece>, name: string, args: seq<string>)
    requires Spells(lexemes, Matcher(name, args))
    ensures Balanced(lexemes)
  {
    var inner := lexemes[2..|lexemes| - 1];
    ArgumentsPlain(inner, args);
    BalancedPlain(inner);
    BalancedInside(inner);
    BalancedPlain([Name(name)]);
    BalancedBoth([Name(name)], [LP] + inner + [RP]);
    assert lexemes == [Name(name)] + ([LP] + inner + [RP]);
  }

  lemma {:induction false} RuleBalanced(lexemes: seq<Piece>, rule: Rule)
    requires Spells(lexemes, rule)
    ensures Balanced(lexemes)
    decreases rule
  {
    match rule
    case Matcher(name, args) =>
      MatcherBalanced(lexemes, name, args);
    case Not(r) =>
      RuleBalanced(lexemes[1..], r);
      BalancedPlain([NotOp]);
      BalancedBoth([NotOp], lexemes[1..]);
      assert lexemes == [NotOp] + lexemes[1..];
    case Paren(r) =>
      var inner := lexemes[1..|lexemes| - 1];
      RuleBalanced(inner, r);
      BalancedInside(inner);
      assert lexemes == [LP] + inner + [RP];
    case And(l, r) =>
      var k :| 0 <= k < |lexemes| && lexemes[k] == AndOp && Spells(lexemes[..k], l) && Spells(lexemes[k + 1..], r);
      RuleBalanced(lexemes[..k], l);
      RuleBalanced(lexemes[k + 1..], r);
      JoinBalanced(lexemes, k);
    case Or(l, r) =>
      var k :| 0 <= k < |lexemes| && lexemes[k] == OrOp && Spells(lexemes[..k], l) && Spells(lexemes[k + 1..], r);
      RuleBalanced(lexemes[..k], l);
      RuleBalanced(lexemes[k + 1..], r);
      JoinBalanced(lexemes, k);
  }

  lemma JoinBalanced(lexemes: seq<Piece>, k: nat)
    requires k < |lexemes| && !lexemes[k].LP? && !lexemes[k].RP?
    requires Balanced(lexemes[..k]) && Balanced(lexemes[k + 1..])
    ensures Balanced(lexemes)
  {
    BalancedPlain([lexemes[k]]);
    BalancedBoth(lexemes[..k], [lexemes[k]]);
    BalancedBoth(lexemes[..k] + [lexemes[k]], lexemes[k + 1..]);
    assert lexemes == lexemes[..k] + [lexemes[k]] + lexemes[k + 1..];
  }

  /** What is common to the host part and the excluded part: one-argument matchers under `||`. */
  predicate FlatPiece(p: Piece) {
    !p.AndOp? && !p.NotOp? && !p.Comma?
  }

  ghost predicate FlatPieces(lexemes: seq<Piece>) {
    forall i | 0 <= i < |lexemes| :: FlatPiece(lexemes[i])
  }

  lemma FlatMatcher(lexemes: seq<Piece>, name: string, args: seq<string>)
    requires Spells(lexemes, Matcher(name, args)) && FlatPieces(lexemes)
    ensures |args| == 1 && |lexemes| == 4 && lexemes[2].Str? && Strings(lexemes) == args
    ensures lexemes[0] == Name(name)
  {
    var inner := lexemes[2..|lexemes| - 1];
    assert lexemes == [lexemes[0], LP, inner[0], RP];
    assert lexemes[1..] == [LP, inner[0], RP] && [LP, inner[0], RP][1..] == [inner[0], RP]
           && [inner[0], RP][1..] == [RP];
    assert Strings([RP]) == [] && Strings([inner[0], RP]) == args;
  }

  lemma StringsSplit(lexemes: seq<Piece>, k: nat)
    requires k < |lexemes| && !lexemes[k].Str?
    ensures Strings(lexemes) == Strings(lexemes[..k]) + Strings(lexemes[k + 1..])
  {
    assert lexemes == lexemes[..k] + lexemes[k..] && lexemes[k..][1..] == lexemes[k + 1..];
    StringsOfBoth(lexemes[..k], lexemes[k..]);
  }

  lemma OrSplit(lexemes: seq<Piece>, l: Rule, r: Rule) returns (k: nat)
    requires Spells(lexemes, Or(l, r))
    ensures k < |lexemes| && lexemes[k] == OrOp && Spells(lexemes[..k], l) && Spells(lexemes[k + 1..], r)
  {
    k :| 0 <= k < |lexemes| && lexemes[k] == OrOp && Spells(lexemes[..k], l) && Spells(lexemes[k + 1..], r);
  }

  lemma ParenStrings(lexemes: seq<Piece>)
    requires |lexemes| >= 2 && lexemes[0] == LP && lexemes[|lexemes| - 1] == RP
    ensures Strings(lexemes[1..|lexemes| - 1]) == Strings(lexemes)
  {
    var inner := lexemes[1..|lexemes| - 1];
    assert lexemes[1..] == inner + [RP];
    StringsOfBoth(inner, [RP]);
    assert Strings([RP]) == [];
  }

  ghost predicate Names(hosts: seq<string>, host: string) {
    exists i :: 0 <= i < |hosts| && Lower(hosts[i]) == Lower(host)
  }

  lemma HostMatcher(lexemes: seq<Piece>, name: string, args: seq<string>, request: Request)
    requires Spells(lexemes, Matcher(name, args)) && HostPieces(lexemes)
    ensures Accepts(Matcher(name, args), request) <==> Names(Strings(lexemes), request.host)
  {
    assert FlatPieces(lexemes);
    FlatMatcher(lexemes, name, args);
    assert HostPiece(lexemes[0]);
  }

  /** A rule spelled with host pieces only accepts exactly the hosts it quotes, on any path. */
  lemma {:induction false} HostRule(lexemes: seq<Piece>, rule: Rule, request: Request)
    requires Spells(lexemes, rule) && HostPieces(lexemes)
    ensures Accepts(rule, request) <==> Names(Strings(lexemes), request.host)
    decreases rule
  {
    hide Names, Strings;
    match rule
    case Matcher(name, args) =>
      HostMatcher(lexemes, name, args, request);
    case Not(_) =>
      assert false;
    case Paren(r) =>
      HostRule(lexemes[1..|lexemes| - 1], r, request);
      ParenStrings(lexemes);
    case And(_, _) =>
      assert false;
    case Or(l, r) =>
      var k := OrSplit(lexemes, l, r);
      StringsSplit(lexemes, k);
      HostRule(lexemes[..k], l, request);
      HostRule(lexemes[k + 1..], r, request);
      NamesOfBoth(Strings(lexemes[..k]), Strings(lexemes[k + 1..]), request.host);
  }

  lemma NamesOfBoth(a: seq<string>, b: seq<string>, host: string)
    ensures Names(a + b, host) <==> Names(a, host) || Names(b, host)
  {
    if Names(b, host) {
      var i :| 0 <= i < |b| && Lower(b[i]) == Lower(host);
      assert (a + b)[|a| + i] == b[i];
    }
    if Names(a, host) {
      var i :| 0 <= i < |a| && Lower(a[i]) == Lower(host);
      assert (a + b)[i] == a[i];
    }
  }

  predicate PathPiece(p: Piece) {
    p.LP? || p.RP? || p.OrOp? || p.Str? || (p.Name? && IsPathWord(p.name))
  }

  predicate PathPieces(lexemes: seq<Piece>) {
    forall i | 0 <= i < |lexemes| :: PathPiece(lexemes[i])
  }

  lemma NoneOfBoth(a: seq<string>, b: seq<string>)
    requires NoneCoversRoot(a + b)
    ensures NoneCoversRoot(a) && NoneCoversRoot(b)
  {
    assert forall i | 0 <= i < |b| :: (a + b)[|a| + i] == b[i];
    assert forall i | 0 <= i < |a| :: (a + b)[i] == a[i];
  }

  lemma RootIsCovered(path: string)
    requires path <= "/"
    ensures CoversRoot(path)
  {
    if path != "" {
      assert path[0] == '/' && AllSpace(path[..0]) && AllSpace(path[1..]);
    }
  }

  lemma PathMatcher(lexemes: seq<Piece>, name: string, args: seq<string>, request: Request)
    requires Spells(lexemes, Matcher(name, args)) && PathPieces(lexemes) && NoneCoversRoot(Strings(lexemes))
    requires request.path == "/"
    ensures !Accepts(Matcher(name, args), request)
  {
    assert FlatPieces(lexemes);
    FlatMatcher(lexemes, name, args);
    assert PathPiece(lexemes[0]);
    if args[0] <= "/" {
      RootIsCovered(args[0]);
    }
  }

  /** Path terms under `||`, none of which covers the root. */
  predicate SparesRoot(lexemes: seq<Piece>) {
    PathPieces(lexemes) && NoneCoversRoot(Strings(lexemes))
  }

  lemma SparesInside(lexemes: seq<Piece>)
    requires SparesRoot(lexemes) && |lexemes| >= 2 && lexemes[0] == LP && lexemes[|lexemes| - 1] == RP
    ensures SparesRoot(lexemes[1..|lexemes| - 1])
  {
    ParenStrings(lexemes);
  }

  lemma SparesSides(lexemes: seq<Piece>, k: nat)
    requires SparesRoot(lexemes) && k < |lexemes| && !lexemes[k].Str?
    ensures SparesRoot(lexemes[..k]) && SparesRoot(lexemes[k + 1..])
  {
    StringsSplit(lexemes, k);
    NoneOfBoth(Strings(lexemes[..k]), Strings(lexemes[k + 1..]));
  }

  /** A group of path terms none of which covers the root does not accept the root. */
  lemma {:induction false} PathRule(lexemes: seq<Piece>, rule: Rule, request: Request)
    requires Spells(lexemes, rule) && SparesRoot(lexemes) && request.path == "/"
    ensures !Accepts(rule, request)
    decreases rule
  {
    match rule
    case Matcher(name, args) =>
      PathMatcher(lexemes, name, args, request);
    case Not(_) =>
      assert false;
    case Paren(r) =>
      SparesInside(lexemes);
      PathRule(lexemes[1..|lexemes| - 1], r, request);
    case And(_, _) =>
      assert false;
    case Or(l, r) =>
      var k := OrSplit(lexemes, l, r);
      SparesSides(lexemes, k);
      PathRule(lexemes[..k], l, request);
      PathRule(lexemes[k + 1..], r, request);
  }

  // ── The excluded part hangs on one host term ─────────────────────────────────────────────────

  function Group(terms: seq<(string, string)>): seq<Piece>
    requires terms != []
  {
    [LP] + Terms(terms) + [RP]
  }

  function Exclusion(terms: seq<(string, string)>): seq<Piece>
    requires terms != []
  {
    [AndOp] + ([NotOp] + Group(terms))
  }

  lemma TermShape(word: string, path: string)
    requires IsPathWord(word)
    ensures var term := TermLexemes(word, path); PathPieces(term) && Strings(term) == [path] && Balanced(term)
  {
    BalancedPlain([Str('`', path)]);
    BalancedInside([Str('`', path)]);
    BalancedPlain([Name(word)]);
    BalancedBoth([Name(word)], [LP] + [Str('`', path)] + [RP]);
    assert TermLexemes(word, path) == [Name(word)] + ([LP] + [Str('`', path)] + [RP]);
    TermStrings(word, path);
  }

  lemma {:induction false} TermsShape(terms: seq<(string, string)>)
    requires PathTerms(terms)
    ensures PathPieces(Terms(terms)) && Strings(Terms(terms)) == Paths(terms) && Balanced(Terms(terms))
  {
    hide Balanced, Strings, PathPieces;
    TermShape(terms[0].0, terms[0].1);
    if |terms| > 1 {
      TermsShape(terms[1..]);
      TermThenOthers(TermLexemes(terms[0].0, terms[0].1), Terms(terms[1..]));
    }
  }

  lemma TermThenOthers(term: seq<Piece>, others: seq<Piece>)
    requires PathPieces(term) && Balanced(term) && PathPieces(others) && Balanced(others)
    ensures PathPieces(term + [OrOp] + others) && Balanced(term + [OrOp] + others)
    ensures Strings(term + [OrOp] + others) == Strings(term) + Strings(others)
  {
    hide Balanced;
    BalancedPlain([OrOp]);
    BalancedBoth(term, [OrOp]);
    BalancedBoth(term + [OrOp], others);
    StringsOfBoth(term + [OrOp], others);
    StringsOfBoth(term, [OrOp]);
    assert Strings([OrOp]) == [];
  }

  lemma TermStrings(word: string, path: string)
    ensures Strings(TermLexemes(word, path)) == [path]
  {
    assert TermLexemes(word, path)[1..] == [LP, Str('`', path), RP];
    assert [LP, Str('`', path), RP][1..] == [Str('`', path), RP] && [Str('`', path), RP][1..] == [RP];
    assert Strings([RP]) == [] && Strings([Str('`', path), RP]) == [path];
  }

  /** Inside the exclusion, every `||` is under an open parenthesis. */
  lemma ExclusionDepth(terms: seq<(string, string)>)
    requires PathTerms(terms)
    ensures Depth(Exclusion(terms)) == 0
    ensures forall j | 0 <= j < |Exclusion(terms)| && Exclusion(terms)[j].OrOp? :: Depth(Exclusion(terms)[..j]) >= 1
    ensures forall j | 0 < j < |Exclusion(terms)| :: !Exclusion(terms)[j].AndOp?
  {
    TermsShape(terms);
    BalancedInside(Terms(terms));
    var before, group := [AndOp] + [NotOp], Group(terms);
    var all := Exclusion(terms);
    assert all == before + group;
    BalancedPlain(before);
    DepthOfBoth(before, group);
    forall j | 0 <= j < |all| && all[j].OrOp? ensures Depth(all[..j]) >= 1 {
      assert j >= 3;
      assert all[..j] == before + group[..j - 2];
      DepthOfBoth(before, group[..j - 2]);
    }
  }

  /** A suffix that starts inside an outer parenthesis closes more than it opens. */
  lemma EnclosedSuffix(lexemes: seq<Piece>, pre: seq<Piece>, tail: seq<Piece>)
    requires |lexemes| >= 2 && lexemes[0] == LP && lexemes[|lexemes| - 1] == RP && Balanced(lexemes[1..|lexemes| - 1])
    requires lexemes == pre + tail && tail != [] && tail[0] == AndOp
    ensures Depth(tail) < 0
  {
    var inner := lexemes[1..|lexemes| - 1];
    assert lexemes == [LP] + inner + [RP] && lexemes[..|pre|] == pre;
    BalancedInside(inner);
    DepthOfBoth(pre, tail);
  }

  lemma OrIsBefore(lexemes: seq<Piece>, pre: seq<Piece>, tail: seq<Piece>, k: nat)
    requires lexemes == pre + tail && k < |lexemes| && lexemes[k].OrOp? && Balanced(lexemes) && Depth(lexemes[..k]) == 0
    requires forall j | 0 <= j < |tail| && tail[j].OrOp? :: Depth(tail[..j]) >= 1
    ensures k < |pre| && pre[k].OrOp? && lexemes[..k] == pre[..k] && lexemes[k + 1..] == pre[k + 1..] + tail
  {
    assert lexemes[..|pre|] == pre;
    if k >= |pre| {
      var j := k - |pre|;
      assert tail[j] == lexemes[k];
      assert lexemes[..k] == pre + tail[..j];
      DepthOfBoth(pre, tail[..j]);
    }
  }

  lemma AndIsThere(lexemes: seq<Piece>, pre: seq<Piece>, tail: seq<Piece>, k: nat)
    requires lexemes == pre + tail && k < |lexemes| && lexemes[k].AndOp? && HostPieces(pre)
    requires forall j | 0 < j < |tail| :: !tail[j].AndOp?
    ensures k == |pre| && lexemes[..k] == pre && lexemes[k + 1..] == tail[1..]
  {
    if k < |pre| {
      assert false;
    } else {
      assert tail[k - |pre|] == lexemes[k];
    }
  }

  lemma ExclusionIsRightmost(lexemes: seq<Piece>, l: Rule, r: Rule, pre: seq<Piece>, terms: seq<(string, string)>)
    returns (k: nat)
    requires PathTerms(terms) && Spells(lexemes, Or(l, r)) && lexemes == pre + Exclusion(terms)
    ensures k < |pre| && pre[k] == OrOp && Spells(pre[..k], l) && Spells(pre[k + 1..] + Exclusion(terms), r)
  {
    k := OrSplit(lexemes, l, r);
    ExclusionDepth(terms);
    RuleBalanced(lexemes, Or(l, r));
    RuleBalanced(lexemes[..k], l);
    OrIsBefore(lexemes, pre, Exclusion(terms), k);
  }

  lemma UnaryShape(lexemes: seq<Piece>, rule: Rule)
    requires IsUnary(rule) && Spells(lexemes, rule) && lexemes != []
    ensures lexemes[0] == NotOp ==> rule.Not? && IsUnary(rule.rule) && Spells(lexemes[1..], rule.rule)
    ensures lexemes[0] == LP ==> rule.Paren? && |lexemes| >= 2 && Spells(lexemes[1..|lexemes| - 1], rule.rule)
  {
  }

  lemma AndSplit(lexemes: seq<Piece>, l: Rule, r: Rule) returns (k: nat)
    requires Spells(lexemes, And(l, r))
    ensures k < |lexemes| && lexemes[k] == AndOp && Spells(lexemes[..k], l) && Spells(lexemes[k + 1..], r)
  {
    k :| 0 <= k < |lexemes| && lexemes[k] == AndOp && Spells(lexemes[..k], l) && Spells(lexemes[k + 1..], r);
  }

  lemma NegatedGroup(terms: seq<(string, string)>, r: Rule)
    requires PathTerms(terms) && IsUnary(r) && Spells([NotOp] + Group(terms), r)
    ensures r.Not? && r.rule.Paren? && Spells(Terms(terms), r.rule.rule)
  {
    UnaryShape([NotOp] + Group(terms), r);
    assert ([NotOp] + Group(terms))[1..] == Group(terms);
    UnaryShape(Group(terms), r.rule);
    assert Group(terms)[1..|Group(terms)| - 1] == Terms(terms);
  }

  /** `&&` splits the term exactly where the check cut it. */
  lemma ExclusionIsAConjunct(lexemes: seq<Piece>, l: Rule, r: Rule, pre: seq<Piece>, terms: seq<(string, string)>)
    requires PathTerms(terms) && IsUnary(r) && Spells(lexemes, And(l, r)) && HostPieces(pre)
    requires lexemes == pre + Exclusion(terms)
    ensures Spells(pre, l) && r.Not? && r.rule.Paren? && Spells(Terms(terms), r.rule.rule)
  {
    var k := AndSplit(lexemes, l, r);
    ExclusionDepth(terms);
    AndIsThere(lexemes, pre, Exclusion(terms), k);
    assert Exclusion(terms)[1..] == [NotOp] + Group(terms);
    NegatedGroup(terms, r);
  }

  ghost predicate Guarded(lexemes: seq<Piece>, pre: seq<Piece>, terms: seq<(string, string)>) {
    HostPieces(pre) && PathTerms(terms) && NoneCoversRoot(Paths(terms)) && lexemes == pre + Exclusion(terms)
  }

  lemma MatcherPieces(lexemes: seq<Piece>, name: string, args: seq<string>)
    requires Spells(lexemes, Matcher(name, args))
    ensures forall i | 0 <= i < |lexemes| :: !lexemes[i].AndOp?
  {
    var inner := lexemes[2..|lexemes| - 1];
    ArgumentsPlain(inner, args);
    assert lexemes == [Name(name), LP] + inner + [RP];
  }

  lemma ConjunctionIsRule(rule: Rule)
    requires IsConjunction(rule)
    ensures IsRule(rule)
  {
  }

  lemma NoConjunctionInside(lexemes: seq<Piece>, rule: Rule, pre: seq<Piece>, terms: seq<(string, string)>)
    requires Spells(lexemes, rule) && Guarded(lexemes, pre, terms)
    ensures rule.And? || rule.Or?
  {
    var k := |pre|;
    assert lexemes[k] == AndOp;
    match rule
    case Matcher(name, args) =>
      MatcherPieces(lexemes, name, args);
      assert false;
    case Not(_) =>
      assert false;
    case Paren(r) =>
      RuleBalanced(lexemes[1..|lexemes| - 1], r);
      ExclusionDepth(terms);
      EnclosedSuffix(lexemes, pre, Exclusion(terms));
    case _ =>
  }

  lemma ExcludedConjunction(lexemes: seq<Piece>, l: Rule, r: Rule, pre: seq<Piece>, terms: seq<(string, string)>,
                            request: Request)
    requires IsUnary(r) && Spells(lexemes, And(l, r)) && Guarded(lexemes, pre, terms)
    requires request.path == "/" && Names(Strings(pre), request.host)
    ensures Accepts(l, request) && Accepts(r, request)
  {
    ExclusionIsAConjunct(lexemes, l, r, pre, terms);
    HostRule(pre, l, request);
    TermsShape(terms);
    PathRule(Terms(terms), r.rule.rule, request);
    assert !Accepts(r.rule, request);
  }

  /** A host the check keeps from a rule with a trailing exclusion accepts the root. */
  lemma {:induction false} ExcludedRule(lexemes: seq<Piece>, rule: Rule, pre: seq<Piece>, terms: seq<(string, string)>,
                                        request: Request)
    requires IsRule(rule) && Spells(lexemes, rule) && Guarded(lexemes, pre, terms)
    requires request.path == "/" && Names(Strings(pre), request.host)
    ensures Accepts(rule, request)
    decreases rule
  {
    NoConjunctionInside(lexemes, rule, pre, terms);
    if rule.And? {
      ExcludedConjunction(lexemes, rule.left, rule.right, pre, terms, request);
    } else {
      ExcludedDisjunction(lexemes, rule, pre, terms, request);
    }
  }

  lemma {:induction false} ExcludedDisjunction(lexemes: seq<Piece>, rule: Rule, pre: seq<Piece>,
                                               terms: seq<(string, string)>, request: Request)
    requires rule.Or? && IsRule(rule) && Spells(lexemes, rule) && Guarded(lexemes, pre, terms)
    requires request.path == "/" && Names(Strings(pre), request.host)
    ensures Accepts(rule.left, request) || Accepts(rule.right, request)
    decreases rule, 0
  {
    var k := ExclusionIsRightmost(lexemes, rule.left, rule.right, pre, terms);
    var a, b := pre[..k], pre[k + 1..];
    StringsSplit(pre, k);
    NamesOfBoth(Strings(a), Strings(b), request.host);
    if Names(Strings(a), request.host) {
      HostRule(a, rule.left, request);
    } else {
      assert Guarded(b + Exclusion(terms), b, terms);
      ConjunctionIsRule(rule.right);
      ExcludedRule(b + Exclusion(terms), rule.right, b, terms, request);
    }
  }

  lemma PlainRuleIsServed(ps: seq<Piece>, text: string, rule: Rule, request: Request)
    requires ValidPieces(ps) && PiecesText(ps) == text && Spells(Lexemes(ps), rule)
    requires IsHostOnly(text) && Names(Hosts(text), request.host)
    ensures Accepts(rule, request)
  {
    HostOnlyIsClean(WithoutHosts(text));
    assert text == text + "";
    var head, qs := HostOnlyPieces(ps, text, "");
    NoText(qs);
    assert Lexemes(ps) == head;
    HostRule(head, rule, request);
  }

  lemma GuardedRuleIsServed(ps: seq<Piece>, left: string, post: string, rule: Rule, request: Request)
    requires IsRule(rule) && ValidPieces(ps) && PiecesText(ps) == left + post && Spells(Lexemes(ps), rule)
    requires IsHostOnly(left) && Names(Hosts(left), request.host) && request.path == "/"
    requires ExcludedAt(post).Some? && NoneCoversRoot(ExcludedAt(post).value)
    ensures Accepts(rule, request)
  {
    hide Accepts, Spells, IsRule, ValidPieces, PiecesText, Names, Hosts, WithoutHosts, Lexemes;
    HostOnlyIsClean(WithoutHosts(left));
    assert post[0] == "&&"[0];
    var head, qs := HostOnlyPieces(ps, left, post);
    var terms := ExclusionPieces(qs);
    assert Exclusion(terms) == [AndOp] + ([NotOp] + ([LP] + (Terms(terms) + [RP]))) by {
      assert Group(terms) == [LP] + (Terms(terms) + [RP]);
    }
    ExcludedRule(Lexemes(ps), rule, head, terms, request);
  }

  /** What is left of a rule once a trailing exclusion is cut off. */
  function LeftOf(text: string): string {
    text[..ExclusionStart(text)]
  }

  lemma CutIsLeft(text: string)
    requires WithoutExcludedPaths(text).1
    ensures WithoutExcludedPaths(text).0 == LeftOf(text)
    ensures ExclusionStart(text) < |text| ==> NoneCoversRoot(ExcludedAt(text[ExclusionStart(text)..]).value)
  {
    assert text[..|text|] == text;
  }

  lemma InNames(hosts: seq<string>, host: string)
    requires host in hosts
    ensures Names(hosts, host)
  {
  }

  lemma LinkableCases(text: string, host: string)
    requires host in LinkableHosts(text)
    ensures IsHostOnly(LeftOf(text)) && Names(Hosts(LeftOf(text)), host)
    ensures ExclusionStart(text) < |text| ==> NoneCoversRoot(ExcludedAt(text[ExclusionStart(text)..]).value)
  {
    CutIsLeft(text);
    InNames(Hosts(LeftOf(text)), host);
  }

  /** Every host the check takes from a spelling of a well-formed rule is accepted by that rule on
      the path `/`, whatever the other matchers mean. */
  lemma LinkableHostsAreServed(text: string, rule: Rule, ps: seq<Piece>, host: string,
                               other: (string, seq<string>) -> bool)
    requires IsText(text, rule, ps) && host in LinkableHosts(text)
    ensures Accepts(rule, Request(host, "/", other))
  {
    hide Accepts, LinkableHosts, IsRule, ValidPieces, PiecesText, Spells, IsHostOnly, ExcludedAt;
    LinkableCases(text, host);
    var start := ExclusionStart(text);
    if start == |text| {
      assert LeftOf(text) == text;
      PlainRuleIsServed(ps, text, rule, Request(host, "/", other));
    } else {
      assert LeftOf(text) + text[start..] == text;
      GuardedRuleIsServed(ps, LeftOf(text), text[start..], rule, Request(host, "/", other));
    }
  }

  /** Every link `router_urls` offers for a well-formed rule is a scheme and a host that rule
      serves at its root. */
  lemma LinksOpen(text: string, rule: Rule, ps: seq<Piece>, entryPoints: seq<string>, lanDomain: string, url: Url,
                  other: (string, seq<string>) -> bool) returns (scheme: string, host: string)
    requires IsText(text, rule, ps) && url in RouterLinks(text, entryPoints, lanDomain)
    ensures Scheme(entryPoints) == Some(scheme) && url.href == scheme + "://" + host
    ensures host != "" && forall i | 0 <= i < |host| :: IsHostChar(host[i])
    ensures Accepts(rule, Request(host, "/", other))
  {
    var hosts := LinkableHosts(text);
    scheme := Scheme(entryPoints).value;
    UrlsAreTheHosts(hosts, scheme, lanDomain);
    host :| host in hosts && IsPlainHost(host) && url == UrlOf(host, scheme, lanDomain);
    PlainHostCharacters(host);
    LinkableHostsAreServed(text, rule, ps, host, other);
  }

  // ── The other direction: host rules are offered ──────────────────────────────────────────────

  datatype Part = HostTerm(host: string) | Bars | Open | Close | Blank(c: char)

  predicate ValidPart(part: Part) {
    match part
    case HostTerm(host) => host != "" && (forall i | 0 <= i < |host| :: IsHostChar(host[i]))
    case Blank(c) => IsBlank(c)
    case _ => true
  }

  function PartText(part: Part): string {
    match part
    case HostTerm(host) => TermText("Host", host, "")
    case Bars => "||"
    case Open => "("
    case Close => ")"
    case Blank(c) => [c]
  }

  function PartsText(parts: seq<Part>): string {
    if parts == [] then "" else PartText(parts[0]) + PartsText(parts[1..])
  }

  function HostsOf(parts: seq<Part>): seq<string> {
    if parts == [] then []
    else (if parts[0].HostTerm? then [parts[0].host] else []) + HostsOf(parts[1..])
  }

  /** The parts left when those of the given kinds are struck out. */
  function Separators(parts: seq<Part>, hosts: bool, bars: bool, opens: bool, closes: bool): seq<Part> {
    if parts == [] then []
    else
      var rest := Separators(parts[1..], hosts, bars, opens, closes);
      if (parts[0].HostTerm? && !hosts) || (parts[0].Bars? && !bars) || (parts[0].Open? && !opens)
          || (parts[0].Close? && !closes)
      then rest else [parts[0]] + rest
  }

  predicate Keeps(part: Part, hosts: bool, bars: bool, opens: bool, closes: bool) {
    && ValidPart(part)
    && (part.HostTerm? ==> hosts) && (part.Bars? ==> bars) && (part.Open? ==> opens) && (part.Close? ==> closes)
  }

  predicate AllKeep(parts: seq<Part>, hosts: bool, bars: bool, opens: bool, closes: bool) {
    parts == [] || (Keeps(parts[0], hosts, bars, opens, closes) && AllKeep(parts[1..], hosts, bars, opens, closes))
  }

  lemma QuoteEndIs(value: string, tail: string)
    requires '`' !in value
    ensures QuoteEnd(value + ("`)" + tail)) == Some((value, tail))
  {
    var s := value + ("`)" + tail);
    assert "`)" + tail == "`" + (")" + tail);
    UpToBacktick(value, ")" + tail);
    assert s[..|value|] == value && s[|value|..] == "`)" + tail && ("`)" + tail)[2..] == tail;
  }

  lemma QuotedTerm(word: string, value: string, tail: string)
    requires '`' !in value
    ensures QuotedAt(TermText(word, value, tail), word) == Some((value, tail))
  {
    hide QuoteEnd;
    TermTextRegroup(word, value, tail);
    var open, rest := word + "(`", value + ("`)" + tail);
    assert open <= open + rest && (open + rest)[|open|..] == rest;
    QuoteEndIs(value, tail);
  }

  lemma HostTermAt(host: string, tail: string)
    requires host != "" && forall i | 0 <= i < |host| :: IsHostChar(host[i])
    ensures HostAt(TermText("Host", host, "") + tail) == Some((host, tail))
  {
    TermTextThen("Host", host, "", tail);
    assert "" + tail == tail;
    QuotedTerm("Host", host, tail);
  }

  lemma SeparatorText(part: Part, rest: string)
    requires ValidPart(part) && !part.HostTerm?
    ensures Hosts(PartText(part) + rest) == Hosts(rest)
    ensures WithoutHosts(PartText(part) + rest) == PartText(part) + WithoutHosts(rest)
  {
    hide Hosts, WithoutHosts;
    if part.Bars? {
      PlainChar('|', "|" + rest);
      PlainChar('|', rest);
      assert PartText(part) + rest == "|" + ("|" + rest)
             && "|" + ("|" + WithoutHosts(rest)) == "||" + WithoutHosts(rest);
    } else {
      PlainChar(PartText(part)[0], rest);
    }
  }

  lemma PlainChar(c: char, rest: string)
    requires c != 'H'
    ensures Hosts([c] + rest) == Hosts(rest) && WithoutHosts([c] + rest) == [c] + WithoutHosts(rest)
  {
    NotHost([c] + rest);
    assert ([c] + rest)[1..] == rest;
  }

  lemma {:induction false} HostsOfParts(parts: seq<Part>)
    requires AllKeep(parts, true, true, true, true)
    ensures Hosts(PartsText(parts)) == HostsOf(parts)
    ensures WithoutHosts(PartsText(parts)) == PartsText(Separators(parts, false, true, true, true))
  {
    if parts != [] {
      var part, rest := parts[0], PartsText(parts[1..]);
      HostsOfParts(parts[1..]);
      if part.HostTerm? {
        HostTermAt(part.host, rest);
      } else {
        SeparatorText(part, rest);
        PartsTextCons(part, Separators(parts[1..], false, true, true, true));
      }
    }
  }

  lemma PartsTextCons(part: Part, parts: seq<Part>)
    ensures PartsText([part] + parts) == PartText(part) + PartsText(parts)
  {
    assert ([part] + parts)[1..] == parts;
  }

  lemma {:induction false} StrikeBars(parts: seq<Part>)
    requires AllKeep(parts, false, true, true, true)
    ensures Without(PartsText(parts), "||") == PartsText(Separators(parts, false, false, true, true))
  {
    if parts != [] {
      var rest := PartsText(parts[1..]);
      StrikeBars(parts[1..]);
      assert (PartText(parts[0]) + rest)[|PartText(parts[0])|..] == rest;
    }
  }

  lemma {:induction false} StrikeParentheses(parts: seq<Part>, token: string)
    requires token == "(" || token == ")"
    requires AllKeep(parts, false, false, token == "(", true)
    ensures Without(PartsText(parts), token) == PartsText(Separators(parts, false, false, token == ")", token == "("))
  {
    if parts != [] {
      var rest := PartsText(parts[1..]);
      StrikeParentheses(parts[1..], token);
      assert (PartText(parts[0]) + rest)[1..] == rest;
    }
  }

  lemma {:induction false} SeparatorsKeep(parts: seq<Part>, hosts: bool, bars: bool, opens: bool, closes: bool, h: bool,
                                          b: bool, o: bool, c: bool)
    requires AllKeep(parts, h, b, o, c)
    ensures AllKeep(Separators(parts, hosts, bars, opens, closes), h && hosts, b && bars, o && opens, c && closes)
  {
    if parts != [] {
      SeparatorsKeep(parts[1..], hosts, bars, opens, closes, h, b, o, c);
      var rest := Separators(parts[1..], hosts, bars, opens, closes);
      assert ([parts[0]] + rest)[1..] == rest;
    }
  }

  lemma {:induction false} BlanksText(parts: seq<Part>)
    requires AllKeep(parts, false, false, false, false)
    ensures AllSpace(PartsText(parts))
  {
    if parts != [] {
      BlanksText(parts[1..]);
    }
  }

  lemma ClosesStruck(parts: seq<Part>)
    requires AllKeep(parts, false, false, false, true)
    ensures AllSpace(Without(PartsText(parts), ")"))
  {
    StrikeParentheses(parts, ")");
    SeparatorsKeep(parts, false, false, true, false, false, false, false, true);
    BlanksText(Separators(parts, false, false, true, false));
  }

  lemma OpensStruck(parts: seq<Part>)
    requires AllKeep(parts, false, false, true, true)
    ensures AllSpace(Without(Without(PartsText(parts), "("), ")"))
  {
    StrikeParentheses(parts, "(");
    SeparatorsKeep(parts, false, false, false, true, false, false, true, true);
    ClosesStruck(Separators(parts, false, false, false, true));
  }

  lemma BarsStruck(parts: seq<Part>)
    requires AllKeep(parts, false, true, true, true)
    ensures AllSpace(Without(Without(Without(PartsText(parts), "||"), "("), ")"))
  {
    StrikeBars(parts);
    SeparatorsKeep(parts, false, false, true, true, false, true, true, true);
    OpensStruck(Separators(parts, false, false, true, true));
  }

  lemma PartsAreHostOnly(parts: seq<Part>)
    requires AllKeep(parts, true, true, true, true)
    ensures IsHostOnly(PartsText(parts))
  {
    HostsOfParts(parts);
    SeparatorsKeep(parts, false, true, true, true, true, true, true, true);
    BarsStruck(Separators(parts, false, true, true, true));
  }

  lemma {:induction false} NoExclusion(text: string)
    requires '&' !in text
    ensures ExclusionStart(text) == |text|
  {
    if text != "" {
      NoExclusion(text[1..]);
    }
  }

  lemma {:induction false} PartsHaveNoAmpersand(parts: seq<Part>)
    requires AllKeep(parts, true, true, true, true)
    ensures '&' !in PartsText(parts)
  {
    if parts != [] {
      PartsHaveNoAmpersand(parts[1..]);
      PartHasNoAmpersand(parts[0]);
    }
  }

  lemma PartHasNoAmpersand(part: Part)
    requires ValidPart(part)
    ensures '&' !in PartText(part)
  {
    if part.HostTerm? {
      assert '&' !in part.host;
      assert PartText(part) == "Host(`" + part.host + "`)";
    }
  }

  /** A rule of `Host` terms, bars, parentheses and blanks offers every host it names, in order. */
  lemma HostRulesAreOffered(parts: seq<Part>)
    requires AllKeep(parts, true, true, true, true)
    ensures LinkableHosts(PartsText(parts)) == HostsOf(parts)
  {
    PartsHaveNoAmpersand(parts);
    NoExclusion(PartsText(parts));
    PartsAreHostOnly(parts);
    HostsOfParts(parts);
  }

  // ── ... and so are those with a trailing exclusion ───────────────────────────────────────────

  /** One excluded path, and the blanks around its term. */
  datatype Excluded = Excluded(prefix: bool, path: string, before: string, after: string)

  predicate ValidExcluded(e: Excluded) {
    '`' !in e.path && AllSpace(e.before) && AllSpace(e.after)
  }

  /** The terms of a group, joined by bars, its closing parenthesis, and what follows it. */
  function GroupText(group: seq<Excluded>, end: string): string
    requires group != []
  {
    var e := group[0];
    e.before + TermText(if e.prefix then "PathPrefix" else "Path", e.path,
                        e.after + if |group| == 1 then ")" + end else "||" + GroupText(group[1..], end))
  }

  function ExcludedPaths(group: seq<Excluded>): (paths: seq<string>)
    ensures |paths| == |group| && forall i | 0 <= i < |paths| :: paths[i] == group[i].path
  {
    seq(|group|, i requires 0 <= i < |group| => group[i].path)
  }

  lemma PathTermAt(prefix: bool, path: string, tail: string)
    requires '`' !in path
    ensures TermAt(TermText(if prefix then "PathPrefix" else "Path", path, tail)) == Some((path, tail))
  {
    if prefix {
      QuotedTerm("PathPrefix", path, tail);
    } else {
      QuotedTerm("Path", path, tail);
      assert TermText("Path", path, tail)[4] == '(' && ("PathPrefix" + "(`")[4] == 'P';
    }
  }

  lemma EndIsSkipped(end: string)
    requires AllSpace(end)
    ensures SkipSpaces(end) == ""
  {
    SkipSpacesAfter(end, "");
    assert end + "" == end;
  }

  lemma {:induction false} GroupReads(group: seq<Excluded>, end: string)
    requires group != [] && AllSpace(end) && forall i | 0 <= i < |group| :: ValidExcluded(group[i])
    ensures GroupAt(SkipSpaces(GroupText(group, end))) == Some(ExcludedPaths(group))
  {
    hide TermAt, TermText, SkipSpaces;
    var e := group[0];
    assert ValidExcluded(e);
    var rest := if |group| == 1 then ")" + end else "||" + GroupText(group[1..], end);
    var term := TermText(if e.prefix then "PathPrefix" else "Path", e.path, e.after + rest);
    TermIsFound(e, rest);
    assert GroupText(group, end) == e.before + term;
    PathTermAt(e.prefix, e.path, e.after + rest);
    SkipSpacesAfter(e.after, rest);
    SkipOwn(rest);
    if |group| == 1 {
      EndIsSkipped(end);
      assert rest[1..] == end && rest[0] == ')';
      assert ExcludedPaths(group) == [e.path];
    } else {
      GroupReads(group[1..], end);
      assert rest[2..] == GroupText(group[1..], end);
      assert ExcludedPaths(group) == [e.path] + ExcludedPaths(group[1..]);
    }
  }

  lemma TermIsFound(e: Excluded, rest: string)
    requires ValidExcluded(e)
    ensures var term := TermText(if e.prefix then "PathPrefix" else "Path", e.path, e.after + rest);
            SkipSpaces(e.before + term) == term
  {
    var term := TermText(if e.prefix then "PathPrefix" else "Path", e.path, e.after + rest);
    assert term[0] == 'P';
    SkipSpacesAfter(e.before, term);
    SkipOwn(term);
  }

  function ExclusionText(blank: string, group: seq<Excluded>, end: string): string
    requires group != []
  {
    "&&" + (blank + ("!(" + GroupText(group, end)))
  }

  lemma ExclusionReads(blank: string, group: seq<Excluded>, end: string)
    requires group != [] && AllSpace(blank) && AllSpace(end) && forall i | 0 <= i < |group| :: ValidExcluded(group[i])
    ensures ExcludedAt(ExclusionText(blank, group, end)) == Some(ExcludedPaths(group))
  {
    hide GroupText, GroupAt, SkipSpaces;
    var rest := "!(" + GroupText(group, end);
    SkipSpacesAfter(blank, rest);
    SkipOwn(rest);
    assert ("&&" + (blank + rest))[2..] == blank + rest && rest[2..] == GroupText(group, end);
    GroupReads(group, end);
  }

  lemma {:induction false} ExclusionStartsThere(text: string, exclusion: string)
    requires '&' !in text && ExcludedAt(exclusion).Some?
    ensures ExclusionStart(text + exclusion) == |text|
  {
    hide ExcludedAt;
    if text == "" {
      assert text + exclusion == exclusion;
    } else {
      assert (text + exclusion)[1..] == text[1..] + exclusion && (text + exclusion)[0] != '&';
      ExcludedStartsWithAmpersand(text + exclusion);
      ExclusionStartsThere(text[1..], exclusion);
    }
  }

  lemma ExcludedStartsWithAmpersand(s: string)
    ensures ExcludedAt(s).Some? ==> s != "" && s[0] == '&'
  {
  }

  lemma PathsCoverRoot(group: seq<Excluded>)
    ensures NoneCoversRoot(ExcludedPaths(group)) <==> !exists i :: 0 <= i < |group| && CoversRoot(group[i].path)
  {
    hide CoversRoot;
    var paths := ExcludedPaths(group);
    assert forall i | 0 <= i < |paths| :: paths[i] == group[i].path;
  }

  /** Such a rule followed by `&& !(paths)`, however it is spaced, offers every host it names as well if
      none of the paths covers the root, and no host at all otherwise. */
  lemma ExcludedRulesAreOffered(parts: seq<Part>, blank: string, group: seq<Excluded>, end: string)
    requires AllKeep(parts, true, true, true, true)
    requires group != [] && AllSpace(blank) && AllSpace(end) && forall i | 0 <= i < |group| :: ValidExcluded(group[i])
    ensures LinkableHosts(PartsText(parts) + ExclusionText(blank, group, end))
            == if exists i :: 0 <= i < |group| && CoversRoot(group[i].path) then [] else HostsOf(parts)
  {
    hide ExcludedAt, CoversRoot, ExclusionText, IsHostOnly, Hosts;
    var text, exclusion := PartsText(parts), ExclusionText(blank, group, end);
    PartsHaveNoAmpersand(parts);
    ExclusionReads(blank, group, end);
    ExclusionStartsThere(text, exclusion);
    assert (text + exclusion)[|text|..] == exclusion && (text + exclusion)[..|text|] == text;
    assert exclusion != "" by { ExcludedStartsWithAmpersand(exclusion); }
    PathsCoverRoot(group);
    PartsAreHostOnly(parts);
    HostsOfParts(parts);
  }
}
