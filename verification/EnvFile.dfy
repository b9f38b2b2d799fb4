/**
 The dashboard's environment file: reading `KEY=value` lines the way `shlex.split` does, and
 rewriting only what changed.
 */
module EnvFile {
  import opened Texts
  import opened Wrappers

  datatype EnvError = NotAssignment | BadQuoting(key: string) | NotSingleLine

  type Env = map<string, string>

  /** Where `str.splitlines` ends a line. */
  predicate IsBreak(c: char) {
    || '\n' <= c <= '\r' || '\U{001C}' <= c <= '\U{001E}'
    || c == '\U{0085}' || c == '\U{2028}' || c == '\U{2029}'
  }

  predicate IsNameStart(c: char) {
    'A' <= c <= 'Z' || 'a' <= c <= 'z' || c == '_'
  }

  predicate IsNameChar(c: char) {
    IsNameStart(c) || '0' <= c <= '9'
  }

  predicate IsName(s: string) {
    s != "" && IsNameStart(s[0]) && forall c | c in s :: IsNameChar(c)
  }

  predicate OneLine(s: string) {
    forall i | 0 <= i < |s| :: !IsBreak(s[i])
  }

  // ── Lines ────────────────────────────────────────────────────────────────────────────────────

  /** A line and the terminator that ended it; only a last line may have none. */
  datatype Line = Line(body: string, end: string) {
    function Text(): string {
      body + end
    }
  }

  function FirstBreak(text: string): (k: nat)
    ensures k <= |text| && (k < |text| ==> IsBreak(text[k]))
  {
    if text == "" || IsBreak(text[0]) then 0 else 1 + FirstBreak(text[1..])
  }

  lemma {:induction false} BeforeBreak(text: string)
    ensures OneLine(text[..FirstBreak(text)])
  {
    if text != "" && !IsBreak(text[0]) {
      BeforeBreak(text[1..]);
      var k := FirstBreak(text[1..]);
      assert text[..k + 1] == [text[0]] + text[1..][..k];
    }
  }

  function BreakLength(text: string, k: nat): (n: nat)
    requires k < |text|
    ensures 0 < n <= |text| - k
  {
    if text[k] == '\r' && k + 1 < |text| && text[k + 1] == '\n' then 2 else 1
  }

  function Lines(text: string): seq<Line>
    decreases |text|
  {
    if text == "" then []
    else
      var k := FirstBreak(text);
      if k == |text| then [Line(text, "")]
      else
        var n := k + BreakLength(text, k);
        [Line(text[..k], text[k..n])] + Lines(text[n..])
  }

  function Bodies(lines: seq<Line>): seq<string> {
    if lines == [] then [] else [lines[0].body] + Bodies(lines[1..])
  }

  function Text(lines: seq<Line>): string {
    if lines == [] then "" else lines[0].Text() + Text(lines[1..])
  }

  lemma TextCons(line: Line, lines: seq<Line>)
    ensures Text([line] + lines) == line.Text() + Text(lines)
  {
  }

  lemma LineText(text: string, k: nat, n: nat)
    requires k <= n <= |text|
    ensures Line(text[..k], text[k..n]).Text() + text[n..] == text
  {
    assert text[..k] + text[k..n] == text[..n];
  }

  lemma {:induction false} LinesText(text: string)
    ensures Text(Lines(text)) == text
    decreases |text|
  {
    if text != "" {
      var k := FirstBreak(text);
      if k == |text| {
        TextCons(Line(text, ""), []);
        assert Lines(text) == [Line(text, "")] + [] && text + "" + "" == text;
      } else {
        var n := k + BreakLength(text, k);
        LinesText(text[n..]);
        TextCons(Line(text[..k], text[k..n]), Lines(text[n..]));
        LineText(text, k, n);
      }
    }
  }

  // ── Values ───────────────────────────────────────────────────────────────────────────────────

  /** The modes of `shlex` in POSIX mode: between words, in one, inside a quotation, or after a
      backslash met in a word (`None`) or in a quotation. */
  datatype Mode = Between | Word | Quotation(quote: char) | Escape(inside: Option<char>)

  /** What it has read: the token begun, whether any of it was quoted, and the words before it. */
  datatype Reader = Reader(mode: Mode, token: string, quoted: bool, words: seq<string>) {
    /** The words, the token begun included; an empty one only if it was quoted. */
    function Words(): seq<string> {
      if token != "" || quoted then words + [token] else words
    }

    function After(c: char): Reader {
      match mode
      case Quotation(q) =>
        if c == q then Reader(Word, token, true, words)
        else if c == '\\' && q == '"' then Reader(Escape(Some(q)), token, true, words)
        else Reader(mode, token + [c], true, words)
      case Escape(inside) =>
        var kept := if inside.Some? && c != '\\' && c != inside.value then "\\" else "";
        Reader(if inside.Some? then Quotation(inside.value) else Word, token + kept + [c], quoted, words)
      case _ =>
        if c == ' ' || c == '\t' || c == '\r' || c == '\n' then Reader(Between, "", false, Words())
        else if c == '"' || c == '\'' then Reader(Quotation(c), token, true, words)
        else if c == '\\' then Reader(Escape(None), token, quoted, words)
        else Reader(Word, token + [c], quoted, words)
    }
  }

  const FRESH := Reader(Between, "", false, [])

  /** None when the text ends inside a quotation or after a backslash. */
  function Shlex(s: string, r: Reader): Option<seq<string>> {
    if s != "" then Shlex(s[1..], r.After(s[0]))
    else if r.mode.Quotation? || r.mode.Escape? then None
    else Some(r.Words())
  }

  function JoinWords(words: seq<string>): string {
    if words == [] then "" else if |words| == 1 then words[0] else words[0] + " " + JoinWords(words[1..])
  }

  function Decode(value: string): Option<string> {
    var words := Shlex(value, FRESH);
    if words.None? then None else Some(JoinWords(words.value))
  }

  function Escaped(value: string): string {
    if value == "" then ""
    else (if value[0] == '\\' then "\\\\" else if value[0] == '"' then "\\\"" else [value[0]]) + Escaped(value[1..])
  }

  function Quote(value: string): string {
    "\"" + Escaped(value) + "\""
  }

  /** A newline, a carriage return or a NUL: what the writer itself refuses. */
  predicate Refused(value: string) {
    exists c :: c in value && c in {'\n', '\r', '\0'}
  }

  function Inside(token: string): Reader {
    Reader(Quotation('"'), token, true, [])
  }

  /** Inside double quotes, an escaped character reads as itself. */
  lemma ShlexOne(c: char, rest: string, token: string)
    ensures Shlex((if c == '\\' || c == '"' then ['\\', c] else [c]) + rest, Inside(token))
            == Shlex(rest, Inside(token + [c]))
  {
    if c == '\\' || c == '"' {
      var text := ['\\', c] + rest;
      assert text[1..] == [c] + rest && ([c] + rest)[1..] == rest;
      assert Inside(token).After('\\').After(c) == Inside(token + "" + [c]);
      assert token + "" + [c] == token + [c];
      assert Shlex(text, Inside(token)) == Shlex([c] + rest, Inside(token).After('\\'));
    } else {
      assert ([c] + rest)[1..] == rest;
    }
  }

  lemma {:induction false} ShlexEscaped(value: string, tail: string, token: string)
    ensures Shlex(Escaped(value) + tail, Inside(token)) == Shlex(tail, Inside(token + value))
  {
    hide Shlex;
    if value == "" {
      assert Escaped(value) + tail == tail && token + value == token;
    } else {
      var c, rest := value[0], Escaped(value[1..]) + tail;
      ShlexEscaped(value[1..], tail, token + [c]);
      assert token + [c] + value[1..] == token + value;
      ShlexOne(c, rest, token);
      assert Escaped(value) + tail == (if c == '\\' || c == '"' then ['\\', c] else [c]) + rest;
    }
  }

  /** The opening quote. */
  lemma ShlexOpens(rest: string)
    ensures Shlex("\"" + rest, FRESH) == Shlex(rest, Inside(""))
  {
    assert ("\"" + rest)[1..] == rest;
  }

  /** Quoting then decoding gives the value back, whatever it contains. */
  lemma QuoteDecodes(value: string)
    ensures Decode(Quote(value)) == Some(value)
  {
    ShlexEscaped(value, "\"", "");
    ShlexOpens(Escaped(value) + "\"");
    assert Quote(value) == "\"" + (Escaped(value) + "\"");
    assert "" + value == value;
    ShlexCloses(value);
  }

  lemma ShlexCloses(token: string)
    ensures Shlex("\"", Inside(token)) == Some([token])
  {
    var closed := Reader(Word, token, true, []);
    assert Inside(token).After('"') == closed && closed.Words() == [token];
    assert "\""[1..] == "" && Shlex("\"", Inside(token)) == Shlex("", closed);
  }

  lemma CutQuoteFails(value: string)
    ensures Decode("\"" + Escaped(value)) == None
  {
    ShlexEscaped(value, "", "");
    ShlexOpens(Escaped(value));
    assert Escaped(value) + "" == Escaped(value);
  }

  // ── Reading ──────────────────────────────────────────────────────────────────────────────────

  function Spaces(s: string): (n: nat)
    ensures n <= |s| && (n < |s| ==> !IsSpace(s[n]))
  {
    if s == "" || !IsSpace(s[0]) then 0 else 1 + Spaces(s[1..])
  }

  function NameLength(s: string): (n: nat)
    ensures n <= |s|
  {
    if s == "" || !IsNameChar(s[0]) then 0 else 1 + NameLength(s[1..])
  }

  /** `^\s*([A-Za-z_][A-Za-z0-9_]*)=(.*)$`, on text without a newline. */
  function Assignment(line: string): Option<(string, string)> {
    var s := line[Spaces(line)..];
    var n := NameLength(s);
    if 0 < n < |s| && IsNameStart(s[0]) && s[n] == '=' then Some((s[..n], s[n + 1..])) else None
  }

  predicate BlankOrComment(line: string) {
    var s := line[Spaces(line)..];
    s == "" || s[0] == '#' || s[0] == ';'
  }

  function Step(env: Env, line: string): Result<Env, EnvError> {
    if BlankOrComment(line) then Ok(env)
    else
      match Assignment(line)
      case None => Err(NotAssignment)
      case Some((key, value)) =>
        var decoded := Decode(value);
        if decoded.None? then Err(BadQuoting(key)) else Ok(env[key := decoded.value])
  }

  function ParseBodies(bodies: seq<string>, env: Env): Result<Env, EnvError> {
    if bodies == [] then Ok(env)
    else
      match Step(env, bodies[0])
      case Err(e) => Err(e)
      case Ok(env') => ParseBodies(bodies[1..], env')
  }

  function Parse(text: string): Result<Env, EnvError> {
    ParseBodies(Bodies(Lines(text)), map[])
  }

  lemma ParseNext(lines: seq<Line>, i: nat, env: Env)
    requires i < |lines|
    ensures ParseBodies(Bodies(lines[i..]), env) == Then(Step(env, lines[i].body), Bodies(lines[i + 1..]))
  {
    hide Step;
    BodiesCons(lines[i], lines[i + 1..]);
    TailFrom(lines, i);
    ParseFirst(lines[i].body, Bodies(lines[i + 1..]), env);
  }

  lemma TailFrom(lines: seq<Line>, i: nat)
    requires i < |lines|
    ensures lines[i..] == [lines[i]] + lines[i + 1..]
  {
  }

  lemma ParseEnds(lines: seq<Line>, env: Env)
    ensures lines[0..] == lines && ParseBodies(Bodies(lines[|lines|..]), env) == Ok(env)
  {
  }

  method ParseEnv(text: string) returns (r: Result<Env, EnvError>)
    ensures r == Parse(text)
  {
    hide Lines, Bodies, ParseBodies, Assignment, BlankOrComment, Shlex;
    var values: Env := map[];
    var lines := Lines(text);
    var i := 0;
    ParseEnds(lines, values);
    while i < |lines|
      invariant i <= |lines|
      invariant ParseBodies(Bodies(lines[i..]), values) == Parse(text)
    {
      ParseNext(lines, i, values);
      var line := lines[i].body;
      if !BlankOrComment(line) {
        var found := Assignment(line);
        if found.None? {
          return Err(NotAssignment);
        }
        var words := Shlex(found.value.1, FRESH);
        if words.None? {
          return Err(BadQuoting(found.value.0));
        }
        values := values[found.value.0 := JoinWords(words.value)];
      }
      i := i + 1;
    }
    ParseEnds(lines, values);
    return Ok(values);
  }

  // ── Writing ──────────────────────────────────────────────────────────────────────────────────

  /** A dictionary with the order its keys are iterated in. */
  datatype Values = Values(order: seq<string>, at: Env)

  ghost predicate ValidValues(values: Values) {
    && (forall k :: k in values.order <==> k in values.at)
    && (forall i, j | 0 <= i < j < |values.order| :: values.order[i] != values.order[j])
  }

  function NewLine(key: string, value: string): Line {
    Line(key + "=" + Quote(value), "\n")
  }

  /** The lines that replace one line of the file: itself, nothing, or its new assignment. */
  function Rewritten(line: Line, original: Env, values: Env): seq<Line> {
    match Assignment(line.body)
    case None => [line]
    case Some((key, _)) =>
      if key !in values then []
      else if key in original && original[key] == values[key] then [line]
      else [NewLine(key, values[key])]
  }

  function RewrittenAll(lines: seq<Line>, original: Env, values: Env): seq<Line> {
    if lines == [] then [] else Rewritten(lines[0], original, values) + RewrittenAll(lines[1..], original, values)
  }

  /** The assignments appended for keys the file does not have. */
  function Added(order: seq<string>, original: Env, values: Env): seq<Line> {
    if order == [] then []
    else (if order[0] in values && order[0] !in original then [NewLine(order[0], values[order[0]])] else [])
         + Added(order[1..], original, values)
  }

  /** A last line without a final newline gets one before anything follows it. */
  function Closed(lines: seq<Line>): (closed: seq<Line>)
    ensures |closed| == |lines| && forall i | 0 <= i < |lines| :: closed[i].body == lines[i].body
  {
    if lines == [] then []
    else
      var last := lines[|lines| - 1];
      if last.Text() != "" && last.Text()[|last.Text()| - 1] == '\n' then lines
      else lines[..|lines| - 1] + [last.(end := last.end + "\n")]
  }

  /** The old lines, ended, and what is appended to them. */
  function Finished(lines: seq<Line>, added: seq<Line>): seq<Line> {
    if added == [] then lines else Closed(lines) + added
  }

  function Rendered(text: string, original: Env, values: Values): seq<Line> {
    Finished(RewrittenAll(Lines(text), original, values.at), Added(values.order, original, values.at))
  }

  /** The keys whose assignment is written anew: those the file lacks or holds differently. */
  predicate IsWritten(key: string, original: Env, values: Env) {
    key in values && !(key in original && original[key] == values[key])
  }

  function Render(text: string, values: Values): Result<string, EnvError> {
    match Parse(text)
    case Err(e) => Err(e)
    case Ok(original) =>
      if exists key :: key in values.at && IsWritten(key, original, values.at) && Refused(values.at[key])
      then Err(NotSingleLine)
      else Ok(Text(Rendered(text, original, values)))
  }

  // ── Reading back lines that were put together ────────────────────────────────────────────────

  function Then(r: Result<Env, EnvError>, bodies: seq<string>): Result<Env, EnvError> {
    match r
    case Err(e) => Err(e)
    case Ok(env) => ParseBodies(bodies, env)
  }

  function ParseFrom(text: string, env: Env): Result<Env, EnvError> {
    ParseBodies(Bodies(Lines(text)), env)
  }

  lemma {:induction false} FirstBreakIs(text: string, k: nat)
    requires k <= |text| && OneLine(text[..k]) && (k < |text| ==> IsBreak(text[k]))
    ensures FirstBreak(text) == k
  {
    if k > 0 {
      assert text[0] == text[..k][0] && text[0] in text[..k];
      assert text[1..][..k - 1] == text[..k][1..];
      FirstBreakIs(text[1..], k - 1);
    }
  }

  lemma BlankStep(env: Env)
    ensures Step(env, "") == Ok(env)
  {
  }

  lemma LinesAfterBreak(text: string, k: nat)
    requires k < |text| && OneLine(text[..k]) && IsBreak(text[k])
    ensures Bodies(Lines(text)) == [text[..k]] + Bodies(Lines(text[k + BreakLength(text, k)..]))
  {
    FirstBreakIs(text, k);
    var n := k + BreakLength(text, k);
    BodiesCons(Line(text[..k], text[k..n]), Lines(text[n..]));
  }

  lemma BodiesCons(line: Line, lines: seq<Line>)
    ensures Bodies([line] + lines) == [line.body] + Bodies(lines)
  {
    assert ([line] + lines)[1..] == lines;
  }

  lemma ParseFirst(body: string, bodies: seq<string>, env: Env)
    ensures ParseBodies([body] + bodies, env) == Then(Step(env, body), bodies)
  {
    assert ([body] + bodies)[1..] == bodies;
  }

  /** A break ends a line whatever follows it; a carriage return and a newline end it together,
      which a reader cannot tell from a blank line. */
  lemma ParseAfterBreak(body: string, c: char, rest: string, env: Env)
    requires OneLine(body) && IsBreak(c)
    ensures ParseFrom(body + [c] + rest, env) == Then(Step(env, body), Bodies(Lines(rest)))
  {
    hide Step, Lines, Bodies, ParseBodies, OneLine, IsBreak;
    var text := body + [c] + rest;
    assert text[..|body|] == body && text[|body|] == c;
    LinesAfterBreak(text, |body|);
    if BreakLength(text, |body|) == 1 {
      assert text[|body| + 1..] == rest;
      ParseFirst(body, Bodies(Lines(rest)), env);
    } else {
      assert rest[0] == text[|body| + 1] == '\n' && text[|body| + 2..] == rest[1..];
      ParseFirst(body, Bodies(Lines(rest[1..])), env);
      SkipBlank(Step(env, body), rest);
    }
  }

  /** The newline after a carriage return reads as a blank line. */
  lemma SkipBlank(r: Result<Env, EnvError>, rest: string)
    requires rest != "" && rest[0] == '\n'
    ensures Then(r, Bodies(Lines(rest))) == Then(r, Bodies(Lines(rest[1..])))
  {
    hide Step, Lines, ParseBodies;
    LinesAfterBreak(rest, 0);
    assert BreakLength(rest, 0) == 1 && rest[..0] == "";
    if r.Ok? {
      ParseFirst("", Bodies(Lines(rest[1..])), r.value);
      BlankStep(r.value);
    }
  }

  lemma {:induction false} ParseAfterBreaks(body: string, breaks: string, rest: string, env: Env)
    requires OneLine(body) && breaks != "" && forall c | c in breaks :: IsBreak(c)
    ensures ParseFrom(body + breaks + rest, env) == Then(Step(env, body), Bodies(Lines(rest)))
    decreases |breaks|
  {
    hide Step, Lines, Bodies, ParseBodies, IsBreak;
    var tail := breaks[1..] + rest;
    assert body + breaks + rest == body + [breaks[0]] + tail;
    ParseAfterBreak(body, breaks[0], tail, env);
    if |breaks| == 1 {
      assert tail == rest;
    } else if Step(env, body).Ok? {
      assert tail == "" + breaks[1..] + rest;
      ParseAfterBreaks("", breaks[1..], rest, Step(env, body).value);
      BlankStep(Step(env, body).value);
    }
  }

  /** Every line but perhaps the last is ended by breaks. */
  ghost predicate WellEnded(lines: seq<Line>) {
    forall i | 0 <= i < |lines| ::
      && OneLine(lines[i].body)
      && (forall c | c in lines[i].end :: IsBreak(c))
      && (lines[i].end == "" ==> i == |lines| - 1)
  }

  lemma {:induction false} ParseOfText(lines: seq<Line>, env: Env)
    requires WellEnded(lines)
    ensures ParseFrom(Text(lines), env) == ParseBodies(Bodies(lines), env)
  {
    if lines != [] {
      var line := lines[0];
      if line.end == "" {
        assert Text(lines) == line.body;
        LoneLine(line.body, env);
      } else {
        assert Text(lines) == line.body + line.end + Text(lines[1..]);
        ParseAfterBreaks(line.body, line.end, Text(lines[1..]), env);
        if Step(env, line.body).Ok? {
          ParseOfText(lines[1..], Step(env, line.body).value);
        }
      }
    }
  }

  lemma LoneLine(body: string, env: Env)
    requires OneLine(body)
    ensures ParseFrom(body, env) == Step(env, body)
  {
    if body == "" {
      BlankStep(env);
    } else {
      assert body[..|body|] == body;
      FirstBreakIs(body, |body|);
      assert Lines(body) == [Line(body, "")];
      ParseFirst(body, [], env);
      assert Bodies(Lines(body)) == [body] + [];
    }
  }

  lemma OneWellEnded(text: string)
    requires FirstBreak(text) == |text|
    ensures WellEnded([Line(text, "")])
  {
    BeforeBreak(text);
    assert text[..|text|] == text;
  }

  lemma BreakIsBreaks(text: string, k: nat)
    requires k < |text| && IsBreak(text[k])
    ensures forall c | c in text[k..k + BreakLength(text, k)] :: IsBreak(c)
  {
  }

  lemma {:induction false} LinesWellEnded(text: string)
    ensures WellEnded(Lines(text))
    decreases |text|
  {
    hide WellEnded, OneLine;
    if text == "" {
      NoneWellEnded();
    } else {
      BeforeBreak(text);
      var k := FirstBreak(text);
      if k == |text| {
        OneWellEnded(text);
      } else {
        var n := k + BreakLength(text, k);
        LinesWellEnded(text[n..]);
        BreakIsBreaks(text, k);
        WellEndedCons(Line(text[..k], text[k..n]), Lines(text[n..]));
      }
    }
  }

  lemma NoneWellEnded()
    ensures WellEnded([])
  {
  }

  lemma WellEndedCons(line: Line, lines: seq<Line>)
    requires OneLine(line.body) && line.end != "" && (forall c | c in line.end :: IsBreak(c)) && WellEnded(lines)
    ensures WellEnded([line] + lines)
  {
  }

  // ── What one line reads back as ──────────────────────────────────────────────────────────────

  lemma {:induction false} NameLengthOf(name: string, tail: string)
    requires (forall c | c in name :: IsNameChar(c)) && tail != "" && !IsNameChar(tail[0])
    ensures NameLength(name + tail) == |name|
  {
    if name == "" {
      assert name + tail == tail;
    } else {
      assert (name + tail)[1..] == name[1..] + tail;
      NameLengthOf(name[1..], tail);
    }
  }

  lemma AssignmentOf(key: string, value: string)
    requires IsName(key)
    ensures Assignment(key + "=" + value) == Some((key, value))
    ensures !BlankOrComment(key + "=" + value)
  {
    var line := key + "=" + value;
    assert IsNameStart(line[0]);
    assert Spaces(line) == 0 && line[0..] == line;
    assert line == key + ("=" + value);
    NameLengthOf(key, "=" + value);
  }

  lemma StepNewLine(env: Env, key: string, value: string)
    requires IsName(key)
    ensures Step(env, NewLine(key, value).body) == Ok(env[key := value])
  {
    AssignmentOf(key, Quote(value));
    QuoteDecodes(value);
  }

  lemma CommentIsNoAssignment(line: string)
    requires BlankOrComment(line)
    ensures Assignment(line) == None
  {
  }

  lemma {:induction false} NameLengthIsName(s: string)
    ensures forall c | c in s[..NameLength(s)] :: IsNameChar(c)
  {
    if NameLength(s) > 0 {
      NameLengthIsName(s[1..]);
      assert s[..NameLength(s)] == [s[0]] + s[1..][..NameLength(s[1..])];
    }
  }

  lemma AssignedIsName(line: string)
    requires Assignment(line).Some?
    ensures IsName(Assignment(line).value.0)
  {
    NameLengthIsName(line[Spaces(line)..]);
  }

  lemma {:induction false} ParsedKeys(bodies: seq<string>, env: Env)
    requires ParseBodies(bodies, env).Ok? && forall k | k in env :: IsName(k)
    ensures env.Keys <= ParseBodies(bodies, env).value.Keys
    ensures forall k | k in ParseBodies(bodies, env).value :: IsName(k)
  {
    if bodies != [] {
      if Assignment(bodies[0]).Some? {
        AssignedIsName(bodies[0]);
      }
      ParsedKeys(bodies[1..], Step(env, bodies[0]).value);
    }
  }

  lemma {:induction false} BodiesOfBoth(a: seq<Line>, b: seq<Line>)
    ensures Bodies(a + b) == Bodies(a) + Bodies(b)
  {
    if a == [] {
      assert a + b == b;
    } else {
      assert (a + b)[1..] == a[1..] + b;
      BodiesOfBoth(a[1..], b);
    }
  }

  lemma {:induction false} ParseBoth(a: seq<string>, b: seq<string>, env: Env)
    ensures ParseBodies(a + b, env) == Then(ParseBodies(a, env), b)
  {
    if a == [] {
      assert a + b == b;
    } else {
      assert (a + b)[1..] == a[1..] + b;
      if Step(env, a[0]).Ok? {
        ParseBoth(a[1..], b, Step(env, a[0]).value);
      }
    }
  }

  // ── The rewritten file reads as the new values ───────────────────────────────────────────────

  predicate Writable(original: Env, values: Env) {
    forall key | key in values && IsWritten(key, original, values) :: IsName(key)
  }

  /** The new file's reader, in step with the old file's: same keys among those kept, and each
      holds the old value if it is to stay and the new one otherwise. */
  ghost predicate InStep(env: Env, env': Env, original: Env, values: Env) {
    && (forall k :: k in env' <==> k in env && k in values)
    && (forall k | k in env' :: env'[k] == if IsWritten(k, original, values) then values[k] else env[k])
  }

  lemma {:induction false} RewrittenReads(lines: seq<Line>, env: Env, env': Env, original: Env, values: Env)
    requires ParseBodies(Bodies(lines), env) == Ok(original) && InStep(env, env', original, values)
    requires forall k | k in env :: IsName(k)
    ensures ParseBodies(Bodies(RewrittenAll(lines, original, values)), env').Ok?
    ensures InStep(original, ParseBodies(Bodies(RewrittenAll(lines, original, values)), env').value, original, values)
  {
    if lines != [] {
      var line, body := lines[0], lines[0].body;
      var next := Step(env, body).value;
      assert Bodies(lines)[1..] == Bodies(lines[1..]);
      var first := Rewritten(line, original, values);
      var others := RewrittenAll(lines[1..], original, values);
      BodiesOfBoth(first, others);
      ParseBoth(Bodies(first), Bodies(others), env');
      var next' := OneRewritten(line, env, env', original, values, Bodies(lines[1..]));
      RewrittenReads(lines[1..], next, next', original, values);
    }
  }

  lemma ParseOne(line: Line, env: Env)
    ensures ParseBodies(Bodies([line]), env) == Step(env, line.body)
  {
    ParseFirst(line.body, [], env);
    assert Bodies([line]) == [line.body] + [];
  }

  lemma StepPuts(env: Env, line: string, key: string)
    requires Step(env, line).Ok? && Assignment(line).Some? && key == Assignment(line).value.0
    ensures key in Step(env, line).value && Step(env, line).value == env[key := Step(env, line).value[key]]
    ensures forall other: Env :: Step(other, line) == Ok(other[key := Step(env, line).value[key]])
  {
    assert !BlankOrComment(line) by {
      if BlankOrComment(line) {
        CommentIsNoAssignment(line);
      }
    }
  }

  function PutInStep(env': Env, original: Env, values: Env, key: string, value: string): Env {
    if key !in values then env'
    else env'[key := if IsWritten(key, original, values) then values[key] else value]
  }

  lemma StaysInStep(env: Env, env': Env, original: Env, values: Env, key: string, value: string)
    requires InStep(env, env', original, values)
    ensures InStep(env[key := value], PutInStep(env', original, values, key, value), original, values)
  {
  }

  lemma OneRewritten(line: Line, env: Env, env': Env, original: Env, values: Env, after: seq<string>)
    returns (next': Env)
    requires Step(env, line.body).Ok? && ParseBodies(after, Step(env, line.body).value) == Ok(original)
    requires InStep(env, env', original, values)
    requires forall k | k in env :: IsName(k)
    ensures ParseBodies(Bodies(Rewritten(line, original, values)), env') == Ok(next')
    ensures InStep(Step(env, line.body).value, next', original, values)
    ensures forall k | k in Step(env, line.body).value :: IsName(k)
  {
    var body := line.body;
    if Assignment(body).None? {
      ParseOne(line, env');
      next' := env';
    } else {
      AssignedIsName(body);
      var key := Assignment(body).value.0;
      StepPuts(env, body, key);
      var value := Step(env, body).value[key];
      StaysInStep(env, env', original, values, key, value);
      next' := PutInStep(env', original, values, key, value);
      ParsedKeys(after, Step(env, body).value);
      if key in values {
        if IsWritten(key, original, values) {
          StepNewLine(env', key, values[key]);
          ParseOne(NewLine(key, values[key]), env');
        } else {
          ParseOne(line, env');
        }
      }
    }
  }

  predicate IsAdded(key: string, original: Env, values: Env) {
    key in values && key !in original
  }

  lemma NothingToParse(env: Env)
    ensures ParseBodies(Bodies([]), env) == Ok(env)
  {
  }

  lemma {:induction false} AddedReads(order: seq<string>, env: Env, original: Env, values: Env) returns (env': Env)
    requires Writable(original, values)
    ensures ParseBodies(Bodies(Added(order, original, values)), env) == Ok(env')
    ensures forall k :: k in env' <==> k in env || (k in order && IsAdded(k, original, values))
    ensures forall k | k in env' :: env'[k] == if k in order && IsAdded(k, original, values) then values[k] else env[k]
  {
    hide Step, ParseBodies, Bodies, NewLine;
    if order == [] {
      NothingToParse(env);
      env' := env;
    } else {
      var key := order[0];
      var rest := Added(order[1..], original, values);
      assert forall k :: k in order <==> k == key || k in order[1..];
      if IsAdded(key, original, values) {
        StepNewLine(env, key, values[key]);
        BodiesCons(NewLine(key, values[key]), rest);
        ParseFirst(NewLine(key, values[key]).body, Bodies(rest), env);
        env' := AddedReads(order[1..], env[key := values[key]], original, values);
      } else {
        assert [] + rest == rest;
        env' := AddedReads(order[1..], env, original, values);
      }
    }
  }

  lemma ClosedBodies(lines: seq<Line>)
    ensures Bodies(Closed(lines)) == Bodies(lines)
  {
    if lines != [] {
      var front, last := lines[..|lines| - 1], lines[|lines| - 1];
      BodiesOfBoth(front, [last]);
      BodiesOfBoth(front, [last.(end := last.end + "\n")]);
      assert lines == front + [last];
    }
  }

  lemma KeptAndAdded(env: Env, env': Env, original: Env, values: Values)
    requires ValidValues(values) && InStep(original, env, original, values.at)
    requires forall k :: k in env' <==> k in env || (k in values.order && IsAdded(k, original, values.at))
    requires forall k | k in env' ::
               env'[k] == if k in values.order && IsAdded(k, original, values.at) then values.at[k] else env[k]
    ensures env' == values.at
  {
  }

  lemma RenderedBodies(text: string, original: Env, values: Values)
    ensures Bodies(Rendered(text, original, values))
         == Bodies(RewrittenAll(Lines(text), original, values.at)) + Bodies(Added(values.order, original, values.at))
  {
    var kept := RewrittenAll(Lines(text), original, values.at);
    ClosedBodies(kept);
    BodiesOfBoth(Closed(kept), Added(values.order, original, values.at));
  }

  /** Line by line, the new file reads as exactly the new values. */
  lemma RenderedBodiesRead(text: string, original: Env, values: Values)
    requires Parse(text) == Ok(original) && ValidValues(values) && Writable(original, values.at)
    ensures ParseBodies(Bodies(Rendered(text, original, values)), map[]) == Ok(values.at)
  {
    var kept := RewrittenAll(Lines(text), original, values.at);
    RewrittenReads(Lines(text), map[], map[], original, values.at);
    var env := ParseBodies(Bodies(kept), map[]).value;
    var env' := AddedReads(values.order, env, original, values.at);
    KeptAndAdded(env, env', original, values);
    RenderedBodies(text, original, values);
    ParseBoth(Bodies(kept), Bodies(Added(values.order, original, values.at)), map[]);
  }

  // ── The text of the rewritten file ───────────────────────────────────────────────────────────

  /** A value the file can hold: on one line for every reader, and free of NUL. */
  predicate Storable(value: string) {
    OneLine(value) && '\0' !in value
  }

  ghost predicate EndsRight(lines: seq<Line>) {
    forall i | 0 <= i < |lines| ::
      (forall c | c in lines[i].end :: IsBreak(c)) && (lines[i].end == "" ==> i == |lines| - 1)
  }

  /** A line taken over from a file, or a written assignment. */
  ghost predicate Known(line: Line, original: Env, values: Env) {
    OneLine(line.body) || exists key :: IsWritten(key, original, values) && line.body == NewLine(key, values[key]).body
  }

  ghost predicate AllKnown(lines: seq<Line>, original: Env, values: Env) {
    forall i | 0 <= i < |lines| :: Known(lines[i], original, values)
  }

  ghost predicate OpenIsOneLine(lines: seq<Line>) {
    forall i | 0 <= i < |lines| && lines[i].end == "" :: OneLine(lines[i].body)
  }

  lemma OneRewrittenShape(line: Line, original: Env, values: Env)
    requires OneLine(line.body)
    ensures var first := Rewritten(line, original, values);
            && |first| <= 1 && AllKnown(first, original, values)
            && (first == [] || first[0] == line || first[0].end == "\n")
  {
    hide OneLine, NewLine;
    var first := Rewritten(line, original, values);
    if first != [] && first[0] != line {
      var key := Assignment(line.body).value.0;
      assert IsWritten(key, original, values) && first[0] == NewLine(key, values[key]);
      NewLineEnds(key, values[key]);
    }
  }

  lemma ShapeOfBoth(a: seq<Line>, b: seq<Line>, original: Env, values: Env)
    requires EndsRight(a) && EndsRight(b) && AllKnown(a, original, values) && AllKnown(b, original, values)
    requires OpenIsOneLine(a) && OpenIsOneLine(b)
    requires b == [] || forall i | 0 <= i < |a| :: a[i].end != ""
    ensures EndsRight(a + b) && AllKnown(a + b, original, values) && OpenIsOneLine(a + b)
  {
    hide OneLine, Known;
  }

  lemma {:induction false} RewrittenShape(lines: seq<Line>, original: Env, values: Env)
    requires WellEnded(lines)
    ensures EndsRight(RewrittenAll(lines, original, values))
            && AllKnown(RewrittenAll(lines, original, values), original, values)
    ensures OpenIsOneLine(RewrittenAll(lines, original, values))
    ensures |lines| == 0 ==> RewrittenAll(lines, original, values) == []
  {
    hide OneLine, Known, Rewritten;
    if lines != [] {
      var first := Rewritten(lines[0], original, values);
      RewrittenShape(lines[1..], original, values);
      OneRewrittenShape(lines[0], original, values);
      ShapeOfBoth(first, RewrittenAll(lines[1..], original, values), original, values);
    }
  }

  lemma {:induction false} AddedShape(order: seq<string>, original: Env, values: Env)
    ensures var added := Added(order, original, values);
            EndsRight(added) && AllKnown(added, original, values) && forall i | 0 <= i < |added| :: added[i].end != ""
  {
    if order != [] {
      AddedShape(order[1..], original, values);
      if IsAdded(order[0], original, values) {
        assert IsWritten(order[0], original, values);
      }
    }
  }

  lemma ClosedShape(lines: seq<Line>, original: Env, values: Env)
    requires EndsRight(lines) && AllKnown(lines, original, values) && OpenIsOneLine(lines)
    ensures AllKnown(Closed(lines), original, values)
    ensures forall i | 0 <= i < |Closed(lines)| ::
              Closed(lines)[i].end != "" && forall c | c in Closed(lines)[i].end :: IsBreak(c)
  {
    if lines != [] {
      var last := lines[|lines| - 1];
      if last.end == "" {
        assert last.Text() == last.body;
        assert last.body != "" ==> last.body[|last.body| - 1] in last.body;
      }
      forall i | 0 <= i < |lines| ensures Known(Closed(lines)[i], original, values) {
        assert Closed(lines)[i].body == lines[i].body && Known(lines[i], original, values);
      }
    }
  }

  lemma RenderedShape(text: string, original: Env, values: Values)
    ensures EndsRight(Rendered(text, original, values))
            && AllKnown(Rendered(text, original, values), original, values.at)
  {
    var kept := RewrittenAll(Lines(text), original, values.at);
    LinesWellEnded(text);
    RewrittenShape(Lines(text), original, values.at);
    AddedShape(values.order, original, values.at);
    ClosedShape(kept, original, values.at);
  }

  lemma {:induction false} EscapedOneLine(value: string)
    requires OneLine(value)
    ensures OneLine(Escaped(value))
  {
    if value != "" {
      EscapedOneLine(value[1..]);
    }
  }

  lemma OneLineBoth(a: string, b: string)
    requires OneLine(a) && OneLine(b)
    ensures OneLine(a + b)
  {
  }

  lemma NameIsOneLine(key: string)
    requires IsName(key)
    ensures OneLine(key)
  {
    assert forall i | 0 <= i < |key| :: key[i] in key && IsNameChar(key[i]);
  }

  lemma NewLineOneLine(key: string, value: string)
    requires IsName(key) && OneLine(value)
    ensures OneLine(NewLine(key, value).body)
  {
    EscapedOneLine(value);
    NameIsOneLine(key);
    OneLineBoth("\"", Escaped(value));
    OneLineBoth("\"" + Escaped(value), "\"");
    OneLineBoth(key + "=", "\"" + Escaped(value) + "\"");
    OneLineBoth(key, "=");
  }

  /** If every written value is storable, the file on disk reads as exactly the new values. */
  lemma RenderedReads(text: string, original: Env, values: Values)
    requires Parse(text) == Ok(original) && ValidValues(values) && Writable(original, values.at)
    requires forall key | key in values.at && IsWritten(key, original, values.at) :: Storable(values.at[key])
    ensures Parse(Text(Rendered(text, original, values))) == Ok(values.at)
  {
    var lines := Rendered(text, original, values);
    RenderedShape(text, original, values);
    forall i | 0 <= i < |lines| ensures OneLine(lines[i].body) {
      if !OneLine(lines[i].body) {
        var key :| IsWritten(key, original, values.at) && lines[i].body == NewLine(key, values.at[key]).body;
        NewLineOneLine(key, values.at[key]);
      }
    }
    ParseOfText(lines, map[]);
    RenderedBodiesRead(text, original, values);
  }

  // ── ... and only then ────────────────────────────────────────────────────────────────────────

  lemma {:induction false} EscapedOfBoth(a: string, b: string)
    ensures Escaped(a + b) == Escaped(a) + Escaped(b)
  {
    if a == "" {
      assert a + b == b;
    } else {
      assert (a + b)[1..] == a[1..] + b;
      EscapedOfBoth(a[1..], b);
    }
  }

  /** An assignment whose quotation has been opened and not closed. */
  function Opening(key: string, value: string): string {
    key + "=" + ("\"" + Escaped(value))
  }

  lemma OpeningFails(key: string, value: string, env: Env)
    requires IsName(key) && OneLine(value)
    ensures OneLine(Opening(key, value)) && Step(env, Opening(key, value)).Err?
  {
    EscapedOneLine(value);
    NameIsOneLine(key);
    OneLineBoth("\"", Escaped(value));
    OneLineBoth(key, "=");
    OneLineBoth(key + "=", "\"" + Escaped(value));
    AssignmentOf(key, "\"" + Escaped(value));
    CutQuoteFails(value);
  }

  lemma Regroup(head: string, c: string, rest: string, tail: string)
    ensures head + (c + rest) + tail == head + c + (rest + tail)
    ensures head + c + rest + tail == head + c + (rest + tail)
  {
  }

  /** A line that a break inside it cuts in the middle of its quotation. */
  ghost predicate Torn(line: Line) {
    exists key, cut, c, rest :: TornAt(line.body, key, cut, c, rest)
  }

  ghost predicate TornAt(body: string, key: string, cut: string, c: char, rest: string) {
    IsName(key) && OneLine(cut) && IsBreak(c) && body == Opening(key, cut) + [c] + rest
  }

  lemma EscapedCut(value: string, k: nat)
    requires k < |value| && IsBreak(value[k])
    ensures Escaped(value) == Escaped(value[..k]) + ([value[k]] + Escaped(value[k + 1..]))
  {
    assert value == value[..k] + value[k..] && value[k..][1..] == value[k + 1..];
    EscapedOfBoth(value[..k], value[k..]);
  }

  lemma BrokenValueIsTorn(key: string, value: string)
    requires IsName(key) && !OneLine(value)
    ensures Torn(NewLine(key, value))
  {
    var k := FirstBreak(value);
    BeforeBreak(value);
    assert value[..|value|] == value;
    EscapedCut(value, k);
    TornText(key, value[..k], value[k], Escaped(value[k + 1..]));
    assert TornAt(NewLine(key, value).body, key, value[..k], value[k], Escaped(value[k + 1..]) + "\"");
  }

  lemma TornText(key: string, cut: string, c: char, tail: string)
    ensures key + "=" + ("\"" + (Escaped(cut) + ([c] + tail)) + "\"") == Opening(key, cut) + [c] + (tail + "\"")
  {
  }

  lemma TornHeadFails(line: Line, after: string, env: Env)
    requires Torn(line)
    ensures ParseFrom(line.Text() + after, env).Err?
  {
    var key, cut, c, rest :| TornAt(line.body, key, cut, c, rest);
    OpeningFails(key, cut, env);
    Regroup(Opening(key, cut), [c], rest, line.end);
    Regroup(Opening(key, cut), [c], rest + line.end, after);
    ParseAfterBreak(Opening(key, cut), c, rest + line.end + after, env);
  }

  lemma {:induction false} TornFails(lines: seq<Line>, env: Env, t: nat)
    requires EndsRight(lines) && (forall i | 0 <= i < |lines| :: OneLine(lines[i].body) || Torn(lines[i]))
    requires t < |lines| && Torn(lines[t])
    ensures ParseFrom(Text(lines), env).Err?
  {
    hide Step, Torn, OneLine, IsBreak;
    if Torn(lines[0]) {
      TornHeadFails(lines[0], Text(lines[1..]), env);
    } else {
      assert Text(lines) == lines[0].body + lines[0].end + Text(lines[1..]);
      ParseAfterBreaks(lines[0].body, lines[0].end, Text(lines[1..]), env);
      if Step(env, lines[0].body).Ok? {
        assert lines[1..][t - 1] == lines[t];
        TornFails(lines[1..], Step(env, lines[0].body).value, t - 1);
      }
    }
  }

  lemma StepAdds(env: Env, body: string, key: string)
    requires Step(env, body).Ok? && key !in env && key in Step(env, body).value
    ensures KeyOf(body) == Some(key)
  {
  }

  lemma {:induction false} AssignedSomewhere(lines: seq<Line>, env: Env, key: string) returns (i: nat)
    requires ParseBodies(Bodies(lines), env).Ok? && key in ParseBodies(Bodies(lines), env).value && key !in env
    ensures i < |lines| && KeyOf(lines[i].body) == Some(key)
  {
    hide Step, KeyOf;
    var next := Step(env, lines[0].body).value;
    if key in next {
      StepAdds(env, lines[0].body, key);
      i := 0;
    } else {
      i := AssignedSomewhere(lines[1..], next, key);
      i := i + 1;
    }
  }

  lemma {:induction false} RewrittenHas(lines: seq<Line>, original: Env, values: Env, i: nat) returns (t: nat)
    requires i < |lines| && Assignment(lines[i].body).Some?
    requires IsWritten(Assignment(lines[i].body).value.0, original, values)
    ensures t < |RewrittenAll(lines, original, values)|
    ensures var key := Assignment(lines[i].body).value.0;
            RewrittenAll(lines, original, values)[t] == NewLine(key, values[key])
  {
    if i == 0 {
      t := 0;
    } else {
      t := RewrittenHas(lines[1..], original, values, i - 1);
      t := |Rewritten(lines[0], original, values)| + t;
    }
  }

  lemma {:induction false} AddedHas(order: seq<string>, original: Env, values: Env, key: string) returns (t: nat)
    requires key in order && IsAdded(key, original, values)
    ensures t < |Added(order, original, values)| && Added(order, original, values)[t] == NewLine(key, values[key])
  {
    if order[0] == key {
      t := 0;
    } else {
      t := AddedHas(order[1..], original, values, key);
      t := t + if IsAdded(order[0], original, values) then 1 else 0;
    }
  }

  lemma WrittenLine(text: string, original: Env, values: Values, key: string) returns (t: nat)
    requires Parse(text) == Ok(original) && ValidValues(values) && IsWritten(key, original, values.at)
    ensures t < |Rendered(text, original, values)|
    ensures Rendered(text, original, values)[t].body == NewLine(key, values.at[key]).body
  {
    var kept := RewrittenAll(Lines(text), original, values.at);
    var added := Added(values.order, original, values.at);
    hide Step, ParseBodies, Lines, Bodies, RewrittenAll, Added, NewLine, Assignment;
    if key in original {
      var i := AssignedSomewhere(Lines(text), map[], key);
      t := RewrittenHas(Lines(text), original, values.at, i);
    } else {
      t := AddedHas(values.order, original, values.at, key);
      t := |kept| + t;
    }
  }

  lemma BrokenValueFails(text: string, original: Env, values: Values, key: string)
    requires Parse(text) == Ok(original) && ValidValues(values) && Writable(original, values.at)
    requires IsWritten(key, original, values.at) && !OneLine(values.at[key])
    ensures Parse(Text(Rendered(text, original, values))).Err?
  {
    var lines := Rendered(text, original, values);
    RenderedShape(text, original, values);
    forall i | 0 <= i < |lines| ensures OneLine(lines[i].body) || Torn(lines[i]) {
      if !OneLine(lines[i].body) {
        var k :| IsWritten(k, original, values.at) && lines[i].body == NewLine(k, values.at[k]).body;
        if OneLine(values.at[k]) {
          NewLineOneLine(k, values.at[k]);
        } else {
          BrokenValueIsTorn(k, values.at[k]);
        }
      }
    }
    var t := WrittenLine(text, original, values, key);
    BrokenValueIsTorn(key, values.at[key]);
    TornFails(lines, map[], t);
  }

  /** Writing new values and reading the file back gives them, for every file the reader accepts,
      exactly when each key that has to be written is a variable name and its value is storable.
      `_quote` refuses only a newline, a carriage return and a NUL, so the other line breaks of
      `str.splitlines` get through it and break the file. */
  lemma RoundTripExactly(text: string, values: Values)
    requires Parse(text).Ok? && ValidValues(values)
    ensures var original := Parse(text).value;
            (Render(text, values).Ok? && Parse(Render(text, values).value) == Ok(values.at))
            <==> forall key | key in values.at && IsWritten(key, original, values.at) ::
                   IsName(key) && Storable(values.at[key])
  {
    var original := Parse(text).value;
    if !Writable(original, values.at) {
      var key :| key in values.at && IsWritten(key, original, values.at) && !IsName(key);
      if Render(text, values).Ok? && Parse(Render(text, values).value).Ok? {
        ParsedKeys(Bodies(Lines(Render(text, values).value)), map[]);
      }
    } else if key :| key in values.at && IsWritten(key, original, values.at) && !Storable(values.at[key]) {
      if !OneLine(values.at[key]) {
        BrokenValueFails(text, original, values, key);
      }
    } else {
      RenderedReads(text, original, values);
    }
  }

  // ── What the writer leaves alone ─────────────────────────────────────────────────────────────

  /** Comments, blank lines and assignments whose value does not change. */
  predicate Untouched(line: Line, original: Env, values: Env) {
    match Assignment(line.body)
    case None => true
    case Some((key, _)) => key in values && !IsWritten(key, original, values)
  }

  function UntouchedOf(lines: seq<Line>, original: Env, values: Env): seq<Line> {
    if lines == [] then []
    else (if Untouched(lines[0], original, values) then [lines[0]] else []) + UntouchedOf(lines[1..], original, values)
  }

  lemma {:induction false} UntouchedOfBoth(a: seq<Line>, b: seq<Line>, original: Env, values: Env)
    ensures UntouchedOf(a + b, original, values) == UntouchedOf(a, original, values) + UntouchedOf(b, original, values)
  {
    hide Untouched;
    if a == [] {
      assert a + b == b;
    } else {
      assert (a + b)[1..] == a[1..] + b;
      UntouchedOfBoth(a[1..], b, original, values);
      RegroupLines(if Untouched(a[0], original, values) then [a[0]] else [],
                   UntouchedOf(a[1..], original, values), UntouchedOf(b, original, values));
    }
  }

  lemma UntouchedOfOne(line: Line, original: Env, values: Env)
    ensures UntouchedOf([line], original, values) == if Untouched(line, original, values) then [line] else []
    ensures UntouchedOf([], original, values) == []
  {
    hide Untouched;
  }

  lemma NewLineIsTouched(key: string, original: Env, values: Env)
    requires IsName(key) && IsWritten(key, original, values)
    ensures !Untouched(NewLine(key, values[key]), original, values)
  {
    AssignmentOf(key, Quote(values[key]));
  }

  lemma OneUntouched(line: Line, original: Env, values: Env)
    requires KeyOf(line.body).Some? ==> KeyOf(line.body).value in original
    ensures UntouchedOf(Rewritten(line, original, values), original, values) == UntouchedOf([line], original, values)
    ensures forall l | l in Rewritten(line, original, values) :: Untouched(l, original, values) || l.end == "\n"
  {
    hide Assignment, NewLine, UntouchedOf, IsName;
    UntouchedOfOne(line, original, values);
    if Assignment(line.body).Some? {
      var key := Assignment(line.body).value.0;
      if IsWritten(key, original, values) {
        AssignedIsName(line.body);
        NewLineIsTouched(key, original, values);
        NewLineEnds(key, values[key]);
        UntouchedOfOne(NewLine(key, values[key]), original, values);
      }
    }
  }

  lemma NewLineEnds(key: string, value: string)
    ensures NewLine(key, value).end == "\n"
  {
  }

  /** The first loop keeps the untouched lines, and whatever it writes ends with a newline. */
  lemma {:induction false} RewrittenUntouched(lines: seq<Line>, original: Env, values: Env)
    requires forall line | line in lines :: KeyOf(line.body).Some? ==> KeyOf(line.body).value in original
    ensures UntouchedOf(RewrittenAll(lines, original, values), original, values) == UntouchedOf(lines, original, values)
    ensures forall l | l in RewrittenAll(lines, original, values) :: Untouched(l, original, values) || l.end == "\n"
  {
    hide Rewritten, Untouched, KeyOf;
    if lines != [] {
      RewrittenUntouched(lines[1..], original, values);
      OneUntouched(lines[0], original, values);
      var first, others := Rewritten(lines[0], original, values), RewrittenAll(lines[1..], original, values);
      UntouchedOfBoth(first, others, original, values);
      UntouchedOfBoth([lines[0]], lines[1..], original, values);
      HeadAndTail(lines);
    }
  }

  lemma HeadAndTail(lines: seq<Line>)
    requires lines != []
    ensures [lines[0]] + lines[1..] == lines
  {
  }

  lemma ClosedIs(front: seq<Line>, last: Line)
    ensures Closed(front + [last])
            == if last.Text() != "" && last.Text()[|last.Text()| - 1] == '\n' then front + [last]
               else front + [last.(end := last.end + "\n")]
  {
    var lines := front + [last];
    assert lines[..|lines| - 1] == front;
  }

  lemma ClosedUntouched(lines: seq<Line>, original: Env, values: Env)
    requires forall l | l in lines :: Untouched(l, original, values) || l.end == "\n"
    ensures var was, now := UntouchedOf(lines, original, values), UntouchedOf(Closed(lines), original, values);
            now == was || now == Closed(was)
  {
    hide Untouched, UntouchedOf, Closed;
    if lines == [] {
      assert Closed(lines) == [] by { ClosedNothing(); }
    } else {
      var front, last := lines[..|lines| - 1], lines[|lines| - 1];
      var ended := last.(end := last.end + "\n");
      assert lines == front + [last];
      ClosedIs(front, last);
      if last.end == "\n" {
        ClosedAlready(front, last);
      } else {
        OnlyBodiesMatter(last, ended, original, values);
        assert last in lines && Untouched(ended, original, values);
        UntouchedOfBoth(front, [last], original, values);
        UntouchedOfBoth(front, [ended], original, values);
        UntouchedOfOne(last, original, values);
        UntouchedOfOne(ended, original, values);
        ClosedIs(UntouchedOf(front, original, values), last);
      }
    }
  }

  lemma ClosedNothing()
    ensures Closed([]) == []
  {
  }

  lemma OnlyBodiesMatter(line: Line, other: Line, original: Env, values: Env)
    requires line.body == other.body
    ensures Untouched(line, original, values) == Untouched(other, original, values)
  {
  }

  lemma {:induction false} AddedIsTouched(order: seq<string>, original: Env, values: Env)
    requires Writable(original, values)
    ensures UntouchedOf(Added(order, original, values), original, values) == []
  {
    hide Untouched, NewLine, IsName;
    if order != [] {
      AddedIsTouched(order[1..], original, values);
      if IsAdded(order[0], original, values) {
        NewLineIsTouched(order[0], original, values);
        UntouchedOfOne(NewLine(order[0], values[order[0]]), original, values);
        UntouchedOfBoth([NewLine(order[0], values[order[0]])], Added(order[1..], original, values), original, values);
      } else {
        assert [] + Added(order[1..], original, values) == Added(order[1..], original, values);
      }
    }
  }

  /** In the file that is written, comments, blank lines and unchanged assignments survive verbatim, in
      order, and before all that is appended. Nothing else that looks untouched appears, unless a key that is
      no name is appended. The one change is the newline that a last line without one is given before
      anything follows it. */
  lemma UntouchedSurvive(text: string, original: Env, values: Values)
    requires Parse(text) == Ok(original)
    ensures var was := UntouchedOf(Lines(text), original, values.at);
            var now := UntouchedOf(Rendered(text, original, values), original, values.at);
            var added := Added(values.order, original, values.at);
            var more := UntouchedOf(added, original, values.at);
            && (now == was + more || (added != [] && now == Closed(was) + more))
            && (Writable(original, values.at) ==> more == [])
  {
    hide Untouched, UntouchedOf, Closed, RewrittenAll, Added, Parse, Lines, IsLine, KeyOf, Writable;
    var lines, added := Lines(text), Added(values.order, original, values.at);
    var kept := RewrittenAll(lines, original, values.at);
    LinesOfFile(text, original);
    RewrittenUntouched(lines, original, values.at);
    ClosedUntouched(kept, original, values.at);
    if Writable(original, values.at) {
      AddedIsTouched(values.order, original, values.at);
    }
    UntouchedOfBoth(kept, added, original, values.at);
    UntouchedOfBoth(Closed(kept), added, original, values.at);
    NothingFollows(kept);
  }

  lemma NothingFollows(lines: seq<Line>)
    ensures lines + [] == lines
  {
  }

  lemma SameRewritten(line: Line, original: Env)
    requires KeyOf(line.body).Some? ==> KeyOf(line.body).value in original
    ensures Rewritten(line, original, original) == [line]
  {
  }

  lemma {:induction false} RewriteNothing(lines: seq<Line>, original: Env)
    requires forall line | line in lines :: KeyOf(line.body).Some? ==> KeyOf(line.body).value in original
    ensures RewrittenAll(lines, original, original) == lines
  {
    hide Rewritten, KeyOf;
    if lines != [] {
      RewriteNothing(lines[1..], original);
      SameRewritten(lines[0], original);
      HeadAndTail(lines);
    }
  }

  lemma {:induction false} AddNothing(order: seq<string>, original: Env)
    ensures Added(order, original, original) == []
  {
    if order != [] {
      AddNothing(order[1..], original);
    }
  }

  /** Writing back what was read changes no byte. */
  lemma RenderParsed(text: string, values: Values)
    requires Parse(text) == Ok(values.at)
    ensures Render(text, values) == Ok(text)
  {
    LinesOfFile(text, values.at);
    RewriteNothing(Lines(text), values.at);
    AddNothing(values.order, values.at);
    LinesText(text);
  }

  // ── The writer, step by step ─────────────────────────────────────────────────────────────────

  /** `rstrip("\r\n")` */
  function StripNewlines(s: string): string {
    if s != "" && (s[|s| - 1] == '\r' || s[|s| - 1] == '\n') then StripNewlines(s[..|s| - 1]) else s
  }

  function KeyOf(line: string): Option<string> {
    match Assignment(line)
    case None => None
    case Some((key, _)) => Some(key)
  }

  lemma {:induction false} SpacesBefore(s: string, c: char)
    requires Spaces(s) < |s|
    ensures Spaces(s + [c]) == Spaces(s)
  {
    assert (s + [c])[0] == s[0];
    if IsSpace(s[0]) {
      assert (s + [c])[1..] == s[1..] + [c];
      SpacesBefore(s[1..], c);
    }
  }

  lemma {:induction false} AllSpaces(s: string)
    requires Spaces(s) == |s|
    ensures forall c | IsSpace(c) :: Spaces(s + [c]) == |s| + 1
  {
    forall c | IsSpace(c) ensures Spaces(s + [c]) == |s| + 1 {
      if s != "" {
        assert (s + [c])[1..] == s[1..] + [c];
        AllSpaces(s[1..]);
      }
    }
  }

  lemma {:induction false} NameLengthBefore(s: string, c: char)
    requires !IsNameChar(c)
    ensures NameLength(s + [c]) == NameLength(s)
  {
    if s != "" && IsNameChar(s[0]) {
      assert (s + [c])[1..] == s[1..] + [c];
      NameLengthBefore(s[1..], c);
    }
  }

  /** A terminator that `rstrip` leaves on the line does not change its key. */
  lemma KeyIgnoresBreak(body: string, c: char)
    requires IsBreak(c)
    ensures KeyOf(body + [c]) == KeyOf(body)
  {
    var k := Spaces(body);
    if k == |body| {
      AllSpaces(body);
    } else {
      SpacesBefore(body, c);
      var s := body[k..];
      assert (body + [c])[k..] == s + [c];
      NameLengthBefore(s, c);
      assert (s + [c])[..NameLength(s)] == s[..NameLength(s)];
    }
  }

  lemma StripOne(s: string, c: char)
    ensures StripNewlines(s + [c]) == if c == '\r' || c == '\n' then StripNewlines(s) else s + [c]
  {
    assert (s + [c])[..|s|] == s;
  }

  /** A line as `splitlines(keepends=True)` cuts it. */
  predicate IsLine(line: Line) {
    OneLine(line.body) && (line.end == "" || line.end == "\r\n" || (|line.end| == 1 && IsBreak(line.end[0])))
  }

  lemma KeyOfStripped(line: Line)
    requires IsLine(line)
    ensures KeyOf(StripNewlines(line.Text())) == KeyOf(line.body)
  {
    var body := line.body;
    assert StripNewlines(body) == body by {
      assert body != "" ==> body[|body| - 1] in body;
    }
    if line.end == "" {
      assert line.Text() == body;
    } else if line.end == "\r\n" {
      assert line.Text() == body + ['\r'] + ['\n'];
      StripOne(body + ['\r'], '\n');
      StripOne(body, '\r');
    } else {
      assert line.Text() == body + [line.end[0]];
      StripOne(body, line.end[0]);
      KeyIgnoresBreak(body, line.end[0]);
    }
  }

  lemma {:induction false} LineEnds(text: string)
    ensures forall line | line in Lines(text) :: IsLine(line)
    decreases |text|
  {
    if text != "" {
      BeforeBreak(text);
      var k := FirstBreak(text);
      if k == |text| {
        assert text[..k] == text;
      } else {
        LineEnds(text[k + BreakLength(text, k)..]);
      }
    }
  }

  function KeysOf(lines: seq<Line>): set<string> {
    if lines == [] then {}
    else (match KeyOf(lines[0].body) case None => {} case Some(key) => {key}) + KeysOf(lines[1..])
  }

  lemma {:induction false} KeysOfParsed(lines: seq<Line>, env: Env)
    requires ParseBodies(Bodies(lines), env).Ok?
    ensures ParseBodies(Bodies(lines), env).value.Keys == env.Keys + KeysOf(lines)
  {
    if lines != [] {
      var body := lines[0].body;
      if BlankOrComment(body) {
        CommentIsNoAssignment(body);
      }
      KeysOfParsed(lines[1..], Step(env, body).value);
    }
  }

  lemma ClosedAlready(lines: seq<Line>, line: Line)
    requires line.end == "\n"
    ensures Closed(lines + [line]) == lines + [line]
  {
    assert line.Text()[|line.Text()| - 1] == '\n';
  }

  lemma FinishOne(lines: seq<Line>, line: Line, added: seq<Line>)
    requires line.end == "\n"
    ensures Finished(lines, [line] + added) == Finished(Closed(lines) + [line], added)
  {
    hide Closed;
    ClosedAlready(Closed(lines), line);
    assert Closed(lines) + ([line] + added) == Closed(lines) + [line] + added;
    if added == [] {
      assert Closed(lines) + [line] + added == Closed(lines) + [line];
    }
  }

  ghost predicate NoneRefused(keys: set<string>, original: Env, values: Env) {
    forall key | key in keys && IsWritten(key, original, values) :: !Refused(values[key])
  }

  ghost predicate SomeRefused(original: Env, values: Env) {
    exists key :: key in values && IsWritten(key, original, values) && Refused(values[key])
  }

  /** One old line: the lines that replace it, unless its new value is refused; and its key. */
  method RewriteLine(line: Line, original: Env, values: Env) returns (piece: Option<seq<Line>>, key: Option<string>)
    requires IsLine(line)
    requires KeyOf(line.body).Some? ==> KeyOf(line.body).value in original
    ensures key == KeyOf(line.body)
    ensures piece.Some? ==> piece.value == Rewritten(line, original, values)
    ensures piece.None? <==> key.Some? && IsWritten(key.value, original, values) && Refused(values[key.value])
  {
    KeyOfStripped(line);
    key := KeyOf(StripNewlines(line.Text()));
    if key.None? {
      return Some([line]), key;
    }
    if key.value !in values {
      return Some([]), key;
    }
    if original[key.value] == values[key.value] {
      return Some([line]), key;
    }
    if Refused(values[key.value]) {
      return None, key;
    }
    return Some([NewLine(key.value, values[key.value])]), key;
  }

  lemma NothingRewritten(original: Env, values: Env)
    ensures RewrittenAll([], original, values) == [] && KeysOf([]) == {}
  {
  }

  lemma {:induction false} OneMoreRewritten(lines: seq<Line>, line: Line, original: Env, values: Env)
    ensures RewrittenAll(lines + [line], original, values)
            == RewrittenAll(lines, original, values) + Rewritten(line, original, values)
  {
    hide Rewritten;
    var piece := Rewritten(line, original, values);
    if lines == [] {
      assert [] + [line] == [line] && [line][1..] == [] && piece + [] == [] + piece;
    } else {
      OneMoreRewritten(lines[1..], line, original, values);
      assert (lines + [line])[1..] == lines[1..] + [line];
      RegroupLines(Rewritten(lines[0], original, values), RewrittenAll(lines[1..], original, values), piece);
    }
  }

  lemma RegroupLines(a: seq<Line>, b: seq<Line>, c: seq<Line>)
    ensures a + (b + c) == (a + b) + c
  {
  }

  lemma {:induction false} OneMoreKey(lines: seq<Line>, line: Line)
    ensures KeyOf(line.body).None? ==> KeysOf(lines + [line]) == KeysOf(lines)
    ensures KeyOf(line.body).Some? ==> KeysOf(lines + [line]) == KeysOf(lines) + {KeyOf(line.body).value}
  {
    hide KeyOf;
    if lines == [] {
      assert [] + [line] == [line];
    } else {
      OneMoreKey(lines[1..], line);
      assert (lines + [line])[1..] == lines[1..] + [line];
    }
  }

  lemma {:induction false} AllKeys(lines: seq<Line>, line: Line)
    requires line in lines && KeyOf(line.body).Some?
    ensures KeyOf(line.body).value in KeysOf(lines)
  {
    if line != lines[0] {
      AllKeys(lines[1..], line);
    }
  }

  lemma TakeOneMore<T>(s: seq<T>, i: nat)
    requires i < |s|
    ensures s[..i + 1] == s[..i] + [s[i]]
  {
  }

  lemma TakeAll<T>(s: seq<T>)
    ensures s[..|s|] == s
  {
  }

  lemma OneMoreRefused(keys: set<string>, key: string, original: Env, values: Env)
    requires NoneRefused(keys, original, values) && !(IsWritten(key, original, values) && Refused(values[key]))
    ensures NoneRefused(keys + {key}, original, values)
  {
  }

  lemma NoneYetRefused(original: Env, values: Env)
    ensures NoneRefused({}, original, values)
  {
  }

  lemma ThisIsRefused(key: string, original: Env, values: Env)
    requires IsWritten(key, original, values) && Refused(values[key])
    ensures SomeRefused(original, values)
  {
  }

  /** The lines of a file that reads, and the keys they assign. */
  lemma LinesOfFile(text: string, original: Env)
    requires Parse(text) == Ok(original)
    ensures KeysOf(Lines(text)) == original.Keys
    ensures forall line | line in Lines(text) ::
              IsLine(line) && (KeyOf(line.body).Some? ==> KeyOf(line.body).value in original)
  {
    hide IsLine, KeyOf;
    LineEnds(text);
    KeysOfParsed(Lines(text), map[]);
    forall line | line in Lines(text) && KeyOf(line.body).Some? ensures KeyOf(line.body).value in original {
      AllKeys(Lines(text), line);
    }
  }

  /** The writer's first loop, over the old file's lines. */
  method RewriteLines(text: string, original: Env, values: Env)
    returns (r: Result<seq<Line>, EnvError>, seen: set<string>)
    requires Parse(text) == Ok(original)
    ensures r.Err? ==> r.error == NotSingleLine && SomeRefused(original, values)
    ensures r.Ok? ==> r.value == RewrittenAll(Lines(text), original, values)
    ensures r.Ok? ==> seen == original.Keys && NoneRefused(seen, original, values)
  {
    LinesOfFile(text, original);
    NothingRewritten(original, values);
    NoneYetRefused(original, values);
    hide Rewritten, RewrittenAll, KeysOf, KeyOf, Lines, Parse, Refused, IsWritten, IsLine, NoneRefused, SomeRefused;
    var input := Lines(text);
    var lines: seq<Line> := [];
    seen := {};
    var i := 0;
    while i < |input|
      invariant i <= |input|
      invariant lines == RewrittenAll(input[..i], original, values)
      invariant seen == KeysOf(input[..i])
      invariant NoneRefused(seen, original, values)
    {
      TakeOneMore(input, i);
      OneMoreRewritten(input[..i], input[i], original, values);
      OneMoreKey(input[..i], input[i]);
      var piece, key := RewriteLine(input[i], original, values);
      if piece.None? {
        ThisIsRefused(key.value, original, values);
        r := Err(NotSingleLine);
        return;
      }
      if key.Some? {
        OneMoreRefused(seen, key.value, original, values);
        seen := seen + {key.value};
      }
      lines := lines + piece.value;
      i := i + 1;
    }
    TakeAll(input);
    r := Ok(lines);
  }

  lemma AddedNext(order: seq<string>, j: nat, original: Env, values: Env)
    requires j < |order|
    ensures Added(order[j..], original, values)
            == (if IsAdded(order[j], original, values) then [NewLine(order[j], values[order[j]])] else [])
               + Added(order[j + 1..], original, values)
  {
    hide NewLine;
    assert order[j..][1..] == order[j + 1..];
  }

  lemma AddedIsWritten(key: string, original: Env, values: Env)
    requires IsAdded(key, original, values)
    ensures IsWritten(key, original, values)
  {
  }

  lemma NothingSkipped(added: seq<Line>)
    ensures [] + added == added
  {
  }

  ghost predicate NoneRefusedBefore(order: seq<string>, j: nat, original: Env, values: Env)
    requires j <= |order|
  {
    forall k | 0 <= k < j && IsAdded(order[k], original, values) :: !Refused(values[order[k]])
  }

  lemma OneMoreAllowed(order: seq<string>, j: nat, original: Env, values: Env)
    requires j < |order| && NoneRefusedBefore(order, j, original, values)
    requires IsAdded(order[j], original, values) ==> !Refused(values[order[j]])
    ensures NoneRefusedBefore(order, j + 1, original, values)
  {
  }

  lemma NothingIsRefused(seen: set<string>, original: Env, values: Values)
    requires ValidValues(values) && seen == original.Keys && NoneRefused(seen, original, values.at)
    requires NoneRefusedBefore(values.order, |values.order|, original, values.at)
    ensures !SomeRefused(original, values.at)
  {
    hide Refused;
  }

  lemma AllOfOrder(order: seq<string>)
    ensures order[0..] == order && order[|order|..] == []
  {
  }

  lemma NothingAdded(lines: seq<Line>, original: Env, values: Env)
    ensures Finished(lines, Added([], original, values)) == lines
  {
  }

  /** Its second, over the keys the file does not have. */
  method AppendNew(kept: seq<Line>, seen: set<string>, original: Env, values: Values)
    returns (r: Result<seq<Line>, EnvError>)
    requires ValidValues(values) && seen == original.Keys && NoneRefused(seen, original, values.at)
    ensures r.Err? ==> r.error == NotSingleLine && SomeRefused(original, values.at)
    ensures r.Ok? ==> r.value == Finished(kept, Added(values.order, original, values.at))
    ensures r.Ok? ==> !SomeRefused(original, values.at)
  {
    hide Finished, Added, Closed, NewLine, Refused, IsWritten, NoneRefused, SomeRefused;
    AllOfOrder(values.order);
    var lines := kept;
    var j := 0;
    while j < |values.order|
      invariant j <= |values.order|
      invariant Finished(lines, Added(values.order[j..], original, values.at))
             == Finished(kept, Added(values.order, original, values.at))
      invariant NoneRefusedBefore(values.order, j, original, values.at)
    {
      var key := values.order[j];
      var rest := Added(values.order[j + 1..], original, values.at);
      AddedNext(values.order, j, original, values.at);
      if key !in seen {
        AddedIsWritten(key, original, values.at);
        if Refused(values.at[key]) {
          ThisIsRefused(key, original, values.at);
          return Err(NotSingleLine);
        }
        NewLineEnds(key, values.at[key]);
        FinishOne(lines, NewLine(key, values.at[key]), rest);
        lines := Closed(lines) + [NewLine(key, values.at[key])];
      } else {
        NothingSkipped(rest);
      }
      OneMoreAllowed(values.order, j, original, values.at);
      j := j + 1;
    }
    NothingAdded(lines, original, values.at);
    NothingIsRefused(seen, original, values);
    return Ok(lines);
  }

  method RenderEnv(text: string, values: Values) returns (r: Result<string, EnvError>)
    requires ValidValues(values)
    ensures r == Render(text, values)
  {
    var parsed := ParseEnv(text);
    if parsed.Err? {
      return Err(parsed.error);
    }
    var kept, seen := RewriteLines(text, parsed.value, values.at);
    if kept.Err? {
      return Err(kept.error);
    }
    var lines := AppendNew(kept.value, seen, parsed.value, values);
    if lines.Err? {
      return Err(lines.error);
    }
    return Ok(Text(lines.value));
  }

  // ── The second reader ────────────────────────────────────────────────────────────────────────

  /** Text mode's universal newlines, applied before the launcher sees the file. */
  function Universal(text: string): string {
    if text == "" then ""
    else if text[0] == '\r' then "\n" + Universal(if |text| > 1 && text[1] == '\n' then text[2..] else text[1..])
    else [text[0]] + Universal(text[1..])
  }

  lemma {:induction false} UniversalPrefix(body: string, rest: string)
    requires OneLine(body)
    ensures Universal(body + rest) == body + Universal(rest)
  {
    if body == "" {
      assert body + rest == rest;
    } else {
      assert (body + rest)[1..] == body[1..] + rest && body[0] in body;
      UniversalPrefix(body[1..], rest);
    }
  }

  lemma UniversalBreak(text: string)
    requires text != "" && IsBreak(text[0])
    ensures exists c :: IsBreak(c) && (c != '\r') && Universal(text) == [c] + Universal(text[BreakLength(text, 0)..])
  {
    var c := if text[0] == '\r' then '\n' else text[0];
    assert Universal(text) == [c] + Universal(text[BreakLength(text, 0)..]);
  }

  lemma LinesOfLine(body: string, tail: string)
    requires OneLine(body) && tail != "" && IsBreak(tail[0])
    ensures Bodies(Lines(body + tail)) == [body] + Bodies(Lines(tail[BreakLength(tail, 0)..]))
  {
    hide Lines, Bodies, OneLine, IsBreak;
    var text := body + tail;
    assert text[..|body|] == body && text[|body|] == tail[0];
    LinesAfterBreak(text, |body|);
    assert BreakLength(text, |body|) == BreakLength(tail, 0);
    assert text[|body| + BreakLength(tail, 0)..] == tail[BreakLength(tail, 0)..];
  }

  lemma UniversalLine(body: string, tail: string)
    requires OneLine(body) && tail != "" && IsBreak(tail[0])
    ensures Bodies(Lines(Universal(body + tail))) == [body] + Bodies(Lines(Universal(tail[BreakLength(tail, 0)..])))
  {
    hide Lines, Bodies, OneLine, IsBreak, Universal;
    var rest := tail[BreakLength(tail, 0)..];
    UniversalPrefix(body, tail);
    UniversalBreak(tail);
    var c :| IsBreak(c) && c != '\r' && Universal(tail) == [c] + Universal(rest);
    LinesOfLine(body, [c] + Universal(rest));
    assert ([c] + Universal(rest))[1..] == Universal(rest);
  }

  lemma UniversalOfOneLine(text: string)
    requires OneLine(text)
    ensures Universal(text) == text
  {
    UniversalPrefix(text, "");
    assert text + "" == text && Universal("") == "";
  }

  /** Translating the newlines changes no line's text. */
  lemma {:induction false} UniversalBodies(text: string)
    ensures Bodies(Lines(Universal(text))) == Bodies(Lines(text))
    decreases |text|
  {
    hide Lines, Bodies, OneLine, IsBreak, Universal;
    BeforeBreak(text);
    var k := FirstBreak(text);
    var body, tail := text[..k], text[k..];
    if k == |text| {
      assert body == text;
      UniversalOfOneLine(text);
    } else {
      assert text == body + tail;
      UniversalBodies(tail[BreakLength(tail, 0)..]);
      UniversalLine(body, tail);
      LinesOfLine(body, tail);
    }
  }

  /** `envfile_exec.load`: the launcher's own loop over the file. */
  method Load(text: string) returns (r: Option<Env>)
    ensures r == match Parse(text) case Ok(env) => Some(env) case Err(_) => None
  {
    hide Lines, Bodies, ParseBodies, Assignment, BlankOrComment, Decode, Universal;
    UniversalBodies(text);
    var lines := Lines(Universal(text));
    var values: Env := map[];
    var i := 0;
    ParseEnds(lines, values);
    while i < |lines|
      invariant i <= |lines|
      invariant ParseBodies(Bodies(lines[i..]), values) == Parse(text)
    {
      ParseNext(lines, i, values);
      var line := lines[i].body;
      if !BlankOrComment(line) {
        var found := Assignment(line);
        if found.None? {
          return None;
        }
        var decoded := Decode(found.value.1);
        if decoded.None? {
          return None;
        }
        values := values[found.value.0 := decoded.value];
      }
      i := i + 1;
    }
    ParseEnds(lines, values);
    return Some(values);
  }
}
