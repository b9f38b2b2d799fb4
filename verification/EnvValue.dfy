/**
 What a value of the environment file means, on its text alone: words of parts, side by side, with blanks
 between the words. The automaton that reads it (`Decode`) is proved to give that meaning.
 */
module EnvValues {
  import opened EnvFile
  import opened Texts
  import opened Wrappers

  predicate IsBlank(c: char) {
    c == ' ' || c == '\t' || c == '\r' || c == '\n'
  }

  predicate IsBare(c: char) {
    !IsBlank(c) && c != '"' && c != '\'' && c != '\\'
  }

  /** Inside double quotes: a character as it stands, or one after a backslash. */
  datatype Item = Char(c: char) | After(c: char)

  /** A part of a word: bare text, a quotation, or a character after a backslash. */
  datatype Part = Bare(text: string) | Single(text: string) | Double(items: seq<Item>) | Backslash(c: char)

  /** A word and the blanks before it. */
  datatype Spelt = Spelt(gap: string, parts: seq<Part>)

  predicate ValidItem(i: Item) {
    i.Char? ==> i.c != '"' && i.c != '\\'
  }

  predicate ValidPart(p: Part) {
    match p
    case Bare(text) => text != "" && forall c | c in text :: IsBare(c)
    case Single(text) => '\'' !in text
    case Double(items) => forall i | i in items :: ValidItem(i)
    case Backslash(_) => true
  }

  predicate IsGap(gap: string) {
    forall c | c in gap :: IsBlank(c)
  }

  /** Every word but the first has blanks before it, and every word has a part. */
  predicate ValidWords(words: seq<Spelt>) {
    && (forall i | 0 <= i < |words| :: IsGap(words[i].gap) && words[i].parts != [])
    && (forall i, p | 0 <= i < |words| && p in words[i].parts :: ValidPart(p))
    && (forall i | 0 < i < |words| :: words[i].gap != "")
  }

  function ItemText(i: Item): string {
    if i.Char? then [i.c] else ['\\', i.c]
  }

  /** In double quotes a backslash stands for itself, except before a double quote or a backslash. */
  function ItemMeaning(i: Item): string {
    if i.Char? || i.c == '"' || i.c == '\\' then [i.c] else ['\\', i.c]
  }

  function ItemsText(items: seq<Item>): string {
    if items == [] then "" else ItemText(items[0]) + ItemsText(items[1..])
  }

  function ItemsMeaning(items: seq<Item>): string {
    if items == [] then "" else ItemMeaning(items[0]) + ItemsMeaning(items[1..])
  }

  function PartText(p: Part): string {
    match p
    case Bare(text) => text
    case Single(text) => "'" + text + "'"
    case Double(items) => "\"" + ItemsText(items) + "\""
    case Backslash(c) => ['\\', c]
  }

  function PartMeaning(p: Part): string {
    match p
    case Bare(text) => text
    case Single(text) => text
    case Double(items) => ItemsMeaning(items)
    case Backslash(c) => [c]
  }

  function PartsText(parts: seq<Part>): string {
    if parts == [] then "" else PartText(parts[0]) + PartsText(parts[1..])
  }

  function PartsMeaning(parts: seq<Part>): string {
    if parts == [] then "" else PartMeaning(parts[0]) + PartsMeaning(parts[1..])
  }

  function WordsText(words: seq<Spelt>): string {
    if words == [] then "" else words[0].gap + PartsText(words[0].parts) + WordsText(words[1..])
  }

  /** One blank between the words, whatever stood between them. */
  function WordsMeaning(words: seq<Spelt>): string {
    if words == [] then ""
    else if |words| == 1 then PartsMeaning(words[0].parts)
    else PartsMeaning(words[0].parts) + " " + WordsMeaning(words[1..])
  }

  // ── The automaton, part by part ──────────────────────────────────────────────────────────────

  predicate IsOutside(r: Reader) {
    r.mode.Between? || r.mode.Word?
  }

  lemma Next(c: char, rest: string, r: Reader)
    ensures Shlex([c] + rest, r) == Shlex(rest, r.After(c))
  {
    assert ([c] + rest)[1..] == rest;
  }

  lemma {:induction false} ReadBare(text: string, rest: string, r: Reader)
    requires IsOutside(r) && text != "" && forall c | c in text :: IsBare(c)
    ensures Shlex(text + rest, r) == Shlex(rest, Reader(Mode.Word, r.token + text, r.quoted, r.words))
  {
    var c, next := text[0], Reader(Mode.Word, r.token + [text[0]], r.quoted, r.words);
    assert text + rest == [c] + (text[1..] + rest);
    Next(c, text[1..] + rest, r);
    assert c in text && r.After(c) == next;
    if |text| == 1 {
      assert text[1..] + rest == rest && text == [c];
    } else {
      ReadBare(text[1..], rest, next);
      assert r.token + [c] + text[1..] == r.token + text;
    }
  }

  lemma {:induction false} ReadSingle(text: string, rest: string, token: string, words: seq<string>)
    requires '\'' !in text
    ensures Shlex(text + ("'" + rest), Reader(Quotation('\''), token, true, words))
            == Shlex(rest, Reader(Mode.Word, token + text, true, words))
  {
    var r := Reader(Quotation('\''), token, true, words);
    if text == "" {
      assert text + ("'" + rest) == "'" + rest && token + text == token;
      Next('\'', rest, r);
    } else {
      assert text + ("'" + rest) == [text[0]] + (text[1..] + ("'" + rest));
      Next(text[0], text[1..] + ("'" + rest), r);
      ReadSingle(text[1..], rest, token + [text[0]], words);
      assert token + [text[0]] + text[1..] == token + text;
    }
  }

  lemma Assoc(a: string, b: string, c: string)
    ensures (a + b) + c == a + (b + c) && a + "" == a
  {
  }

  lemma ReadItem(i: Item, rest: string, token: string, words: seq<string>)
    requires ValidItem(i)
    ensures Shlex(ItemText(i) + rest, Reader(Quotation('"'), token, true, words))
            == Shlex(rest, Reader(Quotation('"'), token + ItemMeaning(i), true, words))
  {
    var r := Reader(Quotation('"'), token, true, words);
    if i.Char? {
      Next(i.c, rest, r);
    } else {
      assert ItemText(i) + rest == ['\\'] + ([i.c] + rest);
      Next('\\', [i.c] + rest, r);
      Next(i.c, rest, r.After('\\'));
      var kept := if i.c != '\\' && i.c != '"' then "\\" else "";
      assert token + kept + [i.c] == token + ItemMeaning(i);
    }
  }

  lemma {:induction false} ReadItems(items: seq<Item>, rest: string, token: string, words: seq<string>)
    requires forall i | i in items :: ValidItem(i)
    ensures Shlex(ItemsText(items) + rest, Reader(Quotation('"'), token, true, words))
            == Shlex(rest, Reader(Quotation('"'), token + ItemsMeaning(items), true, words))
  {
    hide Shlex, ItemText, ItemMeaning;
    if items == [] {
      assert ItemsText(items) + rest == rest && token + ItemsMeaning(items) == token;
    } else {
      var i, more := items[0], items[1..];
      Assoc(ItemText(i), ItemsText(more), rest);
      ReadItem(i, ItemsText(more) + rest, token, words);
      ReadItems(more, rest, token + ItemMeaning(i), words);
      Assoc(token, ItemMeaning(i), ItemsMeaning(more));
    }
  }

  function IsQuoted(p: Part): bool {
    p.Single? || p.Double?
  }

  /** What a part makes of the automaton. */
  function AfterPart(p: Part, r: Reader): Reader {
    Reader(Mode.Word, r.token + PartMeaning(p), r.quoted || IsQuoted(p), r.words)
  }

  lemma ReadSinglePart(text: string, rest: string, r: Reader)
    requires IsOutside(r) && '\'' !in text
    ensures Shlex(PartText(Single(text)) + rest, r) == Shlex(rest, AfterPart(Single(text), r))
  {
    hide Shlex;
    assert PartText(Single(text)) + rest == ['\''] + (text + ("'" + rest));
    Next('\'', text + ("'" + rest), r);
    ReadSingle(text, rest, r.token, r.words);
  }

  lemma ReadDoublePart(items: seq<Item>, rest: string, r: Reader)
    requires IsOutside(r) && forall i | i in items :: ValidItem(i)
    ensures Shlex(PartText(Double(items)) + rest, r) == Shlex(rest, AfterPart(Double(items), r))
  {
    hide Shlex;
    assert PartText(Double(items)) + rest == ['"'] + (ItemsText(items) + ("\"" + rest));
    Next('"', ItemsText(items) + ("\"" + rest), r);
    ReadItems(items, "\"" + rest, r.token, r.words);
    Next('"', rest, Reader(Quotation('"'), r.token + ItemsMeaning(items), true, r.words));
  }

  lemma ReadBackslash(c: char, rest: string, r: Reader)
    requires IsOutside(r)
    ensures Shlex(PartText(Backslash(c)) + rest, r) == Shlex(rest, AfterPart(Backslash(c), r))
  {
    hide Shlex;
    assert PartText(Backslash(c)) + rest == ['\\'] + ([c] + rest);
    Next('\\', [c] + rest, r);
    Next(c, rest, r.After('\\'));
    assert r.token + "" + [c] == r.token + [c];
  }

  lemma ReadPart(p: Part, rest: string, r: Reader)
    requires IsOutside(r) && ValidPart(p)
    ensures Shlex(PartText(p) + rest, r) == Shlex(rest, AfterPart(p, r))
  {
    hide Shlex;
    match p
    case Bare(text) => ReadBare(text, rest, r);
    case Single(text) => ReadSinglePart(text, rest, r);
    case Double(items) => ReadDoublePart(items, rest, r);
    case Backslash(c) => ReadBackslash(c, rest, r);
  }

  lemma {:induction false} ReadParts(parts: seq<Part>, rest: string, r: Reader) returns (quoted: bool)
    requires IsOutside(r) && parts != [] && forall p | p in parts :: ValidPart(p)
    ensures r.token + PartsMeaning(parts) != "" || quoted
    ensures Shlex(PartsText(parts) + rest, r)
            == Shlex(rest, Reader(Mode.Word, r.token + PartsMeaning(parts), quoted, r.words))
  {
    hide Shlex, PartText, PartMeaning, PartsText, PartsMeaning;
    var p, more := parts[0], parts[1..];
    var next := Reader(Mode.Word, r.token + PartMeaning(p), r.quoted || IsQuoted(p), r.words);
    PartsFirst(parts, rest, r.token);
    ReadPart(p, PartsText(more) + rest, r);
    SomethingRead(p);
    if more == [] {
      quoted := next.quoted;
    } else {
      quoted := ReadParts(more, rest, next);
    }
  }

  lemma PartsFirst(parts: seq<Part>, rest: string, token: string)
    requires parts != []
    ensures PartsText(parts) + rest == PartText(parts[0]) + (PartsText(parts[1..]) + rest)
    ensures token + PartsMeaning(parts) == token + PartMeaning(parts[0]) + PartsMeaning(parts[1..])
    ensures |parts| == 1 ==> PartsText(parts[1..]) + rest == rest
    ensures |parts| == 1 ==> token + PartsMeaning(parts) == token + PartMeaning(parts[0])
  {
    hide PartText, PartMeaning;
    Assoc(PartText(parts[0]), PartsText(parts[1..]), rest);
    Assoc(token, PartMeaning(parts[0]), PartsMeaning(parts[1..]));
    if |parts| == 1 {
      NoParts(parts[1..], rest);
      Assoc(token, PartMeaning(parts[0]), "");
      Assoc(PartMeaning(parts[0]), "", "");
    }
  }

  lemma NoParts(parts: seq<Part>, rest: string)
    requires parts == []
    ensures PartsText(parts) + rest == rest && PartsMeaning(parts) == ""
  {
    assert "" + rest == rest;
  }

  lemma SomethingRead(p: Part)
    requires ValidPart(p)
    ensures PartMeaning(p) != "" || IsQuoted(p)
  {
  }

  lemma {:induction false} ReadGap(gap: string, rest: string, r: Reader)
    requires IsOutside(r) && gap != "" && IsGap(gap)
    ensures Shlex(gap + rest, r) == Shlex(rest, Reader(Between, "", false, r.Words()))
  {
    var next := Reader(Between, "", false, r.Words());
    assert gap + rest == [gap[0]] + (gap[1..] + rest) && gap[0] in gap;
    Next(gap[0], gap[1..] + rest, r);
    if |gap| == 1 {
      assert gap[1..] + rest == rest;
    } else {
      ReadGap(gap[1..], rest, next);
    }
  }

  function Meanings(words: seq<Spelt>): seq<string> {
    if words == [] then [] else [PartsMeaning(words[0].parts)] + Meanings(words[1..])
  }

  /** A word: its blanks end the one before it. */
  lemma ReadWord(w: Spelt, rest: string, r: Reader) returns (after: Reader)
    requires IsOutside(r) && IsGap(w.gap) && w.parts != [] && (forall p | p in w.parts :: ValidPart(p))
    requires w.gap == "" ==> r == FRESH
    ensures Shlex(w.gap + PartsText(w.parts) + rest, r) == Shlex(rest, after)
    ensures after.mode.Word? && after.Words() == r.Words() + [PartsMeaning(w.parts)]
  {
    hide Shlex;
    var text, meaning := PartsText(w.parts), PartsMeaning(w.parts);
    assert w.gap + text + rest == w.gap + (text + rest);
    var begun := r;
    if w.gap == "" {
      assert w.gap + (text + rest) == text + rest;
    } else {
      ReadGap(w.gap, text + rest, r);
      begun := Reader(Between, "", false, r.Words());
    }
    var quoted := ReadParts(w.parts, rest, begun);
    assert "" + meaning == meaning;
    after := Reader(Mode.Word, meaning, quoted, begun.words);
  }

  lemma LaterWords(words: seq<Spelt>)
    requires ValidWords(words) && words != []
    ensures ValidWords(words[1..]) && IsGap(words[0].gap) && words[0].parts != []
    ensures forall p | p in words[0].parts :: ValidPart(p)
    ensures |words| > 1 ==> words[1].gap != ""
  {
    hide IsGap, ValidPart;
    var rest := words[1..];
    assert forall i | 0 <= i < |rest| :: rest[i] == words[i + 1];
  }

  lemma OneAndMore(words: seq<string>, one: string, more: seq<string>)
    ensures (words + [one]) + more == words + ([one] + more) && words + [] == words
  {
  }

  lemma {:induction false} ReadWords(words: seq<Spelt>, rest: string, r: Reader) returns (after: Reader)
    requires ValidWords(words) && IsOutside(r) && (words != [] && words[0].gap == "" ==> r == FRESH)
    ensures IsOutside(after) && (words == [] ==> after == r)
    ensures Shlex(WordsText(words) + rest, r) == Shlex(rest, after) && after.Words() == r.Words() + Meanings(words)
  {
    hide Shlex, ValidWords, IsGap, ValidPart;
    if words == [] {
      assert WordsText(words) + rest == rest;
      OneAndMore(r.Words(), "", []);
      after := r;
    } else {
      var w, more := words[0], WordsText(words[1..]);
      LaterWords(words);
      assert WordsText(words) + rest == w.gap + PartsText(w.parts) + (more + rest);
      var next := ReadWord(w, more + rest, r);
      after := ReadWords(words[1..], rest, next);
      OneAndMore(r.Words(), PartsMeaning(w.parts), Meanings(words[1..]));
    }
  }

  lemma {:induction false} JoinedMeanings(words: seq<Spelt>)
    ensures JoinWords(Meanings(words)) == WordsMeaning(words) && |Meanings(words)| == |words|
  {
    if words != [] {
      JoinedMeanings(words[1..]);
      assert Meanings(words)[1..] == Meanings(words[1..]);
    }
  }

  /** Any value spelt out of words decodes to what they mean, with one blank between them. */
  lemma ValueDecodes(words: seq<Spelt>, end: string)
    requires ValidWords(words) && IsGap(end)
    ensures Decode(WordsText(words) + end) == Some(WordsMeaning(words))
  {
    hide Shlex;
    var after := ReadWords(words, end, FRESH);
    JoinedMeanings(words);
    assert [] + Meanings(words) == Meanings(words);
    if end != "" {
      ReadGap(end, "", after);
      assert end + "" == end;
      NothingLeft(Reader(Between, "", false, after.Words()));
    } else {
      NothingLeft(after);
    }
  }

  lemma NothingLeft(r: Reader)
    requires IsOutside(r)
    ensures Shlex("", r) == Some(r.Words())
  {
  }

  /** A value that ends inside a quotation, or after a backslash. */
  datatype Cut = InSingle(text: string) | InDouble(items: seq<Item>, backslash: bool) | AtBackslash

  predicate ValidCut(cut: Cut) {
    match cut
    case InSingle(text) => '\'' !in text
    case InDouble(items, _) => forall i | i in items :: ValidItem(i)
    case AtBackslash => true
  }

  function CutText(cut: Cut): string {
    match cut
    case InSingle(text) => "'" + text
    case InDouble(items, backslash) => "\"" + ItemsText(items) + if backslash then "\\" else ""
    case AtBackslash => "\\"
  }

  lemma {:induction false} SingleStaysOpen(text: string, token: string, words: seq<string>)
    requires '\'' !in text
    ensures Shlex(text, Reader(Quotation('\''), token, true, words)) == None
  {
    if text != "" {
      SingleStaysOpen(text[1..], token + [text[0]], words);
    }
  }

  lemma CutFails(cut: Cut, r: Reader)
    requires ValidCut(cut) && IsOutside(r)
    ensures Shlex(CutText(cut), r) == None
  {
    match cut
    case InSingle(text) =>
      Next('\'', text, r);
      SingleStaysOpen(text, r.token, r.words);
    case InDouble(items, backslash) =>
      var end := if backslash then "\\" else "";
      assert CutText(cut) == ['"'] + (ItemsText(items) + end);
      Next('"', ItemsText(items) + end, r);
      ReadItems(items, end, r.token, r.words);
      DoubleStaysOpen(end, Reader(Quotation('"'), r.token + ItemsMeaning(items), true, r.words));
    case AtBackslash =>
      DoubleStaysOpen("\\", r);
  }

  lemma DoubleStaysOpen(end: string, r: Reader)
    requires end == "\\" || (end == "" && r.mode.Quotation?)
    requires r.mode == Quotation('"') || IsOutside(r)
    ensures Shlex(end, r) == None
  {
    if end != "" {
      assert end[1..] == "";
    }
  }

  /** Such a value is refused, whatever words and parts come before the cut. */
  lemma CutValueFails(words: seq<Spelt>, gap: string, parts: seq<Part>, cut: Cut)
    requires ValidWords(words) && IsGap(gap) && (words != [] ==> gap != "") && ValidCut(cut)
    requires forall p | p in parts :: ValidPart(p)
    ensures Decode(WordsText(words) + (gap + PartsText(parts) + CutText(cut))) == None
  {
    hide Shlex, ValidWords, CutText, PartsText, WordsText, PartsMeaning;
    var after := ReadWords(words, gap + PartsText(parts) + CutText(cut), FRESH);
    if parts == [] {
      CutAfterGap(gap, cut, after);
      assert PartsText(parts) == "" by { NoText(parts); }
      assert gap + "" + CutText(cut) == gap + CutText(cut);
    } else {
      var next := ReadWord(Spelt(gap, parts), CutText(cut), after);
      CutFails(cut, next);
    }
  }

  lemma NoText(parts: seq<Part>)
    requires parts == []
    ensures PartsText(parts) == ""
  {
  }

  lemma CutAfterGap(gap: string, cut: Cut, r: Reader)
    requires IsGap(gap) && ValidCut(cut) && IsOutside(r)
    ensures Shlex(gap + CutText(cut), r) == None
  {
    hide Shlex, CutText;
    if gap != "" {
      ReadGap(gap, CutText(cut), r);
      CutFails(cut, Reader(Between, "", false, r.Words()));
    } else {
      assert gap + CutText(cut) == CutText(cut);
      CutFails(cut, r);
    }
  }

  // ── On plain text ────────────────────────────────────────────────────────────────────────────

  lemma {:induction false} PartsOfBoth(a: seq<Part>, b: seq<Part>)
    ensures PartsText(a + b) == PartsText(a) + PartsText(b)
    ensures PartsMeaning(a + b) == PartsMeaning(a) + PartsMeaning(b)
  {
    hide PartText, PartMeaning;
    if a == [] {
      assert a + b == b;
      Nothing(PartsText(b));
      Nothing(PartsMeaning(b));
    } else {
      TailOfParts(a, b);
      PartsOfBoth(a[1..], b);
      Assoc(PartText(a[0]), PartsText(a[1..]), PartsText(b));
      Assoc(PartMeaning(a[0]), PartsMeaning(a[1..]), PartsMeaning(b));
    }
  }

  lemma Nothing(s: string)
    ensures "" + s == s
  {
  }

  lemma TailOfParts(a: seq<Part>, b: seq<Part>)
    requires a != []
    ensures (a + b)[1..] == a[1..] + b && (a + b)[0] == a[0]
  {
  }

  lemma PartsOfOne(p: Part)
    ensures PartsText([p]) == PartText(p) && PartsMeaning([p]) == PartMeaning(p)
    ensures PartsText([]) == "" && PartsMeaning([]) == ""
  {
    assert [p][1..] == [];
  }

  lemma OneWord(gap: string, parts: seq<Part>)
    ensures WordsText([Spelt(gap, parts)]) == gap + PartsText(parts) && WordsText([]) == ""
    ensures WordsMeaning([Spelt(gap, parts)]) == PartsMeaning(parts)
  {
    assert [Spelt(gap, parts)][1..] == [];
  }

  lemma OnePart(p: Part)
    requires ValidPart(p)
    ensures Decode(PartText(p)) == Some(PartMeaning(p))
  {
    var words := [Spelt("", [p])];
    ValueDecodes(words, "");
    PartsOfOne(p);
    OneWord("", [p]);
    assert WordsText(words) + "" == PartText(p);
  }

  /** A value without blanks, quotes or backslashes is itself. */
  lemma BareDecodes(v: string)
    requires forall c | c in v :: c !in {' ', '\t', '\r', '\n', '"', '\'', '\\'}
    ensures Decode(v) == Some(v)
  {
    if v == "" {
      ValueDecodes([], "");
      assert WordsText([]) + "" == v;
    } else {
      OnePart(Bare(v));
    }
  }

  /** Single quotes keep everything up to the next one. */
  lemma SingleDecodes(v: string)
    requires '\'' !in v
    ensures Decode("'" + v + "'") == Some(v)
    ensures Decode("'" + v) == None
  {
    OnePart(Single(v));
    CutValueFails([], "", [], InSingle(v));
    assert WordsText([]) + ("" + PartsText([]) + ("'" + v)) == "'" + v;
  }

  /** A backslash outside quotes gives the next character, and none may end the value. */
  lemma BackslashDecodes(v: string, c: char)
    requires forall x | x in v :: x !in {' ', '\t', '\r', '\n', '"', '\'', '\\'}
    ensures Decode(v + ['\\', c]) == Some(v + [c])
    ensures Decode(v + "\\") == None
  {
    var parts := if v == "" then [] else [Bare(v)];
    var both := parts + [Backslash(c)];
    ValueDecodes([Spelt("", both)], "");
    CutValueFails([], "", parts, AtBackslash);
    PartsOfBoth(parts, [Backslash(c)]);
    PartsOfOne(Backslash(c));
    PartsOfOne(Bare(v));
    OneWord("", both);
    assert PartsText(parts) == v && PartsMeaning(parts) == v;
    assert WordsText([Spelt("", both)]) + "" == v + ['\\', c];
    assert WordsText([]) + ("" + v + "\\") == v + "\\";
  }

  /** Blanks, however many, part words, and one blank joins them; parts side by side run together. */
  lemma WordsAndParts(a: string, gap: string, b: string)
    requires a != "" && b != "" && gap != "" && forall c | c in gap :: c in {' ', '\t', '\r', '\n'}
    requires forall c | c in a + b :: c !in {' ', '\t', '\r', '\n', '"', '\'', '\\'}
    ensures Decode(a + gap + b) == Some(a + " " + b)
    ensures Decode(a + ("'" + b + "'")) == Some(a + b)
  {
    hide Decode;
    assert forall c | c in a :: c in a + b;
    assert forall c | c in b :: c in a + b;
    PartsOfOne(Bare(a));
    PartsOfOne(Bare(b));
    PartsOfOne(Single(b));
    TwoWords(a, gap, b);
    PartsOfBoth([Bare(a)], [Single(b)]);
    ValueDecodes([Spelt("", [Bare(a)] + [Single(b)])], "");
    OneWord("", [Bare(a)] + [Single(b)]);
    assert WordsText([Spelt("", [Bare(a)] + [Single(b)])]) + "" == a + ("'" + b + "'");
  }

  lemma TwoWords(a: string, gap: string, b: string)
    requires a != "" && b != "" && gap != "" && IsGap(gap) && forall c | c in a + b :: IsBare(c)
    ensures Decode(a + gap + b) == Some(a + " " + b)
  {
    hide Decode;
    assert forall c | c in a :: c in a + b;
    assert forall c | c in b :: c in a + b;
    var words := [Spelt("", [Bare(a)]), Spelt(gap, [Bare(b)])];
    PartsOfOne(Bare(a));
    PartsOfOne(Bare(b));
    OneWord(gap, [Bare(b)]);
    ValueDecodes(words, "");
    assert words[1..] == [Spelt(gap, [Bare(b)])];
    assert WordsText(words) + "" == a + gap + b;
  }

  // ── Every value is one or the other ──────────────────────────────────────────────────────────

  /** How far a value has been spelt: whole words, and the blanks, parts and cut that follow them. */
  datatype Progress = Progress(words: seq<Spelt>, gap: string, parts: seq<Part>, cut: Option<Cut>)

  predicate ValidProgress(p: Progress) {
    && ValidWords(p.words) && IsGap(p.gap) && (p.words != [] ==> p.gap != "")
    && (forall part | part in p.parts :: ValidPart(part)) && (p.cut.Some? ==> ValidCut(p.cut.value))
  }

  function ProgressText(p: Progress): string {
    WordsText(p.words) + (p.gap + PartsText(p.parts) + if p.cut.Some? then CutText(p.cut.value) else "")
  }

  lemma {:induction false} WordsOneMore(words: seq<Spelt>, w: Spelt)
    ensures WordsText(words + [w]) == WordsText(words) + (w.gap + PartsText(w.parts))
  {
    hide PartsText;
    if words == [] {
      OneWord(w.gap, w.parts);
      assert [] + [w] == [w] && "" + (w.gap + PartsText(w.parts)) == w.gap + PartsText(w.parts);
    } else {
      WordsOneMore(words[1..], w);
      assert (words + [w])[1..] == words[1..] + [w];
      Assoc(words[0].gap + PartsText(words[0].parts), WordsText(words[1..]), w.gap + PartsText(w.parts));
    }
  }

  lemma OneMorePart(p: Progress, part: Part, next: Progress, c: char)
    requires ValidProgress(p) && ValidPart(part) && next == Progress(p.words, p.gap, p.parts + [part], None)
    requires PartText(part) == (if p.cut.Some? then CutText(p.cut.value) else "") + [c]
    ensures ValidProgress(next) && ProgressText(next) == ProgressText(p) + [c]
  {
    hide PartText, CutText, ValidPart, ValidWords, WordsText, IsGap;
    PartsOfBoth(p.parts, [part]);
    PartsOfOne(part);
    var cut := if p.cut.Some? then CutText(p.cut.value) else "";
    PutTogether(WordsText(p.words), p.gap, PartsText(p.parts), cut, c);
  }

  lemma PutTogether(words: string, gap: string, parts: string, cut: string, c: char)
    ensures words + (gap + (parts + (cut + [c])) + "") == (words + (gap + parts + cut)) + [c]
    ensures words + (gap + parts + (cut + [c])) == (words + (gap + parts + cut)) + [c]
  {
  }

  lemma OneMoreCut(p: Progress, cut: Cut, next: Progress, c: char)
    requires ValidProgress(p) && ValidCut(cut) && next == p.(cut := Some(cut))
    requires CutText(cut) == (if p.cut.Some? then CutText(p.cut.value) else "") + [c]
    ensures ValidProgress(next) && ProgressText(next) == ProgressText(p) + [c]
  {
    hide CutText, ValidWords, WordsText, PartsText, IsGap, ValidPart;
    PutTogether(WordsText(p.words), p.gap, PartsText(p.parts), if p.cut.Some? then CutText(p.cut.value) else "", c);
  }

  lemma OneMoreBlank(p: Progress, c: char) returns (next: Progress)
    requires ValidProgress(p) && p.cut.None? && IsBlank(c)
    ensures ValidProgress(next) && ProgressText(next) == ProgressText(p) + [c]
  {
    hide WordsText, PartText;
    if p.parts == [] {
      next := p.(gap := p.gap + [c]);
      assert p.gap + PartsText([]) + "" == p.gap && next.gap + PartsText([]) + "" == p.gap + [c];
      assert WordsText(p.words) + (p.gap + [c]) == (WordsText(p.words) + p.gap) + [c];
    } else {
      var w := Spelt(p.gap, p.parts);
      next := Progress(p.words + [w], [c], [], None);
      WordsOneMore(p.words, w);
      MoreWords(p.words, w);
      assert [c] + PartsText([]) + "" == [c];
      assert w.gap + PartsText(w.parts) + "" == w.gap + PartsText(w.parts);
    }
  }

  lemma MoreWords(words: seq<Spelt>, w: Spelt)
    requires ValidWords(words) && IsGap(w.gap) && w.parts != [] && (forall p | p in w.parts :: ValidPart(p))
    requires words != [] ==> w.gap != ""
    ensures ValidWords(words + [w])
  {
    hide IsGap, ValidPart;
  }

  lemma {:induction false} ItemsOneMore(items: seq<Item>, i: Item)
    ensures ItemsText(items + [i]) == ItemsText(items) + ItemText(i)
  {
    if items == [] {
      assert [] + [i] == [i] && [i][1..] == [] && ItemText(i) + "" == "" + ItemText(i);
    } else {
      ItemsOneMore(items[1..], i);
      assert (items + [i])[1..] == items[1..] + [i];
      Assoc(ItemText(items[0]), ItemsText(items[1..]), ItemText(i));
    }
  }

  /** A character outside quotations. */
  lemma ProgressOutside(p: Progress, c: char) returns (next: Progress)
    requires ValidProgress(p) && p.cut.None?
    ensures ValidProgress(next) && ProgressText(next) == ProgressText(p) + [c]
  {
    hide ValidProgress, ProgressText, ItemsText;
    if IsBlank(c) {
      next := OneMoreBlank(p, c);
    } else if c == '"' || c == '\'' || c == '\\' {
      var cut := if c == '"' then InDouble([], false) else if c == '\'' then InSingle("") else AtBackslash;
      next := p.(cut := Some(cut));
      assert ItemsText([]) == "" by { NoItems(); }
      OneMoreCut(p, cut, next, c);
    } else {
      next := Progress(p.words, p.gap, p.parts + [Bare([c])], None);
      OneMorePart(p, Bare([c]), next, c);
    }
  }

  lemma NoItems()
    ensures ItemsText([]) == ""
  {
  }

  /** ... and one inside. */
  lemma ProgressInside(p: Progress, c: char) returns (next: Progress)
    requires ValidProgress(p) && p.cut.Some?
    ensures ValidProgress(next) && ProgressText(next) == ProgressText(p) + [c]
  {
    hide ProgressText, ItemsText, ValidWords, IsGap;
    match p.cut.value
    case InSingle(text) =>
      if c == '\'' {
        next := Progress(p.words, p.gap, p.parts + [Single(text)], None);
        OneMorePart(p, Single(text), next, c);
      } else {
        next := p.(cut := Some(InSingle(text + [c])));
        assert "'" + (text + [c]) == ("'" + text) + [c];
        OneMoreCut(p, InSingle(text + [c]), next, c);
      }
    case InDouble(items, backslash) =>
      assert CutText(p.cut.value) == "\"" + ItemsText(items) + if backslash then "\\" else "";
      if backslash {
        var more := items + [After(c)];
        ItemsOneMore(items, After(c));
        next := p.(cut := Some(InDouble(more, false)));
        assert "\"" + ItemsText(more) + "" == ("\"" + ItemsText(items) + "\\") + [c];
        OneMoreCut(p, InDouble(more, false), next, c);
      } else if c == '"' {
        next := Progress(p.words, p.gap, p.parts + [Double(items)], None);
        assert "\"" + ItemsText(items) + "\"" == ("\"" + ItemsText(items) + "") + [c];
        OneMorePart(p, Double(items), next, c);
      } else if c == '\\' {
        next := p.(cut := Some(InDouble(items, true)));
        assert "\"" + ItemsText(items) + "\\" == ("\"" + ItemsText(items) + "") + [c];
        OneMoreCut(p, InDouble(items, true), next, c);
      } else {
        var more := items + [Char(c)];
        ItemsOneMore(items, Char(c));
        next := p.(cut := Some(InDouble(more, false)));
        assert "\"" + ItemsText(more) + "" == ("\"" + ItemsText(items) + "") + [c];
        OneMoreCut(p, InDouble(more, false), next, c);
      }
    case AtBackslash =>
      next := Progress(p.words, p.gap, p.parts + [Backslash(c)], None);
      OneMorePart(p, Backslash(c), next, c);
  }

  lemma {:induction false} SpellOut(value: string) returns (p: Progress)
    ensures ValidProgress(p) && ProgressText(p) == value
  {
    hide ValidProgress, ProgressText;
    if value == "" {
      p := Progress([], "", [], None);
      NoProgress();
    } else {
      var front, c := value[..|value| - 1], value[|value| - 1];
      var before := SpellOut(front);
      if before.cut.None? {
        p := ProgressOutside(before, c);
      } else {
        p := ProgressInside(before, c);
      }
      assert front + [c] == value;
    }
  }

  lemma NoProgress()
    ensures var p := Progress([], "", [], None); ValidProgress(p) && ProgressText(p) == ""
  {
  }

  ghost predicate IsSpelt(value: string, words: seq<Spelt>) {
    ValidWords(words) && exists end :: IsGap(end) && value == WordsText(words) + end
  }

  ghost predicate IsCutShort(value: string) {
    exists p :: ValidProgress(p) && p.cut.Some? && ProgressText(p) == value
  }

  /** Every value is spelt out of words, and decodes to what they mean, or ends inside a quotation or after a
      backslash, and is refused. */
  lemma EveryValue(value: string)
    ensures Decode(value).None? <==> IsCutShort(value)
    ensures Decode(value).Some? <==> exists words :: IsSpelt(value, words)
    ensures forall words | IsSpelt(value, words) :: Decode(value) == Some(WordsMeaning(words))
  {
    hide Decode, ValidWords, IsGap, ProgressText, WordsText, WordsMeaning, ValidProgress;
    forall words | IsSpelt(value, words) ensures Decode(value) == Some(WordsMeaning(words)) {
      var end :| IsGap(end) && value == WordsText(words) + end;
      ValueDecodes(words, end);
    }
    forall p | ValidProgress(p) && p.cut.Some? && ProgressText(p) == value ensures Decode(value).None? {
      CutIsRefused(p);
    }
    var p := SpellOut(value);
    if p.cut.None? {
      var words := WholeWords(p);
    }
  }

  lemma CutIsRefused(p: Progress)
    requires ValidProgress(p) && p.cut.Some?
    ensures Decode(ProgressText(p)).None?
  {
    hide Decode;
    CutValueFails(p.words, p.gap, p.parts, p.cut.value);
  }

  lemma WholeWords(p: Progress) returns (words: seq<Spelt>)
    requires ValidProgress(p) && p.cut.None?
    ensures IsSpelt(ProgressText(p), words)
  {
    hide WordsText, PartText;
    if p.parts == [] {
      words := p.words;
      assert p.gap + PartsText([]) + "" == p.gap;
    } else {
      var w := Spelt(p.gap, p.parts);
      words := p.words + [w];
      WordsOneMore(p.words, w);
      MoreWords(p.words, w);
      assert IsGap("");
      assert ProgressText(p) == WordsText(words) + "";
    }
  }

  // ── Lines ────────────────────────────────────────────────────────────────────────────────────

  /** The characters of a name, by number. */
  lemma NameCharacters(c: char)
    ensures IsNameStart(c) <==> 65 <= c as int <= 90 || 97 <= c as int <= 122 || c as int == 95
    ensures IsNameChar(c) <==> 65 <= c as int <= 90 || 97 <= c as int <= 122 || c as int == 95 || 48 <= c as int <= 57
  {
  }

  /** The characters that end a line, by number. */
  lemma BreakCharacters(c: char)
    ensures IsBreak(c) <==> c as int in {10, 11, 12, 13, 28, 29, 30, 0x85, 0x2028, 0x2029}
  {
  }

  lemma {:induction false} SpacesThen(blank: string, s: string)
    requires AllSpace(blank) && (s == "" || !IsSpace(s[0]))
    ensures Spaces(blank + s) == |blank| && (blank + s)[|blank|..] == s
  {
    if blank == "" {
      assert blank + s == s;
    } else {
      assert (blank + s)[1..] == blank[1..] + s;
      SpacesThen(blank[1..], s);
    }
  }

  lemma Assigns(blank: string, name: string, value: string)
    requires AllSpace(blank) && IsName(name)
    ensures Assignment(blank + (name + ("=" + value))) == Some((name, value))
  {
    hide IsNameChar, IsSpace, AllSpace, Spaces;
    var s := name + ("=" + value);
    NameStarts(name, value);
    SpacesThen(blank, s);
    assert !IsNameChar('=') by { EqualsIsNoName(); }
    NameLengthOf(name, "=" + value);
    assert s[0] == name[0] && s[|name|] == '=' && s[..|name|] == name && s[|name| + 1..] == value;
  }

  lemma EqualsIsNoName()
    ensures !IsNameChar('=')
  {
  }

  /** A line assigns exactly if it is blanks, a name, an equals sign and the value. */
  lemma AssignmentIs(line: string, name: string, value: string)
    ensures Assignment(line) == Some((name, value))
            <==> IsName(name) && exists blank :: AllSpace(blank) && line == blank + (name + ("=" + value))
  {
    if IsName(name) {
      forall blank | AllSpace(blank) && line == blank + (name + ("=" + value))
        ensures Assignment(line) == Some((name, value))
      {
        Assigns(blank, name, value);
      }
    }
    if Assignment(line) == Some((name, value)) {
      AssignedParts(line);
    }
  }

  lemma AssignedParts(line: string)
    requires Assignment(line).Some?
    ensures var (name, value) := Assignment(line).value;
            IsName(name) && exists blank :: AllSpace(blank) && line == blank + (name + ("=" + value))
  {
    hide IsName, IsNameChar, IsNameStart, AllSpace, NameLength;
    var (name, value) := Assignment(line).value;
    var n := Spaces(line);
    AssignedIsName(line);
    SpacesAreBlank(line);
    assert line == line[..n] + line[n..] && line[n..] == name + ("=" + value);
  }

  lemma NameIsNoSpace(c: char)
    requires IsNameChar(c)
    ensures !IsSpace(c)
  {
  }

  lemma {:induction false} SpacesAreBlank(line: string)
    ensures AllSpace(line[..Spaces(line)])
  {
    if line != "" && IsSpace(line[0]) {
      SpacesAreBlank(line[1..]);
      assert forall i | 0 < i < Spaces(line) :: line[i] == line[1..][i - 1];
    }
  }

  /** What one line does: an assignment puts its value, or fails if the value is cut short; blank lines and
      comments do nothing; anything else is an error. */
  lemma LineReads(env: Env, blank: string, name: string, value: string)
    requires AllSpace(blank) && IsName(name)
    ensures Step(env, blank + (name + ("=" + value)))
            == match Decode(value) case Some(v) => Ok(env[name := v]) case None => Err(BadQuoting(name))
  {
    hide Decode, Assignment, Spaces;
    var line := blank + (name + ("=" + value));
    AssignmentIs(line, name, value);
    if BlankOrComment(line) {
      CommentIsNoAssignment(line);
    }
  }

  lemma CommentReads(env: Env, blank: string, rest: string)
    requires AllSpace(blank)
    ensures Step(env, blank) == Ok(env)
    ensures Step(env, blank + ("#" + rest)) == Ok(env) && Step(env, blank + (";" + rest)) == Ok(env)
  {
    hide Spaces;
    SpacesThen(blank, "");
    SpacesThen(blank, "#" + rest);
    SpacesThen(blank, ";" + rest);
    assert blank + "" == blank;
  }

  lemma OtherLineFails(env: Env, blank: string, rest: string)
    requires AllSpace(blank) && rest != "" && !IsSpace(rest[0]) && rest[0] != '#' && rest[0] != ';'
    requires forall name, value | IsName(name) :: rest != name + ("=" + value)
    ensures Step(env, blank + rest) == Err(NotAssignment)
  {
    hide Spaces, IsName;
    SpacesThen(blank, rest);
    var line := blank + rest;
    if Assignment(line).Some? {
      var (name, value) := Assignment(line).value;
      AssignmentIs(line, name, value);
      var other :| AllSpace(other) && line == other + (name + ("=" + value));
      NameStarts(name, value);
      SpacesThen(other, name + ("=" + value));
    }
  }

  lemma NameStarts(name: string, value: string)
    requires IsName(name)
    ensures name + ("=" + value) != "" && !IsSpace((name + ("=" + value))[0])
  {
    assert name[0] in name;
    NameIsNoSpace(name[0]);
  }

  /** A later assignment of a name replaces an earlier one. */
  lemma LaterWins(name: string, first: string, second: string, env: Env)
    requires IsName(name) && Decode(first).Some? && Decode(second).Some?
    ensures ParseBodies([name + ("=" + first), name + ("=" + second)], env) == Ok(env[name := Decode(second).value])
  {
    hide Decode, Step;
    var lines := [name + ("=" + first), name + ("=" + second)];
    LineReads(env, "", name, first);
    LineReads(env[name := Decode(first).value], "", name, second);
    assert "" + lines[0] == lines[0] && "" + lines[1] == lines[1];
    assert lines[1..] == [lines[1]] && lines[1..][1..] == [];
    var once := env[name := Decode(first).value];
    assert once[name := Decode(second).value] == env[name := Decode(second).value];
    assert ParseBodies(lines, env) == ParseBodies(lines[1..], once);
    assert ParseBodies(lines[1..], once) == ParseBodies([], once[name := Decode(second).value]);
  }

  /** What the writer writes: the value between double quotes, a backslash before each double quote and each
      backslash in it. */
  lemma NewLineIs(key: string, before: string, after: string)
    requires forall c | c in before + after :: c != '"' && c != '\\'
    ensures NewLine(key, before + after).Text() == key + "=" + ("\"" + (before + after) + "\"") + "\n"
    ensures NewLine(key, before + ("\"" + after)).Text()
            == key + "=" + ("\"" + (before + ("\\\"" + after)) + "\"") + "\n"
    ensures NewLine(key, before + ("\\" + after)).Text()
            == key + "=" + ("\"" + (before + ("\\\\" + after)) + "\"") + "\n"
  {
    hide Escaped;
    assert forall c | c in before :: c in before + after;
    assert forall c | c in after :: c in before + after;
    PlainEscaped(before);
    PlainEscaped(after);
    PlainEscaped(before + after);
    EscapedOfBoth(before, "\"" + after);
    EscapedOfBoth(before, "\\" + after);
    EscapedOfBoth("\"", after);
    EscapedOfBoth("\\", after);
    OneEscaped();
  }

  lemma OneEscaped()
    ensures Escaped("\"") == "\\\"" && Escaped("\\") == "\\\\"
  {
    assert "\""[1..] == "" && "\\"[1..] == "";
  }

  lemma {:induction false} PlainEscaped(s: string)
    requires forall c | c in s :: c != '"' && c != '\\'
    ensures Escaped(s) == s
  {
    if s != "" {
      assert s[0] in s && forall c | c in s[1..] :: c in s;
      PlainEscaped(s[1..]);
    }
  }
}
