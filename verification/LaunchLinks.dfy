/**
 Which URLs the dashboard offers for a router: a textual check of its rule, not a parser.

 The regular expressions are modelled on the characters of the rule, as deterministic scans: each
 one's alternatives begin with different characters, so there is nothing to backtrack over.
 */
module LaunchLinks {
  import opened Texts
  import opened Wrappers

  /** A text up to its closing backtick and parenthesis, and what follows them. */
  function QuoteEnd(s: string): (r: Option<(string, string)>)
    ensures r.Some? ==> '`' !in r.value.0 && s == r.value.0 + ("`)" + r.value.1)
  {
    var n := UpTo(s, '`');
    if "`)" <= s[n..] then Some((s[..n], s[n..][2..])) else None
  }

  /** `word(`...`)` at the start of `s`: what it quotes, and what follows it. */
  function QuotedAt(s: string, word: string): (r: Option<(string, string)>)
    ensures r.Some? ==> |r.value.1| < |s|
  {
    var open := word + "(`";
    if open <= s then QuoteEnd(s[|open|..]) else None
  }

  /** `Host\(`([^`]+)`\)`, matched here: the host, and what follows the match. */
  function HostAt(s: string): (r: Option<(string, string)>)
    ensures r.Some? ==> |r.value.1| < |s|
  {
    match QuotedAt(s, "Host")
    case Some((host, tail)) => if host == "" then None else Some((host, tail))
    case None => None
  }

  /** `findall`: the hosts of the matches, left to right. */
  function Hosts(s: string): seq<string>
    decreases |s|
  {
    if s == "" then []
    else
      match HostAt(s)
      case Some((host, tail)) => [host] + Hosts(tail)
      case None => Hosts(s[1..])
  }

  /** `sub("", ...)`: what is left between them. */
  function WithoutHosts(s: string): string
    decreases |s|
  {
    if s == "" then ""
    else
      match HostAt(s)
      case Some((_, tail)) => WithoutHosts(tail)
      case None => [s[0]] + WithoutHosts(s[1..])
  }

  /** `replace(token, "")` */
  function Without(s: string, token: string): string
    requires token != ""
    decreases |s|
  {
    if s == "" then ""
    else if token <= s then Without(s[|token|..], token)
    else [s[0]] + Without(s[1..], token)
  }

  /** `_rule_is_host_only` */
  predicate IsHostOnly(rule: string) {
    AllSpace(Without(Without(Without(WithoutHosts(rule), "||"), "("), ")"))
  }

  // ── A trailing `&& !(paths)` ─────────────────────────────────────────────────────────────────

  /** `(?:PathPrefix|Path)\(`[^`]*`\)` at the start of `s`: its path, and what follows it. */
  function TermAt(s: string): (r: Option<(string, string)>)
    ensures r.Some? ==> |r.value.1| < |s|
  {
    var prefix := QuotedAt(s, "PathPrefix");
    if prefix.Some? then prefix else QuotedAt(s, "Path")
  }

  /** Terms joined by `||`, then the closing parenthesis and the end of the rule: their paths. */
  function GroupAt(s: string): Option<seq<string>>
    decreases |s|
  {
    match TermAt(s)
    case None => None
    case Some((path, tail)) =>
      var rest := SkipSpaces(tail);
      if "||" <= rest then
        match GroupAt(SkipSpaces(rest[2..]))
        case None => None
        case Some(paths) => Some([path] + paths)
      else if ")" <= rest && SkipSpaces(rest[1..]) == "" then Some([path])
      else None
  }

  function ExcludedAt(s: string): Option<seq<string>> {
    if !("&&" <= s) then None
    else
      var rest := SkipSpaces(s[2..]);
      if "!(" <= rest then GroupAt(SkipSpaces(rest[2..])) else None
  }

  lemma NoHead(s: string)
    ensures s[0..] == s
  {
  }

  lemma TailOfTail(s: string, n: nat)
    requires n < |s|
    ensures s[1..][n..] == s[n + 1..]
  {
  }

  /** `search`: where the first trailing exclusion starts. */
  function ExclusionStart(s: string): (n: nat)
    ensures n <= |s| && (n < |s| ==> ExcludedAt(s[n..]).Some?)
  {
    if s == "" then 0
    else if ExcludedAt(s).Some? then
      NoHead(s);
      0
    else
      var n := ExclusionStart(s[1..]);
      TailOfTail(s, n);
      n + 1
  }

  predicate CoversRoot(path: string) {
    AllSpace(path) || exists n :: 0 <= n < |path| && path[n] == '/' && AllSpace(path[..n]) && AllSpace(path[n + 1..])
  }

  predicate NoneCoversRoot(paths: seq<string>) {
    forall i | 0 <= i < |paths| :: !CoversRoot(paths[i])
  }

  /** `_without_excluded_paths`: the rule that is left, and whether it may be linked at all. */
  function WithoutExcludedPaths(rule: string): (string, bool) {
    var start := ExclusionStart(rule);
    if start == |rule| then (rule, true)
    else
      var paths := ExcludedAt(rule[start..]).value;
      if NoneCoversRoot(paths) then (rule[..start], true) else (rule, false)
  }

  /** The hosts of a rule that can be opened at its root, or none. */
  function LinkableHosts(rule: string): seq<string> {
    var (left, linkable) := WithoutExcludedPaths(rule);
    if linkable && IsHostOnly(left) then Hosts(left) else []
  }

  // ── The links ────────────────────────────────────────────────────────────────────────────────

  datatype Url = Url(href: string, lan: bool)

  function EntryScheme(entryPoint: string): Option<string> {
    if entryPoint == "websecure" then Some("https")
    else if entryPoint == "web" then Some("http")
    else None
  }

  /** The scheme of the first entry point that has one. */
  function Scheme(entryPoints: seq<string>): Option<string> {
    if entryPoints == [] then None
    else if EntryScheme(entryPoints[0]).Some? then EntryScheme(entryPoints[0])
    else Scheme(entryPoints[1..])
  }

  predicate IsAlphanumeric(c: char) {
    'A' <= c <= 'Z' || 'a' <= c <= 'z' || '0' <= c <= '9'
  }

  predicate IsPlainLabel(part: string) {
    && 1 <= |part| <= 64
    && IsAlphanumeric(part[0]) && IsAlphanumeric(part[|part| - 1])
    && forall i | 0 <= i < |part| :: IsAlphanumeric(part[i]) || part[i] == '-'
  }

  /** `_PLAIN_HOST`, matched in full. */
  predicate IsPlainHost(host: string) {
    forall i | 0 <= i < |SplitOn(host, '.')| :: IsPlainLabel(SplitOn(host, '.')[i])
  }

  predicate IsNumber(s: string) {
    forall i | 0 <= i < |s| :: '0' <= s[i] <= '9'
  }

  function RegistrableDomain(host: string): string {
    var labels := NonEmpty(SplitOn(host, '.'));
    if |labels| < 2 || (forall i | 0 <= i < |labels| :: IsNumber(labels[i])) then ""
    else labels[|labels| - 2] + "." + labels[|labels| - 1]
  }

  function UrlOf(host: string, scheme: string, lanDomain: string): Url {
    Url(scheme + "://" + host, RegistrableDomain(host) == lanDomain)
  }

  predicate Offers(urls: seq<Url>, href: string) {
    exists i :: 0 <= i < |urls| && urls[i].href == href
  }

  /** One URL for each plain host, at its first mention. */
  function Urls(hosts: seq<string>, scheme: string, lanDomain: string): seq<Url> {
    if hosts == [] then []
    else
      var before, url := Urls(hosts[..|hosts| - 1], scheme, lanDomain), UrlOf(hosts[|hosts| - 1], scheme, lanDomain);
      if IsPlainHost(hosts[|hosts| - 1]) && !Offers(before, url.href) then before + [url] else before
  }

  function RouterLinks(rule: string, entryPoints: seq<string>, lanDomain: string): seq<Url> {
    if Scheme(entryPoints).None? then [] else Urls(LinkableHosts(rule), Scheme(entryPoints).value, lanDomain)
  }

  method RouterUrls(rule: string, entryPoints: seq<string>, lanDomain: string) returns (urls: seq<Url>)
    ensures urls == RouterLinks(rule, entryPoints, lanDomain)
  {
    hide WithoutExcludedPaths, Hosts, IsHostOnly, IsPlainHost, RegistrableDomain;
    var (left, linkable) := WithoutExcludedPaths(rule);
    var hosts := Hosts(left);
    if !linkable || hosts == [] || !IsHostOnly(left) {
      return [];
    }
    var scheme := Scheme(entryPoints);
    if scheme.None? {
      return [];
    }
    urls := [];
    for n := 0 to |hosts|
      invariant urls == Urls(hosts[..n], scheme.value, lanDomain)
    {
      var host := hosts[n];
      assert hosts[..n + 1][..n] == hosts[..n];
      if !IsPlainHost(host) {
        continue;
      }
      var href := scheme.value + "://" + host;
      if !Offers(urls, href) {
        urls := urls + [Url(href, RegistrableDomain(host) == lanDomain)];
      }
    }
    assert hosts[..|hosts|] == hosts;
  }

  /** The links of a router are those of its plain hosts, each once. */
  lemma {:induction false} UrlsAreTheHosts(hosts: seq<string>, scheme: string, lanDomain: string)
    ensures var urls := Urls(hosts, scheme, lanDomain);
            && (forall i, j | 0 <= i < j < |urls| :: urls[i].href != urls[j].href)
            && (forall host | host in hosts && IsPlainHost(host) :: Offers(urls, scheme + "://" + host))
            && forall url | url in urls ::
                 exists host :: host in hosts && IsPlainHost(host) && url == UrlOf(host, scheme, lanDomain)
  {
    if hosts != [] {
      var front, last := hosts[..|hosts| - 1], hosts[|hosts| - 1];
      UrlsAreTheHosts(front, scheme, lanDomain);
      var before, urls := Urls(front, scheme, lanDomain), Urls(hosts, scheme, lanDomain);
      forall host | host in hosts && IsPlainHost(host) ensures Offers(urls, scheme + "://" + host) {
        if host in front {
          var i :| 0 <= i < |before| && before[i].href == scheme + "://" + host;
          assert urls[i] == before[i];
        } else if Offers(before, UrlOf(last, scheme, lanDomain).href) {
          assert urls == before;
        } else {
          assert urls[|before|].href == scheme + "://" + host;
        }
      }
      forall url | url in urls
        ensures exists host :: host in hosts && IsPlainHost(host) && url == UrlOf(host, scheme, lanDomain)
      {
        if url in before {
          var host :| host in front && IsPlainHost(host) && url == UrlOf(host, scheme, lanDomain);
          assert host in hosts;
        } else {
          assert last in hosts;
        }
      }
    }
  }

  predicate IsHostChar(c: char) {
    IsAlphanumeric(c) || c == '-' || c == '.'
  }

  /** Each character of the host is a dot or belongs to one of its labels. */
  lemma {:induction false} HostCharacters(host: string)
    requires forall k | 0 <= k < |SplitOn(host, '.')| ::
               forall j | 0 <= j < |SplitOn(host, '.')[k]| :: IsHostChar(SplitOn(host, '.')[k][j])
    ensures forall i | 0 <= i < |host| :: IsHostChar(host[i])
  {
    if host != "" {
      var rest, labels := SplitOn(host[1..], '.'), SplitOn(host, '.');
      forall k | 0 <= k < |rest| ensures forall j | 0 <= j < |rest[k]| :: IsHostChar(rest[k][j]) {
        if host[0] == '.' {
          assert labels[k + 1] == rest[k];
        } else if k == 0 {
          assert forall j | 0 <= j < |rest[0]| :: labels[0][j + 1] == rest[0][j];
        } else {
          assert labels[k] == rest[k];
        }
      }
      HostCharacters(host[1..]);
      assert host[0] != '.' ==> labels[0][0] == host[0];
      assert forall i | 0 < i < |host| :: host[i] == host[1..][i - 1];
    }
  }

  /** A plain host is only letters, digits, hyphens and dots: it cannot end the authority early. */
  lemma PlainHostCharacters(host: string)
    requires IsPlainHost(host)
    ensures host != "" && forall i | 0 <= i < |host| :: IsHostChar(host[i])
  {
    assert IsPlainLabel(SplitOn(host, '.')[0]);
    HostCharacters(host);
  }

  // ── Domains ──────────────────────────────────────────────────────────────────────────────────

  predicate IsDots(s: string) {
    forall i | 0 <= i < |s| :: s[i] == '.'
  }

  function Labels(host: string): seq<string> {
    NonEmpty(SplitOn(host, '.'))
  }

  /** The labels on either side of a dot. */
  lemma LabelsBoth(a: string, b: string)
    ensures Labels(a + ("." + b)) == Labels(a) + Labels(b)
  {
    hide SplitOn, NonEmpty;
    SplitOnBoth(a, b, '.');
    NonEmptyBoth(SplitOn(a, '.'), SplitOn(b, '.'));
  }

  lemma OneLabel(a: string)
    requires '.' !in a
    ensures Labels(a) == if a == "" then [] else [a]
  {
    hide SplitOn;
    SplitOnNone(a, '.');
    NonEmptyOne(a);
  }

  lemma NonEmptyOne(a: string)
    ensures NonEmpty([a]) == if a == "" then [] else [a]
  {
    assert [a][1..] == [];
  }

  lemma {:induction false} DotsHaveNoLabel(dots: string)
    requires IsDots(dots)
    ensures Labels(dots) == []
  {
    hide Labels;
    if dots == "" {
      OneLabel("");
    } else {
      DotsHaveNoLabel(dots[1..]);
      OneLabel("");
      assert dots == "" + ("." + dots[1..]);
      LabelsBoth("", dots[1..]);
    }
  }

  lemma LabelThenDots(a: string, dots: string)
    requires a != "" && '.' !in a && IsDots(dots)
    ensures Labels(a + dots) == [a]
  {
    hide Labels;
    OneLabel(a);
    if dots == "" {
      assert a + dots == a;
    } else {
      assert a + dots == a + ("." + dots[1..]);
      LabelsBoth(a, dots[1..]);
      DotsHaveNoLabel(dots[1..]);
    }
  }

  /** A label at the end, after a dot or at the start. */
  lemma LastLabel(front: string, a: string, dots: string)
    requires a != "" && '.' !in a && IsDots(dots) && (front == "" || front[|front| - 1] == '.')
    ensures Labels(front + (a + dots)) == Labels(front) + [a]
  {
    hide Labels;
    LabelThenDots(a, dots);
    OneLabel("");
    if front == "" {
      assert front + (a + dots) == a + dots;
    } else {
      var before := front[..|front| - 1];
      assert front == before + ("." + "") && front + (a + dots) == before + ("." + (a + dots));
      LabelsBoth(before, "");
      LabelsBoth(before, a + dots);
      assert Labels(before) + [] == Labels(before);
    }
  }

  predicate IsDigitsAndDots(s: string) {
    forall i | 0 <= i < |s| :: '0' <= s[i] <= '9' || s[i] == '.'
  }

  predicate AreNumbers(parts: seq<string>) {
    forall i | 0 <= i < |parts| :: IsNumber(parts[i])
  }

  lemma NumbersFirst(first: string, rest: seq<string>)
    ensures AreNumbers([first] + rest) <==> IsNumber(first) && AreNumbers(rest)
  {
    hide IsNumber;
    var all := [first] + rest;
    assert all[0] == first && forall i | 0 <= i < |rest| :: all[i + 1] == rest[i];
  }

  lemma NumericLabels(host: string)
    ensures AreNumbers(Labels(host)) <==> IsDigitsAndDots(host)
  {
    hide SplitOn, AreNumbers;
    NumericParts(host);
    NumericNonEmpty(SplitOn(host, '.'));
  }

  lemma {:induction false} NumericNonEmpty(parts: seq<string>)
    ensures AreNumbers(NonEmpty(parts)) <==> AreNumbers(parts)
  {
    if parts != [] {
      NumericNonEmpty(parts[1..]);
      assert parts == [parts[0]] + parts[1..];
      NumbersFirst(parts[0], parts[1..]);
      if parts[0] != "" {
        NumbersFirst(parts[0], NonEmpty(parts[1..]));
      } else {
        assert [] + NonEmpty(parts[1..]) == NonEmpty(parts[1..]);
      }
    }
  }

  lemma {:induction false} NumericParts(host: string)
    ensures AreNumbers(SplitOn(host, '.')) <==> IsDigitsAndDots(host)
  {
    if host != "" {
      var rest := SplitOn(host[1..], '.');
      NumericParts(host[1..]);
      assert forall i | 0 < i < |host| :: host[i] == host[1..][i - 1];
      if host[0] == '.' {
        NumbersFirst("", rest);
      } else {
        assert rest == [rest[0]] + rest[1..];
        NumbersFirst(rest[0], rest[1..]);
        NumbersFirst([host[0]] + rest[0], rest[1..]);
        NumberCons(host[0], rest[0]);
      }
    }
  }

  lemma NumberCons(c: char, s: string)
    ensures IsNumber([c] + s) <==> '0' <= c <= '9' && IsNumber(s)
  {
    assert ([c] + s)[0] == c && forall i | 0 <= i < |s| :: ([c] + s)[i + 1] == s[i];
  }

  /** The domain of a host is its last two labels, however many come before them and whatever dots stand
      between or behind them; a host of digits and dots has none. */
  lemma DomainIsTheLastTwo(front: string, a: string, dots: string, b: string, end: string)
    requires a != "" && '.' !in a && b != "" && '.' !in b && dots != "" && IsDots(dots) && IsDots(end)
    requires front == "" || front[|front| - 1] == '.'
    ensures var host := front + (a + (dots + (b + end)));
            RegistrableDomain(host)
            == if forall i | 0 <= i < |host| :: '0' <= host[i] <= '9' || host[i] == '.' then "" else a + ("." + b)
  {
    hide Labels, IsNumber;
    var host := front + (a + (dots + (b + end)));
    var before := front + (a + dots);
    assert host == before + (b + end) && before[|before| - 1] == '.';
    LastLabel(before, b, end);
    LastLabel(front, a, dots);
    NumericLabels(host);
    var labels := Labels(host);
    TwoLast(Labels(front), a, b);
    assert a + "." + b == a + ("." + b);
    assert labels == NonEmpty(SplitOn(host, '.')) by { LabelsAre(host); }
  }

  lemma TwoLast(labels: seq<string>, a: string, b: string)
    ensures var all := (labels + [a]) + [b]; |all| >= 2 && all[|all| - 2] == a && all[|all| - 1] == b
  {
  }

  lemma LabelsAre(host: string)
    ensures Labels(host) == NonEmpty(SplitOn(host, '.'))
  {
  }

  /** A host of one label, or of none, has no domain. */
  lemma OneLabelHasNoDomain(front: string, a: string, end: string)
    requires '.' !in a && IsDots(front) && IsDots(end)
    ensures RegistrableDomain(front + (a + end)) == ""
  {
    hide Labels, IsNumber;
    var host := front + (a + end);
    if a == "" {
      assert IsDots(host);
      DotsHaveNoLabel(host);
    } else {
      LastLabel(front, a, end);
      DotsHaveNoLabel(front);
    }
    assert Labels(host) == NonEmpty(SplitOn(host, '.')) by { LabelsAre(host); }
  }

  // ── What a link says ─────────────────────────────────────────────────────────────────────────

  /** The first entry point that is `web` or `websecure` decides the scheme; without one there is no link. */
  lemma {:induction false} SchemeIs(before: seq<string>, entry: string, after: seq<string>)
    requires forall e | e in before :: e != "web" && e != "websecure"
    ensures entry == "websecure" ==> Scheme(before + ([entry] + after)) == Some("https")
    ensures entry == "web" ==> Scheme(before + ([entry] + after)) == Some("http")
    ensures Scheme(before) == None
  {
    if before == [] {
      assert before + ([entry] + after) == [entry] + after;
    } else {
      assert before[0] in before && forall e | e in before[1..] :: e in before;
      assert (before + ([entry] + after))[1..] == before[1..] + ([entry] + after);
      SchemeIs(before[1..], entry, after);
    }
  }

  /** Every link is its scheme and a plain host of the rule; it is on the LAN exactly if the host's domain is
      the LAN's. */
  lemma LinksAre(rule: string, before: seq<string>, entry: string, after: seq<string>, lanDomain: string, url: Url)
    returns (host: string)
    requires (forall e | e in before :: e != "web" && e != "websecure") && (entry == "web" || entry == "websecure")
    requires url in RouterLinks(rule, before + ([entry] + after), lanDomain)
    ensures host in LinkableHosts(rule) && IsPlainHost(host)
    ensures url.href == (if entry == "websecure" then "https://" else "http://") + host
    ensures url.lan <==> RegistrableDomain(host) == lanDomain
  {
    hide LinkableHosts, RegistrableDomain, IsPlainHost, Scheme, Urls, Offers, UrlOf;
    SchemeIs(before, entry, after);
    var scheme := if entry == "websecure" then "https" else "http";
    UrlsAreTheHosts(LinkableHosts(rule), scheme, lanDomain);
    host :| host in LinkableHosts(rule) && IsPlainHost(host) && url == UrlOf(host, scheme, lanDomain);
    UrlIs(host, lanDomain);
  }

  lemma UrlIs(host: string, lanDomain: string)
    ensures UrlOf(host, "https", lanDomain) == Url("https://" + host, RegistrableDomain(host) == lanDomain)
    ensures UrlOf(host, "http", lanDomain) == Url("http://" + host, RegistrableDomain(host) == lanDomain)
  {
    hide RegistrableDomain;
    assert "https" + "://" == "https://" && "http" + "://" == "http://";
  }

  /** A path covers the root if it is blank or a slash, blanks aside. */
  lemma CoversRootIs(path: string)
    ensures CoversRoot(path) <==> Strip(path) == "" || Strip(path) == "/"
  {
    var left, right := StripSplits(path);
    var inner := Strip(path);
    assert path == left + (inner + right);
    if inner == "" {
      assert path == left + right;
      assert AllSpace(path);
    } else {
      assert path[|left|] == inner[0];
      forall n | 0 <= n < |path| && path[n] == '/' && AllSpace(path[..n]) && AllSpace(path[n + 1..])
        ensures inner == "/"
      {
        OnlyTheSlash(left, inner, right, n);
      }
      if inner == "/" {
        assert path[..|left|] == left && path[|left| + 1..] == right;
      }
    }
  }

  lemma OnlyTheSlash(left: string, inner: string, right: string, n: nat)
    requires inner != "" && !IsSpace(inner[0]) && !IsSpace(inner[|inner| - 1])
    requires var path := left + (inner + right);
             n < |path| && path[n] == '/' && AllSpace(path[..n]) && AllSpace(path[n + 1..])
    ensures inner == "/"
  {
    hide IsSpace;
    var path := left + (inner + right);
    var last := |left| + |inner| - 1;
    assert forall i | 0 <= i < n :: path[i] == path[..n][i];
    assert forall i | n < i < |path| :: path[i] == path[n + 1..][i - n - 1];
    assert path[|left|] == inner[0] && path[last] == inner[|inner| - 1];
    assert |left| == n && last == n;
  }

  /** A plain host is plain labels between dots. */
  lemma PlainHostIs(a: string, b: string)
    requires '.' !in a
    ensures IsPlainHost(a) <==> IsPlainLabel(a)
    ensures IsPlainHost(a + ("." + b)) <==> IsPlainLabel(a) && IsPlainHost(b)
  {
    hide IsPlainLabel;
    SplitOnNone(a, '.');
    SplitOnBoth(a, b, '.');
    var parts, rest := SplitOn(a + ("." + b), '.'), SplitOn(b, '.');
    assert parts == [a] + rest && parts[0] == a && SplitOn(a, '.')[0] == a;
    assert forall i | 0 < i < |parts| :: parts[i] == SplitOn(b, '.')[i - 1];
    assert forall i | 0 <= i < |rest| :: SplitOn(a + ("." + b), '.')[i + 1] == rest[i];
  }

  /** ... of one to 64 letters, digits and hyphens, with no hyphen at the ends. */
  lemma PlainLabelIs(part: string)
    ensures IsPlainLabel(part)
            <==> && 1 <= |part| <= 64 && part[0] != '-' && part[|part| - 1] != '-'
                 && forall c | c in part ::
                      65 <= c as int <= 90 || 97 <= c as int <= 122 || 48 <= c as int <= 57 || c as int == 45
  {
    assert forall i | 0 <= i < |part| :: part[i] in part;
  }

  /** Links stand in the order of their hosts' first mention: more hosts only add links behind them. */
  lemma {:induction false} UrlsGrow(hosts: seq<string>, n: nat, scheme: string, lanDomain: string)
    requires n <= |hosts|
    ensures Urls(hosts[..n], scheme, lanDomain) <= Urls(hosts, scheme, lanDomain)
    decreases |hosts|
  {
    if n < |hosts| {
      var front := hosts[..|hosts| - 1];
      assert front[..n] == hosts[..n];
      UrlsGrow(front, n, scheme, lanDomain);
    } else {
      assert hosts[..n] == hosts;
    }
  }
}
