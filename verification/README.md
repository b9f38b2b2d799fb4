# Planet Express: proofs about its core protocols and algorithms

Planet Express watches and repairs a home server. This project models the parts of it where many
threads, texts or restarts meet, and proves what they keep:

- `PipelineState.dfy`, `RescanProtocol.dfy` - the run slot, the host-mutation lock and the coalesced
  "look again" wish, as a class proved against functions of its state, and every interleaving of the
  threads that share it;
- `TraefikRule.dfy`, `LaunchLinks.dfy`, `LaunchSoundness.dfy` - launch links: a textual check of a
  Traefik rule, against the rule's syntax tree and meaning;
- `RouterGroups.dfy` - the routing matrix and what folding LAN twins conserves;
- `LineDiff.dfy` - the config editor's diff;
- `EnvFile.dfy`, `EnvValue.dfy` - the environment file's parser, printer and launcher, and what its lines and
  values mean on their text alone;
- `WebAuth.dfy`, `SessionProtocol.dfy` - device tokens, elevation markers, cached epochs, and a
  passphrase reset run beside sign-ins;
- `SudoGate.dfy`, `SudoShape.dfy` - the runtime sudo gate, and exactly which commands it lets through;
- `Sudoers.dfy` - the sudoers file the wizard renders, against the gate;
- `SudoPattern.dfy`, `SudoReader.dfy`, `SudoRule.dfy`, `SudoersFile.dfy` - sudo's wildcards, and what sudo
  reads of a line, of a rule and of that file, against the gate;
- `VpnOutage.dfy` - dating an outage from a sliding log window;
- `Boot.dfy` - bringing every stack up under one time budget;
- `TelegramUpdates.dfy` - the Telegram offset across polls, lost answers and restarts;
- `RollingTail.dfy` - draining output with a memory bound;
- `Texts.dfy`, `Sorting.dfy`, `Wrappers.dfy` - what they share.

Code that works in place is a class or a method with loops, proved equal to functions; the properties
are lemmas about those functions. A concurrent protocol is a state machine whose events are single lock
acquisitions or single messages, and its theorems quantify over every run.

Run `dafny verify dfyconfig.toml` to check the project.

## Where the code falls short of its intent

Each of these is a theorem with a concrete run or input, next to the exact condition under which the
intent holds:

- a wish made during a maintenance window is not fired when the window ends (`WindowStrands`), nor one made
  before the starter is installed; these two steps strand a wish, and no other does
  (`NeverStrandedExactly`);
- a starter that raises loses the wish it was fired for (`FailedStartLosesTheWish`), and so does a request
  that joins such a start, exactly when nothing else carries the wish (`WishLostExactly`);
- the environment writer refuses a newline, a carriage return and a NUL, but its reader splits lines at
  more characters than these: a value with one of the others breaks the file (`RoundTripExactly`);
- the routing matrix's `total` loses a router when a LAN twin has a LAN twin of its own
  (`TotalIsExact`, `TotalFallsShort`);
- the wizard renders sudoers rules for unit names the gate always refuses: systemd names with a
  backslash or a blank inside, and on MOS a name with a final newline (`WhenTheyDisagree`,
  `MosDisagreesExactly`, `EscapedMountIsRenderedOnly`, `NewlineIsRenderedOnly`); a systemd name with
  blanks around it is rendered with them, and the gate answers for the name without (`BlankEnds`);
- unit names and globs are rendered as they stand, and sudo reads more in them than names. A rule reads as
  its own commands if and only if it is sound (`LineReads`): some action, a unit without `#` or newline whose
  blanks are single and inside, and no line of its glob after the first but comments. It then grants these
  and no others if and only if its unit holds no wildcard (`RuleIsExact`). So sudo grants what the gate
  refuses for a systemd unit `*` (`StarGrantsEverything`), for `nas#x`, whose rule is the rule for `nas`
  (`HashGrantsAnother`), and for a glob with a newline, whose next line is a rule of its own
  (`GlobAddsARule`). A rule without actions, or a MOS name with a final newline, makes the whole file
  unreadable (`MosNewlineIsUnreadable`), and the rule for an escaped mount name grants another name and not
  its own (`QuotingLosesTheUnit`, `MountGrantsAnother`). For every allowlist, sudo and the gate agree on a unit
  if and only if every rule can be read and no rule that is unsound or holds a wildcard reaches a command the
  gate refuses (`SudoAgreesWithGate`);
- a VPN alert lapses at the next clear when the window shows a port obtained and no clear after it; every
  other alert holds until a port is obtained (`AlertPersistsExactly`, `UndatedAlertLapses`, `UndatedRun`);
- a Telegram restart that finds something handed out unconfirmed hands it out again
  (`AtMostOnceExactly`), and so does one whose confirmation succeeded before a batch that was still on its
  way arrived (`ConfirmedYetRepeated`);
- a bounded run drops its first line even when the cut left it whole, exactly when a line starts at the cut
  and another after it (`LongestRunExactly`, `WholeFirstLineIsDropped`).

The comment at `casa_scruffy_net.py:253-256` says that a rule ending in a negated group of paths costs
its link; the code below it does offer that link, and the model follows the code.

## Model

| member | source | states |
|---|---|---|
| PipelineStates.PipelineState.RequestRescan | casa_farnsworth.py:816-832 | a request made less than 120 s after a re-scan was handed out joins it and changes nothing; any other is recorded or starts one, so a stale marker never swallows a wish |
| PipelineStates.PipelineState.RescanClaimed | casa_farnsworth.py:834-838 | only the pending marker is cleared |
| PipelineStates.PipelineState.FireRescanIfIdle | casa_farnsworth.py:840-855 | fires exactly when a wish is recorded, the pipeline is idle, nothing holds the lock, a starter is there and no window is open; then the wish is taken and marked pending |
| PipelineStates.PipelineState.Transition | casa_farnsworth.py:857-879 | the new state, and a fire exactly on a return to IDLE |
| PipelineStates.PipelineState.TryBeginMutation | casa_farnsworth.py:911-936 | taken exactly when no window, no owner, and no scan unless nested in it; otherwise nothing changes |
| PipelineStates.PipelineState.EndMutation | casa_farnsworth.py:938-962 | a release by anyone but the holder changes nothing; the holder's releases, may reset, and may fire |
| PipelineStates.PipelineState.TryStartRun | casa_farnsworth.py:964-978 | the slot is taken exactly from IDLE with the lock free and no window |
| RescanProtocol.InvKept | casa_farnsworth.py:816-978 | every step of every thread keeps slot ownership, lock ownership, the wake-up owed for a quiet wish, and a carrier for a pending re-scan |
| RescanProtocol.ExclusionAlways | casa_farnsworth.py:886-978 | in every run: one thread at most in a mutation, RUNNING exactly when one thread owns the slot, and both at once only for the prune nested in the scan |
| RescanProtocol.ReleaseIsOwn | casa_farnsworth.py:938-962 | a finishing mutation releases its own lock and never a newer one, and leaves the run slot's state alone |
| RescanProtocol.AskJoinsExactly | casa_farnsworth.py:816-832 | in the protocol too, a request joins exactly within 120 s of an unclaimed re-scan; otherwise it is recorded and its thread owes the fire |
| RescanProtocol.FireTakesTheWish | casa_farnsworth.py:840-855 | an attempt takes the wish and marks it pending from that moment exactly when nothing stands against it |
| RescanProtocol.AdmitExactly | casa_farnsworth.py:964-978 | a run is admitted exactly from IDLE with the lock free and no window; a re-scan that is turned away claims and asks again |
| RescanProtocol.NoLostWakeup | casa_farnsworth.py:840-861 | a fireable wish has no thread left to fire it exactly when a window's end or a late starter stranded it, with no thread owing, and it has been stranded since; the last attempt then met a window or no starter |
| RescanProtocol.NeverStrandedExactly | casa_farnsworth.py:840-861 | in every run, no wish is ever stranded if and only if no window ends and no late starter is installed over a quiet wish with no thread owing the fire |
| RescanProtocol.NeverStranded | casa_farnsworth.py:840-861 | with a starter installed first and no window, no fireable wish is ever left without a thread about to fire it |
| RescanProtocol.WindowStrands | casa_farnsworth.py:840-847 | a run in which the window's end leaves a fireable wish with nobody to fire it |
| RescanProtocol.NoWishLost | casa_farnsworth.py:816-855 | after every request, until a re-scan starts to look (a scan that only reports does not count), the wish is recorded or carried by a thread on its way to a look or to asking again, unless a start fails, or a request joins a failed start, with nothing else carrying the wish |
| RescanProtocol.WishLostExactly | casa_farnsworth.py:816-855 | from a request to the next look the wish is alive throughout if and only if none of those two steps is taken |
| RescanProtocol.FailedStartLosesTheWish | casa_farnsworth.py:850-855 | a run in which a raising starter loses a request |
| LaunchLinks.RouterUrls | casa_scruffy_net.py:299-326 | the loop's links are those of the plain hosts of a linkable rule |
| LaunchLinks.UrlsAreTheHosts | casa_scruffy_net.py:312-326 | the links are free of duplicates, cover every plain host, and hold nothing else |
| LaunchLinks.UrlsGrow | casa_scruffy_net.py:312-326 | links stand in the order of their hosts' first mention |
| LaunchLinks.LinksAre | casa_scruffy_net.py:299-326 | the first `web` or `websecure` entry point makes every link `http://` or `https://` and a plain host of the rule, on the LAN exactly if the host's domain is the LAN's |
| LaunchLinks.SchemeIs | casa_scruffy_net.py:306-311 | `websecure` means https and `web` http, the first of them decides, and without one there is no scheme |
| LaunchLinks.DomainIsTheLastTwo | casa_scruffy_net.py:133-144 | the domain of a host is its last two labels, whatever comes before and whatever dots stand between or behind; a host of digits and dots has none |
| LaunchLinks.OneLabelHasNoDomain | casa_scruffy_net.py:133-144 | a host of one label has no domain |
| LaunchLinks.CoversRootIs | casa_scruffy_net.py:276-285 | a path covers the root if it is empty or `/` once stripped |
| LaunchLinks.PlainHostIs | casa_scruffy_net.py:258-259 | a plain host is plain labels between single dots |
| LaunchLinks.PlainLabelIs | casa_scruffy_net.py:258-259 | a plain label is 1 to 64 ASCII letters, digits and hyphens, with no hyphen at either end |
| LaunchLinks.PlainHostCharacters | casa_scruffy_net.py:258-259 | a plain host holds no character that could end the authority part of a URL |
| LaunchSoundness.ExcludedRule | casa_scruffy_net.py:262-285 | a well-formed rule that ends in a negated group of paths, none of them the root, accepts the root of every host its left side names, however `&&` and `||` bind |
| LaunchSoundness.LinkableHostsAreServed | casa_scruffy_net.py:276-297 | every host the textual check takes from any spelling of a well-formed rule is accepted by that rule's meaning on the path `/` |
| LaunchSoundness.LinksOpen | casa_scruffy_net.py:299-326 | every URL emitted is a scheme and a host that the rule serves at its root |
| LaunchSoundness.HostRulesAreOffered | casa_scruffy_net.py:287-297 | rules of host terms, bars, parentheses and blanks lose no host: all are offered, in order |
| LaunchSoundness.ExcludedRulesAreOffered | casa_scruffy_net.py:262-297 | such a rule followed by `&& !(paths)`, however it is spaced, offers all its hosts in order if no path covers the root, and none otherwise |
| RouterGroups.GatherIs | casa_scruffy_net.py:175-194 | one pill per distinct name, holding its last entry |
| RouterGroups.GatherInOrder | casa_scruffy_net.py:175-194 | a router seen again keeps its place, a new one goes to the end |
| RouterGroups.DictsInOrder | casa_scruffy_net.py:176-178 | entries that are no routers are skipped, the others keep their order |
| RouterGroups.MergeTwin | casa_scruffy_net.py:197-212 | one twin folded into its sibling in place, or left alone as an orphan |
| RouterGroups.TwinsExactly | casa_scruffy_net.py:197 | a router is a LAN twin exactly if its name ends in `-lan` |
| RouterGroups.TwinOf | casa_scruffy_net.py:197-200 | the sibling of `x-lan@p` is `x@p` |
| RouterGroups.NoProvider | casa_scruffy_net.py:179-200 | a name without `@` has no provider, and the sibling of such a twin ends in `@` |
| RouterGroups.MergeTwins | casa_scruffy_net.py:196-212 | the loop folds the twins in the order the dictionary had before any merge |
| RouterGroups.Presence | casa_scruffy_net.py:197-211 | which pills are left after any number of twins: a router is gone exactly if it is a twin whose sibling existed and had not folded away before it |
| RouterGroups.MergingConserves | casa_scruffy_net.py:202-211 | any measure a merge moves from twin to sibling has the same sum before and after |
| RouterGroups.GroupRouters | casa_scruffy_net.py:157-240 | the whole imperative grouping equals its specification, entries that are no routers skipped |
| RouterGroups.RoutersArePartitioned | casa_scruffy_net.py:191-212 | every distinct router stands behind exactly one pill of one zone, once |
| RouterGroups.DownIsExact | casa_scruffy_net.py:186-239 | the header's `down` is the number of distinct routers whose last entry is not enabled |
| RouterGroups.TotalIsExact | casa_scruffy_net.py:203-236 | the header's `total` is the number of distinct routers if and only if no twin folds away after receiving a twin; otherwise smaller |
| RouterGroups.TotalFallsShort | casa_scruffy_net.py:203-236 | three routers for which the total is too small |
| RouterGroups.NamesAndMerged | casa_scruffy_net.py:234-239 | names shown plus merges done is the number of distinct routers |
| RouterGroups.PillIsPlaced | casa_scruffy_net.py:147-154 | every pill has the first host of its router's last entry, and is filed under that host's domain, or in the catch-all when there is none |
| RouterGroups.ZoneIsTheDomain | casa_scruffy_net.py:133-154 | so a pill whose first host ends in the labels `a.b` is in the row named `a.b`, and one with a host of digits and dots in the catch-all |
| RouterGroups.RowsAreRight | casa_scruffy_net.py:214-231 | each row holds pills of its own zone, those with a router down first and then by name; each pill's `down`, `down_count`, LAN tag and filter text speak for exactly the routers behind it |
| RouterGroups.RowsAreInOrder | casa_scruffy_net.py:232-233 | biggest zone first, then by name, the catch-all last |
| LineDiff.SplitJoin | static/config.js:272-273 | splitting at newlines and joining gives the text back |
| LineDiff.FillTable | static/config.js:275-281 | the 16-bit table holds the longest-common-subsequence length of every pair of suffixes; under the line limit no entry wraps |
| LineDiff.LcsIsLongest | static/config.js:278-279 | the number computed bounds every common subsequence and is reached by one |
| LineDiff.Script | static/config.js:282-291 | the mutable walk over the table is the greedy walk over lengths |
| LineDiff.WalkIsScript | static/config.js:285-291 | context and deleted rows spell the old text, context and added rows the new one, and the context is as long as the longest common subsequence |
| LineDiff.WalkIsMinimal | static/config.js:285-291 | no edit script keeps more lines or has fewer rows |
| LineDiff.RowsShowBothTexts | static/config.js:282-291 | a deleted row reads `- ` and a line of the old text, an added one `+ ` and a line of the new, an unchanged one two blanks and a line of both; in order, they give both texts |
| LineDiff.DeletionsComeFirst | static/config.js:285-289 | ties delete first: an added row is never followed by a deleted one |
| LineDiff.CommonStartIsKept | static/config.js:285-287 | lines both texts begin with are unchanged rows |
| LineDiff.VisibleRows | static/config.js:292-297 | exactly the rows within three of a change are visible |
| LineDiff.Collapse | static/config.js:298-305 | the visible rows in order, each maximal hidden stretch replaced by its length |
| LineDiff.CollapsingLosesNothing | static/config.js:298-305 | every added and deleted row is kept in order, and shown plus skipped rows is all rows |
| LineDiff.NotesAreApart | static/config.js:302-305 | two skip notes are never adjacent |
| LineDiff.CollapsedIsUnique | static/config.js:298-306 | the collapsed form is determined by the rows |
| LineDiff.Diff | static/config.js:271-307 | no diff exactly when a text has over 2000 lines, otherwise the collapsed minimal script, each row shown reading as its mark and a line of its text |
| LineDiff.DiffSpellsBothTexts | static/config.js:271-291 | the unmarked rows join to both texts, character for character |
| EnvFile.ParseEnv | scripts/dashboard_operators.py:35-51 | the reading loop equals its specification, error cases included |
| EnvFile.LinesText | scripts/dashboard_operators.py:57-60 | lines with their terminators spell the text |
| EnvFile.QuoteDecodes | scripts/dashboard_operators.py:79-82 | quoting, read back by the `shlex` automaton, gives any value back |
| EnvValues.ValueDecodes | scripts/dashboard_operators.py:44-50 | a value spelt out of words, each of bare text, single or double quotations and backslashed characters side by side, decodes to what the parts mean, one blank between the words |
| EnvValues.CutValueFails | scripts/dashboard_operators.py:44-50 | a value that ends inside a quotation or after a backslash is refused |
| EnvValues.EveryValue | scripts/envfile_exec.py:16-26 | every value is the one or the other, so this is all of what decoding does |
| EnvValues.BareDecodes | scripts/dashboard_operators.py:44-50 | a value without blanks, quotes or backslashes is itself |
| EnvValues.SingleDecodes | scripts/dashboard_operators.py:44-50 | single quotes keep everything between them, and must be closed |
| EnvValues.BackslashDecodes | scripts/dashboard_operators.py:44-50 | outside quotes a backslash gives the next character, and must not be the last |
| EnvValues.WordsAndParts | scripts/dashboard_operators.py:44-50 | blanks, however many, become one; parts side by side run together |
| EnvValues.AssignmentIs | scripts/dashboard_operators.py:32 | a line assigns exactly if it is blanks, a name, an equals sign and the value |
| EnvValues.NameCharacters | scripts/dashboard_operators.py:32 | the characters of a name, by code point |
| EnvValues.BreakCharacters | scripts/dashboard_operators.py:38 | the characters at which `splitlines` ends a line, by code point |
| EnvValues.LineReads | scripts/dashboard_operators.py:38-50 | such a line puts its decoded value, or is an error if the value is cut short |
| EnvValues.CommentReads | scripts/dashboard_operators.py:39-40 | blank lines and lines that begin with `#` or `;`, blanks aside, do nothing |
| EnvValues.OtherLineFails | scripts/dashboard_operators.py:41-43 | any other line is an error |
| EnvValues.LaterWins | scripts/dashboard_operators.py:38-51 | a later assignment of a name replaces an earlier one |
| EnvFile.RenderEnv | scripts/dashboard_operators.py:54-76 | the writer's two loops equal their specification |
| EnvValues.NewLineIs | scripts/dashboard_operators.py:68-82 | a written assignment is the name, an equals sign and the value between double quotes, with a backslash before each double quote and backslash in it |
| EnvFile.RenderedReads | scripts/dashboard_operators.py:54-76 | a file rendered with storable values reads as exactly those values, duplicate keys included |
| EnvFile.RoundTripExactly | scripts/dashboard_operators.py:35-82 | rendering and reading gives the values back if and only if each written key is a name and each written value holds no line break of `splitlines` and no NUL |
| EnvFile.UntouchedSurvive | scripts/dashboard_operators.py:54-76 | in the file rendered from any text that parses, comments, blank lines and unchanged assignments survive verbatim, in order, with nothing like them added among them; only the last line kept may gain a newline, when something is appended |
| EnvFile.RenderParsed | scripts/dashboard_operators.py:54-76 | writing back what was read changes no byte |
| EnvFile.KeyOfStripped | scripts/dashboard_operators.py:58-62 | the writer finds the key of a line, terminator and all, that the reader found |
| EnvFile.UniversalBodies | scripts/envfile_exec.py:18-19 | newline translation on reading changes no line |
| EnvFile.Load | scripts/envfile_exec.py:16-26 | the launcher decodes the same map as the reader, and fails exactly when it fails |
| WebAuth.FreshTokenReads | web_auth.py:119-137 | a device token reads back exactly while its age allows |
| WebAuth.FreshMarkerReads | web_auth.py:172-231 | an elevation marker reads back exactly until its window or its cap runs out |
| WebAuth.TokenReadsExactly | web_auth.py:125-137 | which token payloads read, and as what: the operator's pattern, the epoch's sign, at most 60 s ahead, and the age allowed |
| WebAuth.OperatorExactly | web_auth.py:17 | an operator's name is 1 to 32 lower-case letters, digits, dots, hyphens and underscores, by code point |
| WebAuth.IntIsTowardsZero | web_auth.py:119-122 | seconds are cut towards zero |
| WebAuth.MarkerReadsExactly | web_auth.py:195-231 | a marker reads only in its own session and under its own credential, within 3600 s of the entry and 600 s of its mint |
| WebAuth.HitsExactly | casa_scruffy.py:164-173 | a cached epoch answers for less than 60 s after it was asked |
| WebAuth.EpochCache.Epoch | casa_scruffy.py:164-173 | a cached epoch is used exactly while under a minute old and not asked afresh; a bad answer is not remembered |
| SessionProtocol.InvKept | casa_scruffy.py:164-503 | every step keeps: what a cache or answer holds was current when asked, markers carry their session's epoch, and the phases of a reset |
| SessionProtocol.RevocationTakesAMinute | casa_scruffy.py:371-383 | every token let in carries an epoch the server held less than a minute before, so from a minute after its revocation every worker refuses it |
| SessionProtocol.RevokedNeverActs | casa_scruffy.py:217-246 | an elevated action uses a token and a marker of the epoch current when it asked, or of a later one |
| SessionProtocol.RevocationEndsElevation | casa_scruffy.py:217-252 | no marker issued before a revocation, nor any refresh of it, is acted on after it |
| SessionProtocol.Provenance | casa_scruffy.py:393-405 | every marker goes back, through any chain of refreshes, to a passphrase entry in its own session |
| SessionProtocol.OnlyMintedTokens | casa_scruffy.py:371-383 | every request past a sign-in carries a token that a sign-in minted |
| SessionProtocol.StepUpExactly | casa_scruffy.py:474-478 | a step up begins exactly with a token of the current epoch, no older than 30 days |
| SessionProtocol.ElevationIsBounded | web_auth.py:172-231 | a marker is accepted only within 3600 s of a passphrase entry in its session and 600 s of the entry or refresh that minted this very marker |
| SessionProtocol.ResetEndsOldSessions | scripts/dashboard_operators.py:191-263 | once a reset returned, for every interleaving with sign-ins: every token of an earlier passphrase has a past epoch, is refused a minute later, and never acts |
| SessionProtocol.GapLeavesAToken | scripts/dashboard_operators.py:228-255 | without the second revocation a sign-in with the old passphrase leaves a current token |
| SudoGate.CheckSudoAllowlist | casa_bender.py:133-184 | no error exactly when every segment is let through; otherwise the first refused segment's |
| SudoShape.LetThroughExactly | casa_bender.py:133-184 | of a segment in which the word sudo stands anywhere, exactly what has the provider's one shape from its first to its last character, and is declared, is let through |
| SudoShape.MentionsExactly | casa_bender.py:163-165 | a segment mentions sudo exactly if the word stands in it with no word character beside it, letter case and folds aside |
| SudoShape.SystemctlExactly | casa_bender.py:61-63 | on systemd a segment names a unit and an action exactly if it is sudo, systemctl, an action and a unit with blanks between them |
| SudoShape.ServiceExactly | casa_bender.py:73-75 | on MOS exactly if it is sudo, service, a unit and an action |
| SudoShape.SudoIsSpelt | casa_bender.py:164 | the spellings of sudo, by code point, the long s included |
| SudoShape.LikeExactly | casa_bender.py:61-75 | which characters each letter of a pattern matches under `IGNORECASE`, by code point |
| SudoShape.FoldsExactly | casa_bender.py:61-75 | the four characters beyond ASCII that fall into `[A-Za-z]` under `IGNORECASE` |
| SudoShape.WordCharacters | casa_bender.py:164 | the ASCII word characters, by code point |
| SudoShape.UnitCharacters | casa_bender.py:61-75 | the characters of each provider's unit names, by code point |
| SudoShape.SeparatorCuts | casa_bender.py:107-118 | `&&`, two bars, a bar, `;` and a newline each end a segment |
| SudoShape.OnePieceExactly | casa_bender.py:107-118 | and a command without any of them is one piece |
| SudoGate.GateIsTheAllowlist | casa_bender.py:112-184 | asked about any name without a command separator, blanks included, the gate accepts exactly when the name without the blanks around it fits the provider's pattern and the allowlist declares it with the action; `SystemctlGate` and `MosGate` say what it makes of any other |
| SudoGate.MosGate | casa_bender.py:112-184 | on MOS, for any name at all: it answers for the name and the action that stand before the first separator, and lets the rest through only as commands of their own |
| SudoGate.SystemctlGate | casa_bender.py:112-184 | on systemd, for any name at all: it answers for what stands before the first separator, and lets the rest through only as commands of their own |
| Sudoers.GenerateSudoersSnippet | scripts/setup_wizard.py:119-179 | the nested loops render exactly the lines of the rules |
| Sudoers.SystemdLineIs | scripts/setup_wizard.py:110-165 | the very text of a rendered systemd line with two actions and a glob |
| Sudoers.MosLineIs | scripts/setup_wizard.py:110-157 | the very text of a rendered MOS line |
| Sudoers.EscapedIs | scripts/setup_wizard.py:100-107 | the four characters that get a backslash, by code point |
| Sudoers.GlobUnitsInOrder | scripts/setup_wizard.py:158-165 | the units a glob brings in are rendered in alphabetical order |
| Sudoers.NamesComeFirst | scripts/setup_wizard.py:149-165 | the grants by name are rendered before those of globs |
| Sudoers.RulesAre | scripts/setup_wizard.py:149-165 | which unit and action pairs have a rule, exactly |
| Sudoers.FileAgreesWithGate | scripts/setup_wizard.py:119-165 | for a discovered unit of the provider's charset, a rule is rendered if and only if the gate accepts the command |
| Sudoers.RenderedIsAccepted | scripts/setup_wizard.py:119-165 | every rendered rule for such a unit is one the gate accepts |
| Sudoers.WhenTheyDisagree | scripts/setup_wizard.py:149-165 | discovered or not, for a name without separators or blanks around it, they disagree exactly when it is declared and kept but no name to the gate, or is let through unrendered: a glob alone matches it and it was not discovered, or the wizard drops it; other names are `BlankEnds`, `SystemdDisagreesExactly` and `MosDisagreesExactly` |
| Sudoers.SystemdDisagreesExactly | scripts/setup_wizard.py:149-165 | on systemd, for any name, separators and blanks included: they disagree exactly when what is declared of the name and what the gate makes of its pieces differ |
| Sudoers.BlankEnds | scripts/setup_wizard.py:149-165 | a name with blanks around it is rendered on systemd if declared, and never on MOS; the gate answers for the name without them |
| Sudoers.MosDisagreesExactly | scripts/setup_wizard.py:149-165 | on MOS, for any allowlist and any name the wizard keeps: rule and gate disagree exactly when the name is declared and ends in a newline, or is granted by a glob alone without having been discovered |
| Sudoers.EscapedMountIsRenderedOnly | scripts/setup_wizard.py:158-165 | a backslash in a systemd name is rendered and never accepted |
| Sudoers.NewlineIsRenderedOnly | scripts/setup_wizard.py:150-154 | on MOS, whatever the allowlist and the units discovered, a name with a final newline is rendered exactly if declared, and never accepted |
| SudoPattern.PatternIsExact | scripts/setup_wizard.py:128-134 | under sudo's `fnmatch` a pattern fits its own text and nothing else if and only if it holds no `*`, no `?`, no bracket that closes and no backslash |
| SudoReader.EscapeIsInjective | scripts/setup_wizard.py:100-107 | the escaping can be undone, so no two names render alike |
| SudoRule.RuleReads | scripts/setup_wizard.py:149-165 | what any rule reads as: nothing readable without actions; else its commands with their blanks squeezed, cut to one command at the unit's first `#` or newline, and then its further lines |
| SudoRule.UnitLinesAddNothing | scripts/setup_wizard.py:100-107 | a newline in a unit adds no command: the further lines are an error, or read as the lines of the glob alone |
| SudoRule.LineReads | scripts/setup_wizard.py:110-165 | sudo reads a rendered rule as exactly its own commands, as patterns, if and only if the rule is sound |
| SudoRule.MosNewlineIsUnreadable | scripts/setup_wizard.py:150-163 | a MOS name with a final newline leaves a line that sudo cannot read |
| SudoersFile.FileIsItsRules | scripts/setup_wizard.py:166-179 | for every allowlist the file reads as its rules, one after the other |
| SudoersFile.FileReads | scripts/setup_wizard.py:149-179 | sudo reads the file as exactly the commands of its rules if and only if every rule is sound |
| SudoersFile.RuleIsExact | scripts/setup_wizard.py:119-165 | a rendered rule reads as its own commands, and grants these and no others, if and only if it is sound and its unit holds no wildcard |
| SudoersFile.RuleGrants | scripts/setup_wizard.py:119-165 | which commands on units of the provider's kind a rule grants: those its unit, cut and squeezed, fits as a pattern, for the actions that survive, and those that further lines of its glob grant |
| SudoersFile.SudoAgreesWithGate | scripts/setup_wizard.py:119-179 | for every allowlist and discovered unit of the provider's kind: the file can be read if and only if each rule can; sudo then grants what the gate accepts and, beyond it, what an unsound rule or one with a wildcard reaches; so they agree if and only if every rule can be read and no such rule reaches a refused command |
| SudoersFile.SoundAgrees | scripts/setup_wizard.py:119-179 | where every rule is sound and no unit holds a wildcard, they agree on every discovered unit of the provider's kind |
| SudoersFile.MosIsLiteral | scripts/setup_wizard.py:150-163 | on MOS no unit rendered holds a wildcard |
| SudoersFile.StarGrantsEverything | config_schema.py:99-103 | with a systemd grant to stop the unit `*`, sudo grants stopping any unit and the gate refuses it |
| SudoersFile.HashGrantsAnother | config_schema.py:99-103 | with a systemd grant for a name followed by `#`, sudo grants stopping that name and the gate refuses it |
| SudoersFile.GlobAddsARule | config_schema.py:106-110 | with a glob that holds a newline and a rule, sudo grants stopping a unit that the glob does not match and the gate refuses |
| SudoersFile.QuotingLosesTheUnit | scripts/setup_wizard.py:100-107 | a systemd rule whose unit holds a backslash or a bracket that closes, and no `*` or `?` unquoted, does not grant that unit's own command |
| VpnOutage.PortEvents | casa_leela.py:712-729 | the loop's two sorted lists are the readable obtains and clears |
| VpnOutage.CheckMissingPort | casa_leela.py:797-827 | the verdict of the log, an unreadable log alerting |
| VpnOutage.DatedFromTheStart | casa_leela.py:732-753 | an outage is dated by the first clear after the last obtain, and undated exactly when there is none |
| VpnOutage.AlertsExactly | casa_leela.py:797-827 | a missing port alerts if and only if the log dates no start younger than the grace |
| VpnOutage.RecoversExactly | casa_leela.py:812-827 | a fault that is gone when it would alert is reported as recovered, exactly then |
| VpnOutage.LaterClearsChangeNothing | casa_leela.py:732-753 | clears logged after the first never restart the clock, at that scan or a later one |
| VpnOutage.AlertPersists | casa_leela.py:732-827 | a dated outage that alerts alerts at every later scan until a port is obtained, even as the window slides |
| VpnOutage.ShortGapNeverAlerts | casa_leela.py:812-827 | a dated gap under 2.5 h is reported as within the grace |
| VpnOutage.AlertPersistsExactly | casa_leela.py:732-827 | an alert holds at every later scan until a port is obtained if and only if the window shows no port obtained, or a clear after the last one |
| VpnOutage.UndatedAlertLapses | casa_leela.py:744-753 | with a port obtained and no clear after it in the window, the next clear makes any scan younger than the grace report it as within the grace, while the window still shows the port |
| Boot.BootHost.Run | casa_boot.py:64-90 | one bounded command against the shared deadline |
| Boot.LaunchExactly | casa_boot.py:64-90 | a command is started exactly if time is left and it can be run, and ends when done, at its limit or at the deadline, whichever comes first |
| Boot.ComposeExactly | casa_boot.py:71-90 | compose gets 270 s; 127 when it cannot be run, 124 when there is no time or it is killed |
| Boot.QueryExactly | casa_boot.py:93-113 | a query gets 20 s and answers only if it exits 0 |
| Boot.BootHost.RepairDeadNamespaces | casa_boot.py:203-249 | the repair pass equals its specification |
| Boot.BootHost.BringUpAllStacks | casa_boot.py:252-351 | the imperative boot equals its specification |
| Boot.BootKeepsItsBudget | casa_boot.py:64-113 | every command started ends by the deadline, and none starts once it has passed |
| Boot.RetryFailsExactly | casa_boot.py:292-313 | a stack counts as failed exactly if no `up` of it exited 0, at first or on retry |
| Boot.ZeroExactly | casa_boot.py:292-351 | result 0 if and only if some `up` of every stack exited 0, no repair failed, and no required container of the final snapshot is stopped |
| Boot.ZeroMeansRepaired | casa_boot.py:203-249 | result 0 means every container bound to a vanished namespace was recreated |
| Boot.RepairedExactly | casa_boot.py:197-238 | the repair pass recreates exactly the containers of an active stack, neither paused nor one-off and with a service, whose mode is `container:` and 12 to 64 hex digits that no container is named by and not exactly one id begins with |
| Boot.DeadAreRecreated | casa_boot.py:197-249 | a boot that answers 0 has recreated every such container with its compose files and its service |
| Boot.OnlyTheDeadAreRecreated | casa_boot.py:197-249 | the repair pass runs a recreation only for such a container |
| Boot.RequiredExactly | casa_boot.py:160-194 | which containers the final verification requires: of an active stack, not orphaned by its file, not paused, not one-off |
| Boot.RowReads | casa_boot.py:134-150 | a row of eight tab-free fields reads as the container with these fields, the slash before its name dropped |
| Boot.RowNeedsSevenTabs | casa_boot.py:134-138 | any other number of fields is unreadable |
| Boot.RowsExactly | casa_boot.py:134-150 | the rows are the containers in order, and one bad row makes all unreadable |
| Boot.ContainersExactly | casa_boot.py:116-150 | the ids are asked for first and then inspected together; without ids there are no containers |
| Boot.UnreadableRepairFails | casa_boot.py:215-218 | a repair pass that cannot read the containers is one failure and runs nothing further |
| TelegramUpdates.TelegramClient.PollUpdates | telegram_client.py:92-106 | what arrived is handed out, and the offset is above all of it |
| TelegramUpdates.InvKept | telegram_client.py:92-121 | every step keeps the server's pending updates at or above what it has seen of the offset, and the offset above everything handed out |
| TelegramUpdates.AnswerExactly | telegram_client.py:92-106 | an answer is the oldest pending updates, 100 at most |
| TelegramUpdates.NeverTwiceInAProcess | telegram_client.py:92-106 | within a process the offset stays above everything handed out, so no update is handed out twice |
| TelegramUpdates.AtMostOnce | telegram_client.py:92-121 | over any run whose restarts find everything handed out confirmed, no update is handed out twice |
| TelegramUpdates.AtMostOnceExactly | telegram_client.py:92-121 | for every run: all its restarts found everything confirmed if and only if no way of going on without another restart ever hands an update out twice |
| TelegramUpdates.CleanExactly | casa_farnsworth.py:2911-2914 | a restart finds everything confirmed if and only if nothing of the last batch is still pending at the server |
| TelegramUpdates.ConfirmingCleans | telegram_client.py:108-121 | a confirmation that reached the server makes it so, if nothing was handed out since it was asked |
| TelegramUpdates.RepeatsOnlyTheLastBatch | telegram_client.py:108-121 | an unconfirmed restart repeats only the last batch, or what its process itself began with |
| TelegramUpdates.ConfirmedYetRepeated | casa_farnsworth.py:2911-2914 | a run in which the confirmation succeeds and an update is still handed out twice |
| RollingTail.Drain | casa_bender.py:281-293 | for every cutting of a stream into chunks: its newest bytes, and whether any were lost |
| RollingTail.ShownIsWholeLines | casa_bender.py:309-313 | without an overflow, everything; after one, the longest run of last lines shorter than the bound, or the newest bytes when they hold no newline |
| RollingTail.LongestRunExactly | casa_bender.py:309-313 | when whole lines fit, an overflowing run shows the longest run of them within the bound unless a line starts at the cut and another after it |
| RollingTail.WholeFirstLineIsDropped | casa_bender.py:309-313 | a first line that the cut left whole is dropped too |

## Left out

- Threads: a worker that dies is not an event; a starter that raises is. A scan's phases after its look, the reports it sends and the waiting between two tries are not modelled.
- `EXECUTING`: no shown code enters it.
- `_persist`, logging and message texts, the messages of refused admissions included.
- The diff's skip rows carry a count; their wording is not modelled.
- Traefik: double-quoted and backquoted strings have no escapes; matchers other than `Host`, `Path` and `PathPrefix` mean anything; which router wins a request is not modelled. `link_pills`, `container_urls` and declared links are not part of this model.
- Router grouping: tags, and a sort's treatment of letters beyond code point order, are not modelled; a router's filter text is an input in lower case.
- Host labels: `str.isdigit` is modelled on ASCII digits.
- `_get_traefik_list`: paging ends because the page number grows; nothing else is claimed there.
- `apply_operator_change`, reading the passphrase and writing the file atomically are not part of this model; a reset is its four effects.
- Sessions: one operator, one reset at a time, a clock that does not go back; hearing the epoch and acting on it are one step; signatures and fingerprints are modelled as the payloads they cover; lockout, TOTP and CSRF checks only remove behaviour and are left out.
- The store behind `revoke_devices.py` is not part of this model; a revocation raises the epoch by one.
- `fnmatch` is a parameter of both the wizard and the gate.
- Word characters beyond ASCII in the gate's search for the word `sudo`: the model's search finds the word where the code's also does, and beside such letters too.
- The sudoers header: one comment line stands for the six.
- Sudo's wildcards: character classes such as `[:alpha:]`, and letter case, are not modelled; a command is compared as one text, path and arguments together.
- Sudo's reader: a line that is neither blank, a comment nor of the wizard's own form counts as an error, so directives (`#include` among the comments), aliases, continued lines and the rules of other users, which a newline in a glob could bring in, are not read; the user's name holds no blank, `#` or newline.
- VPN: a port that gluetun still reports, and the mismatch with qBittorrent, are not part of this model; finding the container and reading the log are inputs.
- Boot: the dependency-graph order, argument lists beyond the files and the service, and the time between working out a timeout and starting the command are not modelled.
- Telegram: update numbers only grow; a request of a process that has died does not arrive later.
- `run_argv_bounded`: launching, timeouts and UTF-8 decoding, a character cut at the front included.
