/**
 The config editor's line diff: a table of longest-common-subsequence lengths over suffixes, a
 greedy walk that reads an edit script off it, and the collapsing of unchanged stretches.
 */
module LineDiff {
  import opened Texts
  import opened Wrappers

  datatype Kind = Context | Del | Add

  datatype Row = Row(kind: Kind, text: string)

  /** What the dialog shows: a row, or a note that `count` unchanged rows were left out. */
  datatype Shown = Line(row: Row) | Skip(count: nat)

  const MAX_LINES := 2000
  const UINT16 := 0x1_0000
  const MARGIN := 3

  function Mark(kind: Kind): string {
    match kind
    case Context => "  "
    case Del => "- "
    case Add => "+ "
  }

  function Marked(kind: Kind, line: string): Row {
    Row(kind, Mark(kind) + line)
  }

  function Max(x: nat, y: nat): nat {
    if x >= y then x else y
  }

  // ── Lines ────────────────────────────────────────────────────────────────────────────────────

  function Split(text: string): (lines: seq<string>)
    ensures |lines| > 0
  {
    SplitOn(text, '\n')
  }

  function Join(lines: seq<string>): string
    requires |lines| > 0
  {
    if |lines| == 1 then lines[0] else lines[0] + "\n" + Join(lines[1..])
  }

  /** Splitting loses nothing and leaves no newline inside a line. */
  lemma {:induction false} SplitJoin(text: string)
    ensures Join(Split(text)) == text
    ensures forall line | line in Split(text) :: '\n' !in line
  {
    if text != "" {
      SplitJoin(text[1..]);
      var rest := Split(text[1..]);
      if text[0] == '\n' {
        assert Split(text)[1..] == rest;
      } else {
        assert Split(text)[1..] == rest[1..];
      }
    }
  }

  // ── Common subsequences ──────────────────────────────────────────────────────────────────────

  /** `c` is `a` with some lines struck out. */
  ghost predicate Subsequence(c: seq<string>, a: seq<string>) {
    c == [] || (a != [] && ((c[0] == a[0] && Subsequence(c[1..], a[1..])) || Subsequence(c, a[1..])))
  }

  ghost predicate Common(c: seq<string>, a: seq<string>, b: seq<string>) {
    Subsequence(c, a) && Subsequence(c, b)
  }

  function Lcs(a: seq<string>, b: seq<string>): nat {
    if a == [] || b == [] then 0
    else if a[0] == b[0] then Lcs(a[1..], b[1..]) + 1
    else Max(Lcs(a[1..], b), Lcs(a, b[1..]))
  }

  lemma {:induction false} DropFirst(c: seq<string>, a: seq<string>)
    requires c != [] && Subsequence(c, a)
    ensures Subsequence(c[1..], a)
    ensures c[0] == a[0] ==> Subsequence(c[1..], a[1..])
  {
    if Subsequence(c, a[1..]) {
      DropFirst(c, a[1..]);
    }
  }

  lemma {:induction false} LcsIsUpperBound(c: seq<string>, a: seq<string>, b: seq<string>)
    requires Common(c, a, b)
    ensures |c| <= Lcs(a, b)
    decreases |a| + |b|
  {
    if c != [] {
      if a[0] == b[0] {
        if c[0] == a[0] {
          DropFirst(c, a);
          DropFirst(c, b);
          LcsIsUpperBound(c[1..], a[1..], b[1..]);
        } else {
          LcsIsUpperBound(c, a[1..], b[1..]);
        }
      } else if Subsequence(c, a[1..]) {
        LcsIsUpperBound(c, a[1..], b);
      } else {
        LcsIsUpperBound(c, a, b[1..]);
      }
    }
  }

  lemma {:induction false} LcsBounds(a: seq<string>, b: seq<string>)
    ensures Lcs(a, b) <= |a| && Lcs(a, b) <= |b|
    decreases |a| + |b|
  {
    if a != [] && b != [] {
      LcsBounds(a[1..], b[1..]);
      LcsBounds(a[1..], b);
      LcsBounds(a, b[1..]);
    }
  }

  // ── Edit scripts ─────────────────────────────────────────────────────────────────────────────

  /** The lines, without their marks, of the rows of the given kinds, in order. */
  function Spelled(rows: seq<Row>, kinds: set<Kind>): seq<string> {
    if rows == [] then []
    else if rows[0].kind in kinds && |rows[0].text| >= 2 then [rows[0].text[2..]] + Spelled(rows[1..], kinds)
    else Spelled(rows[1..], kinds)
  }

  /** Keeping the context rows and dropping the others turns `left` into `right`. */
  ghost predicate IsScript(rows: seq<Row>, left: seq<string>, right: seq<string>) {
    && (forall row | row in rows :: |row.text| >= 2 && row.text[..2] == Mark(row.kind))
    && Spelled(rows, {Context, Del}) == left
    && Spelled(rows, {Context, Add}) == right
  }

  function Kept(rows: seq<Row>): seq<string> {
    Spelled(rows, {Context})
  }

  /** The walk: equal lines are context, otherwise drop the line whose loss costs no common line. */
  function Walk(a: seq<string>, b: seq<string>): seq<Row> {
    if a == [] && b == [] then []
    else if b == [] then [Marked(Del, a[0])] + Walk(a[1..], b)
    else if a == [] then [Marked(Add, b[0])] + Walk(a, b[1..])
    else if a[0] == b[0] then [Marked(Context, a[0])] + Walk(a[1..], b[1..])
    else if Lcs(a[1..], b) >= Lcs(a, b[1..]) then [Marked(Del, a[0])] + Walk(a[1..], b)
    else [Marked(Add, b[0])] + Walk(a, b[1..])
  }

  lemma ScriptCons(kind: Kind, line: string, rows: seq<Row>, left: seq<string>, right: seq<string>)
    requires IsScript(rows, left, right)
    ensures IsScript([Marked(kind, line)] + rows, if kind.Add? then left else [line] + left,
                                                 if kind.Del? then right else [line] + right)
    ensures |Kept([Marked(kind, line)] + rows)| == |Kept(rows)| + if kind.Context? then 1 else 0
  {
    var row := Marked(kind, line);
    assert row.text[..2] == Mark(kind) && row.text[2..] == line;
    assert ([row] + rows)[1..] == rows;
  }

  lemma {:induction false} WalkIsScript(a: seq<string>, b: seq<string>)
    ensures IsScript(Walk(a, b), a, b)
    ensures |Kept(Walk(a, b))| == Lcs(a, b)
    decreases |a| + |b|
  {
    assert a != [] ==> a == [a[0]] + a[1..];
    assert b != [] ==> b == [b[0]] + b[1..];
    if a == [] && b == [] {
    } else if a != [] && b != [] && a[0] == b[0] {
      WalkIsScript(a[1..], b[1..]);
      ScriptCons(Context, a[0], Walk(a[1..], b[1..]), a[1..], b[1..]);
    } else if b == [] || (a != [] && Lcs(a[1..], b) >= Lcs(a, b[1..])) {
      WalkIsScript(a[1..], b);
      ScriptCons(Del, a[0], Walk(a[1..], b), a[1..], b);
    } else {
      WalkIsScript(a, b[1..]);
      ScriptCons(Add, b[0], Walk(a, b[1..]), a, b[1..]);
    }
  }

  lemma {:induction false} KeptIsSubsequence(rows: seq<Row>, kinds: set<Kind>)
    requires Context in kinds
    ensures Subsequence(Kept(rows), Spelled(rows, kinds))
  {
    if rows != [] {
      KeptIsSubsequence(rows[1..], kinds);
    }
  }

  lemma {:induction false} RowCount(rows: seq<Row>)
    requires forall row | row in rows :: |row.text| >= 2
    ensures |rows| == |Spelled(rows, {Context, Del})| + |Spelled(rows, {Context, Add})| - |Kept(rows)|
  {
    if rows != [] {
      assert |rows[0].text| >= 2;
      RowCount(rows[1..]);
      match rows[0].kind
      case Context =>
      case Del =>
      case Add =>
    }
  }

  /** No edit script keeps more lines than the walk's, and none has fewer rows. */
  lemma WalkIsMinimal(rows: seq<Row>, left: seq<string>, right: seq<string>)
    requires IsScript(rows, left, right)
    ensures |Kept(rows)| <= |Kept(Walk(left, right))|
    ensures |Walk(left, right)| <= |rows|
  {
    KeptIsSubsequence(rows, {Context, Del});
    KeptIsSubsequence(rows, {Context, Add});
    LcsIsUpperBound(Kept(rows), left, right);
    WalkIsScript(left, right);
    RowCount(rows);
    RowCount(Walk(left, right));
  }

  /** `Lcs` is the longest: it bounds every common subsequence, and the walk's context is one. */
  lemma LcsIsLongest(a: seq<string>, b: seq<string>)
    ensures forall c | Common(c, a, b) :: |c| <= Lcs(a, b)
    ensures Common(Kept(Walk(a, b)), a, b) && |Kept(Walk(a, b))| == Lcs(a, b)
  {
    forall c | Common(c, a, b)
      ensures |c| <= Lcs(a, b)
    {
      LcsIsUpperBound(c, a, b);
    }
    WalkIsScript(a, b);
    KeptIsSubsequence(Walk(a, b), {Context, Del});
    KeptIsSubsequence(Walk(a, b), {Context, Add});
  }

  lemma LcsGrows(a: seq<string>, b: seq<string>)
    requires b != []
    ensures Lcs(a, b[1..]) <= Lcs(a, b)
  {
    LcsIsLongest(a, b[1..]);
    var c := Kept(Walk(a, b[1..]));
    assert Common(c, a, b);
    LcsIsUpperBound(c, a, b);
  }

  predicate StartsWithDel(rows: seq<Row>) {
    rows != [] && rows[0].kind.Del?
  }

  /** After an addition that was preferred to a deletion, no deletion follows. */
  lemma NoDelAfterAdd(a: seq<string>, b: seq<string>)
    requires b != [] && (a == [] || (a[0] != b[0] && Lcs(a[1..], b) < Lcs(a, b[1..])))
    ensures !StartsWithDel(Walk(a, b[1..]))
  {
    if a != [] {
      LcsGrows(a[1..], b);
    }
  }

  predicate NoDelBehindAdd(rows: seq<Row>) {
    forall i | 0 <= i < |rows| - 1 && rows[i].kind.Add? :: !rows[i + 1].kind.Del?
  }

  lemma OneMoreRow(row: Row, rows: seq<Row>)
    requires NoDelBehindAdd(rows) && (row.kind.Add? ==> !StartsWithDel(rows))
    ensures NoDelBehindAdd([row] + rows)
  {
    var all := [row] + rows;
    assert forall i | 0 < i < |all| :: all[i] == rows[i - 1];
  }

  /** Between two unchanged lines all deletions come before all additions: an added row is never followed by a
      deleted one. */
  lemma {:induction false} DeletionsComeFirst(a: seq<string>, b: seq<string>)
    ensures NoDelBehindAdd(Walk(a, b))
    decreases |a| + |b|
  {
    hide Lcs, NoDelBehindAdd, Marked;
    if a == [] && b == [] {
      assert NoDelBehindAdd([]) by { NoRows(); }
    } else if a != [] && b != [] && a[0] == b[0] {
      DeletionsComeFirst(a[1..], b[1..]);
      MarkedKind(Context, a[0]);
      OneMoreRow(Marked(Context, a[0]), Walk(a[1..], b[1..]));
    } else if b == [] || (a != [] && Lcs(a[1..], b) >= Lcs(a, b[1..])) {
      DeletionsComeFirst(a[1..], b);
      MarkedKind(Del, a[0]);
      OneMoreRow(Marked(Del, a[0]), Walk(a[1..], b));
    } else {
      DeletionsComeFirst(a, b[1..]);
      NoDelAfterAdd(a, b);
      OneMoreRow(Marked(Add, b[0]), Walk(a, b[1..]));
    }
  }

  lemma NoRows()
    ensures NoDelBehindAdd([])
  {
  }

  lemma MarkedKind(kind: Kind, line: string)
    ensures Marked(kind, line).kind == kind
  {
  }

  lemma StartContext(line: string, a: seq<string>, b: seq<string>)
    ensures Walk([line] + a, [line] + b) == [Row(Context, "  " + line)] + Walk(a, b)
  {
    hide Lcs;
    assert ([line] + a)[1..] == a && ([line] + b)[1..] == b;
  }

  /** Lines that both texts begin with are unchanged. */
  lemma {:induction false} CommonStartIsKept(start: seq<string>, a: seq<string>, b: seq<string>)
    ensures var rows := Walk(start + a, start + b);
            && |rows| >= |start| && rows[|start|..] == Walk(a, b)
            && forall i | 0 <= i < |start| :: rows[i] == Row(Context, "  " + start[i])
  {
    hide Walk;
    if start == [] {
      assert start + a == a && start + b == b;
    } else {
      CommonStartIsKept(start[1..], a, b);
      StartContext(start[0], start[1..] + a, start[1..] + b);
      assert start + a == [start[0]] + (start[1..] + a) && start + b == [start[0]] + (start[1..] + b);
    }
  }

  // ── The diff itself ──────────────────────────────────────────────────────────────────────────

  /** What the table holds at row `i`, column `j`. */
  function At(left: seq<string>, right: seq<string>, i: nat, j: nat): nat
    requires i <= |left| && j <= |right|
  {
    Lcs(left[i..], right[j..])
  }

  lemma AtStep(left: seq<string>, right: seq<string>, i: nat, j: nat)
    requires i < |left| && j < |right|
    ensures At(left, right, i, j) == if left[i] == right[j] then At(left, right, i + 1, j + 1) + 1
                                     else Max(At(left, right, i + 1, j), At(left, right, i, j + 1))
    ensures At(left, right, i, j) <= |left|
  {
    assert left[i..][1..] == left[i + 1..] && right[j..][1..] == right[j + 1..];
    LcsBounds(left[i..], right[j..]);
  }

  /** The rows still to be walked from line `i` of the old text and line `j` of the new one. */
  function Rest(left: seq<string>, right: seq<string>, i: nat, j: nat): seq<Row>
    requires i <= |left| && j <= |right|
  {
    Walk(left[i..], right[j..])
  }

  lemma RestStep(rows: seq<Row>, left: seq<string>, right: seq<string>, i: nat, j: nat)
    requires i <= |left| && j <= |right| && (i < |left| || j < |right|)
    ensures rows + Rest(left, right, i, j) ==
              if j == |right| then rows + [Marked(Del, left[i])] + Rest(left, right, i + 1, j)
              else if i == |left| then rows + [Marked(Add, right[j])] + Rest(left, right, i, j + 1)
              else if left[i] == right[j] then rows + [Marked(Context, left[i])] + Rest(left, right, i + 1, j + 1)
              else if At(left, right, i + 1, j) >= At(left, right, i, j + 1)
              then rows + [Marked(Del, left[i])] + Rest(left, right, i + 1, j)
              else rows + [Marked(Add, right[j])] + Rest(left, right, i, j + 1)
  {
    assert i < |left| ==> left[i..][1..] == left[i + 1..];
    assert j < |right| ==> right[j..][1..] == right[j + 1..];
  }

  ghost predicate IsTable(table: array2<int>, left: seq<string>, right: seq<string>)
    reads table
  {
    && table.Length0 == |left| + 1 && table.Length1 == |right| + 1
    && forall i, j | 0 <= i <= |left| && 0 <= j <= |right| :: table[i, j] == At(left, right, i, j)
  }

  /** Fills the table bottom up. Entries are 16-bit in the editor; under the line limit the
      truncation never changes one. */
  method FillTable(left: seq<string>, right: seq<string>) returns (table: array2<int>)
    requires |left| <= MAX_LINES && |right| <= MAX_LINES
    ensures fresh(table) && IsTable(table, left, right)
  {
    table := new int[|left| + 1, |right| + 1]((_, _) => 0);
    var i := |left|;
    while i > 0
      invariant 0 <= i <= |left|
      invariant forall x, y | i <= x <= |left| && 0 <= y <= |right| :: table[x, y] == At(left, right, x, y)
      invariant forall x | 0 <= x <= |left| :: table[x, |right|] == 0
    {
      i := i - 1;
      var j := |right|;
      while j > 0
        invariant 0 <= j <= |right|
        invariant forall x, y | i < x <= |left| && 0 <= y <= |right| :: table[x, y] == At(left, right, x, y)
        invariant forall x | 0 <= x <= |left| :: table[x, |right|] == 0
        invariant forall y | j <= y <= |right| :: table[i, y] == At(left, right, i, y)
      {
        j := j - 1;
        AtStep(left, right, i, j);
        table[i, j] := (if left[i] == right[j] then table[i + 1, j + 1] + 1
                        else if table[i + 1, j] >= table[i, j + 1] then table[i + 1, j]
                        else table[i, j + 1]) % UINT16;
      }
    }
  }

  lemma RestEnds(rows: seq<Row>, left: seq<string>, right: seq<string>)
    ensures [] + Rest(left, right, 0, 0) == Walk(left, right)
    ensures rows + Rest(left, right, |left|, |right|) == rows
  {
    assert left[0..] == left && right[0..] == right;
  }

  method Script(left: seq<string>, right: seq<string>) returns (rows: seq<Row>)
    requires |left| <= MAX_LINES && |right| <= MAX_LINES
    ensures rows == Walk(left, right)
  {
    hide Walk, Rest, Marked, At;
    var table := FillTable(left, right);
    var i, j := 0, 0;
    rows := [];
    RestEnds(rows, left, right);
    while i < |left| && j < |right|
      invariant i <= |left| && j <= |right|
      invariant IsTable(table, left, right)
      invariant rows + Rest(left, right, i, j) == Walk(left, right)
    {
      RestStep(rows, left, right, i, j);
      if left[i] == right[j] {
        rows := rows + [Marked(Context, left[i])];
        i, j := i + 1, j + 1;
      } else if table[i + 1, j] >= table[i, j + 1] {
        rows := rows + [Marked(Del, left[i])];
        i := i + 1;
      } else {
        rows := rows + [Marked(Add, right[j])];
        j := j + 1;
      }
    }
    while i < |left|
      invariant i <= |left| && j <= |right| && (i == |left| || j == |right|)
      invariant rows + Rest(left, right, i, j) == Walk(left, right)
    {
      RestStep(rows, left, right, i, j);
      rows := rows + [Marked(Del, left[i])];
      i := i + 1;
    }
    while j < |right|
      invariant j <= |right|
      invariant rows + Rest(left, right, i, j) == Walk(left, right)
    {
      RestStep(rows, left, right, i, j);
      rows := rows + [Marked(Add, right[j])];
      j := j + 1;
    }
    RestEnds(rows, left, right);
  }

  // ── Collapsing ───────────────────────────────────────────────────────────────────────────────

  ghost predicate NearChange(rows: seq<Row>, n: nat, at: int)
    requires n <= |rows|
  {
    exists k :: 0 <= k < n && !rows[k].kind.Context? && k - MARGIN <= at <= k + MARGIN
  }

  ghost predicate NearOneMore(rows: seq<Row>, n: nat, at: int)
    requires n < |rows|
  {
    NearChange(rows, n + 1, at) <==>
    NearChange(rows, n, at) || (!rows[n].kind.Context? && n - MARGIN <= at <= n + MARGIN)
  }

  lemma NearStep(rows: seq<Row>, n: nat, at: int)
    requires n < |rows|
    ensures NearOneMore(rows, n, at)
  {
    if NearChange(rows, n, at) {
      var k :| 0 <= k < n && !rows[k].kind.Context? && k - MARGIN <= at <= k + MARGIN;
      assert NearChange(rows, n + 1, at);
    }
  }

  /** A row is shown when a change is at most three rows away. */
  ghost predicate Visible(rows: seq<Row>, at: int) {
    NearChange(rows, |rows|, at)
  }

  /** `shown` is what the first `n` rows collapse to: visible rows verbatim, and each maximal
      stretch of hidden ones replaced by its length. */
  ghost predicate Collapses(shown: seq<Shown>, rows: seq<Row>, n: nat)
    requires n <= |rows|
    decreases |shown|
  {
    if shown == [] then n == 0
    else
      var before := shown[..|shown| - 1];
      match shown[|shown| - 1]
      case Line(row) => n > 0 && Visible(rows, n - 1) && row == rows[n - 1] && Collapses(before, rows, n - 1)
      case Skip(count) =>
        && 0 < count <= n
        && (forall k | n - count <= k < n :: !Visible(rows, k))
        && (before == [] || before[|before| - 1].Line?)
        && Collapses(before, rows, n - count)
  }

  lemma CollapsesAppend(shown: seq<Shown>, rows: seq<Row>, n: nat, next: Shown)
    requires n <= |rows| && Collapses(shown, rows, n)
    requires match next
             case Line(row) => n < |rows| && Visible(rows, n) && row == rows[n]
             case Skip(count) =>
               && 0 < count <= |rows| - n && (forall k | n <= k < n + count :: !Visible(rows, k))
               && (shown == [] || shown[|shown| - 1].Line?)
    ensures Collapses(shown + [next], rows, n + if next.Line? then 1 else next.count)
  {
    assert (shown + [next])[..|shown|] == shown;
  }

  method VisibleRows(rows: seq<Row>) returns (visible: set<int>)
    ensures forall at :: at in visible <==> 0 <= at < |rows| && Visible(rows, at)
    ensures forall at :: at in visible
              <==> 0 <= at < |rows| && exists k :: 0 <= k < |rows| && rows[k].kind != Context && k - 3 <= at <= k + 3
  {
    visible := {};
    for index := 0 to |rows|
      invariant forall at :: at in visible <==> 0 <= at < |rows| && NearChange(rows, index, at)
    {
      if rows[index].kind != Context {
        var low := if index >= MARGIN then index - MARGIN else 0;
        var high := if index + MARGIN < |rows| then index + MARGIN else |rows| - 1;
        for at := low to high + 1
          invariant forall x :: x in visible <==> low <= x < at || (0 <= x < |rows| && NearChange(rows, index, x))
        {
          visible := visible + {at};
        }
      }
      forall at ensures NearOneMore(rows, index, at) {
        NearStep(rows, index, at);
      }
    }
  }

  lemma NothingCollapsed(rows: seq<Row>)
    ensures Collapses([], rows, 0)
  {
  }

  method Collapse(rows: seq<Row>) returns (collapsed: seq<Shown>)
    ensures Collapses(collapsed, rows, |rows|)
  {
    hide Collapses, Visible;
    var visible := VisibleRows(rows);
    collapsed := [];
    NothingCollapsed(rows);
    var skipped := 0;
    for index := 0 to |rows|
      invariant 0 <= skipped <= index
      invariant Collapses(collapsed, rows, index - skipped)
      invariant forall k | index - skipped <= k < index :: !Visible(rows, k)
      invariant collapsed == [] || collapsed[|collapsed| - 1].Line?
    {
      if index !in visible {
        skipped := skipped + 1;
      } else {
        if skipped != 0 {
          CollapsesAppend(collapsed, rows, index - skipped, Skip(skipped));
          collapsed := collapsed + [Skip(skipped)];
          skipped := 0;
        }
        CollapsesAppend(collapsed, rows, index, Line(rows[index]));
        collapsed := collapsed + [Line(rows[index])];
      }
    }
    if skipped != 0 {
      CollapsesAppend(collapsed, rows, |rows| - skipped, Skip(skipped));
      collapsed := collapsed + [Skip(skipped)];
    }
  }

  function Changes(rows: seq<Row>): seq<Row> {
    if rows == [] then []
    else Changes(rows[..|rows| - 1]) + if rows[|rows| - 1].kind.Context? then [] else [rows[|rows| - 1]]
  }

  function Rows(shown: seq<Shown>): seq<Row> {
    if shown == [] then []
    else Rows(shown[..|shown| - 1]) + if shown[|shown| - 1].Line? then [shown[|shown| - 1].row] else []
  }

  function Skipped(shown: seq<Shown>): nat {
    if shown == [] then 0
    else Skipped(shown[..|shown| - 1]) + if shown[|shown| - 1].Line? then 0 else shown[|shown| - 1].count
  }

  lemma {:induction false} ChangesOfContext(rows: seq<Row>, n: nat, m: nat)
    requires n <= m <= |rows| && forall k | n <= k < m :: rows[k].kind.Context?
    ensures Changes(rows[..m]) == Changes(rows[..n])
  {
    if n < m {
      ChangesOfContext(rows, n, m - 1);
      assert rows[..m][..m - 1] == rows[..m - 1];
    }
  }

  lemma ChangesOfOneMore(rows: seq<Row>, n: nat)
    requires n < |rows|
    ensures Changes(rows[..n + 1]) == Changes(rows[..n]) + if rows[n].kind.Context? then [] else [rows[n]]
  {
    assert rows[..n + 1][..n] == rows[..n];
  }

  lemma RowsOfOneMore(shown: seq<Shown>)
    requires shown != [] && shown[|shown| - 1].Line?
    ensures var row := shown[|shown| - 1].row;
            Changes(Rows(shown)) == Changes(Rows(shown[..|shown| - 1])) + if row.kind.Context? then [] else [row]
  {
    var before := Rows(shown[..|shown| - 1]);
    assert Rows(shown)[..|before|] == before;
  }

  /** Collapsing keeps every added and deleted row, in order, and accounts for every row. */
  lemma {:induction false} CollapsingLosesNothing(shown: seq<Shown>, rows: seq<Row>, n: nat)
    requires n <= |rows| && Collapses(shown, rows, n)
    ensures Changes(Rows(shown)) == Changes(rows[..n])
    ensures |Rows(shown)| + Skipped(shown) == n
    decreases |shown|
  {
    if shown != [] {
      var before, last := shown[..|shown| - 1], shown[|shown| - 1];
      var m := n - if last.Line? then 1 else last.count;
      CollapsingLosesNothing(before, rows, m);
      if last.Line? {
        ChangesOfOneMore(rows, m);
        RowsOfOneMore(shown);
      } else {
        forall k | m <= k < n ensures rows[k].kind.Context? {
          assert !Visible(rows, k);
        }
        ChangesOfContext(rows, m, n);
        assert Rows(shown) == Rows(before);
      }
    }
  }

  /** Two notes are never adjacent. */
  lemma {:induction false} NotesAreApart(shown: seq<Shown>, rows: seq<Row>, n: nat, i: nat)
    requires n <= |rows| && Collapses(shown, rows, n) && i + 1 < |shown|
    ensures shown[i].Line? || shown[i + 1].Line?
    decreases |shown|
  {
    if i + 2 < |shown| {
      var last := shown[|shown| - 1];
      NotesAreApart(shown[..|shown| - 1], rows, n - if last.Line? then 1 else last.count, i);
    }
  }

  lemma NoteIsMaximal(shown: seq<Shown>, rows: seq<Row>, n: nat)
    requires n <= |rows| && Collapses(shown, rows, n) && shown != [] && shown[|shown| - 1].Skip?
    ensures n == shown[|shown| - 1].count || Visible(rows, n - shown[|shown| - 1].count - 1)
  {
    var before := shown[..|shown| - 1];
    assert before != [] ==> before[|before| - 1].Line?;
  }

  /** The collapsed form is determined by the rows. */
  lemma {:induction false} CollapsedIsUnique(s: seq<Shown>, t: seq<Shown>, rows: seq<Row>, n: nat)
    requires n <= |rows| && Collapses(s, rows, n) && Collapses(t, rows, n)
    ensures s == t
    decreases |s|
  {
    if s == [] || t == [] {
    } else {
      var x, y := s[|s| - 1], t[|t| - 1];
      var s', t' := s[..|s| - 1], t[..|t| - 1];
      if x.Skip? && y.Skip? {
        NoteIsMaximal(s, rows, n);
        NoteIsMaximal(t, rows, n);
      }
      CollapsedIsUnique(s', t', rows, n - if x.Line? then 1 else x.count);
      assert s == s' + [x] && t == t' + [y];
    }
  }

  /** The text of each row: two characters that say what becomes of the line, and the line. */
  predicate ShowsItsLine(row: Row, left: seq<string>, right: seq<string>) {
    match row.kind
    case Del => exists line :: line in left && row.text == "- " + line
    case Add => exists line :: line in right && row.text == "+ " + line
    case Context => exists line :: line in left && line in right && row.text == "  " + line
  }

  lemma {:induction false} WalkShowsLines(left: seq<string>, right: seq<string>)
    ensures forall row | row in Walk(left, right) :: ShowsItsLine(row, left, right)
    decreases |left| + |right|
  {
    hide Lcs;
    forall row | row in Walk(left, right) ensures ShowsItsLine(row, left, right) {
      if left != [] {
        WalkShowsLines(left[1..], right);
      }
      if right != [] {
        WalkShowsLines(left, right[1..]);
      }
      if left != [] && right != [] {
        WalkShowsLines(left[1..], right[1..]);
      }
      FirstRow(left, right);
      var walk := Walk(left, right);
      if row != walk[0] {
        assert row in walk[1..];
      }
    }
  }

  lemma FirstRow(left: seq<string>, right: seq<string>)
    requires Walk(left, right) != []
    ensures ShowsItsLine(Walk(left, right)[0], left, right)
    ensures var rest := Walk(left, right)[1..];
            || (left != [] && rest == Walk(left[1..], right)) || (right != [] && rest == Walk(left, right[1..]))
            || (left != [] && right != [] && rest == Walk(left[1..], right[1..]))
  {
    hide Lcs;
  }

  /** What the rows say, mark and all: read off in order, the deleted and the unchanged lines are the old text's
      and the added and the unchanged ones the new one's. */
  lemma RowsShowBothTexts(before: string, after: string)
    ensures var rows := Walk(Split(before), Split(after));
            && (forall row | row in rows :: ShowsItsLine(row, Split(before), Split(after)))
            && Spelled(rows, {Context, Del}) == Split(before)
            && Spelled(rows, {Context, Add}) == Split(after)
  {
    WalkShowsLines(Split(before), Split(after));
    WalkIsScript(Split(before), Split(after));
  }

  lemma {:induction false} ShownAreRows(shown: seq<Shown>, rows: seq<Row>, n: nat)
    requires n <= |rows| && Collapses(shown, rows, n)
    ensures forall row | Line(row) in shown :: row in rows
    decreases |shown|
  {
    if shown != [] {
      var before, last := shown[..|shown| - 1], shown[|shown| - 1];
      ShownAreRows(before, rows, n - if last.Line? then 1 else last.count);
      assert shown == before + [last];
    }
  }

  /** The dialog's rows for two texts; none when either has too many lines. */
  method Diff(before: string, after: string) returns (shown: Option<seq<Shown>>)
    ensures shown.None? <==> |Split(before)| > 2000 || |Split(after)| > 2000
    ensures shown.Some? ==> forall row | Line(row) in shown.value :: ShowsItsLine(row, Split(before), Split(after))
    ensures shown.Some? ==> var rows := Walk(Split(before), Split(after)); Collapses(shown.value, rows, |rows|)
  {
    var left, right := Split(before), Split(after);
    if |left| > MAX_LINES || |right| > MAX_LINES {
      return None;
    }
    var rows := Script(left, right);
    var collapsed := Collapse(rows);
    WalkShowsLines(left, right);
    ShownAreRows(collapsed, rows, |rows|);
    return Some(collapsed);
  }

  /** End to end: joining the walk's unmarked rows gives back both texts. */
  lemma DiffSpellsBothTexts(before: string, after: string)
    ensures var rows := Walk(Split(before), Split(after));
            && |Spelled(rows, {Context, Del})| > 0 && Join(Spelled(rows, {Context, Del})) == before
            && |Spelled(rows, {Context, Add})| > 0 && Join(Spelled(rows, {Context, Add})) == after
  {
    WalkIsScript(Split(before), Split(after));
    SplitJoin(before);
    SplitJoin(after);
  }
}
