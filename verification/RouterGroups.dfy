/**
 The routing matrix: one pill per router, LAN twins folded into their siblings, pills filed by zone
 (`group_routers`).

 The dictionary of pills is the sequence of its values in insertion order; a pill's key is its raw
 `name@provider`. A router's filter text is an input, already in lower case.

 - The loops are proved equal to `Gather`, `MergeOne` and the zones' specification (`GroupRouters`).
 - Which pills a run of merges leaves is characterised without running it (`Presence`): a twin is gone
   if its sibling was there and had not folded away before it.
 - What a merge moves from twin to sibling is conserved (`MergingConserves`), so every router stands
   behind one pill (`RoutersArePartitioned`) and `down` is exact (`DownIsExact`).
 - `total` is not conserved: a twin that folds away takes the routers it received with it
   (`TotalIsExact`).
 */
module RouterGroups {
  import opened Sorting
  import opened Texts
  import opened Wrappers
  import LaunchLinks

  const LAN := "-lan"
  const UNZONED := "internal / external"

  datatype Router = Router(raw: string, rule: string, enabled: bool, text: string)

  datatype Pill = Pill(raw: string, host: string, zone: string, down: bool, lan: bool,
                       routers: nat, downCount: nat, raws: seq<string>, filterText: string)

  function NameOf(raw: string): string {
    raw[..UpTo(raw, '@')]
  }

  function ProviderOf(raw: string): string {
    var n := UpTo(raw, '@');
    if n < |raw| then raw[n + 1..] else ""
  }

  predicate IsLan(raw: string) {
    |NameOf(raw)| >= |LAN| && NameOf(raw)[|NameOf(raw)| - |LAN|..] == LAN
  }

  /** The router a LAN twin folds into. A twin without an `@` looks for a sibling that ends in one. */
  function SiblingOf(raw: string): (r: string)
    requires IsLan(raw)
    ensures r != raw
  {
    NameOf(raw)[..|NameOf(raw)| - |LAN|] + "@" + ProviderOf(raw)
  }

  function ZoneOf(rule: string): (string, string) {
    var hosts := LaunchLinks.Hosts(rule);
    if hosts == [] then (UNZONED, "")
    else
      var domain := LaunchLinks.RegistrableDomain(hosts[0]);
      (if domain == "" then UNZONED else domain, hosts[0])
  }

  function Fresh(r: Router): Pill {
    var (zone, host) := ZoneOf(r.rule);
    Pill(r.raw, host, zone, !r.enabled, false, 1, if r.enabled then 0 else 1, [r.raw], r.text)
  }

  // ── The dictionary ───────────────────────────────────────────────────────────────────────────

  function Find(pills: seq<Pill>, raw: string): (i: nat)
    ensures i <= |pills| && (i < |pills| ==> pills[i].raw == raw)
    ensures forall j | 0 <= j < i :: pills[j].raw != raw
  {
    if pills == [] || pills[0].raw == raw then 0 else 1 + Find(pills[1..], raw)
  }

  predicate Has(pills: seq<Pill>, raw: string) {
    exists i :: 0 <= i < |pills| && pills[i].raw == raw
  }

  predicate Distinct(pills: seq<Pill>) {
    forall i, j | 0 <= i < j < |pills| :: pills[i].raw != pills[j].raw
  }

  function Put(pills: seq<Pill>, p: Pill): seq<Pill> {
    var i := Find(pills, p.raw);
    if i < |pills| then pills[i := p] else pills + [p]
  }

  function Delete(pills: seq<Pill>, i: nat): seq<Pill>
    requires i < |pills|
  {
    pills[..i] + pills[i + 1..]
  }

  function Gather(routers: seq<Router>): seq<Pill> {
    if routers == [] then [] else Put(Gather(routers[..|routers| - 1]), Fresh(routers[|routers| - 1]))
  }

  /** The last router of that name: a later one replaces an earlier one. */
  function Last(routers: seq<Router>, raw: string): Option<Router> {
    if routers == [] then None
    else if routers[|routers| - 1].raw == raw then Some(routers[|routers| - 1])
    else Last(routers[..|routers| - 1], raw)
  }

  function Joined(sibling: Pill, twin: Pill): Pill {
    sibling.(lan := true, routers := sibling.routers + 1, filterText := sibling.filterText + (" " + twin.filterText),
             down := sibling.down || twin.down, downCount := sibling.downCount + twin.downCount,
             raws := sibling.raws + twin.raws)
  }

  function MergeOne(pills: seq<Pill>, key: string): seq<Pill>
    requires IsLan(key) && Has(pills, key)
  {
    var t, s := Find(pills, key), Find(pills, SiblingOf(key));
    if s == |pills| then pills else Delete(pills[s := Joined(pills[s], pills[t])], t)
  }

  /** The keys of the twins, as they stand before any merge. */
  function LanKeys(pills: seq<Pill>): seq<string> {
    if pills == [] then []
    else if IsLan(pills[|pills| - 1].raw) then LanKeys(pills[..|pills| - 1]) + [pills[|pills| - 1].raw]
    else LanKeys(pills[..|pills| - 1])
  }

  predicate AreTwins(pills: seq<Pill>, keys: seq<string>) {
    && Distinct(pills)
    && (forall i, j | 0 <= i < j < |keys| :: keys[i] != keys[j])
    && (forall i | 0 <= i < |keys| :: IsLan(keys[i]) && Has(pills, keys[i]))
  }

  lemma UpdateKeeps(pills: seq<Pill>, i: nat, p: Pill)
    requires Distinct(pills) && i < |pills| && p.raw == pills[i].raw
    ensures Distinct(pills[i := p])
    ensures forall raw :: Has(pills[i := p], raw) <==> Has(pills, raw)
  {
    var after := pills[i := p];
    assert forall j | 0 <= j < |pills| :: after[j].raw == pills[j].raw;
  }

  lemma DeleteKeeps(pills: seq<Pill>, t: nat)
    requires Distinct(pills) && t < |pills|
    ensures Distinct(Delete(pills, t)) && !Has(Delete(pills, t), pills[t].raw)
    ensures forall raw | raw != pills[t].raw :: Has(Delete(pills, t), raw) <==> Has(pills, raw)
  {
    var after := Delete(pills, t);
    assert forall j | 0 <= j < |after| :: after[j] == pills[if j < t then j else j + 1];
    forall raw | raw != pills[t].raw ensures Has(after, raw) <==> Has(pills, raw) {
      if Has(pills, raw) {
        var j :| 0 <= j < |pills| && pills[j].raw == raw;
        assert after[if j < t then j else j - 1] == pills[j];
      }
    }
  }

  lemma MergeOneKeeps(pills: seq<Pill>, key: string)
    requires Distinct(pills) && IsLan(key) && Has(pills, key)
    ensures Distinct(MergeOne(pills, key))
    ensures forall raw | raw != key :: Has(MergeOne(pills, key), raw) <==> Has(pills, raw)
    ensures Has(MergeOne(pills, key), key) <==> !Has(pills, SiblingOf(key))
  {
    var t, s := Find(pills, key), Find(pills, SiblingOf(key));
    if s < |pills| {
      UpdateKeeps(pills, s, Joined(pills[s], pills[t]));
      DeleteKeeps(pills[s := Joined(pills[s], pills[t])], t);
    }
  }

  /** The pills once the first `i` twins have been looked at. */
  function Merged(pills: seq<Pill>, keys: seq<string>, i: nat): (r: seq<Pill>)
    requires AreTwins(pills, keys) && i <= |keys|
    ensures Distinct(r)
    ensures forall raw | raw !in keys[..i] :: Has(r, raw) <==> Has(pills, raw)
  {
    if i == 0 then pills
    else
      var before := Merged(pills, keys, i - 1);
      assert keys[i - 1] !in keys[..i - 1];
      MergeOneKeeps(before, keys[i - 1]);
      MergeOne(before, keys[i - 1])
  }

  lemma MergedStep(pills: seq<Pill>, keys: seq<string>, i: nat)
    requires AreTwins(pills, keys) && i < |keys|
    ensures IsLan(keys[i]) && Distinct(Merged(pills, keys, i))
    ensures Has(pills, keys[i]) && Has(Merged(pills, keys, i), keys[i])
    ensures Merged(pills, keys, i + 1) == MergeOne(Merged(pills, keys, i), keys[i])
  {
    assert keys[i] !in keys[..i];
  }

  lemma OrphanStays(pills: seq<Pill>, key: string)
    requires IsLan(key) && Has(pills, key) && !Has(pills, SiblingOf(key))
    ensures MergeOne(pills, key) == pills
  {
  }

  lemma MergeOneLength(pills: seq<Pill>, key: string)
    requires IsLan(key) && Has(pills, key)
    ensures |MergeOne(pills, key)| + (if Has(pills, SiblingOf(key)) then 1 else 0) == |pills|
  {
  }

  lemma {:induction false} LanKeysAre(pills: seq<Pill>)
    requires Distinct(pills)
    ensures AreTwins(pills, LanKeys(pills))
    ensures forall raw :: raw in LanKeys(pills) <==> IsLan(raw) && Has(pills, raw)
  {
    if pills != [] {
      var front, last := pills[..|pills| - 1], pills[|pills| - 1];
      LanKeysAre(front);
      assert pills == front + [last];
      forall raw ensures Has(pills, raw) <==> Has(front, raw) || raw == last.raw {
        if Has(front, raw) {
          var i :| 0 <= i < |front| && front[i].raw == raw;
          assert pills[i].raw == raw;
        }
        if raw == last.raw {
          assert pills[|pills| - 1].raw == raw;
        }
      }
      assert !Has(front, last.raw);
      assert LanKeys(pills) == LanKeys(front) + if IsLan(last.raw) then [last.raw] else [];
    }
  }

  lemma PutIs(pills: seq<Pill>, p: Pill)
    requires Distinct(pills)
    ensures Distinct(Put(pills, p)) && p in Put(pills, p)
    ensures forall q | q in Put(pills, p) :: q == p || (q in pills && q.raw != p.raw)
    ensures forall raw :: Has(Put(pills, p), raw) <==> Has(pills, raw) || raw == p.raw
  {
    var i := Find(pills, p.raw);
    if i < |pills| {
      UpdateKeeps(pills, i, p);
      assert Put(pills, p)[i] == p;
    } else {
      assert Put(pills, p)[i] == p;
      assert forall j | 0 <= j < i :: Put(pills, p)[j] == pills[j];
    }
  }

  lemma {:induction false} GatherIs(routers: seq<Router>)
    ensures Distinct(Gather(routers))
    ensures forall p | p in Gather(routers) :: Last(routers, p.raw).Some? && p == Fresh(Last(routers, p.raw).value)
    ensures forall raw :: Has(Gather(routers), raw) <==> Last(routers, raw).Some?
  {
    if routers != [] {
      GatherIs(routers[..|routers| - 1]);
      PutIs(Gather(routers[..|routers| - 1]), Fresh(routers[|routers| - 1]));
    }
  }

  function KeysOf(pills: seq<Pill>): seq<string> {
    seq(|pills|, i requires 0 <= i < |pills| => pills[i].raw)
  }

  /** A router seen again keeps its place; a new one goes to the end. */
  lemma GatherInOrder(routers: seq<Router>, r: Router)
    ensures var before := KeysOf(Gather(routers));
            KeysOf(Gather(routers + [r])) == if r.raw in before then before else before + [r.raw]
  {
    hide Fresh;
    assert (routers + [r])[..|routers|] == routers;
    var pills, p := Gather(routers), Fresh(r);
    assert p.raw == r.raw by { FreshName(r); }
    var i := Find(pills, p.raw);
    if i < |pills| {
      assert KeysOf(pills)[i] == r.raw;
    } else {
      assert forall j | 0 <= j < |pills| :: KeysOf(pills)[j] == pills[j].raw;
    }
  }

  lemma FreshName(r: Router)
    ensures Fresh(r).raw == r.raw
  {
  }

  // ── Sums ─────────────────────────────────────────────────────────────────────────────────────

  function Sum<T>(f: T -> nat, s: seq<T>): nat {
    if s == [] then 0 else f(s[0]) + Sum(f, s[1..])
  }

  lemma {:induction false} SumAppend<T>(f: T -> nat, a: seq<T>, b: seq<T>)
    ensures Sum(f, a + b) == Sum(f, a) + Sum(f, b)
  {
    if a == [] {
      assert a + b == b;
    } else {
      SumAppend(f, a[1..], b);
      assert (a + b)[1..] == a[1..] + b;
    }
  }

  lemma SumAround<T>(f: T -> nat, s: seq<T>, i: nat)
    requires i < |s|
    ensures Sum(f, s) == Sum(f, s[..i]) + f(s[i]) + Sum(f, s[i + 1..])
  {
    assert s == s[..i] + s[i..];
    SumAppend(f, s[..i], s[i..]);
    assert s[i..][1..] == s[i + 1..];
  }

  lemma SumUpdate<T>(f: T -> nat, s: seq<T>, i: nat, x: T)
    requires i < |s|
    ensures Sum(f, s[i := x]) + f(s[i]) == Sum(f, s) + f(x)
  {
    SumAround(f, s, i);
    SumAround(f, s[i := x], i);
    assert s[i := x][..i] == s[..i] && s[i := x][i + 1..] == s[i + 1..];
  }

  lemma SumDelete(f: Pill -> nat, pills: seq<Pill>, t: nat)
    requires t < |pills|
    ensures Sum(f, Delete(pills, t)) + f(pills[t]) == Sum(f, pills)
  {
    SumAround(f, pills, t);
    SumAppend(f, pills[..t], pills[t + 1..]);
  }

  lemma MergeOneSum(f: Pill -> nat, pills: seq<Pill>, key: string)
    requires IsLan(key) && Has(pills, key) && Has(pills, SiblingOf(key))
    ensures var t, s := Find(pills, key), Find(pills, SiblingOf(key));
            Sum(f, MergeOne(pills, key)) + f(pills[t]) + f(pills[s]) == Sum(f, pills) + f(Joined(pills[s], pills[t]))
  {
    var t, s := Find(pills, key), Find(pills, SiblingOf(key));
    var joined := Joined(pills[s], pills[t]);
    SumUpdate(f, pills, s, joined);
    SumDelete(f, pills[s := joined], t);
  }

  /** What a pill carries that a merge moves from the twin to its sibling. */
  ghost predicate Carried(f: Pill -> nat) {
    forall sibling, twin :: f(Joined(sibling, twin)) == f(sibling) + f(twin)
  }

  lemma MergeOneConserves(f: Pill -> nat, pills: seq<Pill>, key: string)
    requires IsLan(key) && Has(pills, key) && Carried(f)
    ensures Sum(f, MergeOne(pills, key)) == Sum(f, pills)
  {
    hide MergeOne, SiblingOf, IsLan, Sum;
    if Has(pills, SiblingOf(key)) {
      MergeOneSum(f, pills, key);
      var t, s := Find(pills, key), Find(pills, SiblingOf(key));
      assert f(Joined(pills[s], pills[t])) == f(pills[s]) + f(pills[t]);
    } else {
      OrphanStays(pills, key);
    }
  }

  lemma {:induction false} MergingConserves(f: Pill -> nat, pills: seq<Pill>, keys: seq<string>, i: nat)
    requires AreTwins(pills, keys) && i <= |keys| && Carried(f)
    ensures Sum(f, Merged(pills, keys, i)) == Sum(f, pills)
  {
    hide MergeOne, Has, SiblingOf, IsLan, Sum, Carried, Distinct;
    if i > 0 {
      MergedStep(pills, keys, i - 1);
      MergingConserves(f, pills, keys, i - 1);
      MergeOneConserves(f, Merged(pills, keys, i - 1), keys[i - 1]);
    }
  }

  // ── Which twins merge ────────────────────────────────────────────────────────────────────────

  /** The twin `keys[b]` folds away: its sibling is a router, and has not folded away before it. */
  predicate Merges(pills: seq<Pill>, keys: seq<string>, b: nat)
    requires AreTwins(pills, keys) && b < |keys|
    decreases b
  {
    && Has(pills, SiblingOf(keys[b]))
    && forall c | 0 <= c < b && keys[c] == SiblingOf(keys[b]) :: !Merges(pills, keys, c)
  }

  predicate Gone(pills: seq<Pill>, keys: seq<string>, i: nat, raw: string)
    requires AreTwins(pills, keys) && i <= |keys|
  {
    exists c :: 0 <= c < i && keys[c] == raw && Merges(pills, keys, c)
  }

  predicate Received(pills: seq<Pill>, keys: seq<string>, i: nat, raw: string)
    requires AreTwins(pills, keys) && i <= |keys|
  {
    exists c :: 0 <= c < i && SiblingOf(keys[c]) == raw && Merges(pills, keys, c)
  }

  /** A twin of a twin, where the inner twin folds away after it received the outer one. */
  predicate Chained(pills: seq<Pill>, keys: seq<string>, i: nat)
    requires AreTwins(pills, keys) && i <= |keys|
  {
    exists a, b :: 0 <= a < b < i && SiblingOf(keys[a]) == keys[b] && Merges(pills, keys, b)
  }

  lemma NoneGone(pills: seq<Pill>, keys: seq<string>, raw: string)
    requires AreTwins(pills, keys)
    ensures Merged(pills, keys, 0) == pills && !Gone(pills, keys, 0, raw)
  {
  }

  lemma OthersGone(pills: seq<Pill>, keys: seq<string>, i: nat, raw: string)
    requires AreTwins(pills, keys) && 0 < i <= |keys| && raw != keys[i - 1]
    ensures Gone(pills, keys, i, raw) <==> Gone(pills, keys, i - 1, raw)
  {
    hide Merges, AreTwins;
  }

  lemma {:induction false} Presence(pills: seq<Pill>, keys: seq<string>, i: nat, raw: string)
    requires AreTwins(pills, keys) && i <= |keys|
    ensures Has(Merged(pills, keys, i), raw) <==> Has(pills, raw) && !Gone(pills, keys, i, raw)
    decreases i
  {
    hide MergeOne, Has, SiblingOf, IsLan, Merged, Merges, Gone;
    if i == 0 {
      NoneGone(pills, keys, raw);
    } else {
      var key := keys[i - 1];
      MergedStep(pills, keys, i - 1);
      MergeOneKeeps(Merged(pills, keys, i - 1), key);
      if raw == key {
        Presence(pills, keys, i - 1, SiblingOf(key));
        MergesOrStays(pills, keys, i);
      } else {
        Presence(pills, keys, i - 1, raw);
        OthersGone(pills, keys, i, raw);
      }
    }
  }

  lemma MergesOrStays(pills: seq<Pill>, keys: seq<string>, i: nat)
    requires AreTwins(pills, keys) && 0 < i <= |keys|
    ensures Merges(pills, keys, i - 1)
            <==> Has(pills, SiblingOf(keys[i - 1])) && !Gone(pills, keys, i - 1, SiblingOf(keys[i - 1]))
    ensures Gone(pills, keys, i, keys[i - 1]) <==> Merges(pills, keys, i - 1)
  {
  }

  /** Once `keys[i - 1]` comes up, it merges exactly when its sibling is still there. */
  lemma SiblingIsThere(pills: seq<Pill>, keys: seq<string>, i: nat)
    requires AreTwins(pills, keys) && 0 < i <= |keys|
    ensures Has(Merged(pills, keys, i - 1), SiblingOf(keys[i - 1])) <==> Merges(pills, keys, i - 1)
  {
    hide Merges, Has, Merged, Gone;
    Presence(pills, keys, i - 1, SiblingOf(keys[i - 1]));
    MergesOrStays(pills, keys, i);
  }

  lemma MergeOneElements(pills: seq<Pill>, key: string)
    requires Distinct(pills) && IsLan(key) && Has(pills, key) && Has(pills, SiblingOf(key))
    ensures var t, s := Find(pills, key), Find(pills, SiblingOf(key));
            forall q | q in MergeOne(pills, key) ::
              q == Joined(pills[s], pills[t]) || (q in pills && q.raw != key && q.raw != SiblingOf(key))
  {
    hide Joined, SiblingOf, IsLan;
    var t, s := Find(pills, key), Find(pills, SiblingOf(key));
    var after := MergeOne(pills, key);
    assert forall j | 0 <= j < |after| ::
           after[j] == pills[s := Joined(pills[s], pills[t])][if j < t then j else j + 1];
  }

  predicate CountOk(pills: seq<Pill>, keys: seq<string>, i: nat, p: Pill)
    requires AreTwins(pills, keys) && i <= |keys|
  {
    p.routers >= 1 && (p.routers > 1 <==> Received(pills, keys, i, p.raw))
  }

  lemma ReceivedNext(pills: seq<Pill>, keys: seq<string>, i: nat, raw: string)
    requires AreTwins(pills, keys) && 0 < i <= |keys|
    ensures Received(pills, keys, i, raw) <==>
              Received(pills, keys, i - 1, raw) || (raw == SiblingOf(keys[i - 1]) && Merges(pills, keys, i - 1))
  {
    hide Merges, SiblingOf;
    if Received(pills, keys, i - 1, raw) {
      var c :| 0 <= c < i - 1 && SiblingOf(keys[c]) == raw && Merges(pills, keys, c);
      assert SiblingOf(keys[c]) == raw;
    } else if raw == SiblingOf(keys[i - 1]) && Merges(pills, keys, i - 1) {
      assert SiblingOf(keys[i - 1]) == raw;
    }
  }

  ghost predicate IsBefore(pills: seq<Pill>, keys: seq<string>, i: nat, before: seq<Pill>)
    requires AreTwins(pills, keys) && 0 < i <= |keys|
  {
    && Distinct(before) && Has(before, keys[i - 1])
    && (Has(before, SiblingOf(keys[i - 1])) <==> Merges(pills, keys, i - 1))
  }

  lemma MergedIsBefore(pills: seq<Pill>, keys: seq<string>, i: nat)
    requires AreTwins(pills, keys) && 0 < i <= |keys|
    ensures IsBefore(pills, keys, i, Merged(pills, keys, i - 1))
    ensures Merged(pills, keys, i) == MergeOne(Merged(pills, keys, i - 1), keys[i - 1])
  {
    hide Merged, MergeOne, Merges, SiblingOf, Has, IsLan, Distinct;
    SiblingIsThere(pills, keys, i);
    MergedStep(pills, keys, i - 1);
  }

  lemma Found(pills: seq<Pill>, raw: string)
    requires Has(pills, raw)
    ensures Find(pills, raw) < |pills| && pills[Find(pills, raw)] in pills && pills[Find(pills, raw)].raw == raw
  {
  }

  ghost predicate AllCounted(pills: seq<Pill>, keys: seq<string>, i: nat, now_: seq<Pill>)
    requires AreTwins(pills, keys) && i <= |keys|
  {
    forall p | p in now_ :: CountOk(pills, keys, i, p)
  }

  /** A merge leaves a pill alone, or makes it the sibling of a further router. */
  lemma MergedPill(before: seq<Pill>, key: string, p: Pill) returns (from: Pill)
    requires Distinct(before) && IsLan(key) && Has(before, key) && p in MergeOne(before, key)
    ensures from in before && from.raw == p.raw
    ensures if Has(before, SiblingOf(key)) && p.raw == SiblingOf(key) then p.routers == from.routers + 1 else p == from
  {
    if Has(before, SiblingOf(key)) {
      MergeOneElements(before, key);
      Found(before, SiblingOf(key));
    }
    from := if Has(before, SiblingOf(key)) && p !in before then before[Find(before, SiblingOf(key))] else p;
    if Has(before, SiblingOf(key)) && p.raw == SiblingOf(key) {
      from := before[Find(before, SiblingOf(key))];
    }
  }

  lemma CountNext(pills: seq<Pill>, keys: seq<string>, i: nat, before: seq<Pill>, p: Pill)
    requires AreTwins(pills, keys) && 0 < i <= |keys| && IsBefore(pills, keys, i, before)
    requires AllCounted(pills, keys, i - 1, before)
    requires p in MergeOne(before, keys[i - 1])
    ensures CountOk(pills, keys, i, p)
  {
    ReceivedNext(pills, keys, i, p.raw);
    var from := MergedPill(before, keys[i - 1], p);
    assert CountOk(pills, keys, i - 1, from);
  }

  lemma AllNext(pills: seq<Pill>, keys: seq<string>, i: nat, before: seq<Pill>)
    requires AreTwins(pills, keys) && 0 < i <= |keys| && IsBefore(pills, keys, i, before)
    requires AllCounted(pills, keys, i - 1, before)
    ensures AllCounted(pills, keys, i, MergeOne(before, keys[i - 1]))
  {
    forall p | p in MergeOne(before, keys[i - 1]) ensures CountOk(pills, keys, i, p) {
      CountNext(pills, keys, i, before, p);
    }
  }

  lemma NoneCounted(pills: seq<Pill>, keys: seq<string>)
    requires AreTwins(pills, keys) && forall p | p in pills :: p.routers == 1
    ensures AllCounted(pills, keys, 0, pills)
  {
  }

  lemma CountsStayOk(pills: seq<Pill>, keys: seq<string>, i: nat)
    requires AreTwins(pills, keys) && 0 < i <= |keys|
    requires AllCounted(pills, keys, i - 1, Merged(pills, keys, i - 1))
    ensures AllCounted(pills, keys, i, Merged(pills, keys, i))
  {
    MergedIsBefore(pills, keys, i);
    AllNext(pills, keys, i, Merged(pills, keys, i - 1));
    assert Merged(pills, keys, i) == MergeOne(Merged(pills, keys, i - 1), keys[i - 1]);
  }

  lemma {:induction false} CountsAreOk(pills: seq<Pill>, keys: seq<string>, i: nat)
    requires AreTwins(pills, keys) && i <= |keys| && forall p | p in pills :: p.routers == 1
    ensures AllCounted(pills, keys, i, Merged(pills, keys, i))
  {
    if i == 0 {
      NoneCounted(pills, keys);
    } else {
      CountsAreOk(pills, keys, i - 1);
      CountsStayOk(pills, keys, i);
    }
  }

  function RoutersOf(p: Pill): nat {
    p.routers
  }

  /** A merge loses every router but one of those the twin stands for. */
  lemma TotalNext(pills: seq<Pill>, keys: seq<string>, i: nat, before: seq<Pill>)
    requires AreTwins(pills, keys) && 0 < i <= |keys| && IsBefore(pills, keys, i, before)
    requires AllCounted(pills, keys, i - 1, before)
    ensures Sum(RoutersOf, MergeOne(before, keys[i - 1])) <= Sum(RoutersOf, before)
    ensures Sum(RoutersOf, MergeOne(before, keys[i - 1])) < Sum(RoutersOf, before)
            <==> Merges(pills, keys, i - 1) && Received(pills, keys, i - 1, keys[i - 1])
  {
    if Merges(pills, keys, i - 1) {
      MergeOneSum(RoutersOf, before, keys[i - 1]);
      Found(before, keys[i - 1]);
      assert CountOk(pills, keys, i - 1, before[Find(before, keys[i - 1])]);
    }
  }

  lemma NoneChained(pills: seq<Pill>, keys: seq<string>)
    requires AreTwins(pills, keys)
    ensures Merged(pills, keys, 0) == pills && !Chained(pills, keys, 0)
  {
  }

  lemma {:induction false} MergedTotal(pills: seq<Pill>, keys: seq<string>, i: nat)
    requires AreTwins(pills, keys) && i <= |keys| && forall p | p in pills :: p.routers == 1
    ensures Sum(RoutersOf, Merged(pills, keys, i)) <= Sum(RoutersOf, pills)
    ensures Sum(RoutersOf, Merged(pills, keys, i)) == Sum(RoutersOf, pills) <==> !Chained(pills, keys, i)
  {
    hide MergeOne, Has, SiblingOf, IsLan, Merges, Received, Chained, Sum, AllCounted;
    if i == 0 {
      NoneChained(pills, keys);
    } else {
      MergedTotal(pills, keys, i - 1);
      CountsAreOk(pills, keys, i - 1);
      MergedIsBefore(pills, keys, i);
      ChainedNext(pills, keys, i);
      TotalNext(pills, keys, i, Merged(pills, keys, i - 1));
    }
  }

  /** A twin whose sibling is a twin that comes up later folds away. */
  lemma LaterSibling(pills: seq<Pill>, keys: seq<string>, a: nat, b: nat)
    requires AreTwins(pills, keys) && a < b < |keys| && SiblingOf(keys[a]) == keys[b]
    ensures Merges(pills, keys, a)
  {
    assert Has(pills, keys[b]);
  }

  lemma ChainedNext(pills: seq<Pill>, keys: seq<string>, i: nat)
    requires AreTwins(pills, keys) && 0 < i <= |keys|
    ensures Chained(pills, keys, i) <==>
              Chained(pills, keys, i - 1) || (Merges(pills, keys, i - 1) && Received(pills, keys, i - 1, keys[i - 1]))
  {
    hide SiblingOf, Has;
    if Merges(pills, keys, i - 1) {
      forall a | 0 <= a < i - 1 && SiblingOf(keys[a]) == keys[i - 1] ensures Merges(pills, keys, a) {
        LaterSibling(pills, keys, a, i - 1);
      }
    }
  }

  // ── What a pill says ─────────────────────────────────────────────────────────────────────────

  predicate IsDown(routers: seq<Router>, raw: string) {
    Last(routers, raw).Some? && !Last(routers, raw).value.enabled
  }

  function DownAmong(routers: seq<Router>, raws: seq<string>): nat {
    if raws == [] then 0 else (if IsDown(routers, raws[0]) then 1 else 0) + DownAmong(routers, raws[1..])
  }

  predicate Contains(s: string, part: string) {
    exists i, j :: 0 <= i <= j <= |s| && s[i..j] == part
  }

  /** A pill speaks for its routers: how many are down, whether any is, whether there is more than
      one, and it is found by the text of each. */
  predicate Speaks(routers: seq<Router>, p: Pill) {
    && p.downCount == DownAmong(routers, p.raws)
    && (p.down <==> p.downCount > 0)
    && (p.lan <==> |p.raws| > 1)
    && |p.raws| >= 1 && p.raws[0] == p.raw
    && forall raw | raw in p.raws :: Last(routers, raw).Some? && Contains(p.filterText, Last(routers, raw).value.text)
  }

  lemma {:induction false} DownAmongAppend(routers: seq<Router>, a: seq<string>, b: seq<string>)
    ensures DownAmong(routers, a + b) == DownAmong(routers, a) + DownAmong(routers, b)
  {
    if a == [] {
      assert a + b == b;
    } else {
      DownAmongAppend(routers, a[1..], b);
      assert (a + b)[1..] == a[1..] + b;
    }
  }

  lemma ContainsLeft(s: string, t: string, part: string)
    requires Contains(s, part)
    ensures Contains(s + t, part)
  {
    var i, j :| 0 <= i <= j <= |s| && s[i..j] == part;
    assert (s + t)[i..j] == part;
  }

  lemma ContainsRight(s: string, t: string, part: string)
    requires Contains(t, part)
    ensures Contains(s + t, part)
  {
    var i, j :| 0 <= i <= j <= |t| && t[i..j] == part;
    assert (s + t)[|s| + i..|s| + j] == part;
  }

  lemma JoinedSpeaks(routers: seq<Router>, sibling: Pill, twin: Pill)
    requires Speaks(routers, sibling) && Speaks(routers, twin)
    ensures Speaks(routers, Joined(sibling, twin))
  {
    DownAmongAppend(routers, sibling.raws, twin.raws);
    forall raw | raw in sibling.raws + twin.raws
      ensures Contains(sibling.filterText + (" " + twin.filterText), Last(routers, raw).value.text)
    {
      if raw in sibling.raws {
        ContainsLeft(sibling.filterText, " " + twin.filterText, Last(routers, raw).value.text);
      } else {
        ContainsRight(" ", twin.filterText, Last(routers, raw).value.text);
        ContainsRight(sibling.filterText, " " + twin.filterText, Last(routers, raw).value.text);
      }
    }
  }

  lemma FreshSpeaks(routers: seq<Router>, p: Pill)
    requires Last(routers, p.raw).Some? && p == Fresh(Last(routers, p.raw).value)
    ensures Speaks(routers, p)
  {
    assert p.filterText[0..|p.filterText|] == p.filterText;
  }

  lemma MergeOneSpeaks(routers: seq<Router>, pills: seq<Pill>, key: string)
    requires Distinct(pills) && IsLan(key) && Has(pills, key) && forall p | p in pills :: Speaks(routers, p)
    ensures forall p | p in MergeOne(pills, key) :: Speaks(routers, p)
  {
    if Has(pills, SiblingOf(key)) {
      MergeOneElements(pills, key);
      Found(pills, key);
      Found(pills, SiblingOf(key));
      JoinedSpeaks(routers, pills[Find(pills, SiblingOf(key))], pills[Find(pills, key)]);
    }
  }

  lemma {:induction false} MergedSpeak(routers: seq<Router>, pills: seq<Pill>, keys: seq<string>, i: nat)
    requires AreTwins(pills, keys) && i <= |keys| && forall p | p in pills :: Speaks(routers, p)
    ensures forall p | p in Merged(pills, keys, i) :: Speaks(routers, p)
  {
    if i > 0 {
      MergedSpeak(routers, pills, keys, i - 1);
      assert keys[i - 1] !in keys[..i - 1];
      MergeOneSpeaks(routers, Merged(pills, keys, i - 1), keys[i - 1]);
    }
  }

  // ── Order ────────────────────────────────────────────────────────────────────────────────────

  lemma {:induction false} InsertSum<T>(f: T -> nat, x: T, s: seq<T>, less: (T, T) -> bool)
    ensures Sum(f, Insert(x, s, less)) == f(x) + Sum(f, s)
  {
    if s != [] && less(s[0], x) {
      InsertSum(f, x, s[1..], less);
    }
  }

  lemma {:induction false} SortedSum<T>(f: T -> nat, s: seq<T>, less: (T, T) -> bool)
    ensures Sum(f, Sorted(s, less)) == Sum(f, s) && |Sorted(s, less)| == |s|
  {
    SortedIsPermutation(s, less);
    if s != [] {
      SortedSum(f, s[1..], less);
      InsertSum(f, s[0], Sorted(s[1..], less), less);
    }
  }

  predicate PillBefore(p: Pill, q: Pill) {
    (p.down && !q.down) || (p.down == q.down && TextBefore(NameOf(p.raw), NameOf(q.raw)))
  }

  lemma PillOrder()
    ensures IsOrder(PillBefore)
  {
    forall p, q, r
      ensures PillBefore(p, q) ==> !PillBefore(q, p)
      ensures !PillBefore(q, p) && !PillBefore(r, q) ==> !PillBefore(r, p)
    {
      TextOrder(NameOf(p.raw), NameOf(q.raw), NameOf(r.raw));
    }
  }

  // ── Zones ────────────────────────────────────────────────────────────────────────────────────

  datatype Bucket = Bucket(zone: string, items: seq<Pill>)

  datatype ZoneRow = ZoneRow(name: string, count: nat, names: nat, items: seq<Pill>, down: nat)

  datatype Matrix = Matrix(zones: seq<ZoneRow>, total: nat, names: nat, merged: nat, down: nat)

  function BucketOf(buckets: seq<Bucket>, zone: string): (i: nat)
    ensures i <= |buckets| && (i < |buckets| ==> buckets[i].zone == zone)
    ensures forall j | 0 <= j < i :: buckets[j].zone != zone
  {
    if buckets == [] || buckets[0].zone == zone then 0 else 1 + BucketOf(buckets[1..], zone)
  }

  function File(buckets: seq<Bucket>, p: Pill): seq<Bucket> {
    var i := BucketOf(buckets, p.zone);
    if i < |buckets| then buckets[i := Bucket(p.zone, buckets[i].items + [p])] else buckets + [Bucket(p.zone, [p])]
  }

  function ByZone(pills: seq<Pill>): seq<Bucket> {
    if pills == [] then [] else File(ByZone(pills[..|pills| - 1]), pills[|pills| - 1])
  }

  function DownCountOf(p: Pill): nat {
    p.downCount
  }

  function RowOf(b: Bucket): ZoneRow {
    var items := Sorted(b.items, PillBefore);
    ZoneRow(b.zone, Sum(RoutersOf, items), |items|, items, Sum(DownCountOf, items))
  }

  function Rows(buckets: seq<Bucket>): (rows: seq<ZoneRow>)
    ensures |rows| == |buckets| && forall i | 0 <= i < |rows| :: rows[i] == RowOf(buckets[i])
  {
    if buckets == [] then [] else [RowOf(buckets[0])] + Rows(buckets[1..])
  }

  /** Biggest zone first, the catch-all last. */
  predicate RowBefore(a: ZoneRow, b: ZoneRow) {
    || (a.name != UNZONED && b.name == UNZONED)
    || ((a.name == UNZONED) == (b.name == UNZONED)
        && (a.count > b.count || (a.count == b.count && TextBefore(a.name, b.name))))
  }

  lemma RowOrder()
    ensures IsOrder(RowBefore)
  {
    forall a, b, c
      ensures RowBefore(a, b) ==> !RowBefore(b, a)
      ensures !RowBefore(b, a) && !RowBefore(c, b) ==> !RowBefore(c, a)
    {
      TextOrder(a.name, b.name, c.name);
    }
  }

  /** `merged` */
  function MergeCount(pills: seq<Pill>, keys: seq<string>, i: nat): nat
    requires AreTwins(pills, keys) && i <= |keys|
  {
    if i == 0 then 0
    else MergeCount(pills, keys, i - 1) + if Has(Merged(pills, keys, i - 1), SiblingOf(keys[i - 1])) then 1 else 0
  }

  function Twins(pills: seq<Pill>): (keys: seq<string>)
    requires Distinct(pills)
    ensures AreTwins(pills, keys)
  {
    LanKeysAre(pills);
    LanKeys(pills)
  }

  function Start(routers: seq<Router>): (pills: seq<Pill>)
    ensures Distinct(pills)
  {
    GatherIs(routers);
    Gather(routers)
  }

  function Shown(pills: seq<Pill>): seq<ZoneRow> {
    Sorted(Rows(ByZone(pills)), RowBefore)
  }

  function CountOf(z: ZoneRow): nat {
    z.count
  }

  function LabelsOf(z: ZoneRow): nat {
    z.names
  }

  function DownOf(z: ZoneRow): nat {
    z.down
  }

  function GroupOf(routers: seq<Router>): Matrix {
    var pills := Start(routers);
    var keys := Twins(pills);
    var zones := Shown(Merged(pills, keys, |keys|));
    Matrix(zones, Sum(CountOf, zones), Sum(LabelsOf, zones), MergeCount(pills, keys, |keys|), Sum(DownOf, zones))
  }

  /** What `fetch_traefik_routers` hands over may hold entries that are no routers. */
  function Dicts(entries: seq<Option<Router>>): seq<Router> {
    if entries == [] then []
    else
      var front, last := Dicts(entries[..|entries| - 1]), entries[|entries| - 1];
      if last.Some? then front + [last.value] else front
  }

  /** Entries that are no routers are skipped, the others keep their order. */
  lemma DictsInOrder(entries: seq<Option<Router>>, r: Router)
    ensures Dicts(entries + [Some(r)]) == Dicts(entries) + [r] && Dicts(entries + [None]) == Dicts(entries)
  {
    assert (entries + [Some(r)])[..|entries|] == entries && (entries + [None])[..|entries|] == entries;
  }

  lemma MergedNext(pills: seq<Pill>, keys: seq<string>, i: nat)
    requires AreTwins(pills, keys) && i < |keys|
    ensures Merged(pills, keys, i + 1) == MergeOne(Merged(pills, keys, i), keys[i])
    ensures Distinct(Merged(pills, keys, i)) && IsLan(keys[i]) && Has(Merged(pills, keys, i), keys[i])
    ensures MergeCount(pills, keys, i + 1) ==
              MergeCount(pills, keys, i) + if Has(Merged(pills, keys, i), SiblingOf(keys[i])) then 1 else 0
  {
    MergedIsBefore(pills, keys, i + 1);
  }

  method Join(sibling: Pill, twin: Pill) returns (p: Pill)
    ensures p == Joined(sibling, twin)
  {
    p := sibling.(lan := true);
    p := p.(routers := p.routers + 1);
    p := p.(filterText := p.filterText + (" " + twin.filterText));
    p := p.(down := p.down || twin.down);
    p := p.(downCount := p.downCount + twin.downCount);
    p := p.(raws := p.raws + twin.raws);
  }

  /** One twin, in place: its sibling is updated where it stands and the twin is deleted. */
  method MergeTwin(pills: seq<Pill>, key: string) returns (after: seq<Pill>, merged: bool)
    requires Distinct(pills) && IsLan(key) && Has(pills, key)
    ensures after == MergeOne(pills, key)
    ensures merged == Has(pills, SiblingOf(key))
  {
    var t, s := Find(pills, key), Find(pills, SiblingOf(key));
    if s == |pills| {
      return pills, false;
    }
    var sibling := Join(pills[s], pills[t]);
    after := pills[s := sibling];
    after := Delete(after, t);
    merged := true;
  }

  method MergeTwins(start: seq<Pill>, keys: seq<string>) returns (pills: seq<Pill>, merged: nat)
    requires AreTwins(start, keys)
    ensures pills == Merged(start, keys, |keys|) && merged == MergeCount(start, keys, |keys|)
  {
    pills, merged := start, 0;
    var i := 0;
    while i < |keys|
      invariant i <= |keys|
      invariant pills == Merged(start, keys, i) && merged == MergeCount(start, keys, i)
    {
      MergedNext(start, keys, i);
      var folds;
      pills, folds := MergeTwin(pills, keys[i]);
      i, merged := i + 1, merged + if folds then 1 else 0;
    }
  }

  method GatherPills(entries: seq<Option<Router>>) returns (pills: seq<Pill>)
    ensures pills == Gather(Dicts(entries))
  {
    pills := [];
    for i := 0 to |entries|
      invariant pills == Gather(Dicts(entries[..i]))
    {
      assert entries[..i + 1][..i] == entries[..i];
      if entries[i].Some? {
        assert Dicts(entries[..i + 1])[..|Dicts(entries[..i])|] == Dicts(entries[..i]);
        pills := Put(pills, Fresh(entries[i].value));
      }
    }
    assert entries[..|entries|] == entries;
  }

  method FileByZone(pills: seq<Pill>) returns (buckets: seq<Bucket>)
    ensures buckets == ByZone(pills)
  {
    buckets := [];
    for i := 0 to |pills|
      invariant buckets == ByZone(pills[..i])
    {
      assert pills[..i + 1][..i] == pills[..i];
      buckets := File(buckets, pills[i]);
    }
    assert pills[..|pills|] == pills;
  }

  method ShowZones(buckets: seq<Bucket>) returns (zones: seq<ZoneRow>)
    ensures zones == Sorted(Rows(buckets), RowBefore)
  {
    zones := [];
    for i := 0 to |buckets|
      invariant |zones| == i && forall j | 0 <= j < i :: zones[j] == RowOf(buckets[j])
    {
      zones := zones + [RowOf(buckets[i])];
    }
    assert zones == Rows(buckets);
    zones := Sorted(zones, RowBefore);
  }

  method GroupRouters(entries: seq<Option<Router>>) returns (m: Matrix)
    ensures m == GroupOf(Dicts(entries))
  {
    var pills := GatherPills(entries);
    GatherIs(Dicts(entries));
    var merged;
    pills, merged := MergeTwins(pills, Twins(pills));
    var buckets := FileByZone(pills);
    var zones := ShowZones(buckets);
    m := Matrix(zones, Sum(CountOf, zones), Sum(LabelsOf, zones), merged, Sum(DownOf, zones));
  }

  // ── What the matrix conserves ────────────────────────────────────────────────────────────────

  /** A pill measure, summed over a bucket or a row. */
  function InBucket(f: Pill -> nat): Bucket -> nat {
    (b: Bucket) => Sum(f, b.items)
  }

  function InRow(f: Pill -> nat): ZoneRow -> nat {
    (z: ZoneRow) => Sum(f, z.items)
  }

  lemma FileSum(f: Pill -> nat, buckets: seq<Bucket>, p: Pill)
    ensures Sum(InBucket(f), File(buckets, p)) == Sum(InBucket(f), buckets) + f(p)
  {
    var i := BucketOf(buckets, p.zone);
    if i < |buckets| {
      var items := buckets[i].items;
      SumAppend(f, items, [p]);
      assert Sum(f, [p]) == f(p);
      SumUpdate(InBucket(f), buckets, i, Bucket(p.zone, items + [p]));
    } else {
      SumAppend(InBucket(f), buckets, [Bucket(p.zone, [p])]);
      assert Sum(f, [p]) == f(p);
      assert Sum(InBucket(f), [Bucket(p.zone, [p])]) == InBucket(f)(Bucket(p.zone, [p]));
    }
  }

  lemma {:induction false} ByZoneSum(f: Pill -> nat, pills: seq<Pill>)
    ensures Sum(InBucket(f), ByZone(pills)) == Sum(f, pills)
  {
    if pills != [] {
      var front, last := pills[..|pills| - 1], pills[|pills| - 1];
      ByZoneSum(f, front);
      FileSum(f, ByZone(front), last);
      SumAppend(f, front, [last]);
      assert pills == front + [last];
    }
  }

  lemma {:induction false} RowsSum(f: Pill -> nat, g: ZoneRow -> nat, buckets: seq<Bucket>)
    requires forall b | b in buckets :: g(RowOf(b)) == Sum(f, Sorted(b.items, PillBefore))
    ensures Sum(g, Rows(buckets)) == Sum(InBucket(f), buckets)
  {
    if buckets != [] {
      RowsSum(f, g, buckets[1..]);
      SortedSum(f, buckets[0].items, PillBefore);
      assert Rows(buckets)[1..] == Rows(buckets[1..]);
      assert Rows(buckets)[0] == RowOf(buckets[0]);
    }
  }

  /** A measure that every row takes of its own pills sums over the rows as over the pills. */
  lemma ShownSum(f: Pill -> nat, g: ZoneRow -> nat, pills: seq<Pill>)
    requires forall b :: g(RowOf(b)) == Sum(f, Sorted(b.items, PillBefore))
    ensures Sum(g, Shown(pills)) == Sum(f, pills)
  {
    ByZoneSum(f, pills);
    RowsSum(f, g, ByZone(pills));
    SortedSum(g, Rows(ByZone(pills)), RowBefore);
  }

  function Names(routers: seq<Router>): set<string> {
    set r | r in routers :: r.raw
  }

  function DownNames(routers: seq<Router>): set<string> {
    set r | r in routers && IsDown(routers, r.raw) :: r.raw
  }

  lemma {:induction false} LastIsNamed(routers: seq<Router>, raw: string)
    ensures Last(routers, raw).Some? <==> raw in Names(routers)
    ensures Last(routers, raw).Some? ==> Last(routers, raw).value in routers
  {
    if routers != [] {
      LastIsNamed(routers[..|routers| - 1], raw);
      assert routers == routers[..|routers| - 1] + [routers[|routers| - 1]];
    }
  }

  ghost predicate Counts(f: Pill -> nat, pills: seq<Pill>, names: set<string>) {
    && (forall raw | raw in names :: Has(pills, raw))
    && (forall p | p in pills :: f(p) == if p.raw in names then 1 else 0)
  }

  lemma CountsRest(f: Pill -> nat, pills: seq<Pill>, names: set<string>)
    requires Distinct(pills) && pills != [] && Counts(f, pills, names)
    ensures Counts(f, pills[1..], names - {pills[0].raw})
    ensures |names| == f(pills[0]) + |names - {pills[0].raw}|
  {
    var rest := names - {pills[0].raw};
    forall raw | raw in rest ensures Has(pills[1..], raw) {
      var i :| 0 <= i < |pills| && pills[i].raw == raw;
      assert pills[1..][i - 1].raw == raw;
    }
    assert pills[0] in pills;
    if pills[0].raw in names {
      assert names == rest + {pills[0].raw};
    } else {
      assert names == rest;
    }
  }

  /** A measure that is one on the pills of `names` and nothing on the others counts `names`. */
  lemma {:induction false} SumCounts(f: Pill -> nat, pills: seq<Pill>, names: set<string>)
    requires Distinct(pills) && Counts(f, pills, names)
    ensures Sum(f, pills) == |names|
  {
    if pills == [] {
      assert forall raw | raw in names :: Has(pills, raw);
      assert names == {};
    } else {
      CountsRest(f, pills, names);
      SumCounts(f, pills[1..], names - {pills[0].raw});
    }
  }

  /** How often `raw` stands behind a pill. */
  function TimesOf(raw: string): Pill -> nat {
    (p: Pill) => multiset(p.raws)[raw]
  }

  lemma TimesAreCarried(raw: string)
    ensures Carried(TimesOf(raw))
  {
  }

  lemma StartIs(routers: seq<Router>)
    ensures forall p | p in Start(routers) ::
              && p.raw in Names(routers) && p.routers == 1 && p.raws == [p.raw]
              && p.downCount == if p.raw in DownNames(routers) then 1 else 0
    ensures forall raw | raw in Names(routers) :: Has(Start(routers), raw)
  {
    GatherIs(routers);
    forall raw | raw in Names(routers) ensures Has(Start(routers), raw) {
      LastIsNamed(routers, raw);
    }
    forall p | p in Start(routers)
      ensures p.raw in Names(routers) && (p.raw in DownNames(routers) <==> IsDown(routers, p.raw))
    {
      LastIsNamed(routers, p.raw);
    }
  }

  lemma RoutersCount(routers: seq<Router>)
    ensures Sum(RoutersOf, Start(routers)) == |Start(routers)| == |Names(routers)|
  {
    StartIs(routers);
    SumCounts(RoutersOf, Start(routers), Names(routers));
    SumOfOnes(Start(routers));
  }

  lemma DownCounts(routers: seq<Router>)
    ensures Sum(DownCountOf, Start(routers)) == |DownNames(routers)|
  {
    StartIs(routers);
    SumCounts(DownCountOf, Start(routers), DownNames(routers));
  }

  lemma TimesCount(routers: seq<Router>, raw: string)
    ensures Sum(TimesOf(raw), Start(routers)) == if raw in Names(routers) then 1 else 0
  {
    StartIs(routers);
    var names := if raw in Names(routers) then {raw} else {};
    forall p | p in Start(routers) ensures TimesOf(raw)(p) == if p.raw in names then 1 else 0 {
      assert p.raws == [p.raw];
    }
    SumCounts(TimesOf(raw), Start(routers), names);
  }

  lemma {:induction false} SumOfOnes(pills: seq<Pill>)
    requires forall p | p in pills :: p.routers == 1
    ensures Sum(RoutersOf, pills) == |pills|
  {
    if pills != [] {
      assert pills[0] in pills;
      SumOfOnes(pills[1..]);
    }
  }

  /** The pills `group_routers` files by zone. */
  function Pills(routers: seq<Router>): seq<Pill> {
    var start := Start(routers);
    Merged(start, Twins(start), |Twins(start)|)
  }

  /** No router is lost and none shown twice: every distinct name stands behind exactly one pill of one
      zone, once. */
  lemma RoutersArePartitioned(routers: seq<Router>, raw: string)
    ensures Sum(InRow(TimesOf(raw)), GroupOf(routers).zones) == if raw in Names(routers) then 1 else 0
  {
    var start := Start(routers);
    TimesCount(routers, raw);
    TimesAreCarried(raw);
    MergingConserves(TimesOf(raw), start, Twins(start), |Twins(start)|);
    ShownSum(TimesOf(raw), InRow(TimesOf(raw)), Pills(routers));
  }

  /** The header's `down` counts the routers whose last entry is not enabled, wherever they merged. */
  lemma DownIsExact(routers: seq<Router>)
    ensures GroupOf(routers).down == |DownNames(routers)|
  {
    var start := Start(routers);
    DownCounts(routers);
    assert Carried(DownCountOf);
    MergingConserves(DownCountOf, start, Twins(start), |Twins(start)|);
    ShownSum(DownCountOf, DownOf, Pills(routers));
  }

  /** The header's `total` is the number of routers exactly when no LAN twin folds away after it has
      received a twin of its own; otherwise it falls short. */
  lemma TotalIsExact(routers: seq<Router>)
    ensures GroupOf(routers).total <= |Names(routers)|
    ensures GroupOf(routers).total == |Names(routers)|
            <==> !Chained(Start(routers), Twins(Start(routers)), |Twins(Start(routers))|)
  {
    var start := Start(routers);
    RoutersCount(routers);
    GatherIs(routers);
    MergedTotal(start, Twins(start), |Twins(start)|);
    ShownSum(RoutersOf, CountOf, Pills(routers));
  }

  lemma NoneMerged(pills: seq<Pill>, keys: seq<string>)
    requires AreTwins(pills, keys)
    ensures Merged(pills, keys, 0) == pills && MergeCount(pills, keys, 0) == 0
  {
  }

  lemma LengthNext(pills: seq<Pill>, keys: seq<string>, i: nat)
    requires AreTwins(pills, keys) && i < |keys|
    ensures |Merged(pills, keys, i + 1)| + MergeCount(pills, keys, i + 1)
            == |Merged(pills, keys, i)| + MergeCount(pills, keys, i)
  {
    hide MergeOne, Has, SiblingOf, IsLan, Distinct, Merged, MergeCount, AreTwins;
    MergedNext(pills, keys, i);
    MergeOneLength(Merged(pills, keys, i), keys[i]);
  }

  lemma {:induction false} MergedLength(pills: seq<Pill>, keys: seq<string>, i: nat)
    requires AreTwins(pills, keys) && i <= |keys|
    ensures |Merged(pills, keys, i)| + MergeCount(pills, keys, i) == |pills|
  {
    hide MergeOne, Has, SiblingOf, IsLan, Distinct, Merged, MergeCount, AreTwins;
    if i == 0 {
      NoneMerged(pills, keys);
    } else {
      MergedLength(pills, keys, i - 1);
      LengthNext(pills, keys, i - 1);
    }
  }

  function One(p: Pill): nat {
    1
  }

  lemma {:induction false} OnesAreLength(pills: seq<Pill>)
    ensures Sum(One, pills) == |pills|
  {
    if pills != [] {
      OnesAreLength(pills[1..]);
    }
  }

  lemma NamesAndMerged(routers: seq<Router>)
    ensures GroupOf(routers).names + GroupOf(routers).merged == |Names(routers)|
  {
    var start := Start(routers);
    RoutersCount(routers);
    MergedLength(start, Twins(start), |Twins(start)|);
    forall b: Bucket ensures LabelsOf(RowOf(b)) == Sum(One, Sorted(b.items, PillBefore)) {
      OnesAreLength(Sorted(b.items, PillBefore));
    }
    ShownSum(One, LabelsOf, Pills(routers));
    OnesAreLength(Pills(routers));
  }

  predicate AreOf(items: seq<Pill>, pills: seq<Pill>, zone: string) {
    forall p | p in items :: p in pills && p.zone == zone
  }

  predicate Filed(buckets: seq<Bucket>, pills: seq<Pill>) {
    && (forall i, j | 0 <= i < j < |buckets| :: buckets[i].zone != buckets[j].zone)
    && (forall i | 0 <= i < |buckets| :: AreOf(buckets[i].items, pills, buckets[i].zone))
  }

  lemma StillOf(items: seq<Pill>, pills: seq<Pill>, p: Pill, zone: string)
    requires AreOf(items, pills, zone)
    ensures AreOf(items, pills + [p], zone)
    ensures p.zone == zone ==> AreOf(items + [p], pills + [p], zone)
  {
  }

  lemma FileKeeps(buckets: seq<Bucket>, front: seq<Pill>, p: Pill)
    requires Filed(buckets, front)
    ensures Filed(File(buckets, p), front + [p])
  {
    hide AreOf;
    var i := BucketOf(buckets, p.zone);
    forall j | 0 <= j < |buckets|
      ensures AreOf(buckets[j].items, front + [p], buckets[j].zone)
      ensures j == i ==> AreOf(buckets[j].items + [p], front + [p], p.zone)
    {
      StillOf(buckets[j].items, front, p, buckets[j].zone);
    }
    FirstOfZone(front, p);
    var after := File(buckets, p);
    assert forall j | 0 <= j < |buckets| :: after[j].zone == buckets[j].zone;
    assert forall j | 0 <= j < |buckets| && j != i :: after[j] == buckets[j];
  }

  lemma FirstOfZone(front: seq<Pill>, p: Pill)
    ensures AreOf([p], front + [p], p.zone)
  {
  }

  lemma {:induction false} ByZoneFiles(pills: seq<Pill>)
    ensures Filed(ByZone(pills), pills)
  {
    if pills != [] {
      var front := pills[..|pills| - 1];
      ByZoneFiles(front);
      FileKeeps(ByZone(front), front, pills[|pills| - 1]);
      assert pills == front + [pills[|pills| - 1]];
    }
  }

  /** Each pill speaks for the routers behind it. */
  lemma PillsSpeak(routers: seq<Router>, p: Pill)
    requires p in Pills(routers)
    ensures Speaks(routers, p)
  {
    var start := Start(routers);
    GatherIs(routers);
    forall q | q in start ensures Speaks(routers, q) {
      FreshSpeaks(routers, q);
    }
    MergedSpeak(routers, start, Twins(start), |Twins(start)|);
  }

  lemma RowIsBucket(pills: seq<Pill>, z: ZoneRow) returns (b: Bucket)
    requires z in Shown(pills)
    ensures b in ByZone(pills) && z == RowOf(b)
  {
    SortedElements(Rows(ByZone(pills)), RowBefore);
    var i :| 0 <= i < |ByZone(pills)| && z == RowOf(ByZone(pills)[i]);
    b := ByZone(pills)[i];
  }

  // ── Where a pill is filed ────────────────────────────────────────────────────────────────────

  /** A pill has the host and the zone of its own router's last entry. */
  predicate IsPlaced(routers: seq<Router>, p: Pill) {
    && Last(routers, p.raw).Some?
    && p.host == Fresh(Last(routers, p.raw).value).host && p.zone == Fresh(Last(routers, p.raw).value).zone
  }

  lemma MergeOnePlaces(routers: seq<Router>, pills: seq<Pill>, key: string)
    requires Distinct(pills) && IsLan(key) && Has(pills, key) && forall p | p in pills :: IsPlaced(routers, p)
    ensures forall p | p in MergeOne(pills, key) :: IsPlaced(routers, p)
  {
    if Has(pills, SiblingOf(key)) {
      MergeOneElements(pills, key);
      Found(pills, key);
      Found(pills, SiblingOf(key));
    }
  }

  lemma {:induction false} MergedPlaces(routers: seq<Router>, pills: seq<Pill>, keys: seq<string>, i: nat)
    requires AreTwins(pills, keys) && i <= |keys| && forall p | p in pills :: IsPlaced(routers, p)
    ensures forall p | p in Merged(pills, keys, i) :: IsPlaced(routers, p)
  {
    if i > 0 {
      MergedPlaces(routers, pills, keys, i - 1);
      assert keys[i - 1] !in keys[..i - 1];
      MergeOnePlaces(routers, Merged(pills, keys, i - 1), keys[i - 1]);
    }
  }

  /** Each pill is filed under the domain of the first host its router's last entry names, or in the catch-all
      when it names none, or one without a domain. */
  lemma PillIsPlaced(routers: seq<Router>, p: Pill)
    requires p in Pills(routers)
    ensures Last(routers, p.raw).Some?
    ensures var hosts := LaunchLinks.Hosts(Last(routers, p.raw).value.rule);
            if hosts == [] then p.host == "" && p.zone == "internal / external"
            else var domain := LaunchLinks.RegistrableDomain(hosts[0]);
                 p.host == hosts[0] && p.zone == if domain == "" then "internal / external" else domain
  {
    var start := Start(routers);
    GatherIs(routers);
    MergedPlaces(routers, start, Twins(start), |Twins(start)|);
  }

  /** So a row shows the pills whose first host ends in the row's two labels; hosts of digits and dots are in
      the catch-all. */
  lemma ZoneIsTheDomain(routers: seq<Router>, z: ZoneRow, p: Pill, front: string, a: string, b: string)
    requires z in GroupOf(routers).zones && p in z.items
    requires a != "" && '.' !in a && b != "" && '.' !in b && (front == "" || front[|front| - 1] == '.')
    requires Last(routers, p.raw).Some? && LaunchLinks.Hosts(Last(routers, p.raw).value.rule) != []
    requires LaunchLinks.Hosts(Last(routers, p.raw).value.rule)[0] == front + (a + ("." + b))
    ensures var host := front + (a + ("." + b));
            z.name == if forall i | 0 <= i < |host| :: '0' <= host[i] <= '9' || host[i] == '.'
                      then "internal / external" else a + ("." + b)
  {
    hide LaunchLinks.RegistrableDomain, LaunchLinks.Hosts, Last;
    var bucket := RowIsBucket(Pills(routers), z);
    SortedElements(bucket.items, PillBefore);
    ByZoneFiles(Pills(routers));
    PillIsPlaced(routers, p);
    assert b + "" == b;
    LaunchLinks.DomainIsTheLastTwo(front, a, ".", b, "");
  }

  /** Every row shows the pills of its own zone, those with a router down first and then by name; every
      pill speaks for the routers behind it. */
  lemma RowsAreRight(routers: seq<Router>, z: ZoneRow)
    requires z in GroupOf(routers).zones
    ensures forall p | p in z.items :: p.zone == z.name && Speaks(routers, p)
    ensures forall i, j | 0 <= i < j < |z.items| ::
              && (z.items[j].down ==> z.items[i].down)
              && (z.items[i].down == z.items[j].down
                  ==> !TextBefore(NameOf(z.items[j].raw), NameOf(z.items[i].raw)))
    ensures z.names == |z.items|
  {
    var b := RowIsBucket(Pills(routers), z);
    PillOrder();
    SortedInOrder(b.items, PillBefore);
    SortedElements(b.items, PillBefore);
    ByZoneFiles(Pills(routers));
    forall p | p in z.items ensures Speaks(routers, p) {
      PillsSpeak(routers, p);
    }
  }

  /** The biggest zone first, then by name, and the catch-all last. */
  lemma RowsAreInOrder(routers: seq<Router>)
    ensures var zones := GroupOf(routers).zones;
            forall i, j | 0 <= i < j < |zones| ::
              && (zones[i].name == "internal / external" ==> zones[j].name == "internal / external")
              && (zones[j].name != "internal / external"
                  ==> zones[i].count > zones[j].count
                      || (zones[i].count == zones[j].count && !TextBefore(zones[j].name, zones[i].name)))
  {
    RowOrder();
    SortedInOrder(Rows(ByZone(Pills(routers))), RowBefore);
    assert InOrder(GroupOf(routers).zones, RowBefore);
  }

  lemma NameEnds(name: string, provider: string)
    requires '@' !in name
    ensures NameOf(name + "@" + provider) == name && ProviderOf(name + "@" + provider) == provider
  {
    var raw := name + "@" + provider;
    assert raw[|name|] == '@';
    assert forall i | 0 <= i < |name| :: raw[i] == name[i];
    assert UpTo(raw, '@') == |name|;
  }

  /** Without an `@` the whole of it is the name, and there is no provider. */
  lemma NoProvider(raw: string)
    requires '@' !in raw
    ensures NameOf(raw) == raw && ProviderOf(raw) == ""
    ensures IsLan(raw + "-lan") && SiblingOf(raw + "-lan") == raw + "@"
  {
    assert forall i | 0 <= i < |raw| :: raw[i] in raw;
    var twin := raw + "-lan";
    assert forall i | 0 <= i < |twin| :: twin[i] != '@';
    assert NameOf(twin) == twin && ProviderOf(twin) == "";
  }

  /** A router is a LAN twin exactly if its name ends in `-lan`. */
  lemma TwinsExactly(raw: string)
    ensures IsLan(raw) <==> exists stem :: NameOf(raw) == stem + "-lan"
  {
    if IsLan(raw) {
      var n := |NameOf(raw)| - 4;
      assert NameOf(raw) == NameOf(raw)[..n] + "-lan";
    }
  }

  lemma TwinOf(name: string, provider: string)
    requires '@' !in name
    ensures var raw := name + "-lan" + "@" + provider; IsLan(raw) && SiblingOf(raw) == name + "@" + provider
  {
    NameEnds(name + LAN, provider);
  }

  lemma ThreeStart(a: Router, b: Router, c: Router)
    requires a.raw != b.raw && a.raw != c.raw && b.raw != c.raw
    ensures Start([a, b, c]) == [Fresh(a), Fresh(b), Fresh(c)]
  {
    hide ZoneOf;
    assert [a, b, c][..2] == [a, b] && [a, b][..1] == [a] && [a][..0] == [];
    assert Gather([a]) == [Fresh(a)];
    assert Gather([a, b]) == [Fresh(a), Fresh(b)];
  }

  lemma TwoTwins(p: Pill, q: Pill, r: Pill)
    requires IsLan(p.raw) && IsLan(q.raw) && !IsLan(r.raw)
    ensures LanKeys([p, q, r]) == [p.raw, q.raw]
  {
    assert [p, q, r][..2] == [p, q] && [p, q][..1] == [p] && [p][..0] == [];
    assert LanKeys([p]) == [p.raw];
    assert LanKeys([p, q]) == [p.raw, q.raw];
  }

  lemma TwinOfTwinFallsShort(a: Router, b: Router, c: Router)
    requires IsLan(a.raw) && IsLan(b.raw) && !IsLan(c.raw) && a.raw != b.raw
    requires SiblingOf(a.raw) == b.raw && SiblingOf(b.raw) == c.raw
    ensures GroupOf([a, b, c]).total < |Names([a, b, c])|
  {
    ThreeStart(a, b, c);
    TwoTwins(Fresh(a), Fresh(b), Fresh(c));
    var start := Start([a, b, c]);
    var keys := Twins(start);
    assert start[2].raw == c.raw;
    assert SiblingOf(keys[0]) == keys[1] && Merges(start, keys, 1);
    assert Chained(start, keys, 2);
    TotalIsExact([a, b, c]);
  }

  /** In the order Traefik's list is sorted in, a twin's twin folds away first: its router is lost from
      the total, here of `x-lan-lan@d`, `x-lan@d` and `x@d`. */
  lemma TotalFallsShort(rule: string, text: string)
    ensures var routers := [Router("x" + LAN + LAN + "@" + "d", rule, true, text),
                            Router("x" + LAN + "@" + "d", rule, true, text),
                            Router("x" + "@" + "d", rule, true, text)];
            GroupOf(routers).total < |Names(routers)|
  {
    TwinOf("x" + LAN, "d");
    TwinOf("x", "d");
    NameEnds("x", "d");
    var a, b, c := "x" + LAN + LAN + "@" + "d", "x" + LAN + "@" + "d", "x" + "@" + "d";
    assert |a| != |b|;
    TwinOfTwinFallsShort(Router(a, rule, true, text), Router(b, rule, true, text), Router(c, rule, true, text));
  }
}
