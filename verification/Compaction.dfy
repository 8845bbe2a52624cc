/** Which tables to merge: levels by size, overlap components by id range, and the
    tombstone filter (crates/ingodb-lsm/src/compaction.rs). */
module Compaction {
  import opened Prelude
  import opened Bytes
  import opened Sorting

  datatype SstMeta = SstMeta(path: nat, minId: DocumentId, maxId: DocumentId, fileSize: nat)

  datatype CompactionPick = CompactionPick(inputs: seq<SstMeta>, outputLevel: nat, maxLevel: nat)

  // ---- levels ----

  /** W and the expected flush size, at least one byte. */
  datatype Ucs = Ucs(w: int, flushSize: nat) {
    function FlushSize(): nat { if flushSize == 0 then 1 else flushSize }

    function Fanout(): (f: nat)
      ensures f >= 2
    {
      if w < 0 then 2 - w else 2 + w
    }

    function Threshold(): (t: nat)
      ensures t >= 2
    {
      if w <= 0 then 2 else Fanout()
    }

    /** The floor of the logarithm, base fanout, of size over flush size. */
    function LevelForSize(fileSize: nat): nat {
      if fileSize <= FlushSize() then 0 else FloorLog(fileSize, FlushSize(), Fanout())
    }
  }

  function FloorLog(size: nat, base: nat, f: nat): nat
    requires base >= 1 && f >= 2
    decreases size - base
  {
    if size < base * f then 0
    else
      DoubleAtLeast(base, f);
      1 + FloorLog(size, base * f, f)
  }

  function Pow(f: nat, k: nat): (p: nat)
    ensures f >= 1 ==> p >= 1
  {
    if k == 0 then 1 else f * Pow(f, k - 1)
  }

  /** The level is the one `k` whose size band `[base * f^k, base * f^(k+1))` holds the size. */
  lemma {:induction false} FloorLogBand(size: nat, base: nat, f: nat, k: nat)
    requires base >= 1 && f >= 2 && base <= size
    ensures FloorLog(size, base, f) == k <==> base * Pow(f, k) <= size < base * Pow(f, k + 1)
    decreases size - base
  {
    if size < base * f {
      if k > 0 {
        PowGrows(base, f, k);
      }
    } else {
      DoubleAtLeast(base, f);
      if k > 0 {
        FloorLogBand(size, base * f, f, k - 1);
        Regroup(base, f, Pow(f, k - 1));
        Regroup(base, f, Pow(f, k));
      }
    }
  }

  lemma Regroup(a: nat, b: nat, c: nat)
    ensures a * b * c == a * (b * c)
  {
  }

  lemma DoubleAtLeast(base: nat, f: nat)
    requires base >= 1 && f >= 2
    ensures base * f >= 2 * base > base
  {
  }

  lemma MulGrows(a: nat, b: nat, c: nat)
    requires b <= c
    ensures a * b <= a * c
  {
  }

  lemma {:induction false} PowGrows(base: nat, f: nat, k: nat)
    requires base >= 1 && f >= 2 && k >= 1
    ensures base * Pow(f, k) >= base * f
  {
    assert Pow(f, k) == f * Pow(f, k - 1);
    MulGrows(f, 1, Pow(f, k - 1));
    MulGrows(base, f, Pow(f, k));
  }

  /** A level is the size band a file falls in; files below the flush size count as level 0. The bands grow by a factor
      of two more than the size of W, from a flush size of at least one byte. */
  lemma LevelIsBand(u: Ucs, fileSize: nat, k: nat)
    ensures u.LevelForSize(fileSize) <= k <==>
            fileSize < (if u.flushSize >= 1 then u.flushSize else 1) * Pow(2 + (if u.w >= 0 then u.w else -u.w), k + 1)
  {
    var base, f := u.FlushSize(), u.Fanout();
    PowGrows(base, f, k + 1);
    DoubleAtLeast(base, f);
    if fileSize > base {
      var l := u.LevelForSize(fileSize);
      FloorLogBand(fileSize, base, f, l);
      if l <= k {
        PowMonotone(f, l + 1, k + 1);
        MulGrows(base, Pow(f, l + 1), Pow(f, k + 1));
      } else {
        PowMonotone(f, k + 1, l);
        MulGrows(base, Pow(f, k + 1), Pow(f, l));
      }
    }
  }

  lemma {:induction false} PowMonotone(f: nat, a: nat, b: nat)
    requires f >= 1 && a <= b
    ensures Pow(f, a) <= Pow(f, b)
  {
    if a == 0 {
    } else {
      PowMonotone(f, a - 1, b - 1);
      MulGrows(f, Pow(f, a - 1), Pow(f, b - 1));
    }
  }

  function TotalSize(metas: seq<SstMeta>): nat {
    if metas == [] then 0 else metas[0].fileSize + TotalSize(metas[1..])
  }

  lemma {:induction false} TotalBelow(metas: seq<SstMeta>, bound: nat)
    requires forall m :: m in metas ==> m.fileSize < bound
    ensures metas != [] ==> TotalSize(metas) < |metas| * bound
  {
    if |metas| > 1 {
      TotalBelow(metas[1..], bound);
      assert |metas| * bound == bound + |metas[1..]| * bound;
    }
  }

  /** Merging at most fanout-many tables of level at most `k`, without growing, skips no level. */
  lemma MergeLevelBound(u: Ucs, inputs: seq<SstMeta>, outputSize: nat, k: nat)
    requires 0 < |inputs| <= u.Fanout()
    requires forall m :: m in inputs ==> u.LevelForSize(m.fileSize) <= k
    requires outputSize <= TotalSize(inputs)
    ensures u.LevelForSize(outputSize) <= k + 1
  {
    var base, f := u.FlushSize(), u.Fanout();
    var bound := base * Pow(f, k + 1);
    forall m | m in inputs ensures m.fileSize < bound { LevelIsBand(u, m.fileSize, k); }
    TotalBelow(inputs, bound);
    assert |inputs| * bound <= f * bound by { MulGrows(bound, |inputs|, f); }
    Regroup(base, f, Pow(f, k + 1));
    assert f * bound == base * Pow(f, k + 2) by { Regroup(f, base, Pow(f, k + 1)); }
    LevelIsBand(u, outputSize, k + 1);
  }

  // ---- overlap components ----

  predicate Overlap(a: SstMeta, b: SstMeta) { a.minId <= b.maxId && b.minId <= a.maxId }

  predicate MinIdLe(a: SstMeta, b: SstMeta) { a.minId <= b.minId }

  /** The chains of the sweep: `current` grows while the next table starts inside `runningMax`. */
  function Chains(current: seq<SstMeta>, runningMax: DocumentId, rest: seq<SstMeta>): (r: seq<seq<SstMeta>>)
    ensures r != []
    decreases rest
  {
    if rest == [] then [current]
    else if rest[0].minId <= runningMax then
      Chains(current + [rest[0]], if rest[0].maxId > runningMax then rest[0].maxId else runningMax, rest[1..])
    else [current] + Chains([rest[0]], rest[0].maxId, rest[1..])
  }

  function Groups(ssts: seq<SstMeta>): seq<seq<SstMeta>> {
    var sorted := Sort(ssts, MinIdLe);
    if sorted == [] then [] else Chains([sorted[0]], sorted[0].maxId, sorted[1..])
  }

  /** The group kept after also looking at `g`: only a longer one replaces the best so far. */
  function Consider(best: Option<seq<SstMeta>>, g: seq<SstMeta>, threshold: nat): Option<seq<SstMeta>> {
    if |g| >= threshold && (best.None? || |g| > |best.value|) then Some(g) else best
  }

  function BestOf(groups: seq<seq<SstMeta>>, threshold: nat, best: Option<seq<SstMeta>>): Option<seq<SstMeta>> {
    if groups == [] then best else BestOf(groups[1..], threshold, Consider(best, groups[0], threshold))
  }

  function OverlapGroup(ssts: seq<SstMeta>, threshold: nat): Option<seq<SstMeta>> {
    if |ssts| < threshold then None else BestOf(Groups(ssts), threshold, None)
  }

  /** The sweep: sort by smallest id, extend or close the current chain, remember the longest. */
  method FindOverlapGroup(ssts: seq<SstMeta>, threshold: nat) returns (best: Option<seq<SstMeta>>)
    requires threshold >= 1
    ensures best == OverlapGroup(ssts, threshold)
  {
    if |ssts| < threshold {
      return None;
    }
    var sorted := Sort(ssts, MinIdLe);
    SortMultiset(ssts, MinIdLe);
    best := None;
    var currentGroup, runningMax := [sorted[0]], sorted[0].maxId;
    for i := 1 to |sorted|
      invariant BestOf(Chains(currentGroup, runningMax, sorted[i..]), threshold, best)
                == BestOf(Groups(ssts), threshold, None)
    {
      var sst := sorted[i];
      assert sorted[i..][1..] == sorted[i + 1..];
      if sst.minId <= runningMax {
        currentGroup := currentGroup + [sst];
        if sst.maxId > runningMax {
          runningMax := sst.maxId;
        }
      } else {
        if |currentGroup| >= threshold && (best.None? || |currentGroup| > |best.value|) {
          best := Some(currentGroup);
        }
        currentGroup, runningMax := [sst], sst.maxId;
      }
    }
    if |currentGroup| >= threshold && (best.None? || |currentGroup| > |best.value|) {
      best := Some(currentGroup);
    }
  }

  /** Connected: any split into two non-empty parts is bridged by an overlap. */
  ghost predicate Connected(c: set<SstMeta>) {
    forall a: set<SstMeta> :: a < c && a != {} ==> Bridged(a, c - a)
  }

  ghost predicate Bridged(a: set<SstMeta>, b: set<SstMeta>) {
    exists x, y :: x in a && y in b && Overlap(x, y)
  }

  ghost predicate Closed(c: set<SstMeta>, all: set<SstMeta>) {
    forall x, y :: x in c && y in all && Overlap(x, y) ==> y in c
  }

  /** A connected component of the overlap graph. */
  ghost predicate Component(c: set<SstMeta>, all: set<SstMeta>) {
    c != {} && c <= all && Connected(c) && Closed(c, all)
  }

  ghost function Elements<T>(s: seq<T>): set<T> { set x | x in s }

  /** Each table after the first overlaps an earlier one. */
  ghost predicate Linked(g: seq<SstMeta>) {
    g != [] && forall k :: 1 <= k < |g| ==> Touches(g, k)
  }

  ghost predicate Touches(g: seq<SstMeta>, k: nat)
    requires k < |g|
  {
    exists i :: 0 <= i < k && Overlap(g[i], g[k])
  }

  lemma LinkedConnected(g: seq<SstMeta>)
    requires Linked(g)
    ensures Connected(Elements(g))
  {
    var c := Elements(g);
    forall a: set<SstMeta> | a < c && a != {} ensures Bridged(a, c - a) {
      // the first table on the other side from g[0]
      var home := g[0] in a;
      var z :| z in c && (z in a) != home;
      var k :| 0 <= k < |g| && g[k] == z;
      var j := FirstAway(g, a, k);
      assert Touches(g, j);
      var i :| 0 <= i < j && Overlap(g[i], g[j]);
      assert g[i] in c && g[j] in c;
      if home { assert Overlap(g[i], g[j]); } else { assert Overlap(g[j], g[i]); }
    }
  }

  lemma {:induction false} FirstAway(g: seq<SstMeta>, a: set<SstMeta>, k: nat) returns (j: nat)
    requires k < |g| && (g[k] in a) != (g[0] in a)
    ensures 1 <= j < |g| && (g[j] in a) != (g[0] in a)
    ensures forall i :: 0 <= i < j ==> (g[i] in a) == (g[0] in a)
  {
    j := 0;
    while (g[j] in a) == (g[0] in a)
      invariant j <= k
      invariant forall i :: 0 <= i < j ==> (g[i] in a) == (g[0] in a)
      decreases k - j
    {
      j := j + 1;
    }
  }

  ghost predicate ValidRanges(s: seq<SstMeta>) { forall m :: m in s ==> m.minId <= m.maxId }

  /** The greatest id end of a chain. */
  ghost predicate EndsAt(g: seq<SstMeta>, runningMax: DocumentId) {
    (exists m :: m in g && m.maxId == runningMax) && forall m :: m in g ==> m.maxId <= runningMax
  }

  /** Groups lie one after the other, with a gap between any two. */
  ghost predicate Apart(groups: seq<seq<SstMeta>>) {
    forall i, j, x, y :: 0 <= i < j < |groups| && x in groups[i] && y in groups[j] ==> x.maxId < y.minId
  }

  lemma LinkedExtend(g: seq<SstMeta>, runningMax: DocumentId, m: SstMeta)
    requires Linked(g) && EndsAt(g, runningMax) && m.minId <= runningMax && m.minId <= m.maxId
    requires forall x :: x in g ==> x.minId <= m.minId
    ensures Linked(g + [m])
  {
    var x :| x in g && x.maxId == runningMax;
    var i :| 0 <= i < |g| && g[i] == x;
    var h := g + [m];
    forall k | 1 <= k < |h| ensures Touches(h, k) {
      if k == |g| {
        assert Overlap(h[i], h[k]);
      } else {
        assert Touches(g, k);
        var l :| 0 <= l < k && Overlap(g[l], g[k]);
        assert h[l] == g[l] && h[k] == g[k];
      }
    }
  }

  lemma ApartCons(g: seq<SstMeta>, runningMax: DocumentId, later: seq<seq<SstMeta>>)
    requires EndsAt(g, runningMax) && Apart(later)
    requires forall y :: y in Flatten(later) ==> runningMax < y.minId
    ensures Apart([g] + later)
  {
    var groups := [g] + later;
    forall i, j, x: SstMeta, y: SstMeta | 0 <= i < j < |groups| && x in groups[i] && y in groups[j]
      ensures x.maxId < y.minId
    {
      assert groups[j] == later[j - 1];
      InFlatten(later, y);
      if i > 0 {
        assert groups[i] == later[i - 1];
      }
    }
  }

  /** What the sweep knows in the middle: a finished part, a chain ending at `runningMax`, and a sorted rest. */
  ghost predicate Sweeping(current: seq<SstMeta>, runningMax: DocumentId, rest: seq<SstMeta>) {
    && Linked(current) && EndsAt(current, runningMax)
    && ValidRanges(rest) && Sorted(rest, MinIdLe)
    && forall x, y :: x in current && y in rest ==> x.minId <= y.minId
  }

  lemma SortedTail(rest: seq<SstMeta>)
    requires rest != [] && Sorted(rest, MinIdLe)
    ensures Sorted(rest[1..], MinIdLe) && forall y :: y in rest[1..] ==> rest[0].minId <= y.minId
  {
    forall y | y in rest[1..] ensures rest[0].minId <= y.minId {
      var k :| 1 <= k < |rest| && rest[k] == y;
      assert MinIdLe(rest[0], rest[k]);
    }
  }

  lemma SweepExtends(current: seq<SstMeta>, runningMax: DocumentId, rest: seq<SstMeta>)
    requires Sweeping(current, runningMax, rest) && rest != [] && rest[0].minId <= runningMax
    ensures Sweeping(current + [rest[0]], if rest[0].maxId > runningMax then rest[0].maxId else runningMax, rest[1..])
  {
    assert rest[0] in rest;
    LinkedExtend(current, runningMax, rest[0]);
    EndsAtExtend(current, runningMax, rest[0]);
    SortedTail(rest);
  }

  lemma SweepRestarts(current: seq<SstMeta>, runningMax: DocumentId, rest: seq<SstMeta>)
    requires Sweeping(current, runningMax, rest) && rest != [] && rest[0].minId > runningMax
    ensures Sweeping([rest[0]], rest[0].maxId, rest[1..])
    ensures forall y :: y in [rest[0]] + rest[1..] ==> runningMax < y.minId
  {
    SortedTail(rest);
  }

  lemma {:induction false} ChainsSound(current: seq<SstMeta>, runningMax: DocumentId, rest: seq<SstMeta>)
    requires Sweeping(current, runningMax, rest)
    ensures var groups := Chains(current, runningMax, rest);
            Flatten(groups) == current + rest && Apart(groups) && forall g :: g in groups ==> Linked(g)
    decreases rest
  {
    hide Sweeping, Linked, EndsAt, Apart;
    var groups := Chains(current, runningMax, rest);
    if rest == [] {
      LastChain(current, runningMax);
    } else if rest[0].minId <= runningMax {
      SweepExtends(current, runningMax, rest);
      ChainsSound(current + [rest[0]], if rest[0].maxId > runningMax then rest[0].maxId else runningMax, rest[1..]);
      assert current + rest == current + [rest[0]] + rest[1..];
    } else {
      SweepRestarts(current, runningMax, rest);
      ChainsSound([rest[0]], rest[0].maxId, rest[1..]);
      var later := Chains([rest[0]], rest[0].maxId, rest[1..]);
      SweepingParts(current, runningMax, rest);
      ApartCons(current, runningMax, later);
      assert groups == [current] + later && groups[1..] == later;
      assert rest == [rest[0]] + rest[1..];
    }
  }

  lemma SweepingParts(current: seq<SstMeta>, runningMax: DocumentId, rest: seq<SstMeta>)
    requires Sweeping(current, runningMax, rest)
    ensures EndsAt(current, runningMax) && Linked(current)
  {
  }

  lemma LastChain(current: seq<SstMeta>, runningMax: DocumentId)
    requires Sweeping(current, runningMax, [])
    ensures Flatten([current]) == current + [] && Apart([current]) && Linked(current)
  {
    assert Flatten([current]) == current + Flatten([]);
  }

  lemma EndsAtExtend(g: seq<SstMeta>, runningMax: DocumentId, m: SstMeta)
    requires EndsAt(g, runningMax)
    ensures EndsAt(g + [m], if m.maxId > runningMax then m.maxId else runningMax)
  {
    var x :| x in g && x.maxId == runningMax;
    assert x in g + [m] && m in g + [m];
  }

  /** The sweep's groups partition the tables into linked runs with gaps between them. */
  lemma GroupsSound(ssts: seq<SstMeta>)
    requires ValidRanges(ssts)
    ensures Flatten(Groups(ssts)) == Sort(ssts, MinIdLe)
    ensures Apart(Groups(ssts)) && forall g :: g in Groups(ssts) ==> Linked(g)
  {
    hide Sort, Chains;
    var sorted := Sort(ssts, MinIdLe);
    SortSorted(ssts, MinIdLe);
    forall m ensures m in sorted <==> m in ssts { InSort(ssts, MinIdLe, m); }
    if sorted != [] {
      assert sorted == [sorted[0]] + sorted[1..];
      forall y | y in sorted[1..] ensures sorted[0].minId <= y.minId {
        var k :| 1 <= k < |sorted| && sorted[k] == y;
        assert MinIdLe(sorted[0], sorted[k]);
      }
      ChainsSound([sorted[0]], sorted[0].maxId, sorted[1..]);
    }
  }

  /** Every group of the sweep is a connected component. */
  lemma GroupIsComponent(ssts: seq<SstMeta>, g: seq<SstMeta>)
    requires ValidRanges(ssts) && g in Groups(ssts)
    ensures Component(Elements(g), Elements(ssts))
  {
    var groups, c, all := Groups(ssts), Elements(g), Elements(ssts);
    GroupsSound(ssts);
    LinkedConnected(g);
    forall x ensures x in ssts <==> exists i :: 0 <= i < |groups| && x in groups[i] {
      InFlatten(groups, x);
      InSort(ssts, MinIdLe, x);
    }
    var i :| 0 <= i < |groups| && groups[i] == g;
    assert g[0] in c;
    forall x | x in c ensures x in all { assert x in groups[i]; }
    forall x, y | x in c && y in all && Overlap(x, y) ensures y in c {
      var j :| 0 <= j < |groups| && y in groups[j];
      assert x in groups[i];
      assert i == j;
    }
  }

  /** And every connected component is a group of the sweep. */
  lemma ComponentIsGroup(ssts: seq<SstMeta>, c: set<SstMeta>) returns (g: seq<SstMeta>)
    requires ValidRanges(ssts) && Component(c, Elements(ssts))
    ensures g in Groups(ssts) && Elements(g) == c
  {
    var x :| x in c;
    assert x in ssts;
    GroupsSound(ssts);
    InSort(ssts, MinIdLe, x);
    InFlatten(Groups(ssts), x);
    var i :| 0 <= i < |Groups(ssts)| && x in Groups(ssts)[i];
    g := Groups(ssts)[i];
    GroupIsComponent(ssts, g);
    SameComponent(Elements(g), c, Elements(ssts), x);
  }

  /** Components that meet are equal. */
  lemma SameComponent(c: set<SstMeta>, d: set<SstMeta>, all: set<SstMeta>, x: SstMeta)
    requires Component(c, all) && Component(d, all) && x in c && x in d
    ensures c == d
  {
    Within(c, d, all, x);
    Within(d, c, all, x);
  }

  lemma Within(c: set<SstMeta>, d: set<SstMeta>, all: set<SstMeta>, x: SstMeta)
    requires Component(c, all) && Component(d, all) && x in c && x in d
    ensures c <= d
  {
    var a := c * d;
    assert x in a;
    if a < c {
      assert false;
    }
  }

  lemma {:induction false} BestIsLongest(groups: seq<seq<SstMeta>>, threshold: nat, best: Option<seq<SstMeta>>)
    requires best.Some? ==> |best.value| >= threshold
    ensures var r := BestOf(groups, threshold, best);
            && (r.Some? ==> |r.value| >= threshold && (r == best || r.value in groups))
            && (r.Some? ==> (best.Some? ==> |best.value| <= |r.value|) && forall g :: g in groups ==> |g| <= |r.value|)
            && (r.None? ==> best.None? && forall g :: g in groups ==> |g| < threshold)
  {
    if groups != [] {
      BestIsLongest(groups[1..], threshold, Consider(best, groups[0], threshold));
      assert groups == [groups[0]] + groups[1..];
    }
  }

  // ---- distinct tables ----

  ghost predicate Distinct<T(!new)>(s: seq<T>) { forall x :: x in s ==> multiset(s)[x] == 1 }

  lemma {:induction false} DistinctSize<T(!new)>(s: seq<T>)
    requires Distinct(s)
    ensures |Elements(s)| == |s|
  {
    if s != [] {
      assert s == [s[0]] + s[1..];
      assert multiset(s) == multiset{s[0]} + multiset(s[1..]);
      assert multiset(s)[s[0]] == 1;
      assert s[0] !in multiset(s[1..]);
      forall x | x in s[1..] ensures multiset(s[1..])[x] == 1 { assert x in s; }
      DistinctSize(s[1..]);
      assert Elements(s) == {s[0]} + Elements(s[1..]);
    }
  }

  lemma {:induction false} DistinctPart<T(!new)>(groups: seq<seq<T>>, g: seq<T>)
    requires Distinct(Flatten(groups)) && g in groups
    ensures Distinct(g)
  {
    forall x | x in g ensures multiset(g)[x] == 1 {
      PartMultiset(groups, g, x);
    }
  }

  lemma {:induction false} PartMultiset<T>(groups: seq<seq<T>>, g: seq<T>, x: T)
    requires g in groups && x in g
    ensures 1 <= multiset(g)[x] <= multiset(Flatten(groups))[x]
    ensures x in Flatten(groups)
  {
    assert multiset(Flatten(groups)) == multiset(groups[0]) + multiset(Flatten(groups[1..]));
    if g != groups[0] {
      PartMultiset(groups[1..], g, x);
    }
  }

  lemma GroupDistinct(ssts: seq<SstMeta>, g: seq<SstMeta>)
    requires ValidRanges(ssts) && Distinct(ssts) && g in Groups(ssts)
    ensures Distinct(g) && |Elements(g)| == |g|
  {
    GroupsSound(ssts);
    SortMultiset(ssts, MinIdLe);
    forall x | x in Sort(ssts, MinIdLe) ensures multiset(Sort(ssts, MinIdLe))[x] == 1 { InSort(ssts, MinIdLe, x); }
    DistinctPart(Groups(ssts), g);
    DistinctSize(g);
  }

  /** The picked group is a largest connected component, and there is one whenever some component reaches the
      threshold. */
  lemma OverlapGroupIsLargestComponent(ssts: seq<SstMeta>, threshold: nat)
    requires ValidRanges(ssts) && Distinct(ssts) && threshold >= 1
    ensures var r, all := OverlapGroup(ssts, threshold), Elements(ssts);
            && (r.Some? ==> Component(Elements(r.value), all) && |Elements(r.value)| == |r.value| >= threshold)
            && (r.Some? ==> forall c :: Component(c, all) ==> |c| <= |r.value|)
            && (r.None? <==> forall c :: Component(c, all) ==> |c| < threshold)
  {
    var r, all, groups := OverlapGroup(ssts, threshold), Elements(ssts), Groups(ssts);
    BestIsLongest(groups, threshold, None);
    DistinctSize(ssts);
    if r.Some? {
      GroupIsComponent(ssts, r.value);
      GroupDistinct(ssts, r.value);
    }
    forall c | Component(c, all) ensures if r.Some? then |c| <= |r.value| else |c| < threshold {
      if |ssts| < threshold {
        SubsetSize(c, all);
      } else {
        var g := ComponentIsGroup(ssts, c);
        GroupDistinct(ssts, g);
      }
    }
  }

  lemma SubsetSize<T>(a: set<T>, b: set<T>)
    requires a <= b
    ensures |a| <= |b|
  {
    assert b == a + (b - a);
    assert |b| == |a| + |b - a|;
  }

  // ---- picking ----

  function LevelTest(u: Ucs, level: nat): SstMeta -> bool { (m: SstMeta) => u.LevelForSize(m.fileSize) == level }

  function AtLevel(u: Ucs, ssts: seq<SstMeta>, level: nat): seq<SstMeta> { Filter(ssts, LevelTest(u, level)) }

  function MaxLevel(u: Ucs, ssts: seq<SstMeta>): (r: nat)
    ensures forall m :: m in ssts ==> u.LevelForSize(m.fileSize) <= r
  {
    if ssts == [] then 0 else Max(u.LevelForSize(ssts[0].fileSize), MaxLevel(u, ssts[1..]))
  }

  function PickCompaction(u: Ucs, ssts: seq<SstMeta>): Option<CompactionPick> {
    if ssts == [] then None else PickFrom(u, ssts, 0)
  }

  /** The first level from `level` up that has an overlap group of threshold size. */
  function PickFrom(u: Ucs, ssts: seq<SstMeta>, level: nat): Option<CompactionPick>
    decreases MaxLevel(u, ssts) + 1 - level
  {
    if level > MaxLevel(u, ssts) then None
    else match OverlapGroup(AtLevel(u, ssts, level), u.Threshold())
      case Some(g) => Some(CompactionPick(g, level + 1, MaxLevel(u, ssts)))
      case None => PickFrom(u, ssts, level + 1)
  }

  method PickOne(u: Ucs, ssts: seq<SstMeta>) returns (pick: Option<CompactionPick>)
    ensures pick == PickCompaction(u, ssts)
  {
    if ssts == [] {
      return None;
    }
    var maxLevel := MaxLevel(u, ssts);
    for level := 0 to maxLevel + 1
      invariant PickCompaction(u, ssts) == PickFrom(u, ssts, level)
    {
      var group := FindOverlapGroup(AtLevel(u, ssts, level), u.Threshold());
      if group.Some? {
        return Some(CompactionPick(group.value, level + 1, maxLevel));
      }
    }
    pick := None;
  }

  /** A set of tables that compaction must merge as one: a component of its level with at least two tables, or W + 2 for
      a positive W. */
  ghost predicate Eligible(u: Ucs, ssts: seq<SstMeta>, level: nat, c: set<SstMeta>) {
    Component(c, Elements(AtLevel(u, ssts, level))) && |c| >= (if u.w > 0 then u.w + 2 else 2)
  }

  lemma {:induction false} FilterDistinct<T(!new)>(s: seq<T>, p: T -> bool)
    requires Distinct(s)
    ensures Distinct(Filter(s, p))
  {
    forall x | x in Filter(s, p) ensures multiset(Filter(s, p))[x] == 1 {
      FilterMultiset(s, p, x);
      InFilter(s, p, x);
    }
  }

  lemma {:induction false} FilterMultiset<T>(s: seq<T>, p: T -> bool, x: T)
    ensures multiset(Filter(s, p))[x] == if p(x) then multiset(s)[x] else 0
  {
    if s != [] {
      assert multiset(s) == multiset{s[0]} + multiset(s[1..]) by { assert s == [s[0]] + s[1..]; }
      FilterMultiset(s[1..], p, x);
    }
  }

  lemma AtLevelSound(u: Ucs, ssts: seq<SstMeta>, level: nat)
    requires ValidRanges(ssts) && Distinct(ssts)
    ensures ValidRanges(AtLevel(u, ssts, level)) && Distinct(AtLevel(u, ssts, level))
    ensures forall m :: m in AtLevel(u, ssts, level) <==> m in ssts && u.LevelForSize(m.fileSize) == level
  {
    var p := LevelTest(u, level);
    FilterDistinct(ssts, p);
    forall m ensures m in AtLevel(u, ssts, level) <==> m in ssts && u.LevelForSize(m.fileSize) == level {
      InFilter(ssts, p, m);
    }
  }

  /** The picked tables are a largest eligible component of the lowest level that has one; without a pick no level has
      one. */
  lemma PickIsLowest(u: Ucs, ssts: seq<SstMeta>)
    requires ValidRanges(ssts) && Distinct(ssts)
    ensures var pick := PickCompaction(u, ssts);
            && (pick.Some? ==>
                 && pick.value.outputLevel >= 1
                 && var level := pick.value.outputLevel - 1;
                 && pick.value.maxLevel == MaxLevel(u, ssts) >= level
                 && Eligible(u, ssts, level, Elements(pick.value.inputs))
                 && (forall c :: Eligible(u, ssts, level, c) ==> |c| <= |pick.value.inputs|)
                 && forall l, c :: 0 <= l < level ==> !Eligible(u, ssts, l, c))
            && (pick.None? ==> forall l: nat, c :: !Eligible(u, ssts, l, c))
  {
    if ssts != [] {
      PickFromIsLowest(u, ssts, 0);
    }
  }

  /** Some table is on the highest level, and none above it. */
  lemma {:induction false} MaxLevelIs(u: Ucs, ssts: seq<SstMeta>) returns (top: SstMeta)
    requires ssts != []
    ensures top in ssts && u.LevelForSize(top.fileSize) == MaxLevel(u, ssts)
    ensures forall m :: m in ssts ==> u.LevelForSize(m.fileSize) <= u.LevelForSize(top.fileSize)
  {
    top := ssts[0];
    var rest := ssts[1..];
    assert ssts == [ssts[0]] + rest;
    if rest != [] {
      var other := MaxLevelIs(u, rest);
      if u.LevelForSize(top.fileSize) < u.LevelForSize(other.fileSize) {
        top := other;
      }
    } else {
      assert MaxLevel(u, rest) == 0;
    }
  }

  /** Tables at rest: nothing is picked exactly when no connected group of one level has as many tables as are
      merged. */
  lemma RestIff(u: Ucs, ssts: seq<SstMeta>)
    requires ValidRanges(ssts) && Distinct(ssts)
    ensures PickCompaction(u, ssts) == None <==>
            forall level: nat, c :: Component(c, Elements(AtLevel(u, ssts, level))) ==>
              |c| < if u.w > 0 then u.w + 2 else 2
  {
    hide Component, PickCompaction, AtLevel, MaxLevel;
    PickIsLowest(u, ssts);
    if PickCompaction(u, ssts).None? {
      forall level: nat, c | Component(c, Elements(AtLevel(u, ssts, level)))
        ensures |c| < if u.w > 0 then u.w + 2 else 2
      {
        assert !Eligible(u, ssts, level, c);
      }
    }
  }

  /** For W at most zero: exactly when no two tables of one level overlap. */
  lemma RestIsApart(u: Ucs, ssts: seq<SstMeta>)
    requires ValidRanges(ssts) && Distinct(ssts) && u.w <= 0
    ensures PickCompaction(u, ssts) == None <==>
            forall x, y :: x in ssts && y in ssts && x != y && u.LevelForSize(x.fileSize) == u.LevelForSize(y.fileSize)
                           ==> !Overlap(x, y)
  {
    hide PickCompaction, Component, AtLevel, MaxLevel, Overlap;
    RestIff(u, ssts);
    if PickCompaction(u, ssts).None? {
      forall x, y | x in ssts && y in ssts && x != y && u.LevelForSize(x.fileSize) == u.LevelForSize(y.fileSize)
        ensures !Overlap(x, y)
      {
        var level := u.LevelForSize(x.fileSize);
        AtLevelSound(u, ssts, level);
        if Overlap(x, y) {
          OverlapComponent(AtLevel(u, ssts, level), x, y);
        }
      }
    } else {
      forall level: nat, c | Component(c, Elements(AtLevel(u, ssts, level))) && |c| >= 2
        ensures exists x, y :: x in ssts && y in ssts && x != y
                               && u.LevelForSize(x.fileSize) == u.LevelForSize(y.fileSize) && Overlap(x, y)
      {
        AtLevelSound(u, ssts, level);
        var x, y := ComponentOverlap(c, Elements(AtLevel(u, ssts, level)));
        assert x in AtLevel(u, ssts, level) && y in AtLevel(u, ssts, level);
      }
    }
  }

  /** Two overlapping tables are in one component. */
  lemma OverlapComponent(ssts: seq<SstMeta>, x: SstMeta, y: SstMeta)
    requires ValidRanges(ssts) && x in ssts && y in ssts && x != y && Overlap(x, y)
    ensures exists c :: Component(c, Elements(ssts)) && |c| >= 2
  {
    hide Overlap, Connected, Sort;
    GroupsSound(ssts);
    InSort(ssts, MinIdLe, x);
    InFlatten(Groups(ssts), x);
    var i :| 0 <= i < |Groups(ssts)| && x in Groups(ssts)[i];
    var c := Elements(Groups(ssts)[i]);
    GroupIsComponent(ssts, Groups(ssts)[i]);
    assert x in c && y in c;
    assert {x, y} <= c;
    SubsetSize({x, y}, c);
  }

  /** A component of two or more holds two that overlap. */
  lemma ComponentOverlap(c: set<SstMeta>, all: set<SstMeta>) returns (x: SstMeta, y: SstMeta)
    requires Component(c, all) && |c| >= 2
    ensures x in c && y in c && x in all && y in all && x != y && Overlap(x, y)
  {
    hide Overlap;
    var a :| a in c;
    if c == {a} {
      assert false;
    }
    assert {a} < c;
    assert Bridged({a}, c - {a});
    x, y :| x in {a} && y in c - {a} && Overlap(x, y);
  }

  lemma {:induction false} PickFromIsLowest(u: Ucs, ssts: seq<SstMeta>, from: nat)
    requires ValidRanges(ssts) && Distinct(ssts)
    ensures var pick := PickFrom(u, ssts, from);
            && (pick.Some? ==>
                 && pick.value.outputLevel >= from + 1
                 && var level := pick.value.outputLevel - 1;
                 && pick.value.maxLevel == MaxLevel(u, ssts) >= level
                 && Eligible(u, ssts, level, Elements(pick.value.inputs))
                 && (forall c :: Eligible(u, ssts, level, c) ==> |c| <= |pick.value.inputs|)
                 && forall l, c :: from <= l < level ==> !Eligible(u, ssts, l, c))
            && (pick.None? ==> forall l, c :: from <= l ==> !Eligible(u, ssts, l, c))
    decreases MaxLevel(u, ssts) + 1 - from
  {
    hide Component, Elements, AtLevel, OverlapGroup, Distinct, ValidRanges;
    AtLevelSound(u, ssts, from);
    OverlapGroupIsLargestComponent(AtLevel(u, ssts, from), u.Threshold());
    if from > MaxLevel(u, ssts) {
      forall l: nat, c | from <= l ensures !Eligible(u, ssts, l, c) { NothingAbove(u, ssts, l, c); }
    } else if OverlapGroup(AtLevel(u, ssts, from), u.Threshold()).None? {
      PickFromIsLowest(u, ssts, from + 1);
    }
  }

  lemma NoEmptyComponent(c: set<SstMeta>)
    ensures !Component(c, {})
  {
  }

  /** The picked tables leave the pool, told apart by path. */
  function Without(ssts: seq<SstMeta>, paths: set<nat>): seq<SstMeta> {
    Filter(ssts, NotIn(paths))
  }

  function NotIn(paths: set<nat>): SstMeta -> bool { (m: SstMeta) => m.path !in paths }

  function Paths(ssts: seq<SstMeta>): set<nat> { set m | m in ssts :: m.path }

  lemma {:induction false} ChainsWhole(current: seq<SstMeta>, runningMax: DocumentId, rest: seq<SstMeta>)
    ensures Flatten(Chains(current, runningMax, rest)) == current + rest
    decreases rest
  {
    if rest == [] {
      assert Flatten([current]) == current + Flatten<SstMeta>([]);
    } else {
      assert rest == [rest[0]] + rest[1..];
      ChainsWhole(current + [rest[0]], if rest[0].maxId > runningMax then rest[0].maxId else runningMax, rest[1..]);
      ChainsWhole([rest[0]], rest[0].maxId, rest[1..]);
      assert current + [rest[0]] + rest[1..] == current + rest;
    }
  }

  /** Taking a group out leaves fewer tables, whatever the tables are. */
  lemma WithoutShrinks(ssts: seq<SstMeta>, g: seq<SstMeta>, threshold: nat)
    requires threshold >= 1 && OverlapGroup(ssts, threshold) == Some(g)
    ensures |Without(ssts, Paths(g))| < |ssts|
  {
    var sorted := Sort(ssts, MinIdLe);
    SortMultiset(ssts, MinIdLe);
    BestIsLongest(Groups(ssts), threshold, None);
    ChainsWhole([sorted[0]], sorted[0].maxId, sorted[1..]);
    assert sorted == [sorted[0]] + sorted[1..];
    PartMultiset(Groups(ssts), g, g[0]);
    InSort(ssts, MinIdLe, g[0]);
    assert g[0].path in Paths(g);
    FilterDropsOne(ssts, NotIn(Paths(g)), g[0]);
  }

  /** All groups of one level, largest first, until none reaches the threshold. */
  function GroupsAt(ssts: seq<SstMeta>, threshold: nat): seq<seq<SstMeta>>
    requires threshold >= 1
    decreases |ssts|
  {
    match OverlapGroup(ssts, threshold)
    case None => []
    case Some(g) =>
      WithoutShrinks(ssts, g, threshold);
      [g] + GroupsAt(Without(ssts, Paths(g)), threshold)
  }

  ghost predicate DistinctPaths(ssts: seq<SstMeta>) {
    forall x, y :: x in ssts && y in ssts && x.path == y.path ==> x == y
  }

  lemma WithoutSound(ssts: seq<SstMeta>, g: seq<SstMeta>, threshold: nat)
    requires threshold >= 1 && ValidRanges(ssts) && Distinct(ssts) && OverlapGroup(ssts, threshold) == Some(g)
    ensures g != [] && Elements(g) <= Elements(ssts)
    ensures var rest := Without(ssts, Paths(g));
            ValidRanges(rest) && Distinct(rest) && |rest| < |ssts|
            && (DistinctPaths(ssts) ==> DistinctPaths(rest) && Elements(rest) == Elements(ssts) - Elements(g))
  {
    OverlapGroupIsLargestComponent(ssts, threshold);
    assert g[0] in Elements(g);
    RemainingTables(ssts, g);
  }

  lemma RemainingTables(ssts: seq<SstMeta>, g: seq<SstMeta>)
    requires ValidRanges(ssts) && Distinct(ssts) && g != [] && Elements(g) <= Elements(ssts)
    ensures var rest := Without(ssts, Paths(g));
            ValidRanges(rest) && Distinct(rest) && |rest| < |ssts|
            && (DistinctPaths(ssts) ==> DistinctPaths(rest) && Elements(rest) == Elements(ssts) - Elements(g))
  {
    var rest := Without(ssts, Paths(g));
    FilterDistinct(ssts, NotIn(Paths(g)));
    forall m ensures m in rest <==> m in ssts && m.path !in Paths(g) { InFilter(ssts, NotIn(Paths(g)), m); }
    assert g[0] in Elements(g) && g[0].path in Paths(g);
    RemovedOne(ssts, rest, g[0]);
    if DistinctPaths(ssts) {
      forall m ensures m in Elements(rest) <==> m in Elements(ssts) - Elements(g) {
        if m in ssts && m.path in Paths(g) {
          var h :| h in g && h.path == m.path;
          assert h in Elements(g);
        }
      }
    }
  }

  lemma RemovedOne(s: seq<SstMeta>, rest: seq<SstMeta>, x: SstMeta)
    requires Distinct(s) && Distinct(rest) && x in s && x !in rest && Elements(rest) <= Elements(s)
    ensures |rest| < |s|
  {
    DistinctSize(s);
    DistinctSize(rest);
    SubsetSize(Elements(rest), Elements(s) - {x});
  }

  /** Removing one component leaves the others, and creates none. */
  lemma ComponentsRemain(g: set<SstMeta>, c: set<SstMeta>, all: set<SstMeta>)
    requires Component(g, all)
    ensures Component(c, all - g) <==> Component(c, all) && c != g
  {
    if Component(c, all - g) {
      forall x, y | x in c && y in all && Overlap(x, y) ensures y in c {
        if y in g {
          assert Overlap(y, x);
        }
      }
      var x :| x in c;
    }
    if Component(c, all) && c != g {
      if !(c !! g) {
        var x :| x in c && x in g;
        SameComponent(c, g, all, x);
      }
    }
  }

  ghost predicate AllDisjoint(groups: seq<seq<SstMeta>>) {
    forall i, j :: 0 <= i < j < |groups| ==> Elements(groups[i]) !! Elements(groups[j])
  }

  /** The groups picked at one level are exactly its eligible components, each once. */
  lemma {:induction false} GroupsAtExact(ssts: seq<SstMeta>, threshold: nat)
    requires threshold >= 1 && ValidRanges(ssts) && Distinct(ssts) && DistinctPaths(ssts)
    ensures var groups := GroupsAt(ssts, threshold);
            && AllDisjoint(groups)
            && (forall g :: g in groups ==> Elements(g) <= Elements(ssts) && |Elements(g)| == |g|)
            && forall c :: Component(c, Elements(ssts)) && |c| >= threshold <==> PickedIn(c, groups)
    decreases |ssts|
  {
    hide Component, OverlapGroup, AllDisjoint, PickedIn, Distinct, ValidRanges, DistinctPaths, Elements, Without;
    OverlapGroupIsLargestComponent(ssts, threshold);
    match OverlapGroup(ssts, threshold)
    case None => NoneDisjoint();
    case Some(g) =>
      WithoutSound(ssts, g, threshold);
      var rest := Without(ssts, Paths(g));
      GroupsAtExact(rest, threshold);
      var later := GroupsAt(rest, threshold);
      DisjointCons(g, later, Elements(rest));
      forall c ensures Component(c, Elements(ssts)) && |c| >= threshold <==> PickedIn(c, [g] + later) {
        ComponentsRemain(Elements(g), c, Elements(ssts));
        PickedInCons(c, g, later);
      }
  }

  lemma NoneDisjoint()
    ensures AllDisjoint([]) && forall c :: !PickedIn(c, [])
  {
  }

  lemma DisjointCons(g: seq<SstMeta>, later: seq<seq<SstMeta>>, rest: set<SstMeta>)
    requires AllDisjoint(later) && Elements(g) !! rest && forall h :: h in later ==> Elements(h) <= rest
    ensures AllDisjoint([g] + later)
  {
    hide Elements;
    var groups := [g] + later;
    forall i, j | 0 <= i < j < |groups| ensures Elements(groups[i]) !! Elements(groups[j]) {
      assert groups[j] == later[j - 1] && groups[j] in later;
      if i > 0 {
        assert groups[i] == later[i - 1];
      }
    }
  }

  ghost predicate PickedIn(c: set<SstMeta>, groups: seq<seq<SstMeta>>) {
    exists g :: g in groups && Elements(g) == c
  }

  lemma PickedInCons(c: set<SstMeta>, g: seq<SstMeta>, later: seq<seq<SstMeta>>)
    ensures PickedIn(c, [g] + later) <==> c == Elements(g) || PickedIn(c, later)
  {
    if c == Elements(g) {
      assert g in [g] + later;
    }
    if PickedIn(c, later) {
      var h :| h in later && Elements(h) == c;
      assert h in [g] + later;
    }
  }

  /** Every group of every level from `level` up, as jobs. */
  function AllFrom(u: Ucs, ssts: seq<SstMeta>, level: nat): seq<CompactionPick>
    decreases MaxLevel(u, ssts) + 1 - level
  {
    if level > MaxLevel(u, ssts) then []
    else
      LevelPicks(u, ssts, level) + AllFrom(u, ssts, level + 1)
  }

  function AsPicks(groups: seq<seq<SstMeta>>, outputLevel: nat, maxLevel: nat): (r: seq<CompactionPick>)
    ensures |r| == |groups|
    ensures forall i :: 0 <= i < |groups| ==> r[i] == CompactionPick(groups[i], outputLevel, maxLevel)
  {
    if groups == [] then []
    else [CompactionPick(groups[0], outputLevel, maxLevel)] + AsPicks(groups[1..], outputLevel, maxLevel)
  }

  function PickAll(u: Ucs, ssts: seq<SstMeta>): seq<CompactionPick>
  {
    if ssts == [] then [] else AllFrom(u, ssts, 0)
  }

  /** The first job is what picking a single one gives. */
  lemma FirstJob(u: Ucs, ssts: seq<SstMeta>)
    ensures PickCompaction(u, ssts) == if PickAll(u, ssts) == [] then None else Some(PickAll(u, ssts)[0])
  {
    hide AtLevel, MaxLevel, GroupsAt;
    if ssts != [] {
      FirstJobFrom(u, ssts, 0);
    }
  }

  lemma {:induction false} FirstJobFrom(u: Ucs, ssts: seq<SstMeta>, level: nat)
    ensures PickFrom(u, ssts, level) ==
            if AllFrom(u, ssts, level) == [] then None else Some(AllFrom(u, ssts, level)[0])
    decreases MaxLevel(u, ssts) + 1 - level
  {
    hide AtLevel, MaxLevel, GroupsAt, OverlapGroup;
    if level <= MaxLevel(u, ssts) {
      FirstGroup(AtLevel(u, ssts, level), u.Threshold());
      FirstJobFrom(u, ssts, level + 1);
    }
  }

  lemma FirstGroup(ssts: seq<SstMeta>, threshold: nat)
    requires threshold >= 1
    ensures var groups := GroupsAt(ssts, threshold);
            OverlapGroup(ssts, threshold) == if groups == [] then None else Some(groups[0])
  {
    hide OverlapGroup, Without;
  }

  /** All jobs: level by level, take groups out of the remaining tables until none is left. */
  method PickAllCompactions(u: Ucs, ssts: seq<SstMeta>) returns (picks: seq<CompactionPick>)
    ensures picks == PickAll(u, ssts)
  {
    hide AtLevel, MaxLevel, GroupsAt, Distinct, OverlapGroup;
    picks := [];
    if ssts == [] {
      return;
    }
    var maxLevel := MaxLevel(u, ssts);
    for level := 0 to maxLevel + 1
      invariant picks + AllFrom(u, ssts, level) == AllFrom(u, ssts, 0)
    {
      var found := PickLevel(AtLevel(u, ssts, level), u.Threshold());
      picks := picks + AsPicks(found, level + 1, maxLevel);
    }
  }

  method PickLevel(ssts: seq<SstMeta>, threshold: nat) returns (groups: seq<seq<SstMeta>>)
    requires threshold >= 1
    ensures groups == GroupsAt(ssts, threshold)
  {
    hide OverlapGroup, Without, Paths;
    var remaining := ssts;
    groups := [];
    var group := FindOverlapGroup(remaining, threshold);
    while group.Some?
      invariant group == OverlapGroup(remaining, threshold)
      invariant groups + GroupsAt(remaining, threshold) == GroupsAt(ssts, threshold)
      decreases |remaining|
    {
      WithoutShrinks(remaining, group.value, threshold);
      assert GroupsAt(remaining, threshold) ==
             [group.value] + GroupsAt(Without(remaining, Paths(group.value)), threshold);
      groups := groups + [group.value];
      remaining := Without(remaining, Paths(group.value));
      group := FindOverlapGroup(remaining, threshold);
    }
  }

  ghost predicate JobFor(u: Ucs, ssts: seq<SstMeta>, pick: CompactionPick, level: nat, c: set<SstMeta>) {
    && Elements(pick.inputs) == c && |pick.inputs| == |c|
    && pick.outputLevel == level + 1 && pick.maxLevel == MaxLevel(u, ssts)
  }

  /** No table is in two jobs. */
  ghost predicate JobsDisjoint(picks: seq<CompactionPick>) {
    forall i, j :: 0 <= i < j < |picks| ==> Elements(picks[i].inputs) !! Elements(picks[j].inputs)
  }

  /** Every eligible component from level `from` up has a job. */
  ghost predicate JobsComplete(u: Ucs, ssts: seq<SstMeta>, from: nat, picks: seq<CompactionPick>) {
    forall level: nat, c :: from <= level && Eligible(u, ssts, level, c) ==> HasJob(u, ssts, picks, level, c)
  }

  ghost predicate HasJob(u: Ucs, ssts: seq<SstMeta>, picks: seq<CompactionPick>, level: nat, c: set<SstMeta>) {
    exists pick :: pick in picks && JobFor(u, ssts, pick, level, c)
  }

  /** Every job is an eligible component of a level from `from` up. */
  ghost predicate JobsSound(u: Ucs, ssts: seq<SstMeta>, from: nat, picks: seq<CompactionPick>) {
    forall pick :: pick in picks ==>
      pick.outputLevel > from && Eligible(u, ssts, pick.outputLevel - 1, Elements(pick.inputs))
  }

  /** The jobs are exactly the eligible components of all levels, and no table is in two of them. */
  lemma PickAllExact(u: Ucs, ssts: seq<SstMeta>)
    requires ValidRanges(ssts) && Distinct(ssts) && DistinctPaths(ssts)
    ensures var picks := PickAll(u, ssts);
            JobsDisjoint(picks) && JobsComplete(u, ssts, 0, picks) && JobsSound(u, ssts, 0, picks)
  {
    if ssts == [] {
      forall level: nat, c ensures !Eligible(u, ssts, level, c) {
        assert Elements(AtLevel(u, ssts, level)) == {};
        NoEmptyComponent(c);
      }
    } else {
      hide JobsDisjoint, JobsComplete, JobsSound;
      AllFromExact(u, ssts, 0);
    }
  }

  lemma {:induction false} AllFromExact(u: Ucs, ssts: seq<SstMeta>, from: nat)
    requires ValidRanges(ssts) && Distinct(ssts) && DistinctPaths(ssts)
    ensures var picks := AllFrom(u, ssts, from);
            JobsDisjoint(picks) && JobsComplete(u, ssts, from, picks) && JobsSound(u, ssts, from, picks)
    decreases MaxLevel(u, ssts) + 1 - from
  {
    hide JobsSound, Eligible, GroupsAt, AtLevel, MaxLevel;
    if from > MaxLevel(u, ssts) {
      forall level, c | from <= level ensures !Eligible(u, ssts, level, c) { NothingAbove(u, ssts, level, c); }
      NoJobs(u, ssts, from);
    } else {
      AllFromExact(u, ssts, from + 1);
      LevelExact(u, ssts, from);
      JoinLevels(u, ssts, from, LevelPicks(u, ssts, from), AllFrom(u, ssts, from + 1));
    }
  }

  lemma NoJobs(u: Ucs, ssts: seq<SstMeta>, from: nat)
    ensures JobsSound(u, ssts, from, [])
  {
  }

  function LevelPicks(u: Ucs, ssts: seq<SstMeta>, level: nat): seq<CompactionPick> {
    AsPicks(GroupsAt(AtLevel(u, ssts, level), u.Threshold()), level + 1, MaxLevel(u, ssts))
  }

  ghost predicate LevelJobs(u: Ucs, ssts: seq<SstMeta>, level: nat, picks: seq<CompactionPick>) {
    && JobsDisjoint(picks)
    && (forall c :: Eligible(u, ssts, level, c) ==> HasJob(u, ssts, picks, level, c))
    && forall pick :: pick in picks ==>
         pick.outputLevel == level + 1 && Eligible(u, ssts, level, Elements(pick.inputs))
  }

  lemma LevelExact(u: Ucs, ssts: seq<SstMeta>, level: nat)
    requires ValidRanges(ssts) && Distinct(ssts) && DistinctPaths(ssts)
    ensures LevelJobs(u, ssts, level, LevelPicks(u, ssts, level))
  {
    hide Component, AtLevel, MaxLevel, GroupsAt;
    AtLevelSound(u, ssts, level);
    GroupsAtExact(AtLevel(u, ssts, level), u.Threshold());
    var groups, picks := GroupsAt(AtLevel(u, ssts, level), u.Threshold()), LevelPicks(u, ssts, level);
    forall c | Eligible(u, ssts, level, c) ensures HasJob(u, ssts, picks, level, c) {
      assert PickedIn(c, groups);
      var g :| g in groups && Elements(g) == c;
      var i :| 0 <= i < |groups| && groups[i] == g;
      assert picks[i] in picks && JobFor(u, ssts, picks[i], level, c);
    }
    forall pick | pick in picks
      ensures pick.outputLevel == level + 1 && Eligible(u, ssts, level, Elements(pick.inputs))
    {
      var i :| 0 <= i < |picks| && picks[i] == pick;
      assert groups[i] in groups;
      assert PickedIn(Elements(groups[i]), groups);
    }
  }

  lemma JoinLevels(u: Ucs, ssts: seq<SstMeta>, from: nat, here: seq<CompactionPick>, later: seq<CompactionPick>)
    requires ValidRanges(ssts) && Distinct(ssts)
    requires LevelJobs(u, ssts, from, here)
    requires JobsDisjoint(later) && JobsComplete(u, ssts, from + 1, later) && JobsSound(u, ssts, from + 1, later)
    ensures JobsDisjoint(here + later) && JobsComplete(u, ssts, from, here + later)
    ensures JobsSound(u, ssts, from, here + later)
  {
    hide Eligible, JobsDisjoint;
    JoinDisjoint(u, ssts, from, here, later);
    var picks := here + later;
    forall level: nat, c | from <= level && Eligible(u, ssts, level, c) ensures HasJob(u, ssts, picks, level, c) {
      var part := if level == from then here else later;
      assert HasJob(u, ssts, part, level, c);
      var pick :| pick in part && JobFor(u, ssts, pick, level, c);
      assert pick in picks;
    }
  }

  lemma JoinDisjoint(u: Ucs, ssts: seq<SstMeta>, from: nat, here: seq<CompactionPick>, later: seq<CompactionPick>)
    requires ValidRanges(ssts) && Distinct(ssts)
    requires LevelJobs(u, ssts, from, here) && JobsDisjoint(later) && JobsSound(u, ssts, from + 1, later)
    ensures JobsDisjoint(here + later)
  {
    hide Eligible;
    var picks := here + later;
    forall i, j | 0 <= i < j < |picks| ensures Elements(picks[i].inputs) !! Elements(picks[j].inputs) {
      if i < |here| <= j {
        assert picks[i] in here && picks[j] in later;
        DifferentLevels(u, ssts, from, Elements(picks[i].inputs), picks[j].outputLevel - 1, Elements(picks[j].inputs));
      } else if |here| <= i {
        assert picks[i] == later[i - |here|] && picks[j] == later[j - |here|];
      }
    }
  }

  lemma NothingAbove(u: Ucs, ssts: seq<SstMeta>, level: nat, c: set<SstMeta>)
    requires ValidRanges(ssts) && Distinct(ssts) && level > MaxLevel(u, ssts)
    ensures !Eligible(u, ssts, level, c)
  {
    AtLevelSound(u, ssts, level);
    assert Elements(AtLevel(u, ssts, level)) == {};
    NoEmptyComponent(c);
  }

  lemma DifferentLevels(u: Ucs, ssts: seq<SstMeta>, k: nat, c: set<SstMeta>, l: nat, d: set<SstMeta>)
    requires ValidRanges(ssts) && Distinct(ssts) && k != l
    requires Eligible(u, ssts, k, c) && Eligible(u, ssts, l, d)
    ensures c !! d
  {
    AtLevelSound(u, ssts, k);
    AtLevelSound(u, ssts, l);
  }
}
