/** Graph traversal as repeated join by value (crates/ingodb-lsm/src/lib.rs:1592-1664): the loop finds
    exactly what join walks of bounded length reach. */
module Traversal {
  import opened Prelude
  import opened Bytes
  import opened Values
  import opened Blobs
  import opened Views
  import opened Merging
  import opened Queries
  import opened QueryMeaning
  import opened Scans

  datatype Edge = Edge(from: Bytes, to: Bytes)

  /** One step of a walk: `to` of the next document is the same value as `from` of this one, up to the sign of zeros,
      and holds no NaN. */
  ghost predicate Joins(e: Edge, a: Blob, b: Blob) {
    GetField(a, e.from).Some? && GetField(b, e.to).Some? &&
      var x, y := GetField(a, e.from).value, GetField(b, e.to).value;
      OneZero(x) == OneZero(y) && !HoldsNaN(x)
  }

  /** On ids a step is identity: to `_id`, it leads to the one document that the field names. */
  lemma JoinOnIds(e: Edge, a: Blob, b: Blob, x: DocumentId, y: DocumentId)
    requires GetField(a, e.from) == Some(Uuid(x))
    ensures GetField(b, e.to) == Some(Uuid(y)) ==> (Joins(e, a, b) <==> x == y)
    ensures e.to == ID_NAME ==> (Joins(e, a, b) <==> b.id == x)
  {
  }

  /** The values of the current documents that the next ones are matched against. */
  function JoinValues(e: Edge, current: seq<Blob>): seq<Value> {
    if current == [] then []
    else
      var rest := JoinValues(e, current[1..]);
      match GetField(current[0], e.from)
      case Some(v) => [v] + rest
      case None => rest
  }

  function ContainsValue(values: seq<Value>, v: Value): bool {
    values != [] && (ValueEq(values[0], v) || ContainsValue(values[1..], v))
  }

  /** Does some current document lead to `doc`? */
  function Joined(e: Edge, current: seq<Blob>, doc: Blob): bool {
    GetField(doc, e.to).Some? && ContainsValue(JoinValues(e, current), GetField(doc, e.to).value)
  }

  function NewTest(e: Edge, current: seq<Blob>, seen: set<DocumentId>): Blob -> bool {
    (d: Blob) => Joined(e, current, d) && d.id !in seen
  }

  /** The documents one round adds. */
  function NextDocs(e: Edge, docs: seq<Blob>, current: seq<Blob>, seen: set<DocumentId>): seq<Blob> {
    Prelude.Filter(docs, NewTest(e, current, seen))
  }

  function Ids(docs: seq<Blob>): set<DocumentId> { set d | d in docs :: d.id }

  /** All rounds, without stopping early. */
  function Rounds(e: Edge, docs: seq<Blob>, current: seq<Blob>, seen: set<DocumentId>, depth: nat): seq<Blob>
    decreases depth
  {
    if depth == 0 then []
    else
      var next := NextDocs(e, docs, current, seen);
      next + Rounds(e, docs, next, seen + Ids(next), depth - 1)
  }

  /** The traversal: candidates in id order, those joined and not seen before, until nothing is left to join. */
  method Traverse(e: Edge, docs: seq<Blob>, start: seq<Blob>, depth: nat) returns (results: seq<Blob>)
    requires StrictIds(docs)
    ensures results == Rounds(e, docs, start, {}, depth)
  {
    hide Joined, NextDocs;
    results := [];
    var current, seen := start, {};
    assert [] + Rounds(e, docs, start, {}, depth) == Rounds(e, docs, start, {}, depth);
    for round := 0 to depth
      invariant results + Rounds(e, docs, current, seen, depth - round) == Rounds(e, docs, start, {}, depth)
    {
      var joinValues := JoinValues(e, current);
      if joinValues == [] {
        NothingToJoin(e, docs, current, seen, depth - round);
        return;
      }
      var next;
      next, seen := Round(e, docs, current, seen);
      results := results + next;
      current := next;
      if current == [] {
        NothingToJoin(e, docs, current, seen, depth - round - 1);
        return;
      }
    }
    assert results + [] == results;
  }

  /** One pass over the candidates, remembering the ids it takes. */
  method Round(e: Edge, docs: seq<Blob>, current: seq<Blob>, before: set<DocumentId>)
    returns (next: seq<Blob>, seen: set<DocumentId>)
    requires StrictIds(docs)
    ensures next == NextDocs(e, docs, current, before) && seen == before + Ids(next)
  {
    hide Joined;
    next, seen := [], before;
    for i := 0 to |docs|
      invariant next == NextDocs(e, docs[..i], current, before) && seen == before + Ids(next)
    {
      var doc := docs[i];
      assert docs[..i + 1] == docs[..i] + [doc];
      FilterAppend(docs[..i], [doc], NewTest(e, current, before));
      assert [doc][1..] == [];
      NotYetTaken(e, docs, i, current, before);
      if Joined(e, current, doc) && doc.id !in seen {
        seen := seen + {doc.id};
        next := next + [doc];
      }
    }
    assert docs[..|docs|] == docs;
  }

  lemma NotYetTaken(e: Edge, docs: seq<Blob>, i: nat, current: seq<Blob>, before: set<DocumentId>)
    requires StrictIds(docs) && i < |docs|
    ensures docs[i].id !in Ids(NextDocs(e, docs[..i], current, before))
  {
    forall d | d in NextDocs(e, docs[..i], current, before) ensures d.id != docs[i].id {
      InFilter(docs[..i], NewTest(e, current, before), d);
      var k :| 0 <= k < i && docs[k] == d;
    }
  }

  /** Stopping early loses nothing: without join values no further round adds a document. */
  lemma {:induction false} NothingToJoin(e: Edge, docs: seq<Blob>, current: seq<Blob>, seen: set<DocumentId>,
                                         depth: nat)
    requires JoinValues(e, current) == []
    ensures Rounds(e, docs, current, seen, depth) == []
    decreases depth
  {
    if depth > 0 {
      forall d | d in docs ensures !NewTest(e, current, seen)(d) {}
      FilterNone(docs, NewTest(e, current, seen));
      NothingToJoin(e, docs, [], seen + Ids([]), depth - 1);
    }
  }

  // ---- bounded reachability ----

  /** A join walk from the start: every later document is one of `docs` and is joined by the one before it. */
  ghost predicate Walk(e: Edge, docs: seq<Blob>, start: seq<Blob>, p: seq<Blob>) {
    && p != [] && p[0] in start
    && forall i :: 1 <= i < |p| ==> p[i] in docs && Joins(e, p[i - 1], p[i])
  }

  /** At the end of a walk of exactly `k` steps. */
  ghost predicate Reached(e: Edge, docs: seq<Blob>, start: seq<Blob>, k: nat, d: Blob) {
    exists p :: Walk(e, docs, start, p) && |p| == k + 1 && p[k] == d
  }

  /** At the end of a walk of 1 to `k` steps. */
  ghost predicate ReachedWithin(e: Edge, docs: seq<Blob>, start: seq<Blob>, k: nat, d: Blob) {
    exists j :: 1 <= j <= k && Reached(e, docs, start, j, d)
  }

  lemma NoSteps(e: Edge, docs: seq<Blob>, start: seq<Blob>, d: Blob)
    ensures Reached(e, docs, start, 0, d) <==> d in start
  {
    if d in start {
      assert Walk(e, docs, start, [d]);
    }
  }

  lemma OneMoreStep(e: Edge, docs: seq<Blob>, start: seq<Blob>, k: nat, c: Blob, d: Blob)
    requires Reached(e, docs, start, k, c) && d in docs && Joins(e, c, d)
    ensures Reached(e, docs, start, k + 1, d)
  {
    hide Joins;
    var p :| Walk(e, docs, start, p) && |p| == k + 1 && p[k] == c;
    assert Walk(e, docs, start, p + [d]);
  }

  lemma LastStep(e: Edge, docs: seq<Blob>, start: seq<Blob>, k: nat, d: Blob) returns (c: Blob)
    requires Reached(e, docs, start, k + 1, d)
    ensures Reached(e, docs, start, k, c) && d in docs && Joins(e, c, d)
  {
    hide Joins;
    var p :| Walk(e, docs, start, p) && |p| == k + 2 && p[k + 1] == d;
    c := p[k];
    assert Walk(e, docs, start, p[..k + 1]);
  }

  lemma {:induction false} ContainsIff(e: Edge, current: seq<Blob>, v: Value)
    ensures ContainsValue(JoinValues(e, current), v) <==>
            exists c :: c in current && GetField(c, e.from).Some? && ValueEq(GetField(c, e.from).value, v)
  {
    if current != [] {
      ContainsIff(e, current[1..], v);
      assert current == [current[0]] + current[1..];
      var rest := JoinValues(e, current[1..]);
      if GetField(current[0], e.from).Some? {
        assert ([GetField(current[0], e.from).value] + rest)[1..] == rest;
      }
    }
  }

  ghost predicate StepFrom(e: Edge, sources: seq<Blob>, d: Blob) { exists c :: c in sources && Joins(e, c, d) }

  lemma JoinedIff(e: Edge, current: seq<Blob>, doc: Blob)
    ensures Joined(e, current, doc) <==> StepFrom(e, current, doc)
  {
    hide ValueEq, OneZero, HoldsNaN, JoinValues, ContainsValue, GetField;
    if GetField(doc, e.to).Some? {
      var v := GetField(doc, e.to).value;
      ContainsIff(e, current, v);
      forall c | GetField(c, e.from).Some? ensures ValueEq(GetField(c, e.from).value, v) <==> Joins(e, c, doc) {
        ValueEqIff(GetField(c, e.from).value, v);
      }
    }
  }

  /** The documents taken so far, and that they are known by their ids. */
  ghost predicate TakenFrom(docs: seq<Blob>, taken: set<Blob>, seen: set<DocumentId>) {
    && (forall x :: x in taken ==> x in docs && x.id in seen)
    && forall d :: d in docs && d.id in seen ==> d in taken
  }

  lemma InNext(e: Edge, docs: seq<Blob>, current: seq<Blob>, taken: set<Blob>, seen: set<DocumentId>, d: Blob)
    requires TakenFrom(docs, taken, seen)
    ensures d in NextDocs(e, docs, current, seen) <==> d in docs && StepFrom(e, current, d) && d !in taken
  {
    hide Joined, StepFrom;
    InFilter(docs, NewTest(e, current, seen), d);
    JoinedIff(e, current, d);
  }

  lemma TakenNext(docs: seq<Blob>, taken: set<Blob>, seen: set<DocumentId>, next: seq<Blob>)
    requires StrictIds(docs) && TakenFrom(docs, taken, seen) && forall d :: d in next ==> d in docs
    ensures TakenFrom(docs, taken + Docs(next), seen + Ids(next))
  {
    forall d | d in docs && d.id in seen + Ids(next) ensures d in taken + Docs(next) {
      if d.id !in seen {
        var x :| x in next && x.id == d.id;
        var i :| 0 <= i < |docs| && docs[i] == d;
        var j :| 0 <= j < |docs| && docs[j] == x;
      }
    }
  }

  ghost function Docs(s: seq<Blob>): set<Blob> { set d | d in s }

  /** Every document a step leads to from `c` has been taken. */
  ghost predicate Expanded(e: Edge, docs: seq<Blob>, c: Blob, taken: set<Blob>) {
    forall d :: d in docs && Joins(e, c, d) ==> d in taken
  }

  /** After `k` rounds: what was taken is what walks of 1 to `k` steps reach, the current documents end walks of
      `k` steps, and whatever else was started from or taken leads nowhere new. */
  ghost predicate AfterRounds(e: Edge, docs: seq<Blob>, start: seq<Blob>, k: nat, current: seq<Blob>,
                              taken: set<Blob>)
  {
    && (forall d :: d in taken <==> ReachedWithin(e, docs, start, k, d))
    && (forall d :: d in current ==> Reached(e, docs, start, k, d))
    && forall c :: (c in taken || c in start) && c !in current ==> Expanded(e, docs, c, taken)
  }

  lemma RoundKeeps(e: Edge, docs: seq<Blob>, start: seq<Blob>, k: nat, current: seq<Blob>, taken: set<Blob>,
                   seen: set<DocumentId>)
    requires TakenFrom(docs, taken, seen) && AfterRounds(e, docs, start, k, current, taken)
    ensures var next := NextDocs(e, docs, current, seen);
            AfterRounds(e, docs, start, k + 1, next, taken + Docs(next))
  {
    hide Joins, Joined, Walk, Reached, NextDocs, TakenFrom, ReachedWithin, AfterRounds, Expanded;
    var next := NextDocs(e, docs, current, seen);
    forall d ensures d in next <==> d in docs && StepFrom(e, current, d) && d !in taken {
      InNext(e, docs, current, taken, seen, d);
    }
    NextReached(e, docs, start, k, current, taken, next);
    NextTaken(e, docs, start, k, current, taken, next);
    NextExpanded(e, docs, start, k, current, taken, next);
    RoundFrom(e, docs, start, k + 1, next, taken + Docs(next));
  }

  lemma RoundFrom(e: Edge, docs: seq<Blob>, start: seq<Blob>, k: nat, current: seq<Blob>, taken: set<Blob>)
    requires forall d :: d in taken <==> ReachedWithin(e, docs, start, k, d)
    requires forall d :: d in current ==> Reached(e, docs, start, k, d)
    requires forall c :: (c in taken || c in start) && c !in current ==> Expanded(e, docs, c, taken)
    ensures AfterRounds(e, docs, start, k, current, taken)
  {
  }

  /** What a round adds. */
  ghost predicate IsNext(e: Edge, docs: seq<Blob>, current: seq<Blob>, taken: set<Blob>, next: seq<Blob>) {
    forall d :: d in next <==> d in docs && StepFrom(e, current, d) && d !in taken
  }

  lemma NextReached(e: Edge, docs: seq<Blob>, start: seq<Blob>, k: nat, current: seq<Blob>, taken: set<Blob>,
                    next: seq<Blob>)
    requires AfterRounds(e, docs, start, k, current, taken) && IsNext(e, docs, current, taken, next)
    ensures forall d :: d in next ==> Reached(e, docs, start, k + 1, d)
  {
    hide Joins, Reached;
    forall d | d in next ensures Reached(e, docs, start, k + 1, d) {
      var c :| c in current && Joins(e, c, d);
      OneMoreStep(e, docs, start, k, c, d);
    }
  }

  lemma NextTaken(e: Edge, docs: seq<Blob>, start: seq<Blob>, k: nat, current: seq<Blob>, taken: set<Blob>,
                  next: seq<Blob>)
    requires AfterRounds(e, docs, start, k, current, taken) && IsNext(e, docs, current, taken, next)
    ensures forall d :: d in taken + Docs(next) <==> ReachedWithin(e, docs, start, k + 1, d)
  {
    hide Joins, Reached;
    NextReached(e, docs, start, k, current, taken, next);
    forall d | Reached(e, docs, start, k + 1, d) ensures d in taken + Docs(next) {
      var c := LastStep(e, docs, start, k, d);
      if k == 0 { NoSteps(e, docs, start, c); }
      if c in current {
        assert StepFrom(e, current, d);
      } else {
        assert Expanded(e, docs, c, taken);
      }
    }
    forall d ensures d in taken + Docs(next) <==> ReachedWithin(e, docs, start, k + 1, d) {}
  }

  lemma NextExpanded(e: Edge, docs: seq<Blob>, start: seq<Blob>, k: nat, current: seq<Blob>, taken: set<Blob>,
                     next: seq<Blob>)
    requires AfterRounds(e, docs, start, k, current, taken) && IsNext(e, docs, current, taken, next)
    ensures forall c :: (c in taken + Docs(next) || c in start) && c !in next ==>
            Expanded(e, docs, c, taken + Docs(next))
  {
    hide Joins, Reached, ReachedWithin;
    forall c | (c in taken + Docs(next) || c in start) && c !in next ensures Expanded(e, docs, c, taken + Docs(next)) {
      forall d | d in docs && Joins(e, c, d) ensures d in taken + Docs(next) {
        if c in current {
          assert StepFrom(e, current, d);
        } else {
          assert Expanded(e, docs, c, taken);
        }
      }
    }
  }

  lemma {:induction false} RoundsReach(e: Edge, docs: seq<Blob>, start: seq<Blob>, k: nat, current: seq<Blob>,
                                       taken: set<Blob>, seen: set<DocumentId>, depth: nat, d: Blob)
    requires StrictIds(docs) && TakenFrom(docs, taken, seen) && AfterRounds(e, docs, start, k, current, taken)
    ensures d in taken || d in Rounds(e, docs, current, seen, depth) <==> ReachedWithin(e, docs, start, k + depth, d)
    decreases depth
  {
    hide StrictIds, TakenFrom, NextDocs, ReachedWithin, AfterRounds, Ids;
    if depth == 0 {
      TakenIs(e, docs, start, k, current, taken, d);
    } else {
      var next := NextDocs(e, docs, current, seen);
      forall x | x in next ensures x in docs { InFilterDocs(e, docs, current, seen, x); }
      RoundKeeps(e, docs, start, k, current, taken, seen);
      TakenNext(docs, taken, seen, next);
      RoundsReach(e, docs, start, k + 1, next, taken + Docs(next), seen + Ids(next), depth - 1, d);
    }
  }

  lemma TakenIs(e: Edge, docs: seq<Blob>, start: seq<Blob>, k: nat, current: seq<Blob>, taken: set<Blob>, d: Blob)
    requires AfterRounds(e, docs, start, k, current, taken)
    ensures d in taken <==> ReachedWithin(e, docs, start, k, d)
  {
  }

  lemma InFilterDocs(e: Edge, docs: seq<Blob>, current: seq<Blob>, seen: set<DocumentId>, d: Blob)
    requires d in NextDocs(e, docs, current, seen)
    ensures d in docs && d.id !in seen
  {
    InFilter(docs, NewTest(e, current, seen), d);
  }

  /** No two results have one id. */
  ghost predicate DistinctIds(s: seq<Blob>) {
    forall i, j :: 0 <= i < j < |s| ==> s[i].id != s[j].id
  }

  lemma {:induction false} RoundsDistinct(e: Edge, docs: seq<Blob>, current: seq<Blob>, seen: set<DocumentId>,
                                          depth: nat)
    requires StrictIds(docs)
    ensures DistinctIds(Rounds(e, docs, current, seen, depth))
    ensures forall d :: d in Rounds(e, docs, current, seen, depth) ==> d.id !in seen
    decreases depth
  {
    if depth > 0 {
      var next := NextDocs(e, docs, current, seen);
      RoundsDistinct(e, docs, next, seen + Ids(next), depth - 1);
      var rest := Rounds(e, docs, next, seen + Ids(next), depth - 1);
      StrictFilter(docs, NewTest(e, current, seen));
      forall d | d in next ensures d.id !in seen { InFilterDocs(e, docs, current, seen, d); }
      DistinctAppend(next, rest);
    }
  }

  lemma DistinctAppend(a: seq<Blob>, b: seq<Blob>)
    requires StrictIds(a) && DistinctIds(b) && forall d :: d in b ==> d.id !in Ids(a)
    ensures DistinctIds(a + b)
  {
    forall i, j | 0 <= i < j < |a + b| ensures (a + b)[i].id != (a + b)[j].id {
      if i < |a| <= j {
        assert (a + b)[i] in a && (a + b)[j] in b;
      }
    }
  }

  /** Traversal finds exactly the documents that join walks of 1 to `depth` steps from the start reach, each once:
      skipping what was seen and stopping early lose nothing. */
  lemma TraverseIsReachability(e: Edge, docs: seq<Blob>, start: seq<Blob>, depth: nat)
    requires StrictIds(docs)
    ensures forall d :: d in Rounds(e, docs, start, {}, depth) <==> ReachedWithin(e, docs, start, depth, d)
    ensures DistinctIds(Rounds(e, docs, start, {}, depth))
  {
    hide Joins, StrictIds, Rounds, DistinctIds, Reached;
    forall d | d in start ensures Reached(e, docs, start, 0, d) { NoSteps(e, docs, start, d); }
    forall d ensures d in Rounds(e, docs, start, {}, depth) <==> ReachedWithin(e, docs, start, depth, d) {
      RoundsReach(e, docs, start, 0, start, {}, {}, depth, d);
    }
    RoundsDistinct(e, docs, start, {}, depth);
  }

  /** Over a store: the start and the candidates are the scans of one snapshot. */
  method TraverseAt(e: Edge, all: seq<Blob>, filter: Option<Filter>, depth: nat, s: DocumentId)
    returns (results: seq<Blob>)
    requires Coherent(all)
    ensures forall d :: d in results <==>
            ReachedWithin(e, LiveDocs(all, s), Prelude.Filter(LiveDocs(all, s), Matching(filter)), depth, d)
    ensures DistinctIds(results)
  {
    hide Matches, LiveDocs, ReachedWithin, DistinctIds, Rounds;
    var start := Scan(all, filter, None, None, None, s);
    var docs := Scan(all, None, None, None, None, s);
    UnsortedScan(all, filter, s);
    UnsortedScan(all, None, s);
    FilterAll(LiveDocs(all, s), Matching(None));
    LiveDocsAreViews(all, s);
    results := Traverse(e, docs, start, depth);
    TraverseIsReachability(e, docs, start, depth);
  }

  lemma UnsortedScan(all: seq<Blob>, filter: Option<Filter>, s: DocumentId)
    ensures FullScan(all, filter, None, None, None, s) == Prelude.Filter(LiveDocs(all, s), Matching(filter))
  {
    MapSame(Prelude.Filter(LiveDocs(all, s), Matching(filter)), ProjectFields(None));
  }
}
