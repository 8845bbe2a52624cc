/** What a reader sees: the newest version of an id at or below a snapshot, in one list
    of versions and across an ordered list of sources (the read path of crates/ingodb-lsm/src/lib.rs). */
module Views {
  import opened Prelude
  import opened Bytes
  import opened Blobs

  predicate Shows(b: Blob, id: DocumentId, s: DocumentId) { b.id == id && b.version <= s }

  /** The entry of `id` with the highest version not above `s`. */
  function Visible(src: seq<Blob>, id: DocumentId, s: DocumentId): (r: Option<Blob>)
    ensures r.Some? ==> r.value in src && Shows(r.value, id, s)
    ensures r.Some? ==> forall b :: b in src && Shows(b, id, s) ==> b.version <= r.value.version
    ensures r.None? ==> forall b :: b in src ==> !Shows(b, id, s)
  {
    if src == [] then None
    else
      var rest := Visible(src[1..], id, s);
      if Shows(src[0], id, s) && (rest.None? || rest.value.version <= src[0].version) then Some(src[0]) else rest
  }

  /** A reader gets nothing for a tombstone. */
  function Live(r: Option<Blob>): Option<Blob> {
    if r.Some? && r.value.Deleted() then None else r
  }

  /** One version of one document is one blob, however many copies there are. */
  ghost predicate Coherent(src: seq<Blob>) {
    forall a, b :: a in src && b in src && a.id == b.id && a.version == b.version ==> a == b
  }

  /** In a coherent list the visible blob is pinned down by membership alone. */
  lemma VisibleUnique(src: seq<Blob>, id: DocumentId, s: DocumentId, b: Blob)
    requires Coherent(src) && b in src && Shows(b, id, s)
    requires forall c :: c in src && Shows(c, id, s) ==> c.version <= b.version
    ensures Visible(src, id, s) == Some(b)
  {
    var r := Visible(src, id, s);
    assert r.Some? && r.value.version == b.version;
  }

  lemma SameEntriesSameView(a: seq<Blob>, b: seq<Blob>, id: DocumentId, s: DocumentId)
    requires Coherent(a) && forall x :: x in a <==> x in b
    ensures Visible(a, id, s) == Visible(b, id, s)
  {
    var r := Visible(a, id, s);
    if r.Some? {
      VisibleUnique(b, id, s, r.value);
    }
  }

  /** First match wins. */
  function FirstMatch(sources: seq<seq<Blob>>, id: DocumentId, s: DocumentId): Option<Blob> {
    if sources == [] then None
    else
      var here := Visible(sources[0], id, s);
      if here.Some? then here else FirstMatch(sources[1..], id, s)
  }

  lemma {:induction false} FirstMatchAppend(a: seq<seq<Blob>>, b: seq<seq<Blob>>, id: DocumentId, s: DocumentId)
    ensures FirstMatch(a + b, id, s) ==
            if FirstMatch(a, id, s).Some? then FirstMatch(a, id, s) else FirstMatch(b, id, s)
  {
    if a == [] {
      assert a + b == b;
    } else {
      assert (a + b)[1..] == a[1..] + b;
      FirstMatchAppend(a[1..], b, id, s);
    }
  }

  lemma FirstMatchOne(a: seq<Blob>, id: DocumentId, s: DocumentId)
    ensures FirstMatch([a], id, s) == Visible(a, id, s)
  {
    assert FirstMatch([a][1..], id, s) == None;
  }

  /** `earlier` may be read before `later`: a version of `later` above one in `earlier` is also in `earlier`. */
  ghost predicate ReadBefore(earlier: seq<Blob>, later: seq<Blob>) {
    forall v, w :: v in later && w in earlier && v.id == w.id && w.version < v.version ==> v in earlier
  }

  ghost predicate ReadOrdered(sources: seq<seq<Blob>>) {
    forall i, j :: 0 <= i < j < |sources| ==> ReadBefore(sources[i], sources[j])
  }

  lemma {:induction false} FirstMatchFound(sources: seq<seq<Blob>>, id: DocumentId, s: DocumentId) returns (k: nat)
    ensures FirstMatch(sources, id, s).None? ==>
            k == |sources| && forall b :: b in Flatten(sources) ==> !Shows(b, id, s)
    ensures FirstMatch(sources, id, s).Some? ==>
            k < |sources| && FirstMatch(sources, id, s) == Visible(sources[k], id, s)
    ensures forall i, b :: 0 <= i < k && b in sources[i] ==> !Shows(b, id, s)
  {
    if sources == [] {
      k := 0;
    } else if Visible(sources[0], id, s).Some? {
      k := 0;
    } else {
      var j := FirstMatchFound(sources[1..], id, s);
      k := j + 1;
    }
  }

  /** Under the read order, the first source with a match holds the global answer, at every snapshot. */
  lemma FirstMatchIsVisible(sources: seq<seq<Blob>>, id: DocumentId, s: DocumentId)
    requires ReadOrdered(sources) && Coherent(Flatten(sources))
    ensures FirstMatch(sources, id, s) == Visible(Flatten(sources), id, s)
  {
    hide Visible, Coherent;
    var all := Flatten(sources);
    var k := FirstMatchFound(sources, id, s);
    if FirstMatch(sources, id, s).Some? {
      var b := FirstMatch(sources, id, s).value;
      InFlatten(sources, b);
      forall c | c in all && Shows(c, id, s) ensures c.version <= b.version {
        InFlatten(sources, c);
        var j :| 0 <= j < |sources| && c in sources[j];
        if k < j {
          assert ReadBefore(sources[k], sources[j]);
        }
      }
      VisibleUnique(all, id, s, b);
    }
  }

  /** The weakest order under which first match wins: a higher version may only come later if it also came before. */
  ghost predicate WeaklyReadOrdered(sources: seq<seq<Blob>>) {
    forall i, j, v, w ::
      0 <= i < j < |sources| && v in sources[j] && w in sources[i] && v.id == w.id && w.version < v.version
      ==> exists k :: 0 <= k <= i && v in sources[k]
  }

  ghost predicate ReadsExact(sources: seq<seq<Blob>>) {
    forall id, s :: FirstMatch(sources, id, s) == Visible(Flatten(sources), id, s)
  }

  /** First match wins for every id and snapshot exactly when the weak order holds. */
  lemma ReadsExactIff(sources: seq<seq<Blob>>)
    requires Coherent(Flatten(sources))
    ensures ReadsExact(sources) <==> WeaklyReadOrdered(sources)
  {
    if WeaklyReadOrdered(sources) {
      forall id, s ensures FirstMatch(sources, id, s) == Visible(Flatten(sources), id, s) {
        WeakOrderSuffices(sources, id, s);
      }
    }
    if ReadsExact(sources) {
      forall i, j, v, w | && 0 <= i < j < |sources| && v in sources[j] && w in sources[i]
                          && v.id == w.id && w.version < v.version
        ensures exists k :: 0 <= k <= i && v in sources[k]
      {
        WeakOrderNeeded(sources, i, j, v, w);
      }
    }
  }

  lemma WeakOrderSuffices(sources: seq<seq<Blob>>, id: DocumentId, s: DocumentId)
    requires Coherent(Flatten(sources)) && WeaklyReadOrdered(sources)
    ensures FirstMatch(sources, id, s) == Visible(Flatten(sources), id, s)
  {
    hide Visible, Coherent;
    var all := Flatten(sources);
    var k := FirstMatchFound(sources, id, s);
    if FirstMatch(sources, id, s).Some? {
      var b := FirstMatch(sources, id, s).value;
      InFlatten(sources, b);
      forall c | c in all && Shows(c, id, s) ensures c.version <= b.version {
        InFlatten(sources, c);
        var j :| 0 <= j < |sources| && c in sources[j];
        if k < j && b.version < c.version {
          assert false;
        }
      }
      VisibleUnique(all, id, s, b);
    }
  }

  lemma WeakOrderNeeded(sources: seq<seq<Blob>>, i: nat, j: nat, v: Blob, w: Blob)
    requires Coherent(Flatten(sources)) && ReadsExact(sources)
    requires i < j < |sources| && v in sources[j] && w in sources[i] && v.id == w.id && w.version < v.version
    ensures exists k :: 0 <= k <= i && v in sources[k]
  {
    var k := FirstMatchFound(sources, v.id, v.version);
    InFlatten(sources, v);
    VisibleUnique(Flatten(sources), v.id, v.version, v);
    assert FirstMatch(sources, v.id, v.version) == Some(v);
    if i < k {
      assert Shows(w, v.id, v.version);
      assert false;
    }
  }

  /** Do two lists hold versions of a common document? */
  ghost predicate ShareId(a: seq<Blob>, b: seq<Blob>) {
    exists x, y :: x in a && y in b && x.id == y.id
  }
}
