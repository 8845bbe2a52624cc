/** Point lookups and range scans over the blocks of an open table
    (crates/ingodb-sstable/src/reader.rs:165-352). */
module TableLookups {
  import opened Prelude
  import opened Bytes
  import opened Blobs
  import opened Codec
  import opened Sorting
  import opened Bloom
  import opened TableFormat
  import opened TableReader
  import opened TableFiles

  ghost predicate KeysSorted(keys: seq<Bytes>) { forall i, j :: 0 <= i < j < |keys| ==> LexLe(keys[i], keys[j]) }

  /** Binary search as the standard library promises it: some match, or the place where the key would go. */
  method BinarySearch(keys: seq<Bytes>, key: Bytes) returns (found: bool, i: nat)
    ensures i <= |keys| && (found ==> i < |keys| && keys[i] == key)
    ensures !found && KeysSorted(keys) ==> forall j :: 0 <= j < i ==> LexLess(keys[j], key)
    ensures !found && KeysSorted(keys) ==> forall j :: i <= j < |keys| ==> LexLess(key, keys[j])
  {
    hide Lex;
    var lo, hi := 0, |keys|;
    while lo < hi
      invariant lo <= hi <= |keys|
      invariant KeysSorted(keys) ==> forall j :: 0 <= j < lo ==> LexLess(keys[j], key)
      invariant KeysSorted(keys) ==> forall j :: hi <= j < |keys| ==> LexLess(key, keys[j])
    {
      var mid := (lo + hi) / 2;
      LexEqual(keys[mid], key);
      LexFlip(key, keys[mid]);
      match Lex(keys[mid], key)
      case Equal => return true, mid;
      case Less =>
        forall j | KeysSorted(keys) && 0 <= j < mid
          ensures LexLess(keys[j], key)
        {
          LexTransitive(keys[j], keys[mid], key);
        }
        lo := mid + 1;
      case Greater =>
        forall j | KeysSorted(keys) && mid < j < |keys|
          ensures LexLess(key, keys[j])
        {
          LexTransitive(key, keys[mid], keys[j]);
        }
        hi := mid;
    }
    return false, lo;
  }

  function LastKeyOf(x: BlockIndex): Bytes { x.lastKey }

  function KeyOf(e: Entry): Bytes { e.key }

  // ---- sorted blocks ----

  /** The entries before, in and after a block. */
  lemma {:induction false} Around(blocks: seq<seq<Entry>>, i: nat)
    requires i < |blocks|
    ensures Flatten(blocks) == Flatten(blocks[..i]) + blocks[i] + Flatten(blocks[i + 1..])
    ensures Flatten(blocks[..i + 1]) == Flatten(blocks[..i]) + blocks[i]
    ensures Flatten(blocks) == Flatten(blocks[..i + 1]) + Flatten(blocks[i + 1..])
  {
    assert blocks == blocks[..i + 1] + blocks[i + 1..];
    assert blocks[..i + 1] == blocks[..i] + [blocks[i]];
    assert [blocks[i]][1..] == [] && blocks[i] + [] == blocks[i];
    FlattenAppend(blocks[..i + 1], blocks[i + 1..]);
    FlattenAppend(blocks[..i], [blocks[i]]);
    assert Flatten([blocks[i]]) == blocks[i] + Flatten<Entry>([]);
  }

  /** Sorted in three parts: the parts and every pair across them are in order. */
  lemma SortedParts(entries: seq<Entry>, a: seq<Entry>, b: seq<Entry>, c: seq<Entry>)
    requires entries == a + b + c && Sorted(entries, EntryLe)
    ensures Sorted(b, EntryLe)
    ensures forall x, y :: x in a && y in b ==> EntryLe(x, y)
    ensures forall x, y :: x in b && y in c ==> EntryLe(x, y)
  {
    hide EntryLe;
    forall i, j | 0 <= i < j < |b| ensures EntryLe(b[i], b[j]) {
      assert b[i] == entries[|a| + i] && b[j] == entries[|a| + j];
    }
    forall x, y | x in a && y in b ensures EntryLe(x, y) {
      var k :| 0 <= k < |a| && a[k] == x;
      var l :| 0 <= l < |b| && b[l] == y;
      assert entries[k] == x && entries[|a| + l] == y;
    }
    forall x, y | x in b && y in c ensures EntryLe(x, y) {
      var k :| 0 <= k < |b| && b[k] == x;
      var l :| 0 <= l < |c| && c[l] == y;
      assert entries[|a| + k] == x && entries[|a| + |b| + l] == y;
    }
  }

  lemma LastIsLast(block: seq<Entry>)
    requires Sorted(block, EntryLe) && block != []
    ensures block[|block| - 1] in block && forall x :: x in block ==> EntryLe(x, block[|block| - 1])
  {
    hide Lex;
    forall x | x in block ensures EntryLe(x, block[|block| - 1]) {
      var k :| 0 <= k < |block| && block[k] == x;
      LexEqual(x.key, x.key);
    }
  }

  /** In key order, what comes before a block is not above its entries, and what comes after is not below its last
      key. */
  lemma BlockBounds(entries: seq<Entry>, blocks: seq<seq<Entry>>, i: nat)
    requires Flatten(blocks) == entries && Sorted(entries, EntryLe) && NoneEmpty(blocks) && i < |blocks|
    ensures forall x, y :: x in Flatten(blocks[..i]) && y in blocks[i] ==> LexLe(x.key, y.key)
    ensures forall x :: x in blocks[i] ==> LexLe(x.key, LastKey(blocks[i]))
    ensures forall x :: x in Flatten(blocks[..i + 1]) ==> LexLe(x.key, LastKey(blocks[i]))
    ensures forall x :: x in Flatten(blocks[i + 1..]) ==> LexLe(LastKey(blocks[i]), x.key)
    ensures Sorted(blocks[i], EntryLe)
  {
    hide Lex, Sorted, LexLe, Flatten, NoneEmpty;
    Around(blocks, i);
    NonEmptyAt(blocks, i);
    PartBounds(entries, Flatten(blocks[..i]), blocks[i], Flatten(blocks[i + 1..]));
  }

  lemma PartBounds(entries: seq<Entry>, a: seq<Entry>, b: seq<Entry>, c: seq<Entry>)
    requires entries == a + b + c && Sorted(entries, EntryLe) && b != []
    ensures forall x, y :: x in a && y in b ==> LexLe(x.key, y.key)
    ensures forall x :: x in b ==> LexLe(x.key, LastKey(b))
    ensures forall x :: x in a + b ==> LexLe(x.key, LastKey(b))
    ensures forall x :: x in c ==> LexLe(LastKey(b), x.key)
    ensures Sorted(b, EntryLe)
  {
    hide Lex, Sorted, LexLe;
    SortedParts(entries, a, b, c);
    LastIsLast(b);
  }

  lemma NonEmptyAt(blocks: seq<seq<Entry>>, i: nat)
    requires NoneEmpty(blocks) && i < |blocks|
    ensures blocks[i] != []
  {
  }

  lemma LastKeysSorted(entries: seq<Entry>, blocks: seq<seq<Entry>>, keys: seq<Bytes>)
    requires Flatten(blocks) == entries && Sorted(entries, EntryLe) && NoneEmpty(blocks)
    requires |keys| == |blocks| && forall i :: 0 <= i < |keys| ==> keys[i] == LastKey(blocks[i])
    ensures KeysSorted(keys)
  {
    hide Lex;
    forall i, j | 0 <= i < j < |keys| ensures LexLe(keys[i], keys[j]) {
      BlockBounds(entries, blocks, i);
      assert blocks[j] == blocks[i + 1..][j - i - 1];
      InFlatten(blocks[i + 1..], blocks[j][|blocks[j]| - 1]);
    }
  }

  lemma ServedKeys(env: Env, r: Reader, entries: seq<Entry>, blocks: seq<seq<Entry>>)
    requires Serves(env, r, entries, blocks)
    ensures KeysSorted(Map(r.index, LastKeyOf)) && |blocks| == |r.index| && NoneEmpty(blocks) && blocks != []
    ensures forall i :: 0 <= i < |blocks| ==> r.index[i].lastKey == LastKey(blocks[i])
    ensures forall i :: 0 <= i < |blocks| ==> ReadBlock(env, r.data, r.index[i]) == Ok(blocks[i])
    ensures Flatten(blocks) == entries && Sorted(entries, EntryLe)
  {
    hide ReadBlock, Admits, EntryLe;
    LastKeysSorted(entries, blocks, Map(r.index, LastKeyOf));
  }

  // ---- all entries ----

  /** All blocks in order, or the error of the first that cannot be read. */
  function ReadAll(env: Env, data: Bytes, index: seq<BlockIndex>): Result<seq<Entry>> {
    if index == [] then Ok([])
    else
      var es :- ReadBlock(env, data, index[0]);
      After(es, ReadAll(env, data, index[1..]))
  }

  method Iter(env: Env, r: Reader) returns (res: Result<seq<Entry>>)
    ensures res == ReadAll(env, r.data, r.index)
  {
    hide ReadBlock;
    var all: seq<Entry> := [];
    AfterNone(ReadAll(env, r.data, r.index));
    assert r.index[0..] == r.index;
    for i := 0 to |r.index|
      invariant After(all, ReadAll(env, r.data, r.index[i..])) == ReadAll(env, r.data, r.index)
    {
      assert r.index[i..][1..] == r.index[i + 1..];
      var es := ReadBlockEntries(env, r.data, r.index[i]);
      if es.Err? {
        return es;
      }
      AfterMore(all, es.value, ReadAll(env, r.data, r.index[i + 1..]));
      all := all + es.value;
    }
    assert all + [] == all;
    return Ok(all);
  }

  lemma AfterMore<T>(read: seq<T>, more: seq<T>, rest: Result<seq<T>>)
    ensures After(read, After(more, rest)) == After(read + more, rest)
  {
    if rest.Ok? {
      assert read + (more + rest.value) == read + more + rest.value;
    }
  }

  /** Iterating an open table gives its entries in key order. */
  lemma {:induction false} IterIsEntries(env: Env, data: Bytes, index: seq<BlockIndex>, blocks: seq<seq<Entry>>)
    requires |index| == |blocks| && forall i :: 0 <= i < |index| ==> ReadBlock(env, data, index[i]) == Ok(blocks[i])
    ensures ReadAll(env, data, index) == Ok(Flatten(blocks))
  {
    hide ReadBlock;
    if index != [] {
      IterIsEntries(env, data, index[1..], blocks[1..]);
    }
  }

  // ---- range scan ----

  function Between(low: Bytes, high: Bytes): Entry -> bool {
    (e: Entry) => LexLe(low, e.key) && LexLe(e.key, high)
  }

  /** Exactly the entries with `low <= key <= high`, in order, wherever the binary search lands among equal last
      keys. */
  method RangeScan(env: Env, r: Reader, low: Bytes, high: Bytes, ghost entries: seq<Entry>,
                   ghost blocks: seq<seq<Entry>>)
    returns (res: Result<seq<Entry>>)
    ensures Serves(env, r, entries, blocks) ==> res == Ok(Filter(entries, Between(low, high)))
    ensures Serves(env, r, entries, blocks) ==>
              forall e :: e in res.value <==> e in entries && LexLe(low, e.key) && LexLe(e.key, high)
    ensures res.Err? ==> exists x :: x in r.index && ReadBlock(env, r.data, x) == Err(res.error)
  {
    hide Serves, ReadBlock, LexLe, LexLess, Map, Filter, Flatten, KeysSorted;
    ghost var ok := Serves(env, r, entries, blocks);
    if ok {
      ServedKeys(env, r, entries, blocks);
      InRange(entries, low, high);
    }
    var found, first: nat := BinarySearch(Map(r.index, LastKeyOf), low);
    if !found && first >= |r.index| {
      if ok { NothingBelow(entries, blocks, |blocks|, low, high); WholeSlice(blocks); }
      return Ok([]);
    }
    while first > 0 && LexLe(low, r.index[first - 1].lastKey)
      invariant first < |r.index|
    {
      first := first - 1;
    }
    if ok { ReachedLow(entries, blocks, first, low, high); }
    var results: seq<Entry> := [];
    for k := first to |r.index|
      invariant ok ==> results == Filter(Flatten(blocks[..k]), Between(low, high))
    {
      var block := ReadBlockEntries(env, r.data, r.index[k]);
      if block.Err? {
        return block;
      }
      var stop, taken := ScanBlock(block.value, low, high);
      if ok { BlockTaken(entries, blocks, k, low, high, stop); }
      results := results + taken;
      if stop || (taken == [] && LexLess(high, r.index[k].lastKey)) {
        if ok && !stop { PastHigh(entries, blocks, k, low, high); }
        return Ok(results);
      }
    }
    if ok { WholeSlice(blocks); }
    return Ok(results);
  }

  lemma InRange(entries: seq<Entry>, low: Bytes, high: Bytes)
    ensures forall e :: e in Filter(entries, Between(low, high)) <==>
              e in entries && LexLe(low, e.key) && LexLe(e.key, high)
  {
    hide LexLe, Filter;
    forall e ensures e in Filter(entries, Between(low, high)) <==> e in entries && Between(low, high)(e) {
      InFilter(entries, Between(low, high), e);
    }
  }

  lemma WholeSlice(blocks: seq<seq<Entry>>)
    ensures blocks[..|blocks|] == blocks
  {
  }

  /** One block: skips what is below the range and stops at the first entry above it. */
  method ScanBlock(block: seq<Entry>, low: Bytes, high: Bytes) returns (stop: bool, taken: seq<Entry>)
    ensures stop ==>
            exists j :: 0 <= j < |block| && LexLess(high, block[j].key) &&
              taken == Filter(block[..j], Between(low, high))
    ensures !stop ==> taken == Filter(block, Between(low, high))
  {
    hide Lex;
    taken := [];
    for j := 0 to |block|
      invariant taken == Filter(block[..j], Between(low, high))
    {
      var e := block[j];
      assert block[..j + 1] == block[..j] + [e];
      FilterAppend(block[..j], [e], Between(low, high));
      assert [e][1..] == [];
      LexFlip(e.key, low);
      LexFlip(high, e.key);
      if LexLess(e.key, low) {
        continue;
      }
      if LexLess(high, e.key) {
        return true, taken;
      }
      taken := taken + [e];
    }
    assert block[..|block|] == block;
    return false, taken;
  }

  /** Blocks whose last key is below the range hold nothing of it. */
  lemma NothingBelow(entries: seq<Entry>, blocks: seq<seq<Entry>>, first: nat, low: Bytes, high: Bytes)
    requires Flatten(blocks) == entries && Sorted(entries, EntryLe) && NoneEmpty(blocks)
    requires first <= |blocks| && (first > 0 ==> LexLess(LastKey(blocks[first - 1]), low))
    ensures Filter(Flatten(blocks[..first]), Between(low, high)) == []
  {
    hide Lex, Filter, Flatten, LastKey;
    if first > 0 {
      BlockBounds(entries, blocks, first - 1);
      var last := LastKey(blocks[first - 1]);
      forall e | e in Flatten(blocks[..first]) ensures !Between(low, high)(e) {
        LexTransitive(e.key, last, low);
        LexFlip(e.key, low);
      }
      FilterNone(Flatten(blocks[..first]), Between(low, high));
    } else {
      assert blocks[..0] == [];
      NoEntries(low, high);
    }
  }

  lemma NoEntries(low: Bytes, high: Bytes)
    ensures Filter(Flatten([]), Between(low, high)) == []
  {
  }

  lemma ReachedLow(entries: seq<Entry>, blocks: seq<seq<Entry>>, first: nat, low: Bytes, high: Bytes)
    requires Flatten(blocks) == entries && Sorted(entries, EntryLe) && NoneEmpty(blocks)
    requires first <= |blocks| && (first > 0 ==> !LexLe(low, LastKey(blocks[first - 1])))
    ensures Filter(Flatten(blocks[..first]), Between(low, high)) == []
  {
    hide Lex;
    if first > 0 {
      LexFlip(low, LastKey(blocks[first - 1]));
      LexFlip(LastKey(blocks[first - 1]), low);
    }
    NothingBelow(entries, blocks, first, low, high);
  }

  /** Everything from an entry above the range on is outside it. */
  lemma TailAbove(entries: seq<Entry>, pre: seq<Entry>, post: seq<Entry>, m: nat, low: Bytes, high: Bytes)
    requires entries == pre + post && Sorted(entries, EntryLe)
    requires m <= |pre| && m < |entries| && LexLess(high, entries[m].key)
    ensures Filter(entries, Between(low, high)) == Filter(pre, Between(low, high))
  {
    hide Lex;
    forall e | e in post ensures !Between(low, high)(e) {
      var k :| 0 <= k < |post| && post[k] == e;
      assert entries[|pre| + k] == e;
      assert m < |pre| + k ==> EntryLe(entries[m], entries[|pre| + k]);
      LexEqual(e.key, e.key);
      LexTransitive(high, entries[m].key, e.key);
      LexFlip(high, e.key);
    }
    FilterNone(post, Between(low, high));
    FilterAppend(pre, post, Between(low, high));
  }

  lemma PastHigh(entries: seq<Entry>, blocks: seq<seq<Entry>>, k: nat, low: Bytes, high: Bytes)
    requires Flatten(blocks) == entries && Sorted(entries, EntryLe) && NoneEmpty(blocks)
    requires k < |blocks| && LexLess(high, LastKey(blocks[k]))
    ensures Filter(entries, Between(low, high)) == Filter(Flatten(blocks[..k + 1]), Between(low, high))
  {
    hide Lex, Filter;
    Around(blocks, k);
    var pre, post := Flatten(blocks[..k + 1]), Flatten(blocks[k + 1..]);
    assert pre[|pre| - 1] == blocks[k][|blocks[k]| - 1];
    TailAbove(entries, pre, post, |pre| - 1, low, high);
  }

  /** The part of a block taken: all of the range up to here, or, when the scan stopped inside, all of it. */
  lemma BlockTaken(entries: seq<Entry>, blocks: seq<seq<Entry>>, k: nat, low: Bytes, high: Bytes, stop: bool)
    requires Flatten(blocks) == entries && Sorted(entries, EntryLe) && NoneEmpty(blocks) && k < |blocks|
    ensures var before := Filter(Flatten(blocks[..k]), Between(low, high));
            && before + Filter(blocks[k], Between(low, high)) == Filter(Flatten(blocks[..k + 1]), Between(low, high))
            && forall j :: 0 <= j < |blocks[k]| && LexLess(high, blocks[k][j].key) ==>
                 before + Filter(blocks[k][..j], Between(low, high)) == Filter(entries, Between(low, high))
  {
    hide Lex, Filter;
    Around(blocks, k);
    var a, b, c := Flatten(blocks[..k]), blocks[k], Flatten(blocks[k + 1..]);
    FilterAppend(a, b, Between(low, high));
    forall j | 0 <= j < |b| && LexLess(high, b[j].key)
      ensures Filter(a, Between(low, high)) + Filter(b[..j], Between(low, high)) == Filter(entries, Between(low, high))
    {
      assert b == b[..j] + b[j..];
      assert entries == (a + b[..j]) + (b[j..] + c);
      TailAbove(entries, a + b[..j], b[j..] + c, |a| + j, low, high);
      FilterAppend(a, b[..j], Between(low, high));
    }
  }

  // ---- exact lookup ----

  /** Some entry with this key, or none when there is none. */
  ghost predicate FoundKey(entries: seq<Entry>, key: Bytes, r: Option<Blob>) {
    match r
    case Some(b) => Entry(key, b) in entries
    case None => forall e :: e in entries ==> e.key != key
  }

  method Get(env: Env, r: Reader, key: Bytes, ghost entries: seq<Entry>, ghost blocks: seq<seq<Entry>>)
    returns (res: Result<Option<Blob>>)
    ensures Serves(env, r, entries, blocks) ==> res.Ok? && FoundKey(entries, key, res.value)
  {
    hide Serves, ReadBlock, LexLe, LexLess, Map, KeysSorted, FoundKey, Probe;
    ghost var ok := Serves(env, r, entries, blocks);
    if ok { ServedKeys(env, r, entries, blocks); FilterAnswers(env, r, entries, blocks, key); }
    var may := MayContain(env, r.filter, key);
    if may.Err? {
      return Err(may.error);
    }
    if !may.value {
      return Ok(None);
    }
    var found, i := BinarySearch(Map(r.index, LastKeyOf), key);
    if !found && i >= |r.index| {
      if ok { NotBelow(entries, blocks, |blocks|, key); WholeSlice(blocks); NoneFound(entries, key); }
      return Ok(None);
    }
    var block := ReadBlockEntries(env, r.data, r.index[i]);
    if block.Err? {
      return Err(block.error);
    }
    var hit, k := BinarySearch(Map(block.value, KeyOf), key);
    if ok { InThisBlock(entries, blocks, i, key, found); FoundInBlock(entries, blocks, i, key, hit, k); }
    return Ok(if hit then Some(block.value[k].blob) else None);
  }

  /** The filter gives an answer, and a no is right. */
  lemma FilterAnswers(env: Env, r: Reader, entries: seq<Entry>, blocks: seq<seq<Entry>>, key: Bytes)
    requires Serves(env, r, entries, blocks)
    ensures Probe(env, r.filter, key, 0).Ok?
    ensures !Probe(env, r.filter, key, 0).value ==> FoundKey(entries, key, None)
  {
    hide Reads, HasPosition, Position, Probe;
    ProbeIff(env, r.filter, key, 0);
  }

  lemma NoneFound(entries: seq<Entry>, key: Bytes)
    requires forall e :: e in entries ==> e.key != key
    ensures FoundKey(entries, key, None)
  {
  }

  lemma Below(x: Bytes, last: Bytes, key: Bytes)
    requires LexLe(x, last) && LexLess(last, key)
    ensures LexLess(x, key) && x != key
  {
    LexTransitive(x, last, key);
    LexEqual(x, key);
  }

  lemma NotBelow(entries: seq<Entry>, blocks: seq<seq<Entry>>, i: nat, key: Bytes)
    requires Flatten(blocks) == entries && Sorted(entries, EntryLe) && NoneEmpty(blocks)
    requires i <= |blocks| && (i > 0 ==> LexLess(LastKey(blocks[i - 1]), key))
    ensures forall e :: e in Flatten(blocks[..i]) ==> LexLess(e.key, key) && e.key != key
  {
    hide LexLe, LexLess, Sorted, EntryLe, Flatten, NoneEmpty, LastKey, Lex;
    if i > 0 {
      UpToBlock(entries, blocks, i - 1);
      assert blocks[..i - 1 + 1] == blocks[..i];
      forall e | e in Flatten(blocks[..i]) ensures LexLess(e.key, key) && e.key != key {
        Below(e.key, LastKey(blocks[i - 1]), key);
      }
    } else {
      FlattenNothing(blocks);
    }
  }

  lemma UpToBlock(entries: seq<Entry>, blocks: seq<seq<Entry>>, i: nat)
    requires Flatten(blocks) == entries && Sorted(entries, EntryLe) && NoneEmpty(blocks) && i < |blocks|
    ensures forall x :: x in Flatten(blocks[..i + 1]) ==> LexLe(x.key, LastKey(blocks[i]))
  {
    hide LexLe, Sorted, EntryLe, Flatten;
    BlockBounds(entries, blocks, i);
  }

  lemma FlattenNothing(blocks: seq<seq<Entry>>)
    ensures Flatten(blocks[..0]) == []
  {
  }

  /** A key is in the block the search names, or nowhere. */
  lemma InThisBlock(entries: seq<Entry>, blocks: seq<seq<Entry>>, i: nat, key: Bytes, found: bool)
    requires Flatten(blocks) == entries && Sorted(entries, EntryLe) && NoneEmpty(blocks) && i < |blocks|
    requires found ==> LastKey(blocks[i]) == key
    requires !found ==> (i > 0 ==> LexLess(LastKey(blocks[i - 1]), key)) && LexLess(key, LastKey(blocks[i]))
    ensures (exists e :: e in entries && e.key == key) ==> exists e :: e in blocks[i] && e.key == key
    ensures Sorted(blocks[i], EntryLe)
  {
    hide Lex;
    BlockBounds(entries, blocks, i);
    Around(blocks, i);
    if found {
      assert blocks[i][|blocks[i]| - 1] in blocks[i];
    } else {
      NotBelow(entries, blocks, i, key);
      forall e | e in Flatten(blocks[i + 1..]) ensures e.key != key {
        LexTransitive(key, LastKey(blocks[i]), e.key);
        LexEqual(key, e.key);
      }
    }
  }

  lemma FoundInBlock(entries: seq<Entry>, blocks: seq<seq<Entry>>, i: nat, key: Bytes, hit: bool, k: nat)
    requires Flatten(blocks) == entries && i < |blocks| && Sorted(blocks[i], EntryLe)
    requires (exists e :: e in entries && e.key == key) ==> exists e :: e in blocks[i] && e.key == key
    requires k <= |blocks[i]| && (hit ==> k < |blocks[i]| && blocks[i][k].key == key)
    requires !hit && KeysSorted(Map(blocks[i], KeyOf)) ==>
               && (forall j :: 0 <= j < k ==> LexLess(Map(blocks[i], KeyOf)[j], key))
               && forall j :: k <= j < |blocks[i]| ==> LexLess(key, Map(blocks[i], KeyOf)[j])
    ensures FoundKey(entries, key, if hit then Some(blocks[i][k].blob) else None)
  {
    hide Lex;
    var keys := Map(blocks[i], KeyOf);
    forall a, b | 0 <= a < b < |keys| ensures LexLe(keys[a], keys[b]) { assert EntryLe(blocks[i][a], blocks[i][b]); }
    if hit {
      InFlatten(blocks, blocks[i][k]);
    } else {
      forall e | e in blocks[i] ensures e.key != key {
        var j :| 0 <= j < |blocks[i]| && blocks[i][j] == e;
        assert keys[j] == e.key;
        LexEqual(e.key, key);
        LexEqual(key, e.key);
      }
    }
  }
}
