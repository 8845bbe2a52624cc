/** Building a secondary index as a file: gather, dedup, project, write, reopen; what the file then lists is the
    index the scans walk (crates/ingodb-lsm/src/secondary.rs:52-95). */
module IndexFiles {
  import opened Prelude
  import opened Bytes
  import opened Blobs
  import opened Sorting
  import opened Merging
  import opened Tables
  import opened Codec
  import opened Keys
  import opened TableFormat
  import opened TableReader
  import opened TableFiles
  import TableWriter
  import TableLookups
  import SecondaryIndex

  function IndexKey(env: Env, fields: seq<Bytes>): Blob -> Bytes { (b: Blob) => DocumentKey(env, fields, b) }

  function BlobIn(e: Entry): Blob { e.blob }

  /** The documents an index over these tables covers, projected to its fields. */
  function Covered(fields: seq<Bytes>, tables: seq<Table>): seq<Blob> {
    Map(Filter(Newest(AllEntries(tables)), IsLive), SecondaryIndex.Projection(fields))
  }

  /** Builds the index file over the tables and opens it; with no live document there is no index. */
  method BuildIndex(env: Env, fields: seq<Bytes>, tables: seq<Table>, blockSize: nat) returns (r: Result<Reader>)
    ensures Covered(fields, tables) == [] ==> r == Err(EmptyTable)
    ensures && Covered(fields, tables) != [] && Lossless(env)
            && Fits(env, KeyedEntries(Covered(fields, tables), IndexKey(env, fields)), blockSize)
            ==> r.Ok? && IsIndex(env, fields, tables, r.value)
  {
    hide Newest, Fits, Lossless, IsTable, Open, Sort, IsIndex, KeyedEntries;
    var all: seq<Blob> := [];
    assert EntriesOf(tables)[..0] == [];
    for k := 0 to |tables|
      invariant all == Flatten(EntriesOf(tables)[..k])
    {
      assert EntriesOf(tables)[..k + 1] == EntriesOf(tables)[..k] + [EntriesOf(tables)[k]];
      FlattenAppend(EntriesOf(tables)[..k], [EntriesOf(tables)[k]]);
      FlattenSingle(EntriesOf(tables)[k]);
      all := all + tables[k].entries;
    }
    assert EntriesOf(tables)[..|tables|] == EntriesOf(tables);
    var projected := Map(Filter(Newest(all), IsLive), SecondaryIndex.Projection(fields));
    if projected == [] {
      return Err(EmptyTable);
    }
    var data := TableWriter.Write(env, projected, IndexKey(env, fields), blockSize);
    r := OpenTable(env, data.value);
    if Lossless(env) && Fits(env, KeyedEntries(projected, IndexKey(env, fields)), blockSize) {
      TableRoundTrip(env, projected, IndexKey(env, fields), blockSize, data.value);
      IndexIs(env, fields, tables, r.value, Split(env, KeyedEntries(projected, IndexKey(env, fields)), blockSize));
    }
  }

  lemma FlattenSingle(s: seq<Blob>)
    ensures Flatten([s]) == s
  {
    assert [s][1..] == [];
    assert Flatten([s]) == s + Flatten<Blob>([]);
  }

  /** Iterating the open file lists exactly the entries of the index, in its order. */
  ghost predicate IsIndex(env: Env, fields: seq<Bytes>, tables: seq<Table>, r: Reader) {
    var listed := TableLookups.ReadAll(env, r.data, r.index);
    listed.Ok? && Map(listed.value, BlobIn) == SecondaryIndex.Build(env, fields, AllEntries(tables))
  }

  lemma IndexIs(env: Env, fields: seq<Bytes>, tables: seq<Table>, r: Reader, blocks: seq<seq<Entry>>)
    requires Serves(env, r, KeyedEntries(Covered(fields, tables), IndexKey(env, fields)), blocks)
    ensures IsIndex(env, fields, tables, r)
  {
    hide ReadBlock, Admits, Sort, Newest;
    TableLookups.IterIsEntries(env, r.data, r.index, blocks);
    FileOrder(env, fields, Covered(fields, tables));
  }

  /** Sorting entries by key bytes is sorting documents by their keys, ties included. */
  lemma FileOrder(env: Env, fields: seq<Bytes>, docs: seq<Blob>)
    ensures Map(KeyedEntries(docs, IndexKey(env, fields)), BlobIn) == Sort(docs, SecondaryIndex.EntryLe(env, fields))
  {
    hide DocumentKey, LexLe;
    var keyed := WithKey(IndexKey(env, fields));
    SortMap(docs, keyed, EntryLe, SecondaryIndex.EntryLe(env, fields));
    var sorted := Sort(docs, SecondaryIndex.EntryLe(env, fields));
    assert Map(Map(sorted, keyed), BlobIn) == sorted;
  }
}
