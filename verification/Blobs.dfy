/** A document version as a value: identity, version, flags and fields
    (crates/ingodb-blob/src/iblob.rs). The class with the encoding cache is in module IBlobs. */
module Blobs {
  import opened Prelude
  import opened Bytes
  import opened Values

  const FLAG_DELETED: byte := 1
  const FLAG_PROJECTION: byte := 2

  /** `fields` lists the map's entries in key order. */
  datatype Blob = Blob(id: DocumentId, version: DocumentId, flags: byte, fields: seq<Field>) {
    predicate Deleted() { flags % 2 == 1 }

    predicate IsProjection() { flags / 2 % 2 == 1 }
  }

  function Tombstone(id: DocumentId): Blob { Blob(id, 0, FLAG_DELETED, []) }

  // ---- the field map ----

  ghost predicate KeySorted(fields: seq<Field>) {
    forall i, j :: 0 <= i < j < |fields| ==> LexLess(fields[i].key, fields[j].key)
  }

  function Lookup(fields: seq<Field>, key: Bytes): Option<Value> {
    if fields == [] then None
    else if fields[0].key == key then Some(fields[0].value)
    else Lookup(fields[1..], key)
  }

  /** Map insertion: a present key gets the new value. */
  function InsertField(fields: seq<Field>, f: Field): seq<Field> {
    if fields == [] then [f]
    else match Lex(f.key, fields[0].key)
      case Less => [f] + fields
      case Equal => [f] + fields[1..]
      case Greater => [fields[0]] + InsertField(fields[1..], f)
  }

  lemma {:induction false} InsertFieldSorted(fields: seq<Field>, f: Field)
    requires KeySorted(fields)
    ensures KeySorted(InsertField(fields, f))
    ensures forall g :: g in InsertField(fields, f) ==> g == f || g in fields
  {
    if fields != [] {
      LexEqual(f.key, fields[0].key);
      InsertFieldSorted(fields[1..], f);
      var r := InsertField(fields, f);
      forall j | 0 < j < |r| ensures LexLess(r[0].key, r[j].key) {
        match Lex(f.key, fields[0].key)
        case Less => if j > 1 { LexTransitive(f.key, fields[0].key, fields[j - 1].key); }
        case Equal =>
        case Greater =>
          LexFlip(fields[0].key, f.key);
          assert r[j] in InsertField(fields[1..], f);
      }
      forall i, j | 0 < i < j < |r| ensures LexLess(r[i].key, r[j].key) {
        match Lex(f.key, fields[0].key)
        case Less => assert r[i] == fields[i - 1] && r[j] == fields[j - 1];
        case Equal =>
        case Greater => assert r[1..] == InsertField(fields[1..], f);
          assert r[i] == r[1..][i - 1] && r[j] == r[1..][j - 1];
      }
    }
  }

  /** Inserting changes the answer for the inserted key and no other. */
  lemma {:induction false} LookupInsert(fields: seq<Field>, f: Field, key: Bytes)
    ensures KeySorted(fields) ==>
            Lookup(InsertField(fields, f), key) == if key == f.key then Some(f.value) else Lookup(fields, key)
  {
    if fields != [] && KeySorted(fields) {
      LexEqual(f.key, fields[0].key);
      LookupInsert(fields[1..], f, key);
      if Lex(f.key, fields[0].key) == Less {
        assert ([f] + fields)[1..] == fields;
      }
    }
  }

  /** `_id` and `_version`, the two names that read metadata. */
  const ID_NAME: Bytes := [95, 105, 100]
  const VERSION_NAME: Bytes := [95, 118, 101, 114, 115, 105, 111, 110]

  function GetField(b: Blob, key: Bytes): Option<Value> {
    if key == ID_NAME then Some(Uuid(b.id))
    else if key == VERSION_NAME then Some(Uuid(b.version))
    else Lookup(b.fields, key)
  }

  /** The fields named in `names` that `fields` has. */
  function Select(fields: seq<Field>, names: seq<Bytes>): seq<Field> {
    if names == [] then []
    else
      var rest := Select(fields, names[..|names| - 1]);
      var name := names[|names| - 1];
      match Lookup(fields, name)
      case Some(v) => InsertField(rest, Field(name, v))
      case None => rest
  }

  function Project(b: Blob, names: seq<Bytes>): Blob {
    Blob(b.id, b.version, if b.IsProjection() then b.flags else b.flags + 2, Select(b.fields, names))
  }

  lemma {:induction false} SelectLookup(fields: seq<Field>, names: seq<Bytes>, key: Bytes)
    ensures KeySorted(Select(fields, names))
    ensures Lookup(Select(fields, names), key) == if key in names then Lookup(fields, key) else None
  {
    if names != [] {
      var front, name := names[..|names| - 1], names[|names| - 1];
      assert names == front + [name];
      SelectLookup(fields, front, key);
      match Lookup(fields, name)
      case Some(v) =>
        InsertFieldSorted(Select(fields, front), Field(name, v));
        LookupInsert(Select(fields, front), Field(name, v), key);
      case None =>
    }
  }

  /** A projection answers for its names, and for the metadata, exactly as the document does. */
  lemma ProjectGetField(b: Blob, names: seq<Bytes>, key: Bytes)
    ensures GetField(Project(b, names), key) ==
            if key in names || key == ID_NAME || key == VERSION_NAME then GetField(b, key) else None
    ensures Project(b, names).Deleted() == b.Deleted() && Project(b, names).IsProjection()
    ensures Project(b, names).flags == b.flags / 4 * 4 + 2 + b.flags % 2
  {
    SelectLookup(b.fields, names, key);
  }
}
