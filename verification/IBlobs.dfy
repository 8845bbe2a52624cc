/** The document object with its cached hash and encoding, its decoder, and the extractor that reads
    one field without decoding the rest (crates/ingodb-blob/src/iblob.rs). */
module IBlobs {
  import opened Prelude
  import opened Bytes
  import opened Values
  import opened Blobs
  import opened Sorting
  import opened Codec

  const NO_HASH: Hash := seq(32, _ => 0)

  class IBlob {
    const env: Env
    const id: DocumentId
    var version: DocumentId
    const flags: byte
    const fields: seq<Field>
    /** All zero until computed. */
    var hash: Hash
    var encoded: Option<Bytes>
    var hashComputations: nat

    ghost function Content(): Blob
      reads this
    {
      Blob(id, version, flags, fields)
    }

    /** A cached hash or encoding belongs to the current content. */
    ghost predicate Valid()
      reads this
    {
      && (hash != NO_HASH ==> hash == ContentHash(env, Content()))
      && (encoded.Some? ==> encoded.value == Serialize(env, Content()))
    }

    constructor (env: Env, id: DocumentId, flags: byte, fields: seq<Field>)
      ensures Valid() && Content() == Blob(id, 0, flags, fields) && this.env == env && hashComputations == 0
    {
      this.env := env;
      this.id := id;
      this.version := 0;
      this.flags := flags;
      this.fields := fields;
      this.hash := NO_HASH;
      this.encoded := None;
      this.hashComputations := 0;
    }

    /** A new version drops both caches. */
    method SetVersion(v: DocumentId)
      modifies this`version, this`hash, this`encoded
      ensures Valid() && Content() == old(Content()).(version := v) && hash == NO_HASH && encoded == None
    {
      version := v;
      hash := NO_HASH;
      encoded := None;
    }

    method ComputeHash()
      modifies this`hash, this`hashComputations
      ensures hash == ContentHash(env, Content()) && hashComputations == old(hashComputations) + 1
    {
      var buf := new Buffer();
      buf.Extend(IdBytes(id));
      buf.Extend(IdBytes(version));
      buf.Push(flags);
      EncodeEntries(fields, buf);
      assert buf.data == Hashable(Content());
      hashComputations := hashComputations + 1;
      hash := env.blake3(buf.data);
    }

    /** The document's bytes: cached, or built with the hash computed at most once. */
    method Encode() returns (r: Bytes)
      requires Valid()
      modifies this`hash, this`encoded, this`hashComputations
      ensures Valid() && r == Serialize(env, Content()) && encoded == Some(r)
      ensures hashComputations == old(hashComputations)
           || (hashComputations == old(hashComputations) + 1 && old(hash) == NO_HASH && old(encoded).None?)
    {
      if encoded.Some? {
        return encoded.value;
      }
      if hash == NO_HASH {
        ComputeHash();
      }
      var indexEntries, payload := BuildIndex(env, fields);
      indexEntries := Sort(indexEntries, HashLe);
      var indexBytes := WriteIndex(indexEntries);
      r := Header(Blob(id, version, flags, fields), hash) + indexBytes + payload;
      encoded := Some(r);
    }
  }

  /** Encodes each field into the payload and notes hash, offset and length. */
  method BuildIndex(env: Env, fields: seq<Field>) returns (entries: seq<IndexEntry>, payload: Bytes)
    ensures entries == Index(env, fields, 0) && payload == EncodingEntries(fields)
  {
    hide EncodingEntry, KeyHash;
    entries, payload := [], [];
    for i := 0 to |fields|
      invariant entries + Index(env, fields[i..], |payload|) == Index(env, fields, 0)
      invariant payload + EncodingEntries(fields[i..]) == EncodingEntries(fields)
    {
      var buf := new Buffer();
      EncodeEntries([fields[i]], buf);
      OneEntry(fields[i]);
      IndexStep(env, fields, i, entries, payload);
      entries := entries + [IndexEntry(KeyHash(env, fields[i].key), |payload|, |buf.data|)];
      payload := payload + buf.data;
    }
    assert fields[|fields|..] == [] && entries + [] == entries && payload + [] == payload;
  }

  lemma IndexStep(env: Env, fields: seq<Field>, i: nat, entries: seq<IndexEntry>, payload: Bytes)
    requires i < |fields|
    ensures var b := EncodingEntry(fields[i]);
            && payload + EncodingEntries(fields[i..]) == (payload + b) + EncodingEntries(fields[i + 1..])
            && entries + Index(env, fields[i..], |payload|)
               == (entries + [IndexEntry(KeyHash(env, fields[i].key), |payload|, |b|)]) +
                 Index(env, fields[i + 1..], |payload + b|)
  {
    hide EncodingEntry, KeyHash;
    assert fields[i..][1..] == fields[i + 1..];
  }

  lemma OneEntry(f: Field)
    ensures EncodingEntries([f]) == EncodingEntry(f)
  {
    assert EncodingEntries([f]) == EncodingEntry(f) + EncodingEntries([f][1..]);
  }

  method WriteIndex(es: seq<IndexEntry>) returns (b: Bytes)
    ensures b == IndexBytes(es)
  {
    hide EntryBytes;
    b := [];
    for i := 0 to |es|
      invariant b + IndexBytes(es[i..]) == IndexBytes(es)
    {
      assert es[i..][1..] == es[i + 1..];
      b := b + EntryBytes(es[i]);
    }
    assert es[|es|..] == [] && b + [] == b;
  }

  /** The decoder as the program runs it: header, index loop, field loop, hash check. */
  method DecodeBuffer(env: Env, buf: Bytes) returns (r: Result<Blob>)
    ensures r == DecodeBlob(env, buf)
  {
    hide ParseBlob;
    r := ParseBuffer(env, buf);
    if r.Ok? && ContentHash(env, r.value) != buf[39..71] {
      return Err(HashMismatch);
    }
  }

  /** Decodes into a document object: its hash is computed once and checked, and nothing is cached as its encoding. */
  method DecodeObject(env: Env, buf: Bytes) returns (r: Result<IBlob>)
    ensures r.Err? ==> DecodeBlob(env, buf) == Err(r.error)
    ensures r.Ok? ==>
            fresh(r.value) && r.value.Valid() && r.value.env == env && DecodeBlob(env, buf) == Ok(r.value.Content())
    ensures r.Ok? ==>
            r.value.hash == ContentHash(env, r.value.Content()) && r.value.encoded == None &&
              r.value.hashComputations == 1
  {
    hide ParseBlob;
    var b := ParseBuffer(env, buf);
    if b.Err? {
      return Err(b.error);
    }
    var blob := new IBlob(env, b.value.id, b.value.flags, b.value.fields);
    blob.SetVersion(b.value.version);
    blob.ComputeHash();
    if blob.hash != buf[39..71] {
      return Err(HashMismatch);
    }
    return Ok(blob);
  }

  method ParseBuffer(env: Env, buf: Bytes) returns (r: Result<Blob>)
    ensures r == ParseBlob(env, buf)
  {
    hide FromLittleEndian, IdFromBytes, ReadFields;
    if |buf| < HEADER_SIZE {
      return Err(BufferTooShort);
    }
    if buf[0..4] != MAGIC {
      return Err(InvalidMagic);
    }
    if FromLittleEndian(buf[4..6]) != FORMAT_VERSION {
      return Err(UnsupportedVersion);
    }
    var count := ReadU32(buf, 71);
    var indexEnd := HEADER_SIZE + count * INDEX_ENTRY_SIZE;
    if |buf| < indexEnd {
      return Err(BufferTooShort);
    }
    var entries := [];
    for i := 0 to count
      invariant entries == ReadIndex(buf, i)
    {
      entries := entries + [IndexAt(buf, i)];
    }
    var fields := DecodeFields(env, buf[indexEnd..], entries);
    if fields.Err? {
      return Err(fields.error);
    }
    return Ok(Blob(IdFromBytes(buf[6..22]), IdFromBytes(buf[22..38]), buf[38], fields.value));
  }

  method DecodeFields(env: Env, payload: Bytes, entries: seq<IndexEntry>) returns (r: Result<seq<Field>>)
    ensures r == ReadFields(env, payload, entries, [])
  {
    hide ReadField;
    var fields := [];
    for i := 0 to |entries|
      invariant ReadFields(env, payload, entries[i..], fields) == ReadFields(env, payload, entries, [])
    {
      assert entries[i..][1..] == entries[i + 1..];
      var f := ReadField(env, payload, entries[i]);
      if f.Err? {
        return Err(f.error);
      }
      fields := InsertField(fields, f.value);
    }
    return Ok(fields);
  }

  // ---- one field without the rest ----

  /** The bytes of some encodable document. */
  ghost predicate IsDocument(env: Env, buf: Bytes) {
    DecodeBlob(env, buf).Ok? && Encodable(env, DecodeBlob(env, buf).value) &&
      buf == Serialize(env, DecodeBlob(env, buf).value)
  }

  function Found(v: Option<Value>): Result<Value> {
    if v.Some? then Ok(v.value) else Err(FieldNotFound)
  }

  /** Binary search by key hash, then a walk over colliding entries until the key itself matches. */
  method ExtractField(env: Env, buf: Bytes, name: Bytes) returns (r: Result<Value>)
    ensures IsDocument(env, buf) ==> r == Found(Lookup(DecodeBlob(env, buf).value.fields, name))
    ensures |buf| < HEADER_SIZE ==> r == Err(BufferTooShort)
  {
    if |buf| < HEADER_SIZE {
      return Err(BufferTooShort);
    }
    hide IsDocument, IndexOf, Lookup, KeyHash;
    var count := ReadU32(buf, 71);
    if HEADER_SIZE + count * INDEX_ENTRY_SIZE > |buf| {
      NotADocument(env, buf);
      return Err(Panic);
    }
    var lo := FirstNotBelow(buf, count, KeyHash(env, name));
    r := WalkCollisions(env, buf, count, name, lo);
    if IsDocument(env, buf) {
      DocumentFacts(env, buf);
    }
  }

  lemma NotADocument(env: Env, buf: Bytes)
    requires |buf| >= HEADER_SIZE && HEADER_SIZE + ReadU32(buf, 71) * INDEX_ENTRY_SIZE > |buf|
    ensures !IsDocument(env, buf)
  {
    if IsDocument(env, buf) {
      DocumentIndex(env, DecodeBlob(env, buf).value);
    }
  }

  lemma DocumentFacts(env: Env, buf: Bytes)
    requires IsDocument(env, buf)
    ensures |buf| >= HEADER_SIZE && HEADER_SIZE + ReadU32(buf, 71) * INDEX_ENTRY_SIZE <= |buf|
    ensures IndexOf(env, buf, ReadU32(buf, 71), DecodeBlob(env, buf).value.fields) && IndexSorted(buf, ReadU32(buf, 71))
  {
    DocumentIndex(env, DecodeBlob(env, buf).value);
  }

  /** Extraction agrees with decoding on every document, and every encodable document has such bytes. */
  lemma SerializedIsDocument(env: Env, b: Blob)
    requires Encodable(env, b)
    ensures IsDocument(env, Serialize(env, b)) && DecodeBlob(env, Serialize(env, b)).value == b
  {
    DecodeSerialized(env, b);
  }

  ghost predicate IndexSorted(buf: Bytes, count: nat)
    requires HEADER_SIZE + count * INDEX_ENTRY_SIZE <= |buf|
  {
    forall i, j :: 0 <= i < j < count ==> IndexAt(buf, i).keyHash <= IndexAt(buf, j).keyHash
  }

  /** The first index entry whose hash is not below the target. */
  method FirstNotBelow(buf: Bytes, count: nat, target: u64) returns (lo: nat)
    requires HEADER_SIZE + count * INDEX_ENTRY_SIZE <= |buf|
    ensures lo <= count
    ensures IndexSorted(buf, count) ==>
              && (forall i :: 0 <= i < lo ==> IndexAt(buf, i).keyHash < target)
              && forall i :: lo <= i < count ==> IndexAt(buf, i).keyHash >= target
  {
    var hi := count;
    lo := 0;
    while lo < hi
      invariant 0 <= lo <= hi <= count
      invariant IndexSorted(buf, count) ==>
                  && (forall i :: 0 <= i < lo ==> IndexAt(buf, i).keyHash < target)
                  && forall i :: hi <= i < count ==> IndexAt(buf, i).keyHash >= target
    {
      var mid := lo + (hi - lo) / 2;
      if IndexAt(buf, mid).keyHash < target {
        lo := mid + 1;
      } else {
        hi := mid;
      }
    }
  }

  /** The field behind an entry, for the extractor: unguarded slices, then text check, then value if the key matches. */
  function ProbeField(env: Env, payload: Bytes, e: IndexEntry, name: Bytes): Result<Option<Value>> {
    if e.offset + e.length > |payload| then Err(Panic)
    else
      var data := payload[e.offset..e.offset + e.length];
      match ReadSized(data, 0)
      case Err(_) => Err(Panic)
      case Ok(key) =>
        if !env.utf8(key) then Err(InvalidUtf8)
        else if key != name then Ok(None)
        else
          var (v, _) :- Decode(data, 4 + |key|, env.utf8);
          Ok(Some(v))
  }

  /** On any bytes at all: what the extractor finds behind an entry is what decoding reads there, and where decoding
      reads a field the extractor finds it, or says that it is another one. */
  lemma ProbeReads(env: Env, payload: Bytes, e: IndexEntry, name: Bytes)
    ensures ReadField(env, payload, e).Ok? ==>
              var f := ReadField(env, payload, e).value;
              ProbeField(env, payload, e, name) == Ok(if f.key == name then Some(f.value) else None)
    ensures ProbeField(env, payload, e, name).Ok? && ProbeField(env, payload, e, name).value.Some? ==>
              ReadField(env, payload, e) == Ok(Field(name, ProbeField(env, payload, e, name).value.value))
  {
    hide Decode, ReadSized;
  }

  lemma ProbePoints(env: Env, payload: Bytes, e: IndexEntry, f: Field, name: Bytes)
    requires Points(env, payload, e, f)
    ensures ProbeField(env, payload, e, name) == Ok(if f.key == name then Some(f.value) else None)
  {
    hide Decode, ReadSized;
  }

  method WalkCollisions(env: Env, buf: Bytes, count: nat, name: Bytes, start: nat) returns (r: Result<Value>)
    requires HEADER_SIZE + count * INDEX_ENTRY_SIZE <= |buf| && start <= count
    ensures forall fields: seq<Field> ::
              IndexOf(env, buf, count, fields) && StartsAt(buf, count, KeyHash(env, name), start) ==>
                r == Found(Lookup(fields, name))
  {
    hide ProbeField, Lookup, IndexOf, StartsAt;
    var payload := buf[HEADER_SIZE + count * INDEX_ENTRY_SIZE..];
    var target, lo := KeyHash(env, name), start;
    while lo < count
      invariant start <= lo <= count
      invariant forall i :: start <= i < lo ==>
                  IndexAt(buf, i).keyHash == target && ProbeField(env, payload, IndexAt(buf, i), name) == Ok(None)
    {
      var e := IndexAt(buf, lo);
      if e.keyHash != target {
        break;
      }
      var probe := ProbeField(env, payload, e, name);
      if probe != Ok(None) {
        forall fields | IndexOf(env, buf, count, fields) ensures probe.Ok? && Lookup(fields, name) == probe.value {
          ProbeDecides(env, buf, count, fields, name, lo);
        }
        return if probe.Err? then Err(probe.error) else Ok(probe.value.value);
      }
      lo := lo + 1;
    }
    forall fields | IndexOf(env, buf, count, fields) && StartsAt(buf, count, target, start)
      ensures Lookup(fields, name) == None
    {
      NoneMatches(env, buf, count, fields, name, start, lo);
    }
    return Err(FieldNotFound);
  }

  /** The index and payload in the buffer are those of `fields`. */
  ghost predicate IndexOf(env: Env, buf: Bytes, count: nat, fields: seq<Field>)
    requires HEADER_SIZE + count * INDEX_ENTRY_SIZE <= |buf|
  {
    && KeySorted(fields) && IndexSorted(buf, count)
    && Covers(env, buf[HEADER_SIZE + count * INDEX_ENTRY_SIZE..], ReadIndex(buf, count), fields)
  }

  ghost predicate StartsAt(buf: Bytes, count: nat, target: u64, start: nat)
    requires HEADER_SIZE + count * INDEX_ENTRY_SIZE <= |buf|
  {
    && (forall i :: 0 <= i < start && i < count ==> IndexAt(buf, i).keyHash < target)
    && forall i :: start <= i < count ==> IndexAt(buf, i).keyHash >= target
  }

  /** A probe that does not say "other key" gives the value of the named field. */
  lemma ProbeDecides(env: Env, buf: Bytes, count: nat, fields: seq<Field>, name: Bytes, i: nat)
    requires HEADER_SIZE + count * INDEX_ENTRY_SIZE <= |buf| && i < count && IndexOf(env, buf, count, fields)
    requires ProbeField(env, buf[HEADER_SIZE + count * INDEX_ENTRY_SIZE..], IndexAt(buf, i), name) != Ok(None)
    ensures var probe := ProbeField(env, buf[HEADER_SIZE + count * INDEX_ENTRY_SIZE..], IndexAt(buf, i), name);
            probe.Ok? && Lookup(fields, name) == probe.value
  {
    hide ProbeField, Points;
    var payload, e := buf[HEADER_SIZE + count * INDEX_ENTRY_SIZE..], ReadIndex(buf, count)[i];
    assert e in ReadIndex(buf, count);
    assert Leads(env, payload, e, fields);
    var f :| f in fields && Points(env, payload, e, f);
    ProbePoints(env, payload, e, f, name);
    LookupMember(fields, f);
  }

  lemma {:induction false} LookupMember(fields: seq<Field>, f: Field)
    requires KeySorted(fields) && f in fields
    ensures Lookup(fields, f.key) == Some(f.value)
  {
    if fields[0] != f {
      assert fields[0].key != f.key by { if fields[0].key == f.key { KeysDistinct(fields, fields[0], f); } }
      LookupMember(fields[1..], f);
    }
  }

  lemma {:induction false} LookupHit(fields: seq<Field>, name: Bytes)
    ensures Lookup(fields, name).Some? ==> Field(name, Lookup(fields, name).value) in fields
  {
    if fields != [] {
      LookupHit(fields[1..], name);
    }
  }

  /** When the walk ends, the field is not there: an entry for it would have been met. */
  lemma NoneMatches(env: Env, buf: Bytes, count: nat, fields: seq<Field>, name: Bytes, start: nat, lo: nat)
    requires HEADER_SIZE + count * INDEX_ENTRY_SIZE <= |buf| && start <= lo <= count
    requires IndexOf(env, buf, count, fields) && StartsAt(buf, count, KeyHash(env, name), start)
    requires forall i :: start <= i < lo ==>
               ProbeField(env, buf[HEADER_SIZE + count * INDEX_ENTRY_SIZE..], IndexAt(buf, i), name) == Ok(None)
    requires lo < count ==> IndexAt(buf, lo).keyHash != KeyHash(env, name)
    ensures Lookup(fields, name) == None
  {
    hide ProbeField, Points, KeyHash, IndexAt, IndexOf, StartsAt, Lookup;
    LookupHit(fields, name);
    if Lookup(fields, name).Some? {
      var f := Field(name, Lookup(fields, name).value);
      var k := EntryOf(env, buf, count, fields, f);
      ProbePoints(env, buf[HEADER_SIZE + count * INDEX_ENTRY_SIZE..], IndexAt(buf, k), f, name);
      SameHash(env, buf[HEADER_SIZE + count * INDEX_ENTRY_SIZE..], IndexAt(buf, k), f);
      InsideRun(buf, count, KeyHash(env, name), start, lo, k);
      assert false;
    }
  }

  /** The index is sorted, and some entry of it leads to each field. */
  lemma EntryOf(env: Env, buf: Bytes, count: nat, fields: seq<Field>, f: Field) returns (k: nat)
    requires HEADER_SIZE + count * INDEX_ENTRY_SIZE <= |buf| && IndexOf(env, buf, count, fields) && f in fields
    ensures k < count && Points(env, buf[HEADER_SIZE + count * INDEX_ENTRY_SIZE..], IndexAt(buf, k), f)
    ensures IndexSorted(buf, count)
  {
    hide Points, IndexAt;
    var payload, es := buf[HEADER_SIZE + count * INDEX_ENTRY_SIZE..], ReadIndex(buf, count);
    assert Reached(env, payload, es, f);
    var e :| e in es && Points(env, payload, e, f);
    k :| 0 <= k < count && es[k] == e;
  }

  /** An entry with the hash lies in the run of entries walked. */
  lemma InsideRun(buf: Bytes, count: nat, hash: u64, start: nat, lo: nat, k: nat)
    requires HEADER_SIZE + count * INDEX_ENTRY_SIZE <= |buf| && start <= lo <= count && k < count
    requires StartsAt(buf, count, hash, start) && IndexSorted(buf, count) && IndexAt(buf, k).keyHash == hash
    requires lo < count ==> IndexAt(buf, lo).keyHash != hash
    ensures start <= k < lo
  {
    hide IndexAt;
  }

  lemma SameHash(env: Env, payload: Bytes, e: IndexEntry, f: Field)
    requires Points(env, payload, e, f)
    ensures e.keyHash == KeyHash(env, f.key)
  {
  }

  /** A document's buffer has its fields' index. */
  lemma DocumentIndex(env: Env, b: Blob)
    requires Encodable(env, b)
    ensures var buf := Serialize(env, b);
            && |buf| >= HEADER_SIZE && ReadU32(buf, 71) == |b.fields|
            && HEADER_SIZE + |b.fields| * INDEX_ENTRY_SIZE <= |buf| && IndexOf(env, buf, |b.fields|, b.fields)
  {
    hide Covers, SortedIndex, Points;
    var hash := ContentHash(env, b);
    var buf, n, es := Serialize(env, b), |b.fields|, SortedIndex(env, b.fields);
    assert Has(buf, 0, Header(b, hash));
    HeaderParts(b, hash, buf);
    assert buf[HEADER_SIZE + n * INDEX_ENTRY_SIZE..] == EncodingEntries(b.fields);
    forall i | 0 <= i < n ensures IndexAt(buf, i) == es[i] { IndexReadBack(env, b, hash, i); }
    assert ReadIndex(buf, n) == es;
    SortedIndexCovers(env, b.fields);
    forall i, j | 0 <= i < j < n
      ensures IndexAt(buf, i).keyHash <= IndexAt(buf, j).keyHash
    {
      assert HashLe(es[i], es[j]);
    }
  }
}
