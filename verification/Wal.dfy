/** The write-ahead log: length, checksum and bytes of each blob, and recovery of what is whole
    (crates/ingodb-wal/src/lib.rs). */
module Wal {
  import opened Prelude
  import opened Bytes
  import opened Values
  import opened Blobs
  import opened Codec

  function Record(env: Env, b: Blob): Bytes {
    var bytes := Serialize(env, b);
    LittleEndian(|bytes|, 4) + LittleEndian(env.crc32(bytes), 4) + bytes
  }

  function LogBytes(env: Env, blobs: seq<Blob>): Bytes {
    if blobs == [] then [] else Record(env, blobs[0]) + LogBytes(env, blobs[1..])
  }

  lemma LogStep(env: Env, blobs: seq<Blob>, i: nat, data: Bytes)
    requires i < |blobs|
    ensures data + LogBytes(env, blobs[i..]) == (data + Record(env, blobs[i])) + LogBytes(env, blobs[i + 1..])
  {
    hide Record;
    assert blobs[i..][1..] == blobs[i + 1..];
  }

  lemma {:induction false} LogConcat(env: Env, a: seq<Blob>, b: seq<Blob>)
    ensures LogBytes(env, a + b) == LogBytes(env, a) + LogBytes(env, b)
  {
    hide Record;
    if a == [] {
      assert a + b == b;
    } else {
      assert (a + b)[1..] == a[1..] + b;
      LogConcat(env, a[1..], b);
    }
  }

  /** A blob whose record has a 32-bit length. */
  ghost predicate Loggable(env: Env, b: Blob) {
    Encodable(env, b) && |Serialize(env, b)| < 0x1_0000_0000
  }

  ghost predicate AllLoggable(env: Env, blobs: seq<Blob>) { forall b :: b in blobs ==> Loggable(env, b) }

  /** The log file as a growing byte string with its size counter. */
  class WalFile {
    const env: Env
    var data: Bytes
    var size: nat

    ghost predicate Valid()
      reads this
    {
      size == |data|
    }

    /** Opens for append: what is there stays there. */
    constructor (env: Env, existing: Bytes)
      ensures Valid() && data == existing && this.env == env
    {
      this.env := env;
      this.data := existing;
      this.size := |existing|;
    }

    /** Appends one record and returns where it starts. */
    method Append(b: Blob) returns (offset: nat)
      requires Valid()
      modifies this`data, this`size
      ensures Valid() && data == old(data) + Record(env, b) && offset == |old(data)|
    {
      offset := size;
      var bytes := Serialize(env, b);
      data := data + LittleEndian(|bytes|, 4);
      data := data + LittleEndian(env.crc32(bytes), 4);
      data := data + bytes;
      size := size + 4 + 4 + |bytes|;
      assert data == old(data) + Record(env, b);
    }

    method AppendBatch(blobs: seq<Blob>)
      requires Valid()
      modifies this`data, this`size
      ensures Valid() && data == old(data) + LogBytes(env, blobs)
    {
      hide Record;
      for i := 0 to |blobs|
        invariant Valid() && data + LogBytes(env, blobs[i..]) == old(data) + LogBytes(env, blobs)
      {
        LogStep(env, blobs, i, data);
        var _ := Append(blobs[i]);
      }
      assert blobs[|blobs|..] == [] && data + [] == data;
    }
  }

  /** The record at `offset`, if it is whole, its checksum holds and it decodes. */
  function RecordAt(env: Env, data: Bytes, offset: nat): (r: Option<(Blob, nat)>)
    ensures r.Some? ==> offset + 8 <= r.value.1 <= |data|
  {
    if offset + 8 > |data| then None
    else
      var length := ReadU32(data, offset);
      if offset + 8 + length > |data| then None
      else
        var bytes := data[offset + 8..offset + 8 + length];
        if env.crc32(bytes) != ReadU32(data, offset + 4) then None
        else match DecodeBlob(env, bytes)
          case Ok(b) => Some((b, offset + 8 + length))
          case Err(_) => None
  }

  function RecoverFrom(env: Env, data: Bytes, offset: nat): seq<Blob>
    decreases |data| - offset
  {
    match RecordAt(env, data, offset)
    case None => []
    case Some((b, next)) => [b] + RecoverFrom(env, data, next)
  }

  /** Reads records until the first that is cut off or corrupt. */
  method Recover(env: Env, data: Bytes) returns (blobs: seq<Blob>)
    ensures blobs == RecoverFrom(env, data, 0)
  {
    hide RecoverFrom, DecodeBlob;
    blobs := [];
    var offset := 0;
    assert [] + RecoverFrom(env, data, 0) == RecoverFrom(env, data, 0);
    while true
      invariant offset <= |data|
      invariant blobs + RecoverFrom(env, data, offset) == RecoverFrom(env, data, 0)
      decreases |data| - offset
    {
      RecoverStep(env, data, offset, blobs);
      if offset + 8 > |data| {
        return;
      }
      var length := ReadU32(data, offset);
      var storedCrc := ReadU32(data, offset + 4);
      if offset + 8 + length > |data| {
        return;
      }
      var bytes := data[offset + 8..offset + 8 + length];
      if env.crc32(bytes) != storedCrc {
        return;
      }
      var decoded := DecodeBlob(env, bytes);
      if decoded.Err? {
        return;
      }
      blobs := blobs + [decoded.value];
      offset := offset + 8 + length;
    }
  }

  lemma RecoverStep(env: Env, data: Bytes, offset: nat, blobs: seq<Blob>)
    ensures blobs + RecoverFrom(env, data, offset) ==
            match RecordAt(env, data, offset)
            case None => blobs
            case Some((b, next)) => (blobs + [b]) + RecoverFrom(env, data, next)
  {
    hide RecordAt;
    match RecordAt(env, data, offset)
    case None =>
    case Some((b, next)) =>
      assert blobs + ([b] + RecoverFrom(env, data, next)) == (blobs + [b]) + RecoverFrom(env, data, next);
  }

  // ---- recovery of a torn log ----

  /** How many records are whole in the first `n` bytes. */
  function WholeRecords(env: Env, blobs: seq<Blob>, n: nat): nat {
    if blobs == [] || n < |Record(env, blobs[0])| then 0
    else 1 + WholeRecords(env, blobs[1..], n - |Record(env, blobs[0])|)
  }

  lemma RecordReadBack(env: Env, data: Bytes, offset: nat, b: Blob)
    requires Loggable(env, b) && Has(data, offset, Record(env, b))
    ensures RecordAt(env, data, offset) == Some((b, offset + |Record(env, b)|))
  {
    hide Serialize, DecodeBlob;
    var bytes := Serialize(env, b);
    HasSplit(data, offset, LittleEndian(|bytes|, 4) + LittleEndian(env.crc32(bytes), 4), bytes);
    HasSplit(data, offset, LittleEndian(|bytes|, 4), LittleEndian(env.crc32(bytes), 4));
    ReadWritten32(data, offset, |bytes|);
    ReadWritten32(data, offset + 4, env.crc32(bytes));
    DecodeSerialized(env, b);
  }

  /** A record cut short is not read. */
  lemma TornRecord(env: Env, data: Bytes, offset: nat, b: Blob)
    requires Loggable(env, b) && offset <= |data| < offset + |Record(env, b)|
    requires data[offset..] == Record(env, b)[..|data| - offset]
    ensures RecordAt(env, data, offset) == None
  {
    hide Serialize, DecodeBlob;
    if offset + 8 <= |data| {
      var bytes := Serialize(env, b);
      assert Record(env, b)[..4] == LittleEndian(|bytes|, 4);
      assert data[offset..offset + 4] == data[offset..][..4] == Record(env, b)[..|data| - offset][..4];
      assert Has(data, offset, LittleEndian(|bytes|, 4));
      ReadWritten32(data, offset, |bytes|);
    }
  }

  /** Recovery of any truncation of a log returns exactly the blobs of its whole records. */
  lemma {:induction false} RecoverTruncated(env: Env, data: Bytes, offset: nat, blobs: seq<Blob>)
    requires AllLoggable(env, blobs) && offset <= |data| <= offset + |LogBytes(env, blobs)|
    requires data[offset..] == LogBytes(env, blobs)[..|data| - offset]
    ensures WholeRecords(env, blobs, |data| - offset) <= |blobs|
    ensures RecoverFrom(env, data, offset) == blobs[..WholeRecords(env, blobs, |data| - offset)]
    decreases blobs
  {
    hide Record, RecordAt, Loggable;
    if blobs != [] {
      var r, rest, n := Record(env, blobs[0]), LogBytes(env, blobs[1..]), |data| - offset;
      assert blobs[0] in blobs && LogBytes(env, blobs) == r + rest;
      if n < |r| {
        assert (r + rest)[..n] == r[..n];
        TornRecord(env, data, offset, blobs[0]);
      } else {
        assert data[offset..offset + |r|] == data[offset..][..|r|] == r;
        RecordReadBack(env, data, offset, blobs[0]);
        assert data[offset + |r|..] == data[offset..][|r|..] == rest[..n - |r|];
        RecoverTruncated(env, data, offset + |r|, blobs[1..]);
        var k := WholeRecords(env, blobs[1..], n - |r|);
        assert blobs[..1 + k] == [blobs[0]] + blobs[1..][..k];
      }
    } else {
      RecordNeedsHeader(env, data, offset);
    }
  }

  lemma RecordNeedsHeader(env: Env, data: Bytes, offset: nat)
    requires offset == |data|
    ensures RecordAt(env, data, offset) == None
  {
  }

  /** A log that was not torn is recovered whole. */
  lemma RecoverWhole(env: Env, blobs: seq<Blob>)
    requires AllLoggable(env, blobs)
    ensures RecoverFrom(env, LogBytes(env, blobs), 0) == blobs
  {
    var data := LogBytes(env, blobs);
    assert data[0..] == data[..|data|];
    RecoverTruncated(env, data, 0, blobs);
    AllWhole(env, blobs);
  }

  lemma {:induction false} AllWhole(env: Env, blobs: seq<Blob>)
    ensures WholeRecords(env, blobs, |LogBytes(env, blobs)|) == |blobs|
  {
    hide Record;
    if blobs != [] {
      AllWhole(env, blobs[1..]);
    }
  }

  /** Appending only adds whole records: what was whole before a torn append stays whole. */
  lemma {:induction false} WholeAtLeast(env: Env, before: seq<Blob>, after: seq<Blob>, n: nat)
    requires n >= |LogBytes(env, before)|
    ensures WholeRecords(env, before + after, n) >= |before|
  {
    hide Record;
    if before != [] {
      assert (before + after)[1..] == before[1..] + after;
      WholeAtLeast(env, before[1..], after, n - |Record(env, before[0])|);
    }
  }

  // ---- behind a torn record ----

  /** When nothing was recovered, `open` keeps the torn bytes and appends behind them. A torn first record that has
      got as far as its length swallows what is appended into its missing part: the appended records are recovered
      exactly when there are none. */
  lemma AppendBehindTornIff(env: Env, b: Blob, n: nat, blobs: seq<Blob>)
    requires Loggable(env, b) && 4 <= n && n + |LogBytes(env, blobs)| < |Record(env, b)|
    ensures RecoverFrom(env, Record(env, b)[..n], 0) == []
    ensures RecoverFrom(env, Record(env, b)[..n] + LogBytes(env, blobs), 0) == []
    ensures RecoverFrom(env, Record(env, b)[..n] + LogBytes(env, blobs), 0) == blobs <==> blobs == []
  {
    hide Serialize, DecodeBlob, LogBytes;
    var bytes, torn, data := Serialize(env, b), Record(env, b)[..n], Record(env, b)[..n] + LogBytes(env, blobs);
    assert Record(env, b)[..4] == LittleEndian(|bytes|, 4);
    assert torn[0..4] == Record(env, b)[..4] && data[0..4] == torn[0..4];
    ReadWritten32(torn, 0, |bytes|);
    ReadWritten32(data, 0, |bytes|);
  }

  /** The file holds as many bytes as the torn record, other than its own, and they have its checksum. */
  ghost predicate Collides(env: Env, b: Blob, data: Bytes) {
    var n := |Serialize(env, b)|;
    |data| >= 8 + n && env.crc32(data[8..8 + n]) == env.crc32(Serialize(env, b))
  }

  /** Whatever is appended behind a torn first record that has its header, nothing is ever recovered unless the
      bytes that fill it collide with its checksum. */
  lemma NothingBehindHeader(env: Env, b: Blob, n: nat, more: Bytes)
    requires Loggable(env, b) && 8 <= n <= |Record(env, b)|
    ensures RecoverFrom(env, Record(env, b)[..n] + more, 0) != [] ==> Collides(env, b, Record(env, b)[..n] + more)
  {
    hide Serialize, DecodeBlob;
    var bytes, data := Serialize(env, b), Record(env, b)[..n] + more;
    var a, c := LittleEndian(|bytes|, 4), LittleEndian(env.crc32(bytes), 4);
    assert Record(env, b)[..4] == a && Record(env, b)[4..8] == c;
    assert data[0..4] == a && data[4..8] == c;
    ReadWritten32(data, 0, |bytes|);
    ReadWritten32(data, 4, env.crc32(bytes));
  }
}
