/** The value type and its binary encoding (crates/ingodb-blob/src/value.rs). */
module Values {
  import opened Prelude
  import opened Bytes

  /** Strings are their UTF-8 bytes; floating-point numbers are their IEEE 754 bit patterns. */
  datatype Value =
    | Null
    | Bool(flag: bool)
    | I64(signed: i64)
    | U64(unsigned: u64)
    | F64(bits: u64)
    | Text(text: Bytes)
    | Raw(raw: Bytes)
    | Uuid(uuid: DocumentId)
    | Array(items: seq<Value>)
    | Document(entries: seq<Field>)

  datatype Field = Field(key: Bytes, value: Value)

  /** A growable byte vector that encoders append to. */
  class Buffer {
    var data: Bytes

    constructor ()
      ensures data == []
    {
      data := [];
    }

    method Push(b: byte)
      modifies this
      ensures data == old(data) + [b]
    {
      data := data + [b];
    }

    method Extend(bs: Bytes)
      modifies this
      ensures data == old(data) + bs
    {
      data := data + bs;
    }
  }

  /** Two's complement: the bit pattern of a signed number. */
  function TwosComplement(n: i64): u64 {
    if n < 0 then n + 0x1_0000_0000_0000_0000 else n
  }

  function FromTwosComplement(u: u64): i64 {
    if u >= 0x8000_0000_0000_0000 then u - 0x1_0000_0000_0000_0000 else u
  }

  // ---- encoding ----

  function Encoding(v: Value): (b: Bytes)
    ensures |b| >= 1
    decreases v, 0
  {
    match v
    case Null => [0]
    case Bool(flag) => [1, if flag then 1 else 0]
    case I64(n) => [2] + LittleEndian(TwosComplement(n), 8)
    case U64(n) => [3] + LittleEndian(n, 8)
    case F64(bits) => [4] + LittleEndian(bits, 8)
    case Text(s) => [5] + LittleEndian(|s|, 4) + s
    case Raw(s) => [6] + LittleEndian(|s|, 4) + s
    case Uuid(id) => [7] + IdBytes(id)
    case Array(items) => [8] + LittleEndian(|items|, 4) + EncodingItems(items)
    case Document(entries) => [9] + LittleEndian(|entries|, 4) + EncodingEntries(entries)
  }

  function EncodingItems(vs: seq<Value>): Bytes
    decreases vs, 0
  {
    if vs == [] then [] else Encoding(vs[0]) + EncodingItems(vs[1..])
  }

  function EncodingEntry(f: Field): Bytes
    decreases f, 0
  {
    LittleEndian(|f.key|, 4) + f.key + Encoding(f.value)
  }

  function EncodingEntries(fs: seq<Field>): Bytes
    decreases fs, 0
  {
    if fs == [] then [] else EncodingEntry(fs[0]) + EncodingEntries(fs[1..])
  }

  /** Every length fits its 32-bit prefix and every string is UTF-8. */
  ghost predicate Storable(v: Value, utf8: Bytes -> bool)
    decreases v, 0
  {
    match v
    case Text(s) => |s| < 0x1_0000_0000 && utf8(s)
    case Raw(s) => |s| < 0x1_0000_0000
    case Array(items) => |items| < 0x1_0000_0000 && StorableItems(items, utf8)
    case Document(entries) => |entries| < 0x1_0000_0000 && StorableEntries(entries, utf8)
    case _ => true
  }

  ghost predicate StorableItems(vs: seq<Value>, utf8: Bytes -> bool)
    decreases vs, 0
  {
    vs == [] || (Storable(vs[0], utf8) && StorableItems(vs[1..], utf8))
  }

  ghost predicate StorableEntry(f: Field, utf8: Bytes -> bool)
    decreases f, 0
  {
    |f.key| < 0x1_0000_0000 && utf8(f.key) && Storable(f.value, utf8)
  }

  ghost predicate StorableEntries(fs: seq<Field>, utf8: Bytes -> bool)
    decreases fs, 0
  {
    fs == [] || (StorableEntry(fs[0], utf8) && StorableEntries(fs[1..], utf8))
  }

  /** Appends the encoding of `v` to the buffer. */
  method Encode(v: Value, buf: Buffer)
    modifies buf
    ensures buf.data == old(buf.data) + Encoding(v)
    decreases v, 1
  {
    hide LittleEndian, EncodingItems, EncodingEntries, BigEndian;
    match v
    case Text(s) => EncodeSized(5, s, buf);
    case Raw(s) => EncodeSized(6, s, buf);
    case Array(items) =>
      EncodeCounted(8, |items|, buf);
      EncodeItems(items, buf);
      JoinAfter(old(buf.data), [8] + LittleEndian(|items|, 4), EncodingItems(items));
    case Document(entries) =>
      EncodeCounted(9, |entries|, buf);
      EncodeEntries(entries, buf);
      JoinAfter(old(buf.data), [9] + LittleEndian(|entries|, 4), EncodingEntries(entries));
    case _ => EncodeFixed(v, buf);
  }

  /** The values of fixed width: a tag and at most sixteen bytes. */
  method EncodeFixed(v: Value, buf: Buffer)
    requires v.Null? || v.Bool? || v.I64? || v.U64? || v.F64? || v.Uuid?
    modifies buf
    ensures buf.data == old(buf.data) + Encoding(v)
  {
    hide LittleEndian, BigEndian;
    match v
    case Null => buf.Push(0);
    case Bool(flag) => PushTagged(1, [if flag then 1 else 0], buf);
    case I64(n) => PushTagged(2, LittleEndian(TwosComplement(n), 8), buf);
    case U64(n) => PushTagged(3, LittleEndian(n, 8), buf);
    case F64(bits) => PushTagged(4, LittleEndian(bits, 8), buf);
    case Uuid(id) => PushTagged(7, IdBytes(id), buf);
  }

  method PushTagged(tag: byte, payload: Bytes, buf: Buffer)
    modifies buf
    ensures buf.data == old(buf.data) + ([tag] + payload)
  {
    buf.Push(tag);
    buf.Extend(payload);
  }

  method EncodeCounted(tag: byte, count: nat, buf: Buffer)
    modifies buf
    ensures buf.data == old(buf.data) + ([tag] + LittleEndian(count, 4))
  {
    buf.Push(tag);
    buf.Extend(LittleEndian(count, 4));
  }

  lemma JoinAfter(a: Bytes, b: Bytes, c: Bytes)
    ensures (a + b) + c == a + (b + c)
  {
  }

  method EncodeSized(tag: byte, s: Bytes, buf: Buffer)
    modifies buf
    ensures buf.data == old(buf.data) + ([tag] + LittleEndian(|s|, 4) + s)
  {
    buf.Push(tag);
    buf.Extend(LittleEndian(|s|, 4));
    buf.Extend(s);
  }

  method EncodeItems(items: seq<Value>, buf: Buffer)
    modifies buf
    ensures buf.data == old(buf.data) + EncodingItems(items)
    decreases items, 0
  {
    hide Encoding;
    for i := 0 to |items|
      invariant buf.data + EncodingItems(items[i..]) == old(buf.data) + EncodingItems(items)
    {
      ghost var before := buf.data;
      Encode(items[i], buf);
      assert items[i..][1..] == items[i + 1..];
      assert before + EncodingItems(items[i..]) == buf.data + EncodingItems(items[i + 1..]);
    }
  }

  method EncodeEntries(entries: seq<Field>, buf: Buffer)
    modifies buf
    ensures buf.data == old(buf.data) + EncodingEntries(entries)
    decreases entries, 0
  {
    hide LittleEndian, Encoding;
    for i := 0 to |entries|
      invariant buf.data + EncodingEntries(entries[i..]) == old(buf.data) + EncodingEntries(entries)
    {
      ghost var before := buf.data;
      buf.Extend(LittleEndian(|entries[i].key|, 4));
      buf.Extend(entries[i].key);
      Encode(entries[i].value, buf);
      assert buf.data == before + EncodingEntry(entries[i]);
      assert entries[i..][1..] == entries[i + 1..];
      assert before + EncodingEntries(entries[i..]) == buf.data + EncodingEntries(entries[i + 1..]);
    }
  }

  // ---- decoding ----

  function CheckLen(buf: Bytes, offset: nat, need: nat): (r: Result<()>)
    ensures r.Ok? <==> offset + need <= |buf|
  {
    if offset + need > |buf| then Err(BufferTooShort) else Ok(())
  }

  function ReadU32(buf: Bytes, pos: nat): u32
    requires pos + 4 <= |buf|
  {
    LittleEndianBound(buf[pos..pos + 4]); Ranges();
    FromLittleEndian(buf[pos..pos + 4])
  }

  function ReadU64(buf: Bytes, pos: nat): u64
    requires pos + 8 <= |buf|
  {
    LittleEndianBound(buf[pos..pos + 8]); Ranges();
    FromLittleEndian(buf[pos..pos + 8])
  }

  /** A 32-bit length followed by that many bytes. */
  function ReadSized(buf: Bytes, pos: nat): (r: Result<Bytes>)
    ensures r.Ok? ==> pos + 4 + |r.value| <= |buf|
  {
    var _ :- CheckLen(buf, pos, 4);
    var len := ReadU32(buf, pos);
    var _ :- CheckLen(buf, pos + 4, len);
    Ok(buf[pos + 4..pos + 4 + len])
  }

  /** The value at `offset` and how many bytes it takes, on any bytes at all. */
  function Decode(buf: Bytes, offset: nat, utf8: Bytes -> bool): (r: Result<(Value, nat)>)
    ensures r.Ok? ==> 1 <= r.value.1 && offset + r.value.1 <= |buf|
    decreases Max(|buf| - offset, 0), 0
  {
    if offset >= |buf| then Err(BufferTooShort)
    else
      var pos := offset + 1;
      match buf[offset]
      case 0 => Ok((Null, 1))
      case 1 =>
        var _ :- CheckLen(buf, pos, 1);
        Ok((Bool(buf[pos] != 0), 2))
      case 2 =>
        var _ :- CheckLen(buf, pos, 8);
        Ok((I64(FromTwosComplement(ReadU64(buf, pos))), 9))
      case 3 =>
        var _ :- CheckLen(buf, pos, 8);
        Ok((U64(ReadU64(buf, pos)), 9))
      case 4 =>
        var _ :- CheckLen(buf, pos, 8);
        Ok((F64(ReadU64(buf, pos)), 9))
      case 5 =>
        var s :- ReadSized(buf, pos);
        if utf8(s) then Ok((Text(s), 5 + |s|)) else Err(InvalidUtf8)
      case 6 =>
        var s :- ReadSized(buf, pos);
        Ok((Raw(s), 5 + |s|))
      case 7 =>
        var _ :- CheckLen(buf, pos, 16);
        Ok((Uuid(IdFromBytes(buf[pos..pos + 16])), 17))
      case 8 =>
        var _ :- CheckLen(buf, pos, 4);
        var (vs, n) :- DecodeItems(buf, pos + 4, ReadU32(buf, pos), utf8);
        Ok((Array(vs), 5 + n))
      case 9 =>
        var _ :- CheckLen(buf, pos, 4);
        var (fs, n) :- DecodeEntries(buf, pos + 4, ReadU32(buf, pos), utf8);
        Ok((Document(fs), 5 + n))
      case _ => Err(UnknownValueType)
  }

  function DecodeItems(buf: Bytes, pos: nat, count: nat, utf8: Bytes -> bool): (r: Result<(seq<Value>, nat)>)
    requires pos <= |buf|
    ensures r.Ok? ==> pos + r.value.1 <= |buf| && |r.value.0| == count
    decreases |buf| - pos, 2, count
  {
    if count == 0 then Ok(([], 0))
    else
      var (v, n) :- Decode(buf, pos, utf8);
      var (vs, m) :- DecodeItems(buf, pos + n, count - 1, utf8);
      Ok(([v] + vs, n + m))
  }

  function DecodeEntry(buf: Bytes, pos: nat, utf8: Bytes -> bool): (r: Result<(Field, nat)>)
    requires pos <= |buf|
    ensures r.Ok? ==> 1 <= r.value.1 && pos + r.value.1 <= |buf|
    decreases |buf| - pos, 1
  {
    var key :- ReadSized(buf, pos);
    if !utf8(key) then Err(InvalidUtf8)
    else
      var (v, n) :- Decode(buf, pos + 4 + |key|, utf8);
      Ok((Field(key, v), 4 + |key| + n))
  }

  function DecodeEntries(buf: Bytes, pos: nat, count: nat, utf8: Bytes -> bool): (r: Result<(seq<Field>, nat)>)
    requires pos <= |buf|
    ensures r.Ok? ==> pos + r.value.1 <= |buf| && |r.value.0| == count
    decreases |buf| - pos, 2, count
  {
    if count == 0 then Ok(([], 0))
    else
      var (f, n) :- DecodeEntry(buf, pos, utf8);
      var (fs, m) :- DecodeEntries(buf, pos + n, count - 1, utf8);
      Ok(([f] + fs, n + m))
  }

  /** The decoder as the program runs it: one loop over an array, one over a document. */
  method DecodeAt(buf: Bytes, offset: nat, utf8: Bytes -> bool) returns (r: Result<(Value, nat)>)
    ensures r == Decode(buf, offset, utf8)
    decreases Max(|buf| - offset, 0), 0
  {
    if offset >= |buf| {
      return Err(BufferTooShort);
    }
    var tag := buf[offset];
    if tag == 8 && offset + 5 <= |buf| {
      var items := DecodeItemsAt(buf, offset + 5, ReadU32(buf, offset + 1), utf8);
      r := if items.Err? then Err(items.error) else Ok((Array(items.value.0), 5 + items.value.1));
    } else if tag == 9 && offset + 5 <= |buf| {
      var fields := DecodeEntriesAt(buf, offset + 5, ReadU32(buf, offset + 1), utf8);
      r := if fields.Err? then Err(fields.error) else Ok((Document(fields.value.0), 5 + fields.value.1));
    } else {
      r := Decode(buf, offset, utf8);
    }
  }

  method DecodeItemsAt(buf: Bytes, start: nat, count: nat, utf8: Bytes -> bool) returns (r: Result<(seq<Value>, nat)>)
    requires start <= |buf|
    ensures r == DecodeItems(buf, start, count, utf8)
    decreases |buf| - start, 1
  {
    hide Decode, DecodeEntry;
    var arr, pos, total := [], start, 0;
    ghost var whole := DecodeItems(buf, start, count, utf8);
    NothingBefore(whole, Ok(([], 0)));
    for i := 0 to count
      invariant start <= pos <= |buf| && total == pos - start
      invariant whole == AfterItems(arr, total, DecodeItems(buf, pos, count - i, utf8))
    {
      var item := DecodeAt(buf, pos, utf8);
      ItemsStep(arr, total, buf, pos, count - i, utf8);
      if item.Err? {
        return Err(item.error);
      }
      var (v, consumed) := item.value;
      arr, pos, total := arr + [v], pos + consumed, total + consumed;
    }
    assert whole == Ok((arr + [], total + 0)) && arr + [] == arr;
    r := Ok((arr, total));
  }

  method DecodeEntriesAt(buf: Bytes, start: nat, count: nat, utf8: Bytes -> bool) returns (r: Result<(seq<Field>, nat)>)
    requires start <= |buf|
    ensures r == DecodeEntries(buf, start, count, utf8)
    decreases |buf| - start, 2
  {
    hide Decode, DecodeEntry;
    var fields, pos, total := [], start, 0;
    ghost var whole := DecodeEntries(buf, start, count, utf8);
    NothingBefore(Ok(([], 0)), whole);
    for i := 0 to count
      invariant start <= pos <= |buf| && total == pos - start
      invariant whole == AfterEntries(fields, total, DecodeEntries(buf, pos, count - i, utf8))
    {
      var entry := DecodeEntryAt(buf, pos, utf8);
      EntriesStep(fields, total, buf, pos, count - i, utf8);
      if entry.Err? {
        return Err(entry.error);
      }
      var (f, consumed) := entry.value;
      fields, pos, total := fields + [f], pos + consumed, total + consumed;
    }
    assert whole == Ok((fields + [], total + 0)) && fields + [] == fields;
    r := Ok((fields, total));
  }

  method DecodeEntryAt(buf: Bytes, pos: nat, utf8: Bytes -> bool) returns (r: Result<(Field, nat)>)
    requires pos <= |buf|
    ensures r == DecodeEntry(buf, pos, utf8)
    decreases |buf| - pos, 1
  {
    var key := ReadSized(buf, pos);
    if key.Err? {
      return Err(key.error);
    }
    if !utf8(key.value) {
      return Err(InvalidUtf8);
    }
    var val := DecodeAt(buf, pos + 4 + |key.value|, utf8);
    if val.Err? {
      return Err(val.error);
    }
    r := Ok((Field(key.value, val.value.0), 4 + |key.value| + val.value.1));
  }

  /** The result of a loop that has read `vs` so far and meets `rest`. */
  ghost function AfterItems(vs: seq<Value>, n: nat, rest: Result<(seq<Value>, nat)>): Result<(seq<Value>, nat)> {
    if rest.Err? then Err(rest.error) else Ok((vs + rest.value.0, n + rest.value.1))
  }

  ghost function AfterEntries(fs: seq<Field>, n: nat, rest: Result<(seq<Field>, nat)>): Result<(seq<Field>, nat)> {
    if rest.Err? then Err(rest.error) else Ok((fs + rest.value.0, n + rest.value.1))
  }

  lemma ItemsStep(vs: seq<Value>, n: nat, buf: Bytes, pos: nat, count: nat, utf8: Bytes -> bool)
    requires pos <= |buf| && count > 0
    ensures AfterItems(vs, n, DecodeItems(buf, pos, count, utf8)) ==
            match Decode(buf, pos, utf8)
            case Err(e) => Err(e)
            case Ok((v, m)) => AfterItems(vs + [v], n + m, DecodeItems(buf, pos + m, count - 1, utf8))
  {
    hide Decode;
    match Decode(buf, pos, utf8)
    case Err(_) =>
    case Ok((v, m)) =>
      var rest := DecodeItems(buf, pos + m, count - 1, utf8);
      assert rest.Ok? ==> vs + ([v] + rest.value.0) == (vs + [v]) + rest.value.0;
  }

  lemma EntriesStep(fs: seq<Field>, n: nat, buf: Bytes, pos: nat, count: nat, utf8: Bytes -> bool)
    requires pos <= |buf| && count > 0
    ensures AfterEntries(fs, n, DecodeEntries(buf, pos, count, utf8)) ==
            match DecodeEntry(buf, pos, utf8)
            case Err(e) => Err(e)
            case Ok((f, m)) => AfterEntries(fs + [f], n + m, DecodeEntries(buf, pos + m, count - 1, utf8))
  {
    hide Decode, DecodeEntry;
    match DecodeEntry(buf, pos, utf8)
    case Err(_) =>
    case Ok((f, m)) =>
      var rest := DecodeEntries(buf, pos + m, count - 1, utf8);
      assert rest.Ok? ==> fs + ([f] + rest.value.0) == (fs + [f]) + rest.value.0;
  }

  lemma NothingBefore(items: Result<(seq<Value>, nat)>, entries: Result<(seq<Field>, nat)>)
    ensures AfterItems([], 0, items) == items && AfterEntries([], 0, entries) == entries
  {
    assert items.Ok? ==> [] + items.value.0 == items.value.0;
    assert entries.Ok? ==> [] + entries.value.0 == entries.value.0;
  }

  // ---- round trip ----

  lemma ReadWritten32(buf: Bytes, pos: nat, n: nat)
    requires n < 0x1_0000_0000 && Has(buf, pos, LittleEndian(n, 4))
    ensures ReadU32(buf, pos) == n
  {
    Ranges();
    LittleEndianRoundTrip(n, 4);
  }

  lemma ReadWritten64(buf: Bytes, pos: nat, n: nat)
    requires n < 0x1_0000_0000_0000_0000 && Has(buf, pos, LittleEndian(n, 8))
    ensures ReadU64(buf, pos) == n
  {
    Ranges();
    LittleEndianRoundTrip(n, 8);
  }

  lemma ReadWrittenSized(buf: Bytes, pos: nat, s: Bytes)
    requires |s| < 0x1_0000_0000 && Has(buf, pos, LittleEndian(|s|, 4) + s)
    ensures ReadSized(buf, pos) == Ok(s)
  {
    hide LittleEndian, FromLittleEndian, ReadU32, ReadSized;
    HasSplit(buf, pos, LittleEndian(|s|, 4), s);
    ReadWritten32(buf, pos, |s|);
    ReadSizedAt(buf, pos, s);
  }

  lemma ReadSizedAt(buf: Bytes, pos: nat, s: Bytes)
    requires pos + 4 <= |buf| && ReadU32(buf, pos) == |s| && Has(buf, pos + 4, s)
    ensures ReadSized(buf, pos) == Ok(s)
  {
    hide ReadU32;
  }

  /** The tag byte leads; the rest of the encoding follows it. */
  lemma HasTag(buf: Bytes, offset: nat, tag: byte, rest: Bytes)
    requires Has(buf, offset, [tag] + rest)
    ensures offset < |buf| && buf[offset] == tag && Has(buf, offset + 1, rest)
  {
    HasSplit(buf, offset, [tag], rest);
    assert buf[offset] == buf[offset..offset + 1][0];
  }

  lemma DecodeEncodingScalar(buf: Bytes, offset: nat, v: Value, utf8: Bytes -> bool)
    requires Storable(v, utf8) && Has(buf, offset, Encoding(v)) && !v.Array? && !v.Document?
    ensures Decode(buf, offset, utf8) == Ok((v, |Encoding(v)|))
  {
    hide LittleEndian, FromLittleEndian, BigEndian, FromBigEndian, DecodeItems, DecodeEntries, ReadSized, ReadU32,
         ReadU64;
    match v
    case Null => HasTag(buf, offset, 0, []);
    case Bool(flag) => assert Encoding(v) == [1] + Encoding(v)[1..]; HasTag(buf, offset, 1, Encoding(v)[1..]);
      assert buf[offset + 1] == buf[offset + 1..offset + 2][0];
    case I64(n) => HasTag(buf, offset, 2, LittleEndian(TwosComplement(n), 8));
      ReadWritten64(buf, offset + 1, TwosComplement(n));
    case U64(n) => HasTag(buf, offset, 3, LittleEndian(n, 8)); ReadWritten64(buf, offset + 1, n);
    case F64(bits) => HasTag(buf, offset, 4, LittleEndian(bits, 8)); ReadWritten64(buf, offset + 1, bits);
    case Text(s) => assert Encoding(v) == [5] + (LittleEndian(|s|, 4) + s);
      HasTag(buf, offset, 5, LittleEndian(|s|, 4) + s); ReadWrittenSized(buf, offset + 1, s);
    case Raw(s) => assert Encoding(v) == [6] + (LittleEndian(|s|, 4) + s);
      HasTag(buf, offset, 6, LittleEndian(|s|, 4) + s); ReadWrittenSized(buf, offset + 1, s);
    case Uuid(id) => HasTag(buf, offset, 7, IdBytes(id)); IdRoundTrip(id);
  }

  /** Tag, 32-bit count and body of an array or document. */
  lemma HasCounted(buf: Bytes, offset: nat, tag: byte, count: nat, body: Bytes)
    requires count < 0x1_0000_0000 && Has(buf, offset, [tag] + LittleEndian(count, 4) + body)
    ensures offset + 5 <= |buf| && buf[offset] == tag && ReadU32(buf, offset + 1) == count && Has(buf, offset + 5, body)
  {
    assert [tag] + LittleEndian(count, 4) + body == [tag] + (LittleEndian(count, 4) + body);
    HasTag(buf, offset, tag, LittleEndian(count, 4) + body);
    HasSplit(buf, offset + 1, LittleEndian(count, 4), body);
    ReadWritten32(buf, offset + 1, count);
  }

  /** Decoding an encoding gives back the value and its exact length, wherever the encoding stands. */
  lemma {:induction false} DecodeEncoding(buf: Bytes, offset: nat, v: Value, utf8: Bytes -> bool)
    requires Storable(v, utf8) && Has(buf, offset, Encoding(v))
    ensures Decode(buf, offset, utf8) == Ok((v, |Encoding(v)|))
    decreases v, 0
  {
    hide LittleEndian, FromLittleEndian, BigEndian, DecodeItems, DecodeEntries, EncodingItems, EncodingEntries, Has,
         ReadSized;
    match v
    case Array(items) =>
      HasCounted(buf, offset, 8, |items|, EncodingItems(items));
      DecodeEncodingItems(buf, offset + 5, items, utf8);
    case Document(entries) =>
      HasCounted(buf, offset, 9, |entries|, EncodingEntries(entries));
      DecodeEncodingEntries(buf, offset + 5, entries, utf8);
    case _ => DecodeEncodingScalar(buf, offset, v, utf8);
  }

  lemma {:induction false} DecodeEncodingItems(buf: Bytes, pos: nat, vs: seq<Value>, utf8: Bytes -> bool)
    requires StorableItems(vs, utf8) && Has(buf, pos, EncodingItems(vs))
    ensures DecodeItems(buf, pos, |vs|, utf8) == Ok((vs, |EncodingItems(vs)|))
    decreases vs, 0
  {
    hide Decode;
    if vs != [] {
      HasSplit(buf, pos, Encoding(vs[0]), EncodingItems(vs[1..]));
      DecodeEncoding(buf, pos, vs[0], utf8);
      DecodeEncodingItems(buf, pos + |Encoding(vs[0])|, vs[1..], utf8);
      assert vs == [vs[0]] + vs[1..];
    }
  }

  lemma {:induction false} DecodeEncodingEntry(buf: Bytes, pos: nat, f: Field, utf8: Bytes -> bool)
    requires StorableEntry(f, utf8) && Has(buf, pos, EncodingEntry(f))
    ensures DecodeEntry(buf, pos, utf8) == Ok((f, |EncodingEntry(f)|))
    decreases f, 0
  {
    hide Decode, ReadSized, LittleEndian, Encoding;
    HasSplit(buf, pos, LittleEndian(|f.key|, 4) + f.key, Encoding(f.value));
    ReadWrittenSized(buf, pos, f.key);
    DecodeEncoding(buf, pos + 4 + |f.key|, f.value, utf8);
  }

  lemma {:induction false} DecodeEncodingEntries(buf: Bytes, pos: nat, fs: seq<Field>, utf8: Bytes -> bool)
    requires StorableEntries(fs, utf8) && Has(buf, pos, EncodingEntries(fs))
    ensures DecodeEntries(buf, pos, |fs|, utf8) == Ok((fs, |EncodingEntries(fs)|))
    decreases fs, 0
  {
    hide Decode, DecodeEntry, Has, EncodingEntry, StorableEntry;
    if fs != [] {
      HasSplit(buf, pos, EncodingEntry(fs[0]), EncodingEntries(fs[1..]));
      DecodeEncodingEntry(buf, pos, fs[0], utf8);
      DecodeEncodingEntries(buf, pos + |EncodingEntry(fs[0])|, fs[1..], utf8);
      assert fs == [fs[0]] + fs[1..];
    }
  }

  /** On arbitrary bytes, whatever decodes is storable and takes exactly the length of its own encoding. */
  lemma {:induction false} DecodeConsumes(buf: Bytes, offset: nat, utf8: Bytes -> bool)
    requires Decode(buf, offset, utf8).Ok?
    ensures var (v, n) := Decode(buf, offset, utf8).value; Storable(v, utf8) && n == |Encoding(v)|
    decreases Max(|buf| - offset, 0), 0
  {
    var pos := offset + 1;
    if buf[offset] == 8 {
      DecodeItemsConsumes(buf, pos + 4, ReadU32(buf, pos), utf8);
    } else if buf[offset] == 9 {
      DecodeEntriesConsumes(buf, pos + 4, ReadU32(buf, pos), utf8);
    }
  }

  lemma {:induction false} DecodeItemsConsumes(buf: Bytes, pos: nat, count: nat, utf8: Bytes -> bool)
    requires pos <= |buf| && DecodeItems(buf, pos, count, utf8).Ok?
    ensures var (vs, n) := DecodeItems(buf, pos, count, utf8).value;
            StorableItems(vs, utf8) && n == |EncodingItems(vs)|
    decreases |buf| - pos, 2, count
  {
    hide Decode;
    if count > 0 {
      var n := Decode(buf, pos, utf8).value.1;
      DecodeConsumes(buf, pos, utf8);
      DecodeItemsConsumes(buf, pos + n, count - 1, utf8);
    }
  }

  lemma {:induction false} DecodeEntriesConsumes(buf: Bytes, pos: nat, count: nat, utf8: Bytes -> bool)
    requires pos <= |buf| && DecodeEntries(buf, pos, count, utf8).Ok?
    ensures var (fs, n) := DecodeEntries(buf, pos, count, utf8).value;
            StorableEntries(fs, utf8) && n == |EncodingEntries(fs)|
    decreases |buf| - pos, 2, count
  {
    hide Decode;
    if count > 0 {
      var (f, n) := DecodeEntry(buf, pos, utf8).value;
      DecodeConsumes(buf, pos + 4 + |f.key|, utf8);
      DecodeEntriesConsumes(buf, pos + n, count - 1, utf8);
    }
  }
}
