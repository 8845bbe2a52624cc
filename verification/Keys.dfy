/** Sort keys whose byte order is the order of the values (crates/ingodb-sstable/src/keys.rs), against the
    comparator of the query layer (crates/ingodb-query/src/lib.rs:136-146). */
module Keys {
  import opened Prelude
  import opened Bytes
  import opened Values
  import opened Blobs
  import opened Codec
  import opened Numbers
  import opened Queries

  function Comparable(env: Env, v: Value): (b: Bytes)
    ensures b != [] && b[0] < 9
  {
    match v
    case Null => [0]
    case Bool(flag) => [1, if flag then 1 else 0]
    case I64(n) => [2] + BigEndian(FlipSigned(n), 8)
    case U64(n) => [3] + BigEndian(n, 8)
    case F64(bits) => [4] + BigEndian(SortableBits(bits), 8)
    case Text(s) => [5] + s + [0]
    case Raw(s) => [6] + s + [0]
    case Uuid(id) => [7] + IdBytes(id)
    case Array(_) => [8] + env.blake3(Encoding(v))[..16]
    case Document(_) => [8] + env.blake3(Encoding(v))[..16]
  }

  /** One field of a key; a missing value is a single high byte. */
  function FieldKey(env: Env, v: Option<Value>): Bytes {
    match v
    case Some(x) => Comparable(env, x)
    case None => [0xFF]
  }

  function DocumentKey(env: Env, fields: seq<Bytes>, b: Blob): Bytes {
    if fields == [] then [] else FieldKey(env, GetField(b, fields[0])) + DocumentKey(env, fields[1..], b)
  }

  method ExtractKey(env: Env, fields: seq<Bytes>, b: Blob) returns (key: Bytes)
    ensures key == DocumentKey(env, fields, b)
  {
    hide FieldKey;
    key := [];
    for i := 0 to |fields|
      invariant key + DocumentKey(env, fields[i..], b) == DocumentKey(env, fields, b)
    {
      assert fields[i..][1..] == fields[i + 1..];
      key := key + FieldKey(env, GetField(b, fields[i]));
    }
    assert fields[|fields|..] == [] && key + [] == key;
  }

  // ---- order of one value ----

  predicate OppositeZeros(a: Value, b: Value) {
    a.F64? && b.F64? && a != b && (a.bits == 0 || IsNegativeZero(a.bits)) && (b.bits == 0 || IsNegativeZero(b.bits))
  }

  /** Equal values, or comparable ones other than the two zeros. */
  predicate Agreeing(a: Value, b: Value) {
    a == b || (CompareValues(a, b).Some? && !OppositeZeros(a, b))
  }

  lemma {:induction false} LexTerminated(s: Bytes, t: Bytes)
    ensures Lex(s + [0], t + [0]) == Lex(s, t)
  {
    if s != [] && t != [] {
      assert (s + [0])[1..] == s[1..] + [0] && (t + [0])[1..] == t[1..] + [0];
      LexTerminated(s[1..], t[1..]);
    } else if t != [] {
      assert s + [0] == [0] && (t + [0])[1..] == t[1..] + [0];
    } else if s != [] {
      assert t + [0] == [0] && (s + [0])[1..] == s[1..] + [0];
    }
  }

  lemma LexTagged(tag: byte, x: Bytes, y: Bytes)
    ensures Lex([tag] + x, [tag] + y) == Lex(x, y)
  {
    LexConcat([tag], [tag], x, y);
  }

  /** The byte order of two encodings is the order of the values when they agree. */
  lemma ComparableOrder(env: Env, a: Value, b: Value)
    requires Agreeing(a, b)
    ensures Lex(Comparable(env, a), Comparable(env, b)) == CompareOptions(Some(a), Some(b))
  {
    Ranges();
    if a == b {
      LexEqual(Comparable(env, a), Comparable(env, b));
      SelfCompare(a);
    } else {
      match (a, b)
      case (I64(x), I64(y)) =>
        LexTagged(2, BigEndian(FlipSigned(x), 8), BigEndian(FlipSigned(y), 8));
        LexBigEndian(FlipSigned(x), FlipSigned(y), 8);
        FlipSignedOrder(x, y);
      case (U64(x), U64(y)) =>
        LexTagged(3, BigEndian(x, 8), BigEndian(y, 8));
        LexBigEndian(x, y, 8);
      case (F64(x), F64(y)) =>
        LexTagged(4, BigEndian(SortableBits(x), 8), BigEndian(SortableBits(y), 8));
        LexBigEndian(SortableBits(x), SortableBits(y), 8);
        SortableBitsOrder(x, y);
      case (Text(x), Text(y)) => TerminatedOrder(5, x, y);
      case (Raw(x), Raw(y)) => TerminatedOrder(6, x, y);
      case (Bool(x), Bool(y)) => LexTagged(1, [if x then 1 else 0], [if y then 1 else 0]);
        assert Comparable(env, a) == [1] + [if x then 1 else 0] && Comparable(env, b) == [1] + [if y then 1 else 0];
    }
  }

  lemma TerminatedOrder(tag: byte, x: Bytes, y: Bytes)
    ensures Lex([tag] + x + [0], [tag] + y + [0]) == Lex(x, y)
  {
    assert [tag] + x + [0] == [tag] + (x + [0]) && [tag] + y + [0] == [tag] + (y + [0]);
    LexTagged(tag, x + [0], y + [0]);
    LexTerminated(x, y);
  }

  lemma SelfCompare(a: Value)
    ensures CompareOptions(Some(a), Some(a)) == Equal
  {
    match a
    case Text(s) => LexEqual(s, s);
    case Raw(s) => LexEqual(s, s);
    case _ =>
  }

  /** And only then, leaving aside arrays and documents, whose keys are hashes. */
  lemma ComparableOrderIff(env: Env, a: Value, b: Value)
    requires !a.Array? && !a.Document?
    ensures Lex(Comparable(env, a), Comparable(env, b)) == CompareOptions(Some(a), Some(b)) <==> Agreeing(a, b)
  {
    if Agreeing(a, b) {
      ComparableOrder(env, a, b);
    } else if OppositeZeros(a, b) {
      LexTagged(4, BigEndian(SortableBits(a.bits), 8), BigEndian(SortableBits(b.bits), 8));
      Ranges();
      LexBigEndian(SortableBits(a.bits), SortableBits(b.bits), 8);
    } else {
      ComparableInjective(env, a, b);
      LexEqual(Comparable(env, a), Comparable(env, b));
    }
  }

  lemma ComparableInjective(env: Env, a: Value, b: Value)
    requires !a.Array? && !a.Document? && a != b && CompareValues(a, b).None?
    ensures Comparable(env, a) != Comparable(env, b)
  {
    var x, y := Comparable(env, a), Comparable(env, b);
    Ranges();
    if a.F64? && b.F64? {
      LexTagged(4, BigEndian(SortableBits(a.bits), 8), BigEndian(SortableBits(b.bits), 8));
      LexBigEndian(SortableBits(a.bits), SortableBits(b.bits), 8);
      LexEqual(x, y);
    } else if a.Uuid? && b.Uuid? {
      LexTagged(7, IdBytes(a.uuid), IdBytes(b.uuid));
      LexIds(a.uuid, b.uuid);
      LexEqual(x, y);
    } else {
      assert x[0] != y[0];
    }
  }

  /** The types in the order of their keys; arrays and documents share one place. */
  ghost function Place(v: Value): nat {
    match v
    case Null => 0
    case Bool(_) => 1
    case I64(_) => 2
    case U64(_) => 3
    case F64(_) => 4
    case Text(_) => 5
    case Raw(_) => 6
    case Uuid(_) => 7
    case Array(_) => 8
    case Document(_) => 8
  }

  /** Across types the type decides, a missing field comes last, and ids are in order of their numbers. */
  lemma TypesInOrder(env: Env, a: Value, b: Value)
    ensures Place(a) < Place(b) ==> Lex(FieldKey(env, Some(a)), FieldKey(env, Some(b))) == Less
    ensures Lex(FieldKey(env, Some(a)), FieldKey(env, None)) == Less
    ensures a.Uuid? && b.Uuid? ==>
              Lex(FieldKey(env, Some(a)), FieldKey(env, Some(b))) == CompareInt(a.uuid, b.uuid)
  {
    assert Comparable(env, a)[0] == Place(a) && Comparable(env, b)[0] == Place(b);
    if a.Uuid? && b.Uuid? {
      LexTagged(7, IdBytes(a.uuid), IdBytes(b.uuid));
      LexIds(a.uuid, b.uuid);
    }
  }

  ghost predicate Nested(v: Value) { v.Array? || v.Document? }

  /** Only one value has a given key, except that arrays and documents are told apart by the first half of the hash of
      their encoding. */
  lemma SameKeyIff(env: Env, a: Value, b: Value)
    ensures Comparable(env, a) == Comparable(env, b) <==>
            if Nested(a) && Nested(b) then env.blake3(Encoding(a))[..16] == env.blake3(Encoding(b))[..16] else a == b
  {
    hide Encoding, BigEndian, SortableBits, FlipSigned, Lex;
    var x, y := Comparable(env, a), Comparable(env, b);
    if Nested(a) && Nested(b) {
      assert x[1..] == env.blake3(Encoding(a))[..16] && y[1..] == env.blake3(Encoding(b))[..16];
    } else if !Nested(a) && !Nested(b) {
      if a != b {
        LexEqual(x, y);
        ComparableOrderIff(env, a, b);
        if Agreeing(a, b) {
          DifferentValues(a, b);
        }
      }
    } else {
      assert x[0] != y[0];
    }
  }

  lemma DifferentValues(a: Value, b: Value)
    requires a != b && Agreeing(a, b)
    ensures CompareOptions(Some(a), Some(b)) != Equal
  {
    match (a, b)
    case (Text(x), Text(y)) => LexEqual(x, y);
    case (Raw(x), Raw(y)) => LexEqual(x, y);
    case (F64(x), F64(y)) => SortableBitsOrder(x, y);
    case _ =>
  }

  // ---- order of a whole key ----

  /** The two strings differ before either ends. */
  ghost predicate DiffersInside(x: Bytes, y: Bytes) {
    exists k :: 0 <= k < |x| && k < |y| && x[..k] == y[..k] && x[k] != y[k]
  }

  /** The first difference decides. */
  lemma {:induction false} LexAt(x: Bytes, y: Bytes, k: nat)
    requires k < |x| && k < |y| && x[..k] == y[..k] && x[k] != y[k]
    ensures Lex(x, y) == CompareInt(x[k], y[k]) != Equal
  {
    if k > 0 {
      assert x[0] == x[..k][0] == y[..k][0] == y[0];
      assert x[1..][..k - 1] == x[..k][1..] == y[..k][1..] == y[1..][..k - 1];
      LexAt(x[1..], y[1..], k - 1);
    }
  }

  lemma LexInside(x: Bytes, y: Bytes, p: Bytes, q: Bytes)
    requires DiffersInside(x, y)
    ensures Lex(x + p, y + q) == Lex(x, y) != Equal
  {
    hide Lex;
    var k :| 0 <= k < |x| && k < |y| && x[..k] == y[..k] && x[k] != y[k];
    assert (x + p)[..k] == x[..k] && (y + q)[..k] == y[..k];
    LexAt(x, y, k);
    LexAt(x + p, y + q, k);
  }

  lemma HeadsDiffer(x: Bytes, y: Bytes)
    requires x != [] && y != [] && x[0] != y[0]
    ensures DiffersInside(x, y)
  {
    assert x[..0] == y[..0];
  }

  /** The key of `k` missing fields: the highest key that `k` fields can have. */
  function Missing(k: nat): (b: Bytes)
    ensures |b| == k
  {
    if k == 0 then [] else [0xFF] + Missing(k - 1)
  }

  /** `t` goes on after `s` with a zero byte, and then not with `k` high bytes. */
  predicate Engulfs(s: Bytes, t: Bytes, k: nat) { s + [0] <= t && !(s + [0] + Missing(k) <= t) }

  /** Without high bytes, as in every UTF-8 string, the zero byte alone decides once a field follows. */
  lemma EngulfsPlainly(s: Bytes, t: Bytes, k: nat)
    requires 0xFF !in t && k >= 1
    ensures Engulfs(s, t, k) <==> s + [0] <= t
  {
    var high: Bytes := s + [0];
    assert (high + Missing(k))[|high|] == 0xFF;
  }

  /** With `k` more fields to follow, neither value engulfs the other. */
  predicate Separated(a: Option<Value>, b: Option<Value>, k: nat) { !Engulfed(a, b, k) && !Engulfed(b, a, k) }

  predicate Engulfed(a: Option<Value>, b: Option<Value>, k: nat) {
    match (a, b)
    case (Some(Text(s)), Some(Text(t))) => Engulfs(s, t, k)
    case (Some(Raw(s)), Some(Raw(t))) => Engulfs(s, t, k)
    case _ => false
  }

  lemma PrefixDiffer(tag: Bytes, x: Bytes, y: Bytes)
    requires DiffersInside(x, y)
    ensures DiffersInside(tag + x, tag + y)
  {
    var k :| 0 <= k < |x| && k < |y| && x[..k] == y[..k] && x[k] != y[k];
    assert (tag + x)[..|tag| + k] == tag + x[..k] && (tag + y)[..|tag| + k] == tag + y[..k];
  }

  lemma {:induction false} TerminatedDiffer(s: Bytes, t: Bytes)
    requires s != t && !(s + [0] <= t) && !(t + [0] <= s)
    ensures DiffersInside(s + [0], t + [0])
  {
    hide DiffersInside;
    if s == [] || t == [] || s[0] != t[0] {
      HeadsDiffer(s + [0], t + [0]);
    } else {
      assert s == [s[0]] + s[1..] && t == [t[0]] + t[1..];
      assert s + [0] == [s[0]] + (s[1..] + [0]) && t + [0] == [t[0]] + (t[1..] + [0]);
      TerminatedDiffer(s[1..], t[1..]);
      PrefixDiffer([s[0]], s[1..] + [0], t[1..] + [0]);
    }
  }

  lemma {:induction false} EqualLengthDiffer(x: Bytes, y: Bytes)
    requires |x| == |y| && x != y
    ensures DiffersInside(x, y)
  {
    hide DiffersInside;
    if x[0] != y[0] {
      HeadsDiffer(x, y);
    } else {
      assert x == [x[0]] + x[1..] && y == [y[0]] + y[1..];
      EqualLengthDiffer(x[1..], y[1..]);
      PrefixDiffer([x[0]], x[1..], y[1..]);
    }
  }

  predicate AgreeingOptions(a: Option<Value>, b: Option<Value>) {
    a.None? || b.None? || Agreeing(a.value, b.value)
  }

  lemma FieldKeyOrder(env: Env, a: Option<Value>, b: Option<Value>)
    requires AgreeingOptions(a, b)
    ensures Lex(FieldKey(env, a), FieldKey(env, b)) == CompareOptions(a, b)
  {
    if a.Some? && b.Some? {
      ComparableOrder(env, a.value, b.value);
    }
  }

  /** One string goes on after the other and a zero byte. */
  predicate GoesOn(a: Option<Value>, b: Option<Value>) {
    match (a, b)
    case (Some(Text(s)), Some(Text(t))) => s + [0] <= t
    case (Some(Raw(s)), Some(Raw(t))) => s + [0] <= t
    case _ => false
  }

  /** Different field keys of agreeing values differ before either ends, unless one string goes on after the other. */
  lemma FieldKeyDelimits(env: Env, a: Option<Value>, b: Option<Value>)
    requires AgreeingOptions(a, b) && !GoesOn(a, b) && !GoesOn(b, a) && FieldKey(env, a) != FieldKey(env, b)
    ensures DiffersInside(FieldKey(env, a), FieldKey(env, b))
  {
    hide Lex, BigEndian, SortableBits, FlipSigned, DiffersInside;
    var x, y := FieldKey(env, a), FieldKey(env, b);
    if a.None? || b.None? {
      HeadsDiffer(x, y);
    } else {
      match (a.value, b.value)
      case (Text(s), Text(t)) => TerminatedDiffer(s, t); PrefixDiffer([5], s + [0], t + [0]);
        assert x == [5] + (s + [0]) && y == [5] + (t + [0]);
      case (Raw(s), Raw(t)) => TerminatedDiffer(s, t); PrefixDiffer([6], s + [0], t + [0]);
        assert x == [6] + (s + [0]) && y == [6] + (t + [0]);
      case _ => EqualLengthDiffer(x, y);
    }
  }

  /** The keys of a list of field values, one after the other. */
  function ValuesKey(env: Env, vs: seq<Option<Value>>): Bytes {
    if vs == [] then [] else FieldKey(env, vs[0]) + ValuesKey(env, vs[1..])
  }

  function FieldValues(fields: seq<Bytes>, b: Blob): (vs: seq<Option<Value>>)
    ensures |vs| == |fields|
  {
    if fields == [] then [] else [GetField(b, fields[0])] + FieldValues(fields[1..], b)
  }

  lemma {:induction false} DocumentKeyIs(env: Env, fields: seq<Bytes>, b: Blob)
    ensures DocumentKey(env, fields, b) == ValuesKey(env, FieldValues(fields, b))
  {
    if fields != [] {
      DocumentKeyIs(env, fields[1..], b);
    }
  }

  /** No `k` fields have a key above `k` high bytes. */
  lemma {:induction false} BelowMissing(env: Env, vs: seq<Option<Value>>, z: Bytes)
    requires z != []
    ensures Lex(ValuesKey(env, vs), Missing(|vs|) + z) == Less
  {
    if vs == [] {
      assert Missing(0) + z == z;
    } else {
      var p, rest := ValuesKey(env, vs[1..]), Missing(|vs| - 1) + z;
      assert Missing(|vs|) + z == [0xFF] + rest;
      BelowMissing(env, vs[1..], z);
      match vs[0]
      case None => LexTagged(0xFF, p, rest);
      case Some(v) =>
        var key := ValuesKey(env, vs);
        assert key[0] == Comparable(env, v)[0] < 9;
    }
  }

  /** One string goes on after the other, far enough to stay above whatever `k` fields follow the shorter one. */
  lemma GoesOnOrder(env: Env, tag: byte, s: Bytes, t: Bytes, vs: seq<Option<Value>>, q: Bytes)
    requires s + [0] + Missing(|vs|) <= t
    ensures Lex([tag] + s + [0] + ValuesKey(env, vs), [tag] + t + [0] + q) == Less && Lex(s, t) == Less
  {
    hide Lex, Missing;
    var m := Missing(|vs|);
    var head, z := [tag] + s + [0], t[|s + [0] + m|..] + [0] + q;
    assert t == s + [0] + m + t[|s + [0] + m|..];
    assert [tag] + t + [0] + q == head + (m + z);
    BelowMissing(env, vs, z);
    LexConcat(head, head, ValuesKey(env, vs), m + z);
    LexPrefix(s, t);
  }

  lemma LexPrefix(s: Bytes, t: Bytes)
    requires s <= t && |s| < |t|
    ensures Lex(s, t) == Less
  {
    LexConcat(s, s, [], t[|s|..]);
    assert s + [] == s && s + t[|s|..] == t;
    LexHead(t[|s|..]);
  }

  lemma LexHead(z: Bytes)
    requires z != []
    ensures Lex([], z) == Less
  {
  }

  /** The shorter of two separated strings stays below, with any fields behind both. */
  lemma SeparatedGoesOn(env: Env, a: Option<Value>, b: Option<Value>, vs: seq<Option<Value>>, q: Bytes)
    requires GoesOn(a, b) && Separated(a, b, |vs|)
    ensures Lex(FieldKey(env, a) + ValuesKey(env, vs), FieldKey(env, b) + q) == CompareOptions(a, b) == Less
  {
    hide Lex, Missing, ValuesKey;
    match (a, b)
    case (Some(Text(s)), Some(Text(t))) => GoesOnOrder(env, 5, s, t, vs, q);
    case (Some(Raw(s)), Some(Raw(t))) => GoesOnOrder(env, 6, s, t, vs, q);
  }

  /** Different agreeing values that are separated order whatever follows them. */
  lemma FieldOrderHolds(env: Env, a: Option<Value>, b: Option<Value>, vs: seq<Option<Value>>, ws: seq<Option<Value>>)
    requires AgreeingOptions(a, b) && FieldKey(env, a) != FieldKey(env, b)
    requires |vs| == |ws| && Separated(a, b, |vs|)
    ensures Lex(FieldKey(env, a) + ValuesKey(env, vs), FieldKey(env, b) + ValuesKey(env, ws)) == CompareOptions(a, b)
    ensures CompareOptions(a, b) != Equal
  {
    hide Lex, ValuesKey, FieldKey, AgreeingOptions, Engulfs;
    var x, y, p, q := FieldKey(env, a), FieldKey(env, b), ValuesKey(env, vs), ValuesKey(env, ws);
    if GoesOn(a, b) {
      SeparatedGoesOn(env, a, b, vs, q);
    } else if GoesOn(b, a) {
      SeparatedGoesOn(env, b, a, ws, p);
      LexFlip(y + q, x + p);
      LexFlip(x + p, y + q);
      StringsFlip(b, a);
    } else {
      FieldKeyOrder(env, a, b);
      FieldKeyDelimits(env, a, b);
      LexInside(x, y, p, q);
    }
  }

  /** Two values of the same string type. */
  predicate BothStrings(a: Option<Value>, b: Option<Value>) {
    match (a, b)
    case (Some(Text(_)), Some(Text(_))) => true
    case (Some(Raw(_)), Some(Raw(_))) => true
    case _ => false
  }

  lemma StringsFlip(a: Option<Value>, b: Option<Value>)
    requires BothStrings(a, b) && CompareOptions(a, b) == Less
    ensures CompareOptions(b, a) == Greater
  {
    match (a, b)
    case (Some(Text(s)), Some(Text(t))) => LexFlip(s, t);
    case (Some(Raw(s)), Some(Raw(t))) => LexFlip(s, t);
  }

  /** For each listed field the two documents agree and are separated, as many fields following as the list has. */
  ghost predicate KeysComparable(fields: seq<Bytes>, a: Blob, b: Blob) {
    forall i :: 0 <= i < |fields| ==>
      && AgreeingOptions(GetField(a, fields[i]), GetField(b, fields[i]))
      && Separated(GetField(a, fields[i]), GetField(b, fields[i]), |fields| - 1 - i)
  }

  /** Byte order of the concatenated keys is the field-by-field order with missing values last. */
  lemma {:induction false} DocumentKeyOrder(env: Env, fields: seq<Bytes>, a: Blob, b: Blob)
    requires KeysComparable(fields, a, b)
    ensures Lex(DocumentKey(env, fields, a), DocumentKey(env, fields, b)) == CompareBy(fields, a, b)
  {
    hide AgreeingOptions, Separated, FieldKey, CompareOptions, ValuesKey, FieldValues;
    if fields != [] {
      var u, v, rest := GetField(a, fields[0]), GetField(b, fields[0]), fields[1..];
      var x, y := FieldKey(env, u), FieldKey(env, v);
      FieldKeyOrder(env, u, v);
      LexEqual(x, y);
      if x == y {
        forall i | 0 <= i < |rest| ensures rest[i] == fields[i + 1] {}
        DocumentKeyOrder(env, rest, a, b);
        LexConcat(x, y, DocumentKey(env, rest, a), DocumentKey(env, rest, b));
      } else {
        DocumentKeyIs(env, rest, a);
        DocumentKeyIs(env, rest, b);
        FieldOrderHolds(env, u, v, FieldValues(rest, a), FieldValues(rest, b));
      }
    }
  }

  // ---- when a zero byte matters ----

  /** The keys of two values order as the values do, whatever `k` fields follow each. */
  ghost predicate OrdersAlways(env: Env, a: Option<Value>, b: Option<Value>, k: nat) {
    forall vs, ws :: |vs| == k && |ws| == k ==>
      Lex(FieldKey(env, a) + ValuesKey(env, vs), FieldKey(env, b) + ValuesKey(env, ws)) == CompareOptions(a, b)
  }

  function AllMissing(k: nat): (vs: seq<Option<Value>>)
    ensures |vs| == k
  {
    if k == 0 then [] else [None] + AllMissing(k - 1)
  }

  lemma {:induction false} AllMissingKey(env: Env, k: nat)
    ensures ValuesKey(env, AllMissing(k)) == Missing(k)
  {
    if k > 0 {
      AllMissingKey(env, k - 1);
    }
  }

  /** The part of the longer string behind the zero byte falls below high bytes that it does not begin with. */
  lemma {:induction false} AboveRest(r: Bytes, k: nat, q: Bytes)
    requires !(Missing(k) <= r)
    ensures Lex(Missing(k), r + [0] + q) == Greater
  {
    if r == [] || r[0] != 0xFF {
      assert k > 0;
      assert (r + [0] + q)[0] < 0xFF;
    } else if k > 0 {
      var z := r[1..] + [0] + q;
      assert r == [0xFF] + r[1..];
      assert r + [0] + q == [0xFF] + z;
      AboveRest(r[1..], k - 1, q);
      LexTagged(0xFF, Missing(k - 1), z);
    }
  }

  lemma EngulfedOrder(tag: byte, s: Bytes, t: Bytes, k: nat, q: Bytes)
    requires Engulfs(s, t, k)
    ensures Lex([tag] + s + [0] + Missing(k), [tag] + t + [0] + q) == Greater && Lex(s, t) == Less
  {
    hide Lex, Missing;
    var head, r := [tag] + s + [0], t[|s| + 1..];
    assert t == s + [0] + r;
    var closed: Bytes := s + [0];
    assert Missing(k) <= r ==> closed + Missing(k) <= t;
    assert [tag] + t + [0] + q == head + (r + [0] + q);
    AboveRest(r, k, q);
    LexConcat(head, head, Missing(k), r + [0] + q);
    LexPrefix(s, t);
  }

  /** A value that goes on after the other with too few high bytes is misplaced when the fields behind the other
      are missing. */
  lemma EngulfedMisplaced(env: Env, a: Option<Value>, b: Option<Value>, k: nat, q: Bytes)
    requires Engulfed(a, b, k)
    ensures CompareOptions(a, b) == Less
    ensures Lex(FieldKey(env, a) + Missing(k), FieldKey(env, b) + q) == Greater
  {
    hide Lex, Missing, Engulfs;
    match (a, b)
    case (Some(Text(s)), Some(Text(t))) => EngulfedOrder(5, s, t, k, q);
    case (Some(Raw(s)), Some(Raw(t))) => EngulfedOrder(6, s, t, k, q);
  }

  /** Two different agreeing values order as keys, with any `k` fields behind them, exactly when they are separated. */
  lemma FieldOrderIff(env: Env, a: Option<Value>, b: Option<Value>, k: nat)
    requires AgreeingOptions(a, b) && FieldKey(env, a) != FieldKey(env, b)
    ensures OrdersAlways(env, a, b, k) <==> Separated(a, b, k)
  {
    hide Lex, FieldKey, ValuesKey, AgreeingOptions, Engulfs, CompareOptions, Missing;
    if Separated(a, b, k) {
      forall vs, ws | |vs| == k && |ws| == k
        ensures Lex(FieldKey(env, a) + ValuesKey(env, vs), FieldKey(env, b) + ValuesKey(env, ws)) ==
                CompareOptions(a, b)
      {
        FieldOrderHolds(env, a, b, vs, ws);
      }
    } else {
      NotSeparated(env, a, b, k);
    }
  }

  lemma NotSeparated(env: Env, a: Option<Value>, b: Option<Value>, k: nat)
    requires !Separated(a, b, k)
    ensures Lex(FieldKey(env, a) + Missing(k), FieldKey(env, b) + Missing(k)) != CompareOptions(a, b)
    ensures !OrdersAlways(env, a, b, k)
  {
    hide Lex, FieldKey, ValuesKey, Missing;
    AllMissingKey(env, k);
    var m, none := Missing(k), AllMissing(k);
    if Engulfed(a, b, k) {
      EngulfedMisplaced(env, a, b, k, m);
    } else {
      EngulfedMisplaced(env, b, a, k, m);
      LexFlip(FieldKey(env, b) + m, FieldKey(env, a) + m);
      LexFlip(FieldKey(env, a) + m, FieldKey(env, b) + m);
      StringsFlip(b, a);
    }
    assert |none| == k;
    assert Lex(FieldKey(env, a) + ValuesKey(env, none), FieldKey(env, b) + ValuesKey(env, none))
           != CompareOptions(a, b);
  }

  /** Documents with these values in `f` order by key as the query orders them. */
  ghost predicate DocumentsOrder(env: Env, f: Bytes, rest: seq<Bytes>, u: Value, v: Value) {
    forall a, b :: GetField(a, f) == Some(u) && GetField(b, f) == Some(v) ==>
      Lex(DocumentKey(env, [f] + rest, a), DocumentKey(env, [f] + rest, b)) == CompareBy([f] + rest, a, b)
  }

  /** All documents with two given different values in the first sort field order by key as the query orders them
      exactly when the values are separated for the number of further fields. */
  lemma DocumentsOrderIff(env: Env, f: Bytes, rest: seq<Bytes>, u: Value, v: Value)
    requires Agreeing(u, v) && FieldKey(env, Some(u)) != FieldKey(env, Some(v))
    requires f != ID_NAME && f != VERSION_NAME && f !in rest && ID_NAME !in rest && VERSION_NAME !in rest
    ensures DocumentsOrder(env, f, rest, u, v) <==> Separated(Some(u), Some(v), |rest|)
  {
    hide Lex, FieldKey, Agreeing, Separated, CompareOptions, GetField;
    if Separated(Some(u), Some(v), |rest|) {
      forall a, b | GetField(a, f) == Some(u) && GetField(b, f) == Some(v)
        ensures Lex(DocumentKey(env, [f] + rest, a), DocumentKey(env, [f] + rest, b)) == CompareBy([f] + rest, a, b)
      {
        FirstField(env, f, rest, a, b);
        FieldOrderHolds(env, Some(u), Some(v), FieldValues(rest, a), FieldValues(rest, b));
      }
    } else {
      var a, b := OneField(f, u), OneField(f, v);
      OneFieldValues(f, u, rest);
      OneFieldValues(f, v, rest);
      FirstField(env, f, rest, a, b);
      AllMissingKey(env, |rest|);
      NotSeparated(env, Some(u), Some(v), |rest|);
      FieldKeyOrder(env, Some(u), Some(v));
      LexEqual(FieldKey(env, Some(u)), FieldKey(env, Some(v)));
    }
  }

  /** A document with the one field. */
  function OneField(f: Bytes, v: Value): Blob { Blob(1, 0, 0, [Field(f, v)]) }

  lemma {:induction false} OneFieldValues(f: Bytes, v: Value, rest: seq<Bytes>)
    requires f != ID_NAME && f != VERSION_NAME && f !in rest && ID_NAME !in rest && VERSION_NAME !in rest
    ensures GetField(OneField(f, v), f) == Some(v)
    ensures FieldValues(rest, OneField(f, v)) == AllMissing(|rest|)
  {
    assert [Field(f, v)][1..] == [];
    if rest != [] {
      assert rest[0] in rest;
      assert Lookup([Field(f, v)], rest[0]) == Lookup([], rest[0]) == None;
      OneFieldValues(f, v, rest[1..]);
    }
  }

  lemma FirstField(env: Env, f: Bytes, rest: seq<Bytes>, a: Blob, b: Blob)
    ensures DocumentKey(env, [f] + rest, a) == FieldKey(env, GetField(a, f)) + ValuesKey(env, FieldValues(rest, a))
    ensures DocumentKey(env, [f] + rest, b) == FieldKey(env, GetField(b, f)) + ValuesKey(env, FieldValues(rest, b))
    ensures CompareOptions(GetField(a, f), GetField(b, f)) != Equal ==>
              CompareBy([f] + rest, a, b) == CompareOptions(GetField(a, f), GetField(b, f))
  {
    hide FieldKey, GetField, CompareOptions;
    assert ([f] + rest)[1..] == rest;
    DocumentKeyIs(env, rest, a);
    DocumentKeyIs(env, rest, b);
  }

  /** Such a pair: the shorter string is less, its key is greater. */
  lemma ZeroByteBreaksOrder(env: Env)
    ensures var f, g := [97], [98];
            var a := Blob(1, 0, 0, [Field(f, Text([97])), Field(g, Text([98]))]);
            var b := Blob(2, 0, 0, [Field(f, Text([97, 0])), Field(g, Text([]))]);
            CompareBy([f, g], a, b) == Less && Lex(DocumentKey(env, [f, g], a), DocumentKey(env, [f, g], b)) == Greater
  {
    var f, g: Bytes := [97], [98];
    var a := Blob(1, 0, 0, [Field(f, Text([97])), Field(g, Text([98]))]);
    var b := Blob(2, 0, 0, [Field(f, Text([97, 0])), Field(g, Text([]))]);
    assert [f, g][1..] == [g] && [g][1..] == [];
    assert GetField(a, f) == Some(Text([97])) && GetField(b, f) == Some(Text([97, 0]));
    assert a.fields[1..] == [Field(g, Text([98]))] && b.fields[1..] == [Field(g, Text([]))];
    assert f[0] != g[0] && f != g;
    assert |g| != |ID_NAME| && |g| != |VERSION_NAME|;
    assert Lookup(a.fields, g) == Lookup([Field(g, Text([98]))], g) == Some(Text([98]));
    assert Lookup(b.fields, g) == Lookup([Field(g, Text([]))], g) == Some(Text([]));
    assert GetField(a, g) == Some(Text([98])) && GetField(b, g) == Some(Text([]));
    var x, y: Bytes := [5, 97, 0], [5, 98, 0];
    assert DocumentKey(env, [g], a) == y + [] && DocumentKey(env, [g], b) == [5, 0] + [];
    assert DocumentKey(env, [f, g], a) == [5, 97, 0] + [5, 98, 0];
    assert DocumentKey(env, [f, g], b) == [5, 97, 0] + [0, 5, 0];
    LexConcat(x, x, [5, 98, 0], [0, 5, 0]);
    LexTagged(97, [], [0]);
  }
}
