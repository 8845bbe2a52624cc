/** What comparison, equality and filters mean, in terms that do not mention the comparator
    (crates/ingodb-query/src/lib.rs:86-146, crates/ingodb-blob/src/value.rs:7-29). */
module QueryMeaning {
  import opened Prelude
  import opened Bytes
  import opened Values
  import opened Blobs
  import opened Numbers
  import opened Queries

  // ---- order ----

  /** Less at the first byte that differs, or a proper beginning. */
  ghost predicate BytesBelow(x: Bytes, y: Bytes) {
    x < y || exists k :: DiffersAt(x, y, k) && x[k] < y[k]
  }

  ghost predicate DiffersAt(x: Bytes, y: Bytes, k: int) {
    0 <= k < |x| && k < |y| && x[..k] == y[..k] && x[k] != y[k]
  }

  /** Both of one type that has an order, and no NaN. */
  ghost predicate SameKind(a: Value, b: Value) {
    match a
    case Bool(_) => b.Bool?
    case I64(_) => b.I64?
    case U64(_) => b.U64?
    case F64(x) => b.F64? && !IsNaN(x) && !IsNaN(b.bits)
    case Text(_) => b.Text?
    case Raw(_) => b.Raw?
    case _ => false
  }

  /** False is below true, numbers are ordered by value, and strings by their bytes. */
  ghost predicate Below(a: Value, b: Value) {
    match (a, b)
    case (Bool(x), Bool(y)) => !x && y
    case (I64(x), I64(y)) => x < y
    case (U64(x), U64(y)) => x < y
    case (F64(x), F64(y)) => !IsNaN(x) && !IsNaN(y) && Numeric(x) < Numeric(y)
    case (Text(x), Text(y)) => BytesBelow(x, y)
    case (Raw(x), Raw(y)) => BytesBelow(x, y)
    case _ => false
  }

  lemma {:induction false} LexMeaning(x: Bytes, y: Bytes)
    ensures Lex(x, y) == Less <==> BytesBelow(x, y)
    ensures Lex(x, y) == Greater <==> BytesBelow(y, x)
    ensures Lex(x, y) == Equal <==> x == y
  {
    LexEqual(x, y);
    LexFlip(x, y);
    LexFlip(y, x);
    LexLessMeaning(x, y);
    LexLessMeaning(y, x);
  }

  lemma {:induction false} LexLessMeaning(x: Bytes, y: Bytes)
    ensures Lex(x, y) == Less <==> BytesBelow(x, y)
  {
    if x == [] {
      assert x < y <==> y != [];
    } else if y == [] {
    } else if x[0] != y[0] {
      assert x[..0] == y[..0];
      assert DiffersAt(x, y, 0);
      FirstDiffers(x, y);
    } else {
      LexLessMeaning(x[1..], y[1..]);
      TailBelow(x, y);
    }
  }

  lemma FirstDiffers(x: Bytes, y: Bytes)
    requires x != [] && y != [] && x[0] != y[0]
    ensures BytesBelow(x, y) <==> x[0] < y[0]
  {
    assert x[..0] == y[..0];
    assert DiffersAt(x, y, 0);
    if k :| DiffersAt(x, y, k) && x[k] < y[k] {
      assert k > 0 ==> x[..k][0] == y[..k][0];
    }
  }

  lemma TailBelow(x: Bytes, y: Bytes)
    requires x != [] && y != [] && x[0] == y[0]
    ensures BytesBelow(x, y) <==> BytesBelow(x[1..], y[1..])
  {
    assert x == [x[0]] + x[1..] && y == [y[0]] + y[1..];
    assert x < y <==> x[1..] < y[1..];
    if k :| DiffersAt(x, y, k) && x[k] < y[k] {
      assert k > 0;
      assert x[1..][..k - 1] == x[..k][1..] && y[1..][..k - 1] == y[..k][1..];
      assert DiffersAt(x[1..], y[1..], k - 1);
    }
    if k :| DiffersAt(x[1..], y[1..], k) && x[1..][k] < y[1..][k] {
      assert x[..k + 1] == [x[0]] + x[1..][..k] && y[..k + 1] == [y[0]] + y[1..][..k];
      assert DiffersAt(x, y, k + 1);
    }
  }

  /** The comparator answers exactly for values of one kind, and with their order. */
  lemma CompareMeaning(a: Value, b: Value)
    ensures CompareValues(a, b).Some? <==> SameKind(a, b)
    ensures CompareValues(a, b) == Some(Less) <==> Below(a, b)
    ensures CompareValues(a, b) == Some(Greater) <==> Below(b, a)
  {
    hide Lex, Numeric, IsNaN, BytesBelow;
    match (a, b)
    case (Text(x), Text(y)) => LexMeaning(x, y);
    case (Raw(x), Raw(y)) => LexMeaning(x, y);
    case _ =>
  }

  // ---- equality ----

  /** The value with every negative zero made zero. */
  ghost function OneZero(v: Value): Value
    decreases v, 0
  {
    match v
    case F64(bits) => if IsNegativeZero(bits) then F64(0) else v
    case Array(items) => Array(OneZeroItems(items))
    case Document(entries) => Document(OneZeroEntries(entries))
    case _ => v
  }

  ghost function OneZeroItems(vs: seq<Value>): (r: seq<Value>)
    ensures |r| == |vs|
    decreases vs, 0
  {
    if vs == [] then [] else [OneZero(vs[0])] + OneZeroItems(vs[1..])
  }

  ghost function OneZeroEntries(fs: seq<Field>): (r: seq<Field>)
    ensures |r| == |fs|
    decreases fs, 0
  {
    if fs == [] then [] else [Field(fs[0].key, OneZero(fs[0].value))] + OneZeroEntries(fs[1..])
  }

  /** Some float inside, however deep, is NaN. */
  ghost predicate HoldsNaN(v: Value)
    decreases v, 0
  {
    match v
    case F64(bits) => IsNaN(bits)
    case Array(items) => ItemsHoldNaN(items)
    case Document(entries) => EntriesHoldNaN(entries)
    case _ => false
  }

  ghost predicate ItemsHoldNaN(vs: seq<Value>)
    decreases vs, 0
  {
    vs != [] && (HoldsNaN(vs[0]) || ItemsHoldNaN(vs[1..]))
  }

  ghost predicate EntriesHoldNaN(fs: seq<Field>)
    decreases fs, 0
  {
    fs != [] && (HoldsNaN(fs[0].value) || EntriesHoldNaN(fs[1..]))
  }

  /** Floats compare equal exactly when they are one pattern or the two zeros, and not NaN. */
  lemma FloatsEqual(x: u64, y: u64)
    ensures CompareFloat(x, y) == Some(Equal) <==> !IsNaN(x) && OneZero(F64(x)) == OneZero(F64(y))
  {
    hide Numeric, IsNaN;
    ZeroIsNumber();
    if !IsNaN(x) && !IsNaN(y) {
      SortableBitsOrder(x, y);
      SortableBitsOrder(y, x);
      SortableBitsOrder(x, x);
    }
  }

  lemma ZeroIsNumber()
    ensures !IsNaN(0) && !IsNaN(SIGN) && Numeric(0) == 0 == Numeric(SIGN)
  {
  }

  /** Two values are equal exactly when they are the same up to the sign of zeros and no float inside is NaN. */
  lemma {:induction false} ValueEqIff(a: Value, b: Value)
    ensures ValueEq(a, b) <==> OneZero(a) == OneZero(b) && !HoldsNaN(a)
    decreases a, 0
  {
    hide CompareFloat, IsNaN, IsNegativeZero;
    match (a, b)
    case (F64(x), F64(y)) => FloatsEqual(x, y);
    case (Array(xs), Array(ys)) => if |xs| == |ys| { ItemsEqIff(xs, ys); }
    case (Document(xs), Document(ys)) => if |xs| == |ys| { EntriesEqIff(xs, ys); }
    case _ =>
  }

  lemma {:induction false} ItemsEqIff(xs: seq<Value>, ys: seq<Value>)
    requires |xs| == |ys|
    ensures ItemsEq(xs, ys) <==> OneZeroItems(xs) == OneZeroItems(ys) && !ItemsHoldNaN(xs)
    decreases xs, 0
  {
    hide ValueEq, OneZero, HoldsNaN;
    if xs != [] {
      ValueEqIff(xs[0], ys[0]);
      ItemsEqIff(xs[1..], ys[1..]);
      HeadTail(OneZero(xs[0]), OneZero(ys[0]), OneZeroItems(xs[1..]), OneZeroItems(ys[1..]));
    }
  }

  lemma {:induction false} EntriesEqIff(xs: seq<Field>, ys: seq<Field>)
    requires |xs| == |ys|
    ensures EntriesEq(xs, ys) <==> OneZeroEntries(xs) == OneZeroEntries(ys) && !EntriesHoldNaN(xs)
    decreases xs, 0
  {
    hide ValueEq, OneZero, HoldsNaN;
    if xs != [] {
      ValueEqIff(xs[0].value, ys[0].value);
      EntriesEqIff(xs[1..], ys[1..]);
      HeadTail(Field(xs[0].key, OneZero(xs[0].value)), Field(ys[0].key, OneZero(ys[0].value)),
               OneZeroEntries(xs[1..]), OneZeroEntries(ys[1..]));
    }
  }

  lemma HeadTail<T>(x: T, y: T, s: seq<T>, t: seq<T>)
    ensures [x] + s == [y] + t <==> x == y && s == t
  {
    if [x] + s == [y] + t {
      assert ([x] + s)[0] == x && ([y] + t)[0] == y;
      assert ([x] + s)[1..] == s && ([y] + t)[1..] == t;
    }
  }

  /** No float anywhere inside. */
  ghost predicate Floatless(v: Value)
    decreases v, 0
  {
    match v
    case F64(_) => false
    case Array(items) => ItemsFloatless(items)
    case Document(entries) => EntriesFloatless(entries)
    case _ => true
  }

  ghost predicate ItemsFloatless(vs: seq<Value>)
    decreases vs, 0
  {
    vs == [] || (Floatless(vs[0]) && ItemsFloatless(vs[1..]))
  }

  ghost predicate EntriesFloatless(fs: seq<Field>)
    decreases fs, 0
  {
    fs == [] || (Floatless(fs[0].value) && EntriesFloatless(fs[1..]))
  }

  lemma {:induction false} FloatlessSame(v: Value)
    requires Floatless(v)
    ensures OneZero(v) == v && !HoldsNaN(v)
    decreases v, 0
  {
    match v
    case Array(items) => ItemsFloatlessSame(items);
    case Document(entries) => EntriesFloatlessSame(entries);
    case _ =>
  }

  lemma {:induction false} ItemsFloatlessSame(vs: seq<Value>)
    requires ItemsFloatless(vs)
    ensures OneZeroItems(vs) == vs && !ItemsHoldNaN(vs)
    decreases vs, 0
  {
    if vs != [] {
      FloatlessSame(vs[0]);
      ItemsFloatlessSame(vs[1..]);
    }
  }

  lemma {:induction false} EntriesFloatlessSame(fs: seq<Field>)
    requires EntriesFloatless(fs)
    ensures OneZeroEntries(fs) == fs && !EntriesHoldNaN(fs)
    decreases fs, 0
  {
    if fs != [] {
      FloatlessSame(fs[0].value);
      EntriesFloatlessSame(fs[1..]);
    }
  }

  /** Without floats inside, equality is identity, nested values included. */
  lemma FloatlessEq(a: Value, b: Value)
    requires Floatless(a) && Floatless(b)
    ensures ValueEq(a, b) <==> a == b
  {
    hide ValueEq, OneZero, HoldsNaN, Floatless;
    ValueEqIff(a, b);
    FloatlessSame(a);
    FloatlessSame(b);
  }

  /** Equality is symmetric and transitive, and a value equals itself exactly when it holds no NaN. */
  lemma EqLaws(a: Value, b: Value, c: Value)
    ensures ValueEq(a, a) <==> !HoldsNaN(a)
    ensures ValueEq(a, b) <==> ValueEq(b, a)
    ensures ValueEq(a, b) && ValueEq(b, c) ==> ValueEq(a, c)
  {
    hide ValueEq, OneZero, HoldsNaN;
    ValueEqIff(a, a);
    ValueEqIff(a, b);
    ValueEqIff(b, a);
    ValueEqIff(b, c);
    ValueEqIff(a, c);
    if OneZero(a) == OneZero(b) {
      SameNaN(a, b);
    }
  }

  /** Making zeros one does not touch NaN. */
  lemma {:induction false} SameNaN(a: Value, b: Value)
    requires OneZero(a) == OneZero(b)
    ensures HoldsNaN(a) <==> HoldsNaN(b)
    decreases a, 0
  {
    match (a, b)
    case (F64(x), F64(y)) => ZeroIsNumber();
    case (Array(xs), Array(ys)) => SameNaNItems(xs, ys);
    case (Document(xs), Document(ys)) => SameNaNEntries(xs, ys);
    case _ =>
  }

  lemma {:induction false} SameNaNItems(xs: seq<Value>, ys: seq<Value>)
    requires OneZeroItems(xs) == OneZeroItems(ys)
    ensures ItemsHoldNaN(xs) <==> ItemsHoldNaN(ys)
    decreases xs, 0
  {
    hide OneZero, HoldsNaN;
    if xs != [] && ys != [] {
      HeadTail(OneZero(xs[0]), OneZero(ys[0]), OneZeroItems(xs[1..]), OneZeroItems(ys[1..]));
      SameNaN(xs[0], ys[0]);
      SameNaNItems(xs[1..], ys[1..]);
    }
  }

  lemma {:induction false} SameNaNEntries(xs: seq<Field>, ys: seq<Field>)
    requires OneZeroEntries(xs) == OneZeroEntries(ys)
    ensures EntriesHoldNaN(xs) <==> EntriesHoldNaN(ys)
    decreases xs, 0
  {
    hide OneZero, HoldsNaN;
    if xs != [] && ys != [] {
      HeadTail(Field(xs[0].key, OneZero(xs[0].value)), Field(ys[0].key, OneZero(ys[0].value)),
               OneZeroEntries(xs[1..]), OneZeroEntries(ys[1..]));
      SameNaN(xs[0].value, ys[0].value);
      SameNaNEntries(xs[1..], ys[1..]);
    }
  }

  // ---- filters ----

  /** A field as a filter, a sort or a join reads it: two names give the metadata, any other the document's entry. */
  lemma FieldMeaning(b: Blob, key: Bytes, v: Value)
    requires KeySorted(b.fields)
    ensures GetField(b, ID_NAME) == Some(Uuid(b.id)) && GetField(b, VERSION_NAME) == Some(Uuid(b.version))
    ensures key != ID_NAME && key != VERSION_NAME ==> (GetField(b, key) == Some(v) <==> Field(key, v) in b.fields)
  {
    LookupMeaning(b.fields, key, v);
    assert |ID_NAME| != |VERSION_NAME|;
  }

  lemma {:induction false} LookupMeaning(fields: seq<Field>, key: Bytes, v: Value)
    requires KeySorted(fields)
    ensures Lookup(fields, key) == Some(v) <==> Field(key, v) in fields
  {
    if fields != [] {
      LookupMeaning(fields[1..], key, v);
      assert fields == [fields[0]] + fields[1..];
      if Field(key, v) in fields[1..] {
        var i :| 0 <= i < |fields[1..]| && fields[1..][i] == Field(key, v);
        assert LexLess(fields[0].key, fields[i + 1].key);
        LexEqual(fields[0].key, key);
      }
    }
  }

  /** Greater and less are the order of the field's value against the filter's, a range is at least its low value and
      below its high one, and equality is as above; a document without the field matches none of them. */
  lemma FilterMeaning(b: Blob, f: Bytes, v: Value, low: Value, high: Value)
    ensures Matches(Gt(f, v), b) <==> GetField(b, f).Some? && Below(v, GetField(b, f).value)
    ensures Matches(Lt(f, v), b) <==> GetField(b, f).Some? && Below(GetField(b, f).value, v)
    ensures Matches(Range(f, low, high), b) <==>
            GetField(b, f).Some? && var x := GetField(b, f).value;
                                    SameKind(x, low) && !Below(x, low) && Below(x, high)
    ensures Matches(Eq(f, v), b) <==>
            GetField(b, f).Some? && var x := GetField(b, f).value; OneZero(x) == OneZero(v) && !HoldsNaN(x)
    ensures Matches(Exists(f), b) <==> GetField(b, f).Some?
  {
    hide CompareValues, ValueEq, Below, SameKind, GetField, OneZero, HoldsNaN;
    if GetField(b, f).Some? {
      var x := GetField(b, f).value;
      CompareMeaning(x, v);
      CompareMeaning(x, low);
      CompareMeaning(x, high);
      OneAnswer(CompareValues(x, low));
      ValueEqIff(x, v);
    }
  }

  lemma OneAnswer(o: Option<Ordering>)
    ensures o in {Some(Greater), Some(Equal)} <==> o.Some? && o != Some(Less)
  {
    if o.Some? {
      match o.value
      case Less =>
      case Equal =>
      case Greater =>
    }
  }

  /** On signed integers, in plain numbers. */
  lemma IntegerFilters(b: Blob, f: Bytes, x: i64, y: i64, z: i64)
    requires GetField(b, f) == Some(I64(x))
    ensures Matches(Gt(f, I64(y)), b) <==> x > y
    ensures Matches(Lt(f, I64(y)), b) <==> x < y
    ensures Matches(Eq(f, I64(y)), b) <==> x == y
    ensures Matches(Range(f, I64(y), I64(z)), b) <==> y <= x < z
  {
    hide Matches, GetField;
    FilterMeaning(b, f, I64(y), I64(y), I64(z));
  }

  /** On unsigned integers. */
  lemma UnsignedFilters(b: Blob, f: Bytes, x: u64, y: u64, z: u64)
    requires GetField(b, f) == Some(U64(x))
    ensures Matches(Gt(f, U64(y)), b) <==> x > y
    ensures Matches(Lt(f, U64(y)), b) <==> x < y
    ensures Matches(Eq(f, U64(y)), b) <==> x == y
    ensures Matches(Range(f, U64(y), U64(z)), b) <==> y <= x < z
  {
    hide Matches, GetField;
    FilterMeaning(b, f, U64(y), U64(y), U64(z));
  }

  /** On floating-point numbers; NaN matches nothing. */
  lemma FloatFilters(b: Blob, f: Bytes, x: u64, y: u64, z: u64)
    requires GetField(b, f) == Some(F64(x))
    ensures Matches(Gt(f, F64(y)), b) <==> !IsNaN(x) && !IsNaN(y) && Numeric(x) > Numeric(y)
    ensures Matches(Lt(f, F64(y)), b) <==> !IsNaN(x) && !IsNaN(y) && Numeric(x) < Numeric(y)
    ensures Matches(Eq(f, F64(y)), b) <==> !IsNaN(x) && !IsNaN(y) && Numeric(x) == Numeric(y)
    ensures Matches(Range(f, F64(y), F64(z)), b) <==>
            !IsNaN(x) && !IsNaN(y) && !IsNaN(z) && Numeric(y) <= Numeric(x) < Numeric(z)
  {
    hide Matches, GetField, Numeric, IsNaN;
    FilterMeaning(b, f, F64(y), F64(y), F64(z));
    FloatsEqual(x, y);
  }

  /** On booleans: false is below true. */
  lemma BoolFilters(b: Blob, f: Bytes, x: bool, y: bool)
    requires GetField(b, f) == Some(Bool(x))
    ensures Matches(Gt(f, Bool(y)), b) <==> x && !y
    ensures Matches(Lt(f, Bool(y)), b) <==> !x && y
    ensures Matches(Eq(f, Bool(y)), b) <==> x == y
  {
    hide Matches, GetField;
    FilterMeaning(b, f, Bool(y), Bool(y), Bool(y));
  }

  /** On ids: only equality, and it is identity; so `_id` finds the document itself. */
  lemma IdFilters(b: Blob, f: Bytes, x: DocumentId, y: DocumentId)
    ensures GetField(b, f) == Some(Uuid(x)) ==> (Matches(Eq(f, Uuid(y)), b) <==> x == y)
    ensures Matches(Eq(ID_NAME, Uuid(y)), b) <==> b.id == y
    ensures !Matches(Gt(f, Uuid(y)), b) && !Matches(Lt(f, Uuid(y)), b)
  {
    hide Matches;
    FilterMeaning(b, f, Uuid(y), Uuid(y), Uuid(y));
    FilterMeaning(b, ID_NAME, Uuid(y), Uuid(y), Uuid(y));
  }

  /** Conjunction, disjunction and negation. */
  lemma {:induction false} LogicMeaning(fs: seq<Filter>, b: Blob)
    ensures Matches(And(fs), b) <==> forall i :: 0 <= i < |fs| ==> Matches(fs[i], b)
    ensures Matches(Or(fs), b) <==> exists i :: 0 <= i < |fs| && Matches(fs[i], b)
    ensures forall f: Filter :: Matches(Not(f), b) <==> !Matches(f, b)
  {
    ListMeaning(fs, b);
    assert Matches(And(fs), b) <==> AllMatch(fs, b);
    assert Matches(Or(fs), b) <==> AnyMatch(fs, b);
    forall f: Filter ensures Matches(Not(f), b) <==> !Matches(f, b) {}
  }

  lemma {:induction false} ListMeaning(fs: seq<Filter>, b: Blob)
    ensures AllMatch(fs, b) <==> forall i :: 0 <= i < |fs| ==> Matches(fs[i], b)
    ensures AnyMatch(fs, b) <==> exists i :: 0 <= i < |fs| && Matches(fs[i], b)
  {
    hide Matches;
    if fs != [] {
      ListMeaning(fs[1..], b);
      assert forall i :: 1 <= i < |fs| ==> fs[i] == fs[1..][i - 1];
      if i :| 0 <= i < |fs[1..]| && Matches(fs[1..][i], b) {
        assert Matches(fs[i + 1], b);
      }
      if AllMatch(fs, b) {
        forall i | 0 <= i < |fs| ensures Matches(fs[i], b) { assert i > 0 ==> Matches(fs[1..][i - 1], b); }
      }
      if forall i :: 0 <= i < |fs| ==> Matches(fs[i], b) {
        forall i | 0 <= i < |fs[1..]| ensures Matches(fs[1..][i], b) { assert Matches(fs[i + 1], b); }
      }
    }
  }
}
