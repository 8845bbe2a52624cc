/** Filters and comparison of values (crates/ingodb-query/src/lib.rs). */
module Queries {
  import opened Prelude
  import opened Bytes
  import opened Values
  import opened Blobs
  import opened Numbers

  /** Values of one type compare; others, and any NaN, do not. */
  function CompareValues(a: Value, b: Value): Option<Ordering> {
    match (a, b)
    case (I64(x), I64(y)) => Some(CompareInt(x, y))
    case (U64(x), U64(y)) => Some(CompareInt(x, y))
    case (F64(x), F64(y)) => CompareFloat(x, y)
    case (Text(x), Text(y)) => Some(Lex(x, y))
    case (Raw(x), Raw(y)) => Some(Lex(x, y))
    case (Bool(x), Bool(y)) => Some(if x == y then Equal else if y then Less else Greater)
    case _ => None
  }

  /** Equality of values: NaN equals nothing and the two zeros are equal. */
  predicate ValueEq(a: Value, b: Value)
    decreases a, 0
  {
    match (a, b)
    case (F64(x), F64(y)) => CompareFloat(x, y) == Some(Equal)
    case (Array(xs), Array(ys)) => |xs| == |ys| && ItemsEq(xs, ys)
    case (Document(xs), Document(ys)) => |xs| == |ys| && EntriesEq(xs, ys)
    case _ => a == b
  }

  predicate ItemsEq(xs: seq<Value>, ys: seq<Value>)
    requires |xs| == |ys|
    decreases xs, 0
  {
    xs == [] || (ValueEq(xs[0], ys[0]) && ItemsEq(xs[1..], ys[1..]))
  }

  predicate EntriesEq(xs: seq<Field>, ys: seq<Field>)
    requires |xs| == |ys|
    decreases xs, 0
  {
    xs == [] || (xs[0].key == ys[0].key && ValueEq(xs[0].value, ys[0].value) && EntriesEq(xs[1..], ys[1..]))
  }

  predicate OptionEq(a: Option<Value>, b: Option<Value>) {
    match (a, b)
    case (Some(x), Some(y)) => ValueEq(x, y)
    case (None, None) => true
    case _ => false
  }

  datatype Filter =
    | Eq(field: Bytes, value: Value)
    | Gt(field: Bytes, value: Value)
    | Lt(field: Bytes, value: Value)
    | Range(field: Bytes, low: Value, high: Value)
    | Exists(field: Bytes)
    | And(filters: seq<Filter>)
    | Or(filters: seq<Filter>)
    | Not(filter: Filter)

  predicate Matches(f: Filter, b: Blob)
    decreases f, 0
  {
    match f
    case Eq(field, value) => OptionEq(GetField(b, field), Some(value))
    case Gt(field, value) => CompareField(b, field, value) == Some(Greater)
    case Lt(field, value) => CompareField(b, field, value) == Some(Less)
    case Range(field, low, high) =>
      CompareField(b, field, low) in {Some(Greater), Some(Equal)} && CompareField(b, field, high) == Some(Less)
    case Exists(field) => GetField(b, field).Some?
    case And(fs) => AllMatch(fs, b)
    case Or(fs) => AnyMatch(fs, b)
    case Not(g) => !Matches(g, b)
  }

  predicate AllMatch(fs: seq<Filter>, b: Blob)
    decreases fs, 0
  {
    fs == [] || (Matches(fs[0], b) && AllMatch(fs[1..], b))
  }

  predicate AnyMatch(fs: seq<Filter>, b: Blob)
    decreases fs, 0
  {
    fs != [] && (Matches(fs[0], b) || AnyMatch(fs[1..], b))
  }

  function CompareField(b: Blob, field: Bytes, value: Value): Option<Ordering> {
    match GetField(b, field)
    case Some(v) => CompareValues(v, value)
    case None => None
  }

  /** The sort of a query: field by field, a missing value last, incomparable values tied. */
  function CompareOptions(a: Option<Value>, b: Option<Value>): Ordering {
    match (a, b)
    case (Some(x), Some(y)) => (match CompareValues(x, y) case Some(o) => o case None => Equal)
    case (Some(_), None) => Less
    case (None, Some(_)) => Greater
    case (None, None) => Equal
  }

  function CompareBy(fields: seq<Bytes>, a: Blob, b: Blob): Ordering {
    if fields == [] then Equal
    else
      var o := CompareOptions(GetField(a, fields[0]), GetField(b, fields[0]));
      if o != Equal then o else CompareBy(fields[1..], a, b)
  }

  // ---- what filters mean ----

  /** Comparable values compare equal exactly when they are equal. */
  lemma EqualMeansEq(a: Value, b: Value)
    requires CompareValues(a, b).Some?
    ensures CompareValues(a, b) == Some(Equal) <==> ValueEq(a, b)
  {
    match (a, b)
    case (Text(x), Text(y)) => LexEqual(x, y);
    case (Raw(x), Raw(y)) => LexEqual(x, y);
    case _ =>
  }

  /** Swapping the operands swaps the answer. */
  lemma CompareFlip(a: Value, b: Value)
    ensures CompareValues(a, b) == Some(Less) <==> CompareValues(b, a) == Some(Greater)
    ensures CompareValues(a, b).None? <==> CompareValues(b, a).None?
  {
    hide Numeric, IsNaN, Lex;
    match (a, b)
    case (Text(x), Text(y)) => LexFlip(x, y);
    case (Raw(x), Raw(y)) => LexFlip(x, y);
    case _ =>
  }

  /** A document whose field compares with the value matches exactly one of less, equal and greater; any other
      document matches neither less nor greater. */
  lemma Trichotomy(b: Blob, field: Bytes, value: Value)
    ensures var lt, eq, gt := Matches(Lt(field, value), b), Matches(Eq(field, value), b), Matches(Gt(field, value), b);
            if CompareField(b, field, value).Some?
            then (lt && !eq && !gt) || (!lt && eq && !gt) || (!lt && !eq && gt)
            else !lt && !gt
  {
    hide ValueEq, CompareValues;
    var v := GetField(b, field);
    if v.Some? && CompareValues(v.value, value).Some? {
      EqualMeansEq(v.value, value);
      var o := CompareValues(v.value, value).value;
      assert o.Less? || o.Equal? || o.Greater?;
      assert Matches(Eq(field, value), b) <==> ValueEq(v.value, value);
    }
  }

  /** A range is the half-open interval: at least the low value and below the high one. */
  lemma RangeIsInterval(b: Blob, field: Bytes, low: Value, high: Value)
    ensures Matches(Range(field, low, high), b) <==>
            (Matches(Gt(field, low), b) || Matches(Eq(field, low), b)) && Matches(Lt(field, high), b)
  {
    var v := GetField(b, field);
    if v.Some? && CompareValues(v.value, high).Some? && ValueEq(v.value, low) {
      EqualComparable(v.value, low, high);
    }
    if v.Some? && CompareValues(v.value, low).Some? {
      EqualMeansEq(v.value, low);
    }
  }

  /** What equals a value of a comparable type compares with it. */
  lemma EqualComparable(v: Value, low: Value, high: Value)
    requires CompareValues(v, high).Some? && ValueEq(v, low)
    ensures CompareValues(v, low) == Some(Equal)
  {
    match (v, low)
    case (Text(x), Text(y)) => LexEqual(x, y);
    case (Raw(x), Raw(y)) => LexEqual(x, y);
    case _ =>
  }

  function Negated(fs: seq<Filter>): (r: seq<Filter>)
    ensures |r| == |fs|
  {
    if fs == [] then [] else [Not(fs[0])] + Negated(fs[1..])
  }

  lemma {:induction false} NegatedLists(fs: seq<Filter>, b: Blob)
    ensures !AllMatch(fs, b) <==> AnyMatch(Negated(fs), b)
    ensures !AnyMatch(fs, b) <==> AllMatch(Negated(fs), b)
  {
    if fs != [] {
      NegatedLists(fs[1..], b);
      assert Negated(fs)[1..] == Negated(fs[1..]);
      assert Matches(Negated(fs)[0], b) <==> !Matches(fs[0], b);
    }
  }

  /** Conjunction and disjunction are dual under negation, the empty ones included. */
  lemma DeMorgan(fs: seq<Filter>, b: Blob)
    ensures Matches(Not(And(fs)), b) <==> Matches(Or(Negated(fs)), b)
    ensures Matches(Not(Or(fs)), b) <==> Matches(And(Negated(fs)), b)
  {
    NegatedLists(fs, b);
    assert Matches(Not(And(fs)), b) <==> !Matches(And(fs), b);
    assert Matches(Not(Or(fs)), b) <==> !Matches(Or(fs), b);
  }
}
