/** Bytes, fixed-width integers in both byte orders, and the byte-lexicographic order
    in which every table keeps its keys. */
module Bytes {
  import opened Prelude

  type byte = n: int | 0 <= n < 256
  type Bytes = seq<byte>
  type u32 = n: int | 0 <= n < 0x1_0000_0000
  type u64 = n: int | 0 <= n < 0x1_0000_0000_0000_0000
  type i64 = n: int | -0x8000_0000_0000_0000 <= n < 0x8000_0000_0000_0000

  const MAX_ID: nat := 0xFFFF_FFFF_FFFF_FFFF_FFFF_FFFF_FFFF_FFFF

  /** A document id or version: sixteen bytes, read as one big-endian number. */
  type DocumentId = n: nat | n <= MAX_ID

  /** 256 to the power `width`: the number of values `width` bytes can hold. */
  function Range(width: nat): (r: nat)
    ensures r > 0
  {
    if width == 0 then 1 else 256 * Range(width - 1)
  }

  lemma Ranges()
    ensures Range(1) == 0x100 && Range(2) == 0x1_0000 && Range(4) == 0x1_0000_0000
    ensures Range(8) == 0x1_0000_0000_0000_0000 && Range(16) == MAX_ID + 1
  {
    assert Range(2) == 256 * Range(1);
    assert Range(3) == 256 * Range(2);
    assert Range(4) == 256 * Range(3);
    assert Range(5) == 256 * Range(4);
    assert Range(6) == 256 * Range(5);
    assert Range(7) == 256 * Range(6);
    assert Range(8) == 256 * Range(7);
    assert Range(9) == 256 * Range(8);
    assert Range(10) == 256 * Range(9);
    assert Range(11) == 256 * Range(10);
    assert Range(12) == 256 * Range(11);
    assert Range(13) == 256 * Range(12);
    assert Range(14) == 256 * Range(13);
    assert Range(15) == 256 * Range(14);
    assert Range(16) == 256 * Range(15);
  }

  /** The low `width` bytes of `n`, least significant first; higher bytes are cut off as `as u32` does. */
  function LittleEndian(n: nat, width: nat): (b: Bytes)
    ensures |b| == width
  {
    if width == 0 then [] else [n % 256] + LittleEndian(n / 256, width - 1)
  }

  function FromLittleEndian(b: Bytes): nat {
    if b == [] then 0 else b[0] + 256 * FromLittleEndian(b[1..])
  }

  function BigEndian(n: nat, width: nat): (b: Bytes)
    ensures |b| == width
  {
    if width == 0 then [] else BigEndian(n / 256, width - 1) + [n % 256]
  }

  function FromBigEndian(b: Bytes): nat {
    if b == [] then 0 else 256 * FromBigEndian(b[..|b| - 1]) + b[|b| - 1]
  }

  lemma {:induction false} LittleEndianRoundTrip(n: nat, width: nat)
    requires n < Range(width)
    ensures FromLittleEndian(LittleEndian(n, width)) == n
  {
    if width > 0 {
      LittleEndianRoundTrip(n / 256, width - 1);
    }
  }

  lemma {:induction false} LittleEndianBound(b: Bytes)
    ensures FromLittleEndian(b) < Range(|b|)
  {
    if b != [] {
      LittleEndianBound(b[1..]);
    }
  }

  lemma {:induction false} BigEndianRoundTrip(n: nat, width: nat)
    requires n < Range(width)
    ensures FromBigEndian(BigEndian(n, width)) == n
  {
    if width > 0 {
      BigEndianRoundTrip(n / 256, width - 1);
    }
  }

  lemma {:induction false} BigEndianBound(b: Bytes)
    ensures FromBigEndian(b) < Range(|b|)
  {
    if b != [] {
      BigEndianBound(b[..|b| - 1]);
    }
  }

  function IdBytes(id: DocumentId): (b: Bytes)
    ensures |b| == 16
  {
    BigEndian(id, 16)
  }

  function IdFromBytes(b: Bytes): DocumentId
    requires |b| == 16
  {
    BigEndianBound(b); Ranges();
    FromBigEndian(b)
  }

  lemma IdRoundTrip(id: DocumentId)
    ensures IdFromBytes(IdBytes(id)) == id
  {
    Ranges();
    BigEndianRoundTrip(id, 16);
  }

  // ---- lexicographic order ----

  /** Slice comparison: first differing byte decides, a proper prefix is less. */
  function Lex(a: Bytes, b: Bytes): Ordering {
    if a == [] then if b == [] then Equal else Less
    else if b == [] then Greater
    else if a[0] != b[0] then CompareInt(a[0], b[0])
    else Lex(a[1..], b[1..])
  }

  predicate LexLe(a: Bytes, b: Bytes) { Lex(a, b) != Greater }

  predicate LexLess(a: Bytes, b: Bytes) { Lex(a, b) == Less }

  lemma {:induction false} LexEqual(a: Bytes, b: Bytes)
    ensures Lex(a, b) == Equal <==> a == b
  {
    if a != [] && b != [] && a[0] == b[0] {
      LexEqual(a[1..], b[1..]);
      assert a == [a[0]] + a[1..] && b == [b[0]] + b[1..];
    }
  }

  lemma {:induction false} LexFlip(a: Bytes, b: Bytes)
    ensures Lex(a, b) == Less <==> Lex(b, a) == Greater
    ensures LexLe(a, b) || LexLe(b, a)
  {
    if a != [] && b != [] && a[0] == b[0] {
      LexFlip(a[1..], b[1..]);
    }
  }

  lemma {:induction false} LexTransitive(a: Bytes, b: Bytes, c: Bytes)
    requires LexLe(a, b) && LexLe(b, c)
    ensures LexLe(a, c)
    ensures LexLess(a, b) || LexLess(b, c) ==> LexLess(a, c)
  {
    if a != [] && b != [] && c != [] && a[0] == b[0] == c[0] {
      LexTransitive(a[1..], b[1..], c[1..]);
    }
  }

  /** After unequal strings of one length, or a common prefix, what follows does not matter or decides. */
  lemma {:induction false} LexConcat(a: Bytes, b: Bytes, x: Bytes, y: Bytes)
    requires |a| == |b|
    ensures Lex(a + x, b + y) == if a == b then Lex(x, y) else Lex(a, b)
  {
    if a == [] {
      assert a + x == x && b + y == y;
    } else {
      assert (a + x)[1..] == a[1..] + x && (b + y)[1..] == b[1..] + y;
      assert a == [a[0]] + a[1..] && b == [b[0]] + b[1..];
      if a[0] == b[0] {
        LexConcat(a[1..], b[1..], x, y);
      }
    }
  }

  /** Big-endian bytes of one width compare as the numbers do. */
  lemma {:induction false} LexBigEndian(m: nat, n: nat, width: nat)
    requires m < Range(width) && n < Range(width)
    ensures Lex(BigEndian(m, width), BigEndian(n, width)) == CompareInt(m, n)
  {
    if width > 0 {
      LexBigEndian(m / 256, n / 256, width - 1);
      LexEqual(BigEndian(m / 256, width - 1), BigEndian(n / 256, width - 1));
      LexConcat(BigEndian(m / 256, width - 1), BigEndian(n / 256, width - 1), [m % 256], [n % 256]);
    }
  }

  lemma LexIds(a: DocumentId, b: DocumentId)
    ensures Lex(IdBytes(a), IdBytes(b)) == CompareInt(a, b)
  {
    Ranges();
    LexBigEndian(a, b, 16);
  }

  /** The bytes `b` occur in `buf` at `at`. */
  predicate Has(buf: Bytes, at: nat, b: Bytes) {
    at + |b| <= |buf| && buf[at..at + |b|] == b
  }

  lemma HasSplit(buf: Bytes, at: nat, a: Bytes, b: Bytes)
    ensures Has(buf, at, a + b) <==> Has(buf, at, a) && Has(buf, at + |a|, b)
  {
    if Has(buf, at, a + b) {
      assert buf[at..at + |a|] == buf[at..at + |a + b|][..|a|];
      assert (a + b)[..|a|] == a;
      assert buf[at + |a|..at + |a| + |b|] == buf[at..at + |a + b|][|a|..];
      assert (a + b)[|a|..] == b;
    }
    if Has(buf, at, a) && Has(buf, at + |a|, b) {
      assert buf[at..at + |a + b|] == buf[at..at + |a|] + buf[at + |a|..at + |a| + |b|];
    }
  }

  lemma HasSlice(buf: Bytes, at: nat, b: Bytes, from: nat, to: nat)
    requires Has(buf, at, b) && from <= to <= |b|
    ensures at + to <= |buf| && buf[at + from..at + to] == b[from..to]
  {
    forall i | from <= i < to ensures buf[at + i] == b[i] {
      assert buf[at..at + |b|][i] == buf[at + i];
    }
    assert buf[at + from..at + to] == b[from..to];
  }
}
