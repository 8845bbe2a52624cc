/** The bloom filter of a table: no key that was inserted is ever rejected, and what else it admits is exactly
    the keys all of whose bits were set by inserted ones (crates/ingodb-sstable/src/bloom.rs). */
module Bloom {
  import opened Prelude
  import opened Bytes
  import opened Values
  import opened Codec

  const BITS_PER_KEY: nat := 10
  const NUM_HASHES: nat := 7

  /** Bit `k` of `b`, counting from the least significant. */
  predicate HasBit(b: nat, k: nat) {
    if k == 0 then b % 2 == 1 else HasBit(b / 2, k - 1)
  }

  /** `b | 1 << k` */
  function WithBit(b: nat, k: nat): nat {
    if k == 0 then b / 2 * 2 + 1 else WithBit(b / 2, k - 1) * 2 + b % 2
  }

  /** Setting a bit sets that bit and no other. */
  lemma {:induction false} BitSet(b: nat, k: nat, j: nat)
    ensures HasBit(WithBit(b, k), j) <==> j == k || HasBit(b, j)
  {
    if k > 0 && j > 0 {
      BitSet(b / 2, k - 1, j - 1);
    }
  }

  lemma ByteStays(b: byte, k: nat)
    requires k < 8
    ensures WithBit(b, k) < 256
  {
    WidthStays(b, k, 8);
    assert Width(4) == 16;
    assert Width(8) == 16 * 16 by { assert Width(5) == 32; assert Width(6) == 64; assert Width(7) == 128; }
  }

  lemma {:induction false} NoBits(k: nat)
    ensures !HasBit(0, k)
  {
    if k > 0 { NoBits(k - 1); }
  }

  ghost function Width(m: nat): nat { if m == 0 then 1 else 2 * Width(m - 1) }

  lemma {:induction false} WidthStays(b: nat, k: nat, m: nat)
    requires k < m && b < Width(m)
    ensures WithBit(b, k) < Width(m)
  {
    if k > 0 {
      WidthStays(b / 2, k - 1, m - 1);
    }
  }

  /** A filter as the file holds it. */
  datatype BloomData = BloomData(bits: Bytes, numBits: nat, numHashes: nat)

  /** The `i`-th position of a key, by double hashing in wrapping 64-bit arithmetic. */
  function Position(env: Env, key: Bytes, i: nat, numBits: nat): (p: nat)
    requires numBits > 0
    ensures p < numBits
  {
    var h1, h2 := ReadU64(env.blake3(key), 0), ReadU64(env.blake3(key), 8);
    var step := h2 * i % 0x1_0000_0000_0000_0000;
    (h1 + step) % 0x1_0000_0000_0000_0000 % numBits
  }

  /** Over all 64-bit positions the probes of a key start at the first eight bytes of its hash and step by the next
      eight, wrapping around; a filter of fewer bits takes the remainder. */
  lemma Progression(env: Env, key: Bytes, i: nat, numBits: nat)
    requires numBits > 0
    ensures var all := 0x1_0000_0000_0000_0000;
            && Position(env, key, 0, all) == ReadU64(env.blake3(key), 0)
            && Position(env, key, i + 1, all) == (Position(env, key, i, all) + ReadU64(env.blake3(key), 8)) % all
            && Position(env, key, i, numBits) == Position(env, key, i, all) % numBits
  {
    hide ReadU64, Position;
    var all, h1, h2 := 0x1_0000_0000_0000_0000, ReadU64(env.blake3(key), 0), ReadU64(env.blake3(key), 8);
    PositionIs(env, key, 0);
    PositionIs(env, key, i);
    PositionIs(env, key, i + 1);
    ProbeStep(h1, h2, i, all);
    PositionWraps(env, key, i, numBits);
  }

  lemma PositionIs(env: Env, key: Bytes, i: nat)
    ensures var all := 0x1_0000_0000_0000_0000;
            Position(env, key, i, all) == (ReadU64(env.blake3(key), 0) + ReadU64(env.blake3(key), 8) * i % all) % all
  {
    hide ReadU64;
    var all := 0x1_0000_0000_0000_0000;
    WrapTwice(ReadU64(env.blake3(key), 0) + ReadU64(env.blake3(key), 8) * i % all, all);
  }

  lemma PositionWraps(env: Env, key: Bytes, i: nat, numBits: nat)
    requires numBits > 0
    ensures Position(env, key, i, numBits) == Position(env, key, i, 0x1_0000_0000_0000_0000) % numBits
  {
    hide ReadU64;
    var all := 0x1_0000_0000_0000_0000;
    WrapTwice(ReadU64(env.blake3(key), 0) + ReadU64(env.blake3(key), 8) * i % all, all);
  }

  lemma ProbeStep(h1: nat, h2: nat, i: nat, all: nat)
    requires h1 < all
    ensures (h1 + h2 * 0 % all) % all == h1
    ensures (h1 + h2 * (i + 1) % all) % all == ((h1 + h2 * i % all) % all + h2) % all
  {
    MulStep(h2, i);
    WrapFrom(h1, all);
    WrapAdd(h2 * i, h2, h1, all);
  }

  lemma MulStep(a: nat, i: nat)
    ensures a * (i + 1) == a * i + a && a * 0 == 0
  {
  }

  lemma WrapFrom(h: nat, all: nat)
    requires h < all
    ensures (h + 0 % all) % all == h
  {
  }

  lemma WrapTwice(x: nat, m: nat)
    requires m > 0
    ensures x % m % m == x % m
  {
  }

  lemma WrapAdd(x: nat, y: nat, z: nat, m: nat)
    requires m > 0
    ensures (z + (x + y) % m) % m == ((z + x % m) % m + y) % m
  {
    var p, q := x / m, (x + y) / m;
    var r := (z + x % m) / m;
    assert x == m * p + x % m && x + y == m * q + (x + y) % m;
    SameRest(z + (x + y) % m, (z + x % m) % m + y, q - p - r, m);
  }

  /** Numbers that differ by a multiple have one remainder. */
  lemma SameRest(a: nat, b: nat, k: int, m: nat)
    requires m > 0 && b == a + m * k
    ensures a % m == b % m
  {
    var p, q := a / m, b / m;
    assert a == m * p + a % m && b == m * q + b % m;
    var d := q - p - k;
    assert m * d == a % m - b % m;
    assert d >= 1 ==> m * d >= m;
    assert d <= -1 ==> m * d <= 0 - m;
  }

  predicate HasPosition(bits: Bytes, p: nat)
    requires p / 8 < |bits|
  {
    HasBit(bits[p / 8], p % 8)
  }

  function NumBits(numKeys: nat): nat { Max(numKeys * BITS_PER_KEY, 64) }

  /** Room for every position. */
  predicate Sized(f: BloomData) { f.numBits > 0 && f.numBits <= 8 * |f.bits| }

  class BloomFilter {
    const bits: array<byte>
    const numBits: nat
    const numHashes: nat

    function Contents(): BloomData
      reads bits
    {
      BloomData(bits[..], numBits, numHashes)
    }

    /** An empty filter with room for `numKeys` keys. */
    constructor (numKeys: nat)
      ensures fresh(bits) && bits.Length == (numBits + 7) / 8
      ensures numBits == NumBits(numKeys) == (if 10 * numKeys < 64 then 64 else 10 * numKeys)
      ensures numHashes == NUM_HASHES == 7
      ensures Sized(Contents()) && forall p :: 0 <= p < numBits ==> !HasPosition(bits[..], p)
    {
      numBits := NumBits(numKeys);
      numHashes := NUM_HASHES;
      bits := new byte[(NumBits(numKeys) + 7) / 8](_ => 0);
      new;
      forall p | 0 <= p < numBits ensures !HasPosition(bits[..], p) {
        assert bits[p / 8] == 0;
        NoBits(p % 8);
      }
    }

    /** The positions of the key are set, and nothing else changes. */
    method Insert(env: Env, key: Bytes)
      requires Sized(Contents())
      modifies bits
      ensures Sized(Contents())
      ensures Adds(env, old(Contents()), key, Contents())
    {
      for i := 0 to numHashes
        invariant Sized(Contents())
        invariant forall p :: 0 <= p < numBits ==>
                    (HasPosition(bits[..], p) <==> old(HasPosition(bits[..], p)) || Hits(env, key, i, numBits, p))
      {
        var at := Position(env, key, i, numBits);
        SetPosition(env, key, i, at);
      }
    }

    method SetPosition(env: Env, key: Bytes, ghost i: nat, at: nat)
      requires Sized(Contents()) && at == Position(env, key, i, numBits)
      modifies bits
      ensures Sized(Contents())
      ensures forall p :: 0 <= p < numBits ==> (HasPosition(bits[..], p) <==> old(HasPosition(bits[..], p)) || p == at)
    {
      ByteStays(bits[at / 8], at % 8);
      bits[at / 8] := WithBit(bits[at / 8], at % 8);
      forall p | 0 <= p < numBits ensures HasPosition(bits[..], p) <==> old(HasPosition(bits[..], p)) || p == at {
        BitSet(old(bits[at / 8]), at % 8, p % 8);
        assert p / 8 == at / 8 && p != at ==> p % 8 != at % 8;
      }
    }
  }

  /** `p` is one of the first `n` positions of the key. */
  ghost predicate Hits(env: Env, key: Bytes, n: nat, numBits: nat, p: nat)
    requires numBits > 0
  {
    exists i :: 0 <= i < n && Position(env, key, i, numBits) == p
  }

  ghost predicate Adds(env: Env, before: BloomData, key: Bytes, after: BloomData)
    requires Sized(before)
  {
    && Sized(after) && after.numBits == before.numBits && after.numHashes == before.numHashes
    && |after.bits| == |before.bits|
    && forall p :: 0 <= p < after.numBits ==>
         (HasPosition(after.bits, p) <==>
          HasPosition(before.bits, p) || Hits(env, key, before.numHashes, before.numBits, p))
  }

  /** False only if some position of the key is clear. A filter read from a damaged file may have no bits, or
      too few bytes for them; probing it panics. */
  method MayContain(env: Env, f: BloomData, key: Bytes) returns (r: Result<bool>)
    ensures r == Probe(env, f, key, 0)
  {
    for i := 0 to f.numHashes
      invariant Probe(env, f, key, i) == Probe(env, f, key, 0)
    {
      if f.numBits == 0 {
        return Err(Panic);
      }
      var at := Position(env, key, i, f.numBits);
      if at / 8 >= |f.bits| {
        return Err(Panic);
      }
      if !HasBit(f.bits[at / 8], at % 8) {
        return Ok(false);
      }
    }
    return Ok(true);
  }

  function Probe(env: Env, f: BloomData, key: Bytes, i: nat): Result<bool>
    decreases f.numHashes - i
  {
    if i >= f.numHashes then Ok(true)
    else if f.numBits == 0 || Position(env, key, i, f.numBits) / 8 >= |f.bits| then Err(Panic)
    else if !HasPosition(f.bits, Position(env, key, i, f.numBits)) then Ok(false)
    else Probe(env, f, key, i + 1)
  }

  /** A sound filter answers, and answers yes exactly when all positions of the key are set. */
  lemma {:induction false} ProbeIff(env: Env, f: BloomData, key: Bytes, i: nat)
    requires Sized(f)
    ensures Probe(env, f, key, i).Ok?
    ensures Probe(env, f, key, i).value <==>
            forall j :: i <= j < f.numHashes ==> HasPosition(f.bits, Position(env, key, j, f.numBits))
    decreases f.numHashes - i
  {
    if i < f.numHashes {
      ProbeIff(env, f, key, i + 1);
    }
  }

  /** Starting from nothing, the positions set are those of the keys inserted. */
  ghost predicate Holds(env: Env, f: BloomData, keys: seq<Bytes>) {
    && Sized(f)
    && forall p :: 0 <= p < f.numBits ==> (HasPosition(f.bits, p) <==> SetBy(env, f, keys, p))
  }

  ghost predicate SetBy(env: Env, f: BloomData, keys: seq<Bytes>, p: nat)
    requires f.numBits > 0
  {
    exists k :: k in keys && Hits(env, k, f.numHashes, f.numBits, p)
  }

  lemma HoldsNothing(env: Env, f: BloomData)
    requires Sized(f) && forall p :: 0 <= p < f.numBits ==> !HasPosition(f.bits, p)
    ensures Holds(env, f, [])
  {
  }

  /** Each insertion adds its key. */
  lemma HoldsNext(env: Env, before: BloomData, keys: seq<Bytes>, key: Bytes, after: BloomData)
    requires Holds(env, before, keys) && Adds(env, before, key, after)
    ensures Holds(env, after, keys + [key])
  {
    hide Hits, HasPosition;
    forall p | 0 <= p < after.numBits ensures HasPosition(after.bits, p) <==> SetBy(env, after, keys + [key], p) {
      if HasPosition(after.bits, p) {
        if HasPosition(before.bits, p) {
          var k :| k in keys && Hits(env, k, before.numHashes, before.numBits, p);
          assert k in keys + [key];
        } else {
          assert key in keys + [key];
        }
      }
      if SetBy(env, after, keys + [key], p) {
        var k :| k in keys + [key] && Hits(env, k, after.numHashes, after.numBits, p);
        if k in keys {
          assert SetBy(env, before, keys, p);
        }
      }
    }
  }

  /** The filter admits a key exactly when each of its positions belongs to some inserted key. */
  lemma AdmitsIff(env: Env, f: BloomData, keys: seq<Bytes>, key: Bytes)
    requires Holds(env, f, keys)
    ensures Probe(env, f, key, 0) == Ok(true) <==>
            forall j :: 0 <= j < f.numHashes ==> SetBy(env, f, keys, Position(env, key, j, f.numBits))
  {
    hide SetBy, HasPosition;
    ProbeIff(env, f, key, 0);
    forall j | 0 <= j < f.numHashes
      ensures HasPosition(f.bits, Position(env, key, j, f.numBits)) <==>
              SetBy(env, f, keys, Position(env, key, j, f.numBits))
    {
    }
  }

  /** An inserted key is never rejected. */
  lemma NeverRejects(env: Env, f: BloomData, keys: seq<Bytes>, key: Bytes)
    requires Holds(env, f, keys) && key in keys
    ensures Probe(env, f, key, 0) == Ok(true)
  {
    AdmitsIff(env, f, keys, key);
    forall j | 0 <= j < f.numHashes ensures SetBy(env, f, keys, Position(env, key, j, f.numBits)) {
      assert Hits(env, key, f.numHashes, f.numBits, Position(env, key, j, f.numBits));
    }
  }
}
