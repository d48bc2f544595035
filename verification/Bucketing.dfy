/** Which bucket a key goes to. */
module Bucketing {
  import opened Recency

  type int32 = x: int | -0x8000_0000 <= x < 0x8000_0000

  /** Two's-complement wrap-around to 32 bits. */
  function Wrap(x: int): int32 { (x + 0x8000_0000) % 0x1_0000_0000 - 0x8000_0000 }

  /** BKDR hash of the rest of a key, after `h`. */
  function Hash(h: int32, key: Key): int32
    decreases |key|
  {
    if key == [] then h else Hash(Wrap(h * 131 + key[0] as int), key[1..])
  }

  method HashBKRD(key: Key) returns (h: int32)
    ensures h == Hash(0, key)
  {
    h := 0;
    for i := 0 to |key|
      invariant Hash(h, key[i..]) == Hash(0, key)
    {
      h := Wrap(h * 131 + key[i] as int);
      assert key[i..][1..] == key[i + 1..];
    }
  }

  /** Bitwise and of a two's-complement number with a non-negative one. */
  function And(a: int, b: nat): (r: nat)
    ensures r <= b
    decreases b
  {
    if b == 0 then 0 else a % 2 * (b % 2) + 2 * And(a / 2, b / 2)
  }

  /** `2^bits - 1`. */
  function Ones(bits: nat): nat {
    if bits == 0 then 0 else 2 * Ones(bits - 1) + 1
  }

  /** Masking the low bits of a number, negative or not, is its residue. */
  lemma {:induction false} AndOnes(a: int, bits: nat)
    ensures And(a, Ones(bits)) == a % (Ones(bits) + 1)
    decreases bits
  {
    if bits > 0 {
      var k := Ones(bits - 1);
      AndOnes(a / 2, bits - 1);
      assert Ones(bits) / 2 == k && Ones(bits) % 2 == 1;
      assert And(a, Ones(bits)) == a % 2 + 2 * And(a / 2, k);
      HalveResidue(a, k + 1);
      assert Ones(bits) + 1 == 2 * (k + 1);
    }
  }

  lemma HalveResidue(a: int, n: int)
    requires n > 0
    ensures a % (2 * n) == a % 2 + 2 * (a / 2 % n)
  {
    var q, r := a / 2 / n, a / 2 % n;
    assert a / 2 == q * n + r;
    assert a == q * (2 * n) + (2 * r + a % 2);
    ResidueIs(a, q, 2 * r + a % 2, 2 * n);
  }

  lemma ResidueIs(a: int, q: int, r: int, n: int)
    requires 0 <= r < n && a == q * n + r
    ensures a % n == r
  {
    var q', r' := a / n, a % n;
    assert a == q' * n + r' && 0 <= r' < n;
    assert (q - q') * n == r' - r;
    MultipleIsFar(q - q', n);
  }

  lemma MultipleIsFar(k: int, n: int)
    requires n > 0
    ensures k >= 1 ==> k * n >= n
    ensures k <= -1 ==> k * n <= -n
  {
  }

  /** The bucket of a key: its hash, which may be negative, under the mask. */
  function Idx(key: Key, mask: nat): (i: nat)
    ensures i <= mask
  {
    And(Hash(0, key), mask)
  }

  // ---------- the hash as a polynomial ----------

  function Power(n: nat): nat {
    if n == 0 then 1 else 131 * Power(n - 1)
  }

  /** The sum of every byte times 131 to the number of bytes that follow it. */
  function Polynomial(key: Key): nat {
    if key == [] then 0 else key[0] as int * Power(|key| - 1) + Polynomial(key[1..])
  }

  lemma WrapIs(x: int) returns (q: int)
    ensures Wrap(x) == x - q * 0x1_0000_0000
  {
    q := (x + 0x8000_0000) / 0x1_0000_0000;
  }

  /** The hash is that sum, but for a multiple of 2^32. */
  lemma {:induction false} HashIsPolynomial(h: int32, key: Key) returns (q: int)
    ensures Hash(h, key) == h * Power(|key|) + Polynomial(key) - q * 0x1_0000_0000
    decreases |key|
  {
    hide Wrap;
    if key == [] {
      q := 0;
    } else {
      var x := h * 131 + key[0] as int;
      var q0 := WrapIs(x);
      var q1 := HashIsPolynomial(Wrap(x), key[1..]);
      q := q0 * Power(|key| - 1) + q1;
      Expand(h, key[0] as int, Power(|key| - 1), q0);
    }
  }

  lemma Expand(h: int, c: int, p: int, q: int)
    ensures (h * 131 + c - q * 0x1_0000_0000) * p == h * (131 * p) + c * p - (q * p) * 0x1_0000_0000
  {
  }

  /** For up to 2^32 buckets, a power of two, the bucket of a key is the residue of that sum. */
  lemma IdxIsResidue(key: Key, bits: nat)
    requires bits <= 32
    ensures Idx(key, Ones(bits)) == Polynomial(key) % (Ones(bits) + 1)
  {
    hide Hash, Polynomial, Ones;
    var q := HashIsPolynomial(0, key);
    AndOnes(Hash(0, key), bits);
    var k := OnesDivide(bits);
    ShiftAll(Hash(0, key), q, k, Ones(bits) + 1);
  }

  lemma ShiftAll(a: int, q: int, k: int, n: int)
    requires n > 0 && k * n == 0x1_0000_0000
    ensures (a + q * 0x1_0000_0000) % n == a % n
  {
    assert q * (k * n) == (q * k) * n;
    ResidueShift(a, q * k, n);
  }

  lemma ResidueShift(a: int, k: int, n: int)
    requires n > 0
    ensures (a + k * n) % n == a % n
  {
    assert a == a / n * n + a % n;
    assert a + k * n == (a / n + k) * n + a % n;
    ResidueIs(a + k * n, a / n + k, a % n, n);
  }

  lemma {:induction false} OnesDivide(bits: nat) returns (k: int)
    requires bits <= 32
    ensures k * (Ones(bits) + 1) == 0x1_0000_0000
    decreases 32 - bits
  {
    if bits == 32 {
      k := 1;
      OnesThirtyTwo();
    } else {
      var k' := OnesDivide(bits + 1);
      k := 2 * k';
      assert k' * (2 * (Ones(bits) + 1)) == k * (Ones(bits) + 1);
    }
  }

  lemma OnesThirtyTwo()
    ensures Ones(32) == 0xFFFF_FFFF
  {
    assert Ones(8) == 0xFF;
    assert Ones(16) == 0xFFFF;
    assert Ones(24) == 0xFF_FFFF;
  }

  /** `maskOfNextPowOf2`. */
  function MaskOf(cap: bv16): bv16 {
    if cap > 0 && cap & (cap - 1) == 0 then cap - 1
    else
      var a := cap | (cap >> 1);
      var b := a | (a >> 2);
      var c := b | (b >> 4);
      c | (c >> 8)
  }

  /** Up to 32768 buckets, the mask plus one is the least power of two that is enough, and does
      not wrap around; above that it wraps to 0. */
  lemma MaskLeast(cap: bv16)
    requires 1 <= cap
    ensures var m := MaskOf(cap);
      && m & (m + 1) == 0
      && cap - 1 <= m && (m == 0 || m / 2 < cap - 1)
      && (m + 1 == 0 <==> cap > 32768)
      && (cap <= 32768 ==> m as int + 1 == (m + 1) as int)
  {
  }

  /** The mask for the option `BucketCount`: 16 buckets if it is left zero. */
  function MaskFor(bucketCount: bv16): (m: nat)
    ensures bucketCount == 0 ==> m == 15
  {
    MaskOf(if bucketCount == 0 then 16 else bucketCount) as int
  }
}
