/**
 * src/lib/analytics/seededRandom.js: the FNV-1a hash of a seed key and the
 * Mulberry32 generator it seeds. A JavaScript string is its sequence of
 * UTF-16 code units (what `charCodeAt` reads). The hash works on 32-bit
 * patterns (`^` and `Math.imul` keep the low 32 bits), so it is written over
 * `bv32`; the generator's state is the JavaScript number it holds, an
 * integer, and its mixing step works on that number's 32-bit pattern.
 */
module SeededRandom {

  /** One UTF-16 code unit. */
  type CodeUnit = c: bv32 | c < 0x1_0000

  const Modulus := 0x1_0000_0000

  /** `x >>> 0` on an integer: its value modulo 2^32. */
  function ToUint32(x: int): (r: int)
    ensures 0 <= r < Modulus
    ensures (x - r) % Modulus == 0
  {
    x % Modulus
  }

  /** `x | 0` on an integer: the signed 32-bit value with the same low 32
      bits. */
  function ToInt32(x: int): (r: int)
    ensures -0x8000_0000 <= r < 0x8000_0000
    ensures (x - r) % Modulus == 0
  {
    var u := x % Modulus;
    if u >= 0x8000_0000 then u - Modulus else u
  }

  /** The 32-bit pattern of an integer (two's complement for negatives). */
  function Bits(x: int): bv32 {
    (x % Modulus) as bv32
  }

  /** Converting to int32 first does not change the result of a later
      conversion. */
  lemma ToInt32Absorbs(x: int, k: int)
    ensures ToInt32(ToInt32(x) + k) == ToInt32(x + k)
    ensures ToInt32(ToUint32(x) + k) == ToInt32(x + k)
  {
  }

  // ------------------------------------------------------------ FNV-1a hash

  /** `Math.imul(x, y)` on the 32-bit patterns of its arguments: the low 32
      bits of the product. */
  function Imul(x: bv32, y: bv32): (r: bv32)
    ensures y == 1 ==> r == x
  {
    x * y
  }

  /** One FNV-1a round: xor in the code unit, multiply by the FNV prime
      16777619. */
  function FnvStep(h: bv32, c: CodeUnit): bv32 {
    Imul(h ^ c, 16777619)
  }

  /** The hash state after folding `s` into `h`, first unit first. */
  function FnvFrom(h: bv32, s: seq<CodeUnit>): (r: bv32)
    ensures s == [] ==> r == h
    decreases |s|
  {
    if s == [] then h else FnvFrom(FnvStep(h, s[0]), s[1..])
  }

  /** The 32-bit FNV-1a hash, from the offset basis 2166136261. */
  function Fnv(s: seq<CodeUnit>): (r: bv32)
    ensures s == [] ==> r == 2166136261
  {
    FnvFrom(2166136261, s)
  }

  /** Folding a concatenation folds its parts in turn. */
  lemma {:induction false} FnvFromAppend(h: bv32, a: seq<CodeUnit>, b: seq<CodeUnit>)
    ensures FnvFrom(h, a + b) == FnvFrom(FnvFrom(h, a), b)
    decreases |a|
  {
    if a == [] {
      assert a + b == b;
    } else {
      assert (a + b)[0] == a[0] && (a + b)[1..] == a[1..] + b;
      FnvFromAppend(FnvStep(h, a[0]), a[1..], b);
    }
  }

  /** The hash of a longer key is one more round on the hash of its prefix. */
  lemma FnvSnoc(s: seq<CodeUnit>, c: CodeUnit)
    ensures Fnv(s + [c]) == FnvStep(Fnv(s), c)
  {
    FnvFromAppend(2166136261, s, [c]);
    assert [c][1..] == [];
  }

  /** The same for the prefixes of one key. */
  lemma FnvPrefixStep(s: seq<CodeUnit>, i: nat)
    requires i < |s|
    ensures Fnv(s[..i + 1]) == FnvStep(Fnv(s[..i]), s[i])
  {
    FnvSnoc(s[..i], s[i]);
    assert s[..i + 1] == s[..i] + [s[i]];
  }

  /** The published FNV-1a test vectors for "a" and "foobar". */
  lemma FnvVectors()
    ensures Fnv([0x61]) == 0xe40c292c
    ensures Fnv([0x66, 0x6f, 0x6f, 0x62, 0x61, 0x72]) == 0xbf9cf968
  {
  }

  /** `hashStringToUint32(input)`: the loop over the code units. The int32
      values `h` holds in between have the same 32-bit pattern as the state
      here, and `h >>> 0` reads that pattern as an unsigned number. */
  method HashStringToUint32(input: seq<CodeUnit>) returns (h: bv32)
    ensures h == Fnv(input)
  {
    h := 2166136261;
    var i := 0;
    while i < |input|
      invariant 0 <= i <= |input|
      invariant h == Fnv(input[..i])
    {
      FnvPrefixStep(input, i);
      h := h ^ input[i];
      assert h == Fnv(input[..i]) ^ input[i];
      h := Imul(h, 16777619);
      assert h == FnvStep(Fnv(input[..i]), input[i]);
      i := i + 1;
    }
    assert input[..i] == input;
  }

  // ------------------------------------------------------------ Mulberry32

  const Increment := 0x6d2b79f5

  /** The 32-bit numerator a call computes from the 32-bit pattern `b` of
      the state it leaves: `t` and the final shift of `next()`. */
  function Mix(b: bv32): bv32 {
    var t := Imul(b ^ (b >> 15), 1 | b);
    var t2 := (t + Imul(t ^ (t >> 7), 61 | t)) ^ t;
    t2 ^ (t2 >> 14)
  }

  /** An unsigned 32-bit numerator over 2^32: a whole number of 2^-32 steps
      in [0, 1). */
  function Ratio(u: bv32): (r: real)
    ensures 0.0 <= r < 1.0
    ensures r * 4294967296.0 == u as int as real
  {
    u as int as real / 4294967296.0
  }

  /** The output of a call that leaves the state at `a`. */
  function Draw(a: int): (r: real)
    ensures 0.0 <= r < 1.0
  {
    Ratio(Mix(Bits(a)))
  }

  /** The state held after `n` calls of a generator made with `seed`. */
  function StateAfter(seed: int, n: nat): (a: int)
    ensures a % Modulus == (seed + n * Increment) % Modulus
    ensures n > 0 ==> -0x8000_0000 <= a < 0x8000_0000
  {
    if n == 0 then ToUint32(seed) else ToInt32(seed + n * Increment)
  }

  /** One call moves the state from `StateAfter(seed, n)` to
      `StateAfter(seed, n + 1)`. */
  lemma StateAfterStep(seed: int, n: nat)
    ensures StateAfter(seed, n + 1) == ToInt32(ToInt32(StateAfter(seed, n)) + Increment)
  {
    ToInt32Absorbs(seed + n * Increment, Increment);
    ToInt32Absorbs(seed, Increment);
  }

  /** The value returned by the `n`-th call (from 1) of a generator made
      with `seed`. */
  function DrawAt(seed: int, n: nat): (r: real)
    requires n >= 1
    ensures 0.0 <= r < 1.0
  {
    Draw(StateAfter(seed, n))
  }

  /** Seeds equal modulo 2^32 give the same sequence of values. */
  lemma DrawAtSeedModulo(seed1: int, seed2: int, n: nat)
    requires n >= 1 && seed1 % Modulus == seed2 % Modulus
    ensures DrawAt(seed1, n) == DrawAt(seed2, n)
  {
    var k := n * Increment;
    ShiftModulo(seed1, seed2, k);
    assert StateAfter(seed1, n) == ToInt32(seed1 + k);
    assert StateAfter(seed2, n) == ToInt32(seed2 + k);
  }

  /** Adding the same amount keeps two numbers congruent modulo 2^32. */
  lemma ShiftModulo(x: int, y: int, k: int)
    requires x % Modulus == y % Modulus
    ensures (x + k) % Modulus == (y + k) % Modulus
    ensures ToInt32(x + k) == ToInt32(y + k)
  {
  }

  /** The generator `mulberry32(seed)` returns: `a` is the captured state.
      `seed` and `calls` record how it was made and how often it was
      called. */
  class Mulberry32 {
    var a: int
    ghost const seed: int
    ghost var calls: nat

    ghost predicate Valid()
      reads this
    {
      a == StateAfter(seed, calls)
    }

    /** `mulberry32(seed)` on an integer seed. */
    constructor(seed: int)
      ensures this.seed == seed && calls == 0 && Valid()
      ensures a == ToUint32(seed)
    {
      this.seed := seed;
      calls := 0;
      a := seed % 0x1_0000_0000;
    }

    /** `next()`: the state advances by `0x6d2b79f5` modulo 2^32 and the
        result is the `calls`-th value of the seed's sequence. */
    method Next() returns (r: real)
      requires Valid()
      modifies this
      ensures Valid() && calls == old(calls) + 1
      ensures a == ToInt32(ToInt32(old(a)) + Increment)
      ensures r == DrawAt(seed, calls) && 0.0 <= r < 1.0
    {
      StateAfterStep(seed, calls);
      a := ToInt32(a);
      a := ToInt32(a + 0x6d2b79f5);
      calls := calls + 1;
      r := Draw(a);
    }
  }

  /** `seededRandom(seedKey)`: a generator seeded with the key's hash. */
  method NewSeededRandom(seedKey: seq<CodeUnit>) returns (g: Mulberry32)
    ensures fresh(g) && g.Valid() && g.calls == 0
    ensures g.seed == Fnv(seedKey) as int
  {
    var h := HashStringToUint32(seedKey);
    g := new Mulberry32(h as int);
  }
}
