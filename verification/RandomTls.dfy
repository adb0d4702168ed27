/**
 The seeded TLS configuration of crates/tlsurl-core/src/random_tls.rs: a SplitMix64 generator and a
 Fisher-Yates shuffle.
 */
module RandomTls {
  import opened Sequences

  /** 64-bit words; arithmetic on them wraps. */
  const SIZE := 0x1_0000_0000_0000_0000

  type Word = n: nat | n < SIZE

  const GAMMA: Word := 0x9e3779b97f4a7c15

  function WrappingAdd(a: Word, b: Word): Word {
    (a + b) % SIZE
  }

  function WrappingMul(a: Word, b: Word): Word {
    (a * b) % SIZE
  }

  /** Bitwise exclusive or. */
  function Xor(a: nat, b: nat): nat
    decreases a + b
  {
    if a == 0 && b == 0 then 0
    else 2 * Xor(a / 2, b / 2) + (if a % 2 == b % 2 then 0 else 1)
  }

  /** Logical shift to the right. */
  function Shr(a: nat, k: nat): nat
    decreases k
  {
    if k == 0 then a else Shr(a / 2, k - 1)
  }

  function Pow2(k: nat): nat {
    if k == 0 then 1 else 2 * Pow2(k - 1)
  }

  // ---------- exclusive or and shifts ----------

  lemma {:induction false} XorAssoc(a: nat, b: nat, c: nat)
    ensures Xor(Xor(a, b), c) == Xor(a, Xor(b, c))
    decreases a + b + c
  {
    if a + b + c != 0 {
      XorAssoc(a / 2, b / 2, c / 2);
      XorHalf(a, b);
      XorHalf(b, c);
      XorHalf(Xor(a, b), c);
      XorHalf(a, Xor(b, c));
    }
  }

  lemma XorHalf(a: nat, b: nat)
    ensures Xor(a, b) / 2 == Xor(a / 2, b / 2)
    ensures Xor(a, b) % 2 == if a % 2 == b % 2 then 0 else 1
  {
    if a == 0 && b == 0 {
      assert Xor(0, 0) == 0;
    }
  }

  lemma {:induction false} XorZero(a: nat)
    ensures Xor(a, 0) == a && Xor(0, a) == a && Xor(a, a) == 0
    decreases a
  {
    if a != 0 {
      XorZero(a / 2);
    }
  }

  lemma {:induction false} XorBelow(a: nat, b: nat, k: nat)
    requires a < Pow2(k) && b < Pow2(k)
    ensures Xor(a, b) < Pow2(k)
  {
    if k > 0 {
      XorBelow(a / 2, b / 2, k - 1);
      XorHalf(a, b);
    }
  }

  lemma {:induction false} ShrXor(a: nat, b: nat, k: nat)
    ensures Shr(Xor(a, b), k) == Xor(Shr(a, k), Shr(b, k))
    decreases k
  {
    if k > 0 {
      XorHalf(a, b);
      ShrXor(a / 2, b / 2, k - 1);
    }
  }

  lemma {:induction false} ShrAdd(a: nat, i: nat, j: nat)
    ensures Shr(Shr(a, i), j) == Shr(a, i + j)
    decreases i
  {
    if i > 0 {
      ShrAdd(a / 2, i - 1, j);
    }
  }

  lemma {:induction false} ShrBelow(a: nat, k: nat, j: nat)
    requires a < Pow2(k)
    ensures Shr(a, j) <= a
    ensures j >= k ==> Shr(a, j) == 0
    decreases j
  {
    if j > 0 {
      if k > 0 {
        ShrBelow(a / 2, k - 1, j - 1);
      } else {
        ShrBelow(0, 0, j - 1);
      }
    }
  }

  lemma SizeIsPow2()
    ensures Pow2(64) == SIZE
  {
    assert Pow2(8) == 256;
    Pow2Add(8, 8);
    Pow2Add(16, 16);
    Pow2Add(32, 32);
  }

  lemma Reassociate(a: nat, b: nat)
    ensures 2 * (a * b) == (2 * a) * b
  {
  }

  lemma {:induction false} Pow2Add(i: nat, j: nat)
    ensures Pow2(i + j) == Pow2(i) * Pow2(j)
  {
    if i > 0 {
      Pow2Add(i - 1, j);
      calc {
        Pow2(i + j);
        2 * Pow2(i - 1 + j);
        2 * (Pow2(i - 1) * Pow2(j));
        { Reassociate(Pow2(i - 1), Pow2(j)); }
        (2 * Pow2(i - 1)) * Pow2(j);
        Pow2(i) * Pow2(j);
      }
    }
  }

  function XorShift(z: Word, k: nat): Word {
    SizeIsPow2();
    ShrBelow(z, 64, k);
    XorBelow(z, Shr(z, k), 64);
    Xor(z, Shr(z, k))
  }

  /** Undoes `XorShift` for shifts of at least a third of the word. */
  function UnXorShift(y: Word, k: nat): Word {
    SizeIsPow2();
    ShrBelow(y, 64, k);
    ShrBelow(y, 64, 2 * k);
    XorBelow(y, Shr(y, k), 64);
    XorBelow(Xor(y, Shr(y, k)), Shr(y, 2 * k), 64);
    Xor(Xor(y, Shr(y, k)), Shr(y, 2 * k))
  }

  lemma XorTwice(a: nat, b: nat)
    ensures Xor(Xor(a, b), b) == a
  {
    XorAssoc(a, b, b);
    XorZero(b);
    XorZero(a);
  }

  lemma XorMiddle(a: nat, b: nat, c: nat)
    ensures Xor(Xor(a, b), Xor(b, c)) == Xor(a, c)
  {
    XorAssoc(Xor(a, b), b, c);
    XorTwice(a, b);
  }

  lemma ShiftInverts(z: Word, k: nat)
    requires 3 * k >= 64
    ensures UnXorShift(XorShift(z, k), k) == z
    ensures XorShift(UnXorShift(z, k), k) == z
  {
    var z1, z2, z3 := Shr(z, k), Shr(z, 2 * k), Shr(z, 3 * k);
    SizeIsPow2();
    ShrBelow(z, 64, 3 * k);
    ShrAdd(z, k, k);
    ShrAdd(z, 2 * k, k);
    ShrAdd(z, k, 2 * k);
    ForwardInverts(z, k, z1, z2);
    // Backward: y = z ^ z1 ^ z2, so y >> k = z1 ^ z2 ^ 0.
    var y := UnXorShift(z, k);
    ShrXor(Xor(z, z1), z2, k);
    ShrXor(z, z1, k);
    XorZero(Xor(z1, z2));
    XorAssoc(z, z1, z2);
    XorTwice(z, Xor(z1, z2));
  }

  lemma ForwardInverts(z: Word, k: nat, z1: nat, z2: nat)
    requires z1 == Shr(z, k) && z2 == Shr(z, 2 * k) == Shr(z1, k) && Shr(z2, k) == 0 && Shr(z1, 2 * k) == 0
    ensures UnXorShift(XorShift(z, k), k) == z
  {
    // y = z ^ z1, y >> k = z1 ^ z2, y >> 2k = z2 ^ 0.
    ShrXor(z, z1, k);
    ShrXor(z, z1, 2 * k);
    XorZero(z2);
    XorMiddle(z, z1, z2);
    XorTwice(z, z2);
  }

  // ---------- the generator ----------

  const FACTOR_A: Word := 0xbf58476d1ce4e5b9
  const FACTOR_B: Word := 0x94d049bb133111eb
  const INVERSE_A: Word := 0x96de1b173f119089
  const INVERSE_B: Word := 0x319642b2d24d8ec3
  const INVERSE_GAMMA := 0xf1de83e19937733d

  /** The output of a state. */
  function Mix(state: Word): Word {
    var z := WrappingMul(XorShift(state, 30), FACTOR_A);
    XorShift(WrappingMul(XorShift(z, 27), FACTOR_B), 31)
  }

  /** The state of an output: odd factors are invertible, and so are the xor-shifts. */
  function Unmix(output: Word): Word {
    var z := UnXorShift(WrappingMul(UnXorShift(output, 31), INVERSE_B), 27);
    UnXorShift(WrappingMul(z, INVERSE_A), 30)
  }

  lemma ModUnique(x: int, z: Word, k: int)
    requires x == z + SIZE * k
    ensures x % SIZE == z
  {
  }

  lemma MulInverts(z: Word, f: Word, g: Word, t: int)
    requires f * g == 1 + SIZE * t
    ensures WrappingMul(WrappingMul(z, f), g) == z
  {
    var p := z * f;
    var q, r := p / SIZE, p % SIZE;
    assert p == q * SIZE + r;
    calc {
      r * g;
      (p - q * SIZE) * g;
      p * g - (q * SIZE) * g;
      { assert p * g == z * (f * g) && (q * SIZE) * g == SIZE * (q * g); }
      z * (1 + SIZE * t) - SIZE * (q * g);
      { assert z * (1 + SIZE * t) == z + SIZE * (z * t); }
      z + SIZE * (z * t) - SIZE * (q * g);
      z + SIZE * (z * t - q * g);
    }
    ModUnique(r * g, z, z * t - q * g);
  }

  lemma FactorsInvert(z: Word)
    ensures WrappingMul(WrappingMul(z, FACTOR_A), INVERSE_A) == z
    ensures WrappingMul(WrappingMul(z, INVERSE_A), FACTOR_A) == z
    ensures WrappingMul(WrappingMul(z, FACTOR_B), INVERSE_B) == z
    ensures WrappingMul(WrappingMul(z, INVERSE_B), FACTOR_B) == z
  {
    hide WrappingMul;
    MulInverts(z, FACTOR_A, INVERSE_A, (FACTOR_A * INVERSE_A) / SIZE);
    MulInverts(z, INVERSE_A, FACTOR_A, (FACTOR_A * INVERSE_A) / SIZE);
    MulInverts(z, FACTOR_B, INVERSE_B, (FACTOR_B * INVERSE_B) / SIZE);
    MulInverts(z, INVERSE_B, FACTOR_B, (FACTOR_B * INVERSE_B) / SIZE);
  }

  /** The output mix is a bijection on 64-bit words. */
  lemma MixIsBijective(z: Word)
    ensures Unmix(Mix(z)) == z
    ensures Mix(Unmix(z)) == z
  {
    hide XorShift, UnXorShift, WrappingMul;
    var a := XorShift(z, 30);
    var b := XorShift(WrappingMul(a, FACTOR_A), 27);
    ShiftInverts(z, 30);
    FactorsInvert(a);
    ShiftInverts(WrappingMul(a, FACTOR_A), 27);
    FactorsInvert(b);
    ShiftInverts(WrappingMul(b, FACTOR_B), 31);
    var c := UnXorShift(z, 31);
    var d := UnXorShift(WrappingMul(c, INVERSE_B), 27);
    ShiftInverts(z, 31);
    FactorsInvert(c);
    ShiftInverts(WrappingMul(c, INVERSE_B), 27);
    FactorsInvert(d);
    ShiftInverts(WrappingMul(d, INVERSE_A), 30);
  }

  function StateAfter(seed: Word, n: nat): Word {
    if n == 0 then seed else WrappingAdd(StateAfter(seed, n - 1), GAMMA)
  }

  /** The `n`-th output, counting from 0. */
  function Output(seed: Word, n: nat): Word {
    Mix(StateAfter(seed, n + 1))
  }

  lemma AddThenWrap(a: nat, b: nat)
    ensures (a % SIZE + b) % SIZE == (a + b) % SIZE
  {
  }

  lemma {:induction false} StateClosedForm(seed: Word, n: nat)
    ensures StateAfter(seed, n) == (seed + n * GAMMA) % SIZE
  {
    if n > 0 {
      StateClosedForm(seed, n - 1);
      var before := seed + (n - 1) * GAMMA;
      AddThenWrap(before, GAMMA);
      assert before + GAMMA == seed + n * GAMMA;
    }
  }

  /** An odd multiple of the word size apart is a multiple of the word size apart. */
  lemma GammaIsInvertible(d: int)
    requires (d * GAMMA) % SIZE == 0
    ensures d % SIZE == 0
  {
    var q := (d * GAMMA) / SIZE;
    assert d * GAMMA == q * SIZE;
    assert GAMMA * INVERSE_GAMMA == 1 + SIZE * ((GAMMA * INVERSE_GAMMA) / SIZE);
    assert d == SIZE * (q * INVERSE_GAMMA - d * ((GAMMA * INVERSE_GAMMA) / SIZE));
  }

  lemma CongruentDifference(a: nat, b: nat)
    requires a % SIZE == b % SIZE
    ensures (b - a) % SIZE == 0
  {
  }

  /** Any 2^64 consecutive outputs are pairwise distinct, whatever the seed. */
  lemma OutputsAreDistinct(seed: Word, i: nat, j: nat)
    requires i < j < i + SIZE
    ensures Output(seed, i) != Output(seed, j)
  {
    hide Mix, Unmix;
    MixIsBijective(StateAfter(seed, i + 1));
    MixIsBijective(StateAfter(seed, j + 1));
    StateClosedForm(seed, i + 1);
    StateClosedForm(seed, j + 1);
    if StateAfter(seed, i + 1) == StateAfter(seed, j + 1) {
      var a, b := seed + (i + 1) * GAMMA, seed + (j + 1) * GAMMA;
      assert b - a == (j - i) * GAMMA;
      CongruentDifference(a, b);
      GammaIsInvertible(j - i);
    }
  }

  /** After 2^64 calls the state is back at the seed. */
  lemma FullPeriod(seed: Word)
    ensures StateAfter(seed, SIZE) == seed
  {
    StateClosedForm(seed, SIZE);
    ModUnique(seed + SIZE * GAMMA, seed, GAMMA);
  }

  // ---------- the shuffle ----------

  function Swapped<T>(s: seq<T>, i: nat, j: nat): (t: seq<T>)
    requires i < |s| && j < |s|
    ensures |t| == |s|
  {
    s[i := s[j]][j := s[i]]
  }

  /** `draws` has one index for each position from `n - 1` down to 1, none above its position. */
  predicate LegalDraws(draws: seq<nat>, n: nat) {
    |draws| == (if n == 0 then 0 else n - 1) && forall k :: 0 <= k < |draws| ==> draws[k] < n - k
  }

  /** Swaps position `n - 1` with the first draw, then goes on below it. */
  function Shuffled<T>(s: seq<T>, n: nat, draws: seq<nat>): (t: seq<T>)
    requires n <= |s| && LegalDraws(draws, n)
    ensures |t| == |s|
    decreases n
  {
    if n <= 1 then s
    else Shuffled(Swapped(s, n - 1, draws[0]), n - 1, Rest(draws, n))
  }

  function Rest(draws: seq<nat>, n: nat): (rest: seq<nat>)
    requires n > 1 && LegalDraws(draws, n)
    ensures LegalDraws(rest, n - 1) && draws == [draws[0]] + rest
  {
    draws[1..]
  }

  function Draws(state: Word, n: nat): (draws: seq<nat>)
    ensures LegalDraws(draws, n)
    decreases n
  {
    if n <= 1 then []
    else
      var rest := Draws(WrappingAdd(state, GAMMA), n - 1);
      var draws := [Mix(WrappingAdd(state, GAMMA)) % n] + rest;
      assert forall k :: 1 <= k < |draws| ==> draws[k] == rest[k - 1];
      draws
  }

  lemma SwapKeepsElements<T>(s: seq<T>, i: nat, j: nat)
    requires i < |s| && j < |s|
    ensures multiset(Swapped(s, i, j)) == multiset(s)
  {
  }

  /** Whatever is drawn, the result is a permutation, and positions from `n` on stay put. */
  lemma {:induction false} ShuffleIsPermutation<T>(s: seq<T>, n: nat, draws: seq<nat>)
    requires n <= |s| && LegalDraws(draws, n)
    ensures multiset(Shuffled(s, n, draws)) == multiset(s)
    ensures forall i :: n <= i < |s| ==> Shuffled(s, n, draws)[i] == s[i]
    decreases n
  {
    if n > 1 {
      SwapKeepsElements(s, n - 1, draws[0]);
      ShuffleIsPermutation(Swapped(s, n - 1, draws[0]), n - 1, Rest(draws, n));
    }
  }

  lemma SwapKeepsDistinct<T>(s: seq<T>, i: nat, j: nat)
    requires i < |s| && j < |s| && Distinct(s)
    ensures Distinct(Swapped(s, i, j))
  {
  }

  /** The first draw alone decides what ends up in the last place. */
  lemma LastPlace<T>(s: seq<T>, n: nat, draws: seq<nat>)
    requires 1 < n <= |s| && LegalDraws(draws, n)
    ensures Shuffled(s, n, draws)[n - 1] == s[draws[0]]
  {
    ShuffleIsPermutation(Swapped(s, n - 1, draws[0]), n - 1, Rest(draws, n));
  }

  lemma DrawFirst(j: nat, rest: seq<nat>, n: nat)
    requires j < n && 1 < n && LegalDraws(rest, n - 1)
    ensures LegalDraws([j] + rest, n) && Rest([j] + rest, n) == rest
  {
    var draws := [j] + rest;
    assert forall k :: 1 <= k < |draws| ==> draws[k] == rest[k - 1];
    assert draws[1..] == rest;
  }

  /** Different draws give different orders, so no order is favoured by the algorithm. */
  lemma {:induction false} ShuffleIsInjective<T>(s: seq<T>, n: nat, a: seq<nat>, b: seq<nat>)
    requires n <= |s| && Distinct(s) && LegalDraws(a, n) && LegalDraws(b, n)
    requires Shuffled(s, n, a) == Shuffled(s, n, b)
    ensures a == b
    decreases n
  {
    if n > 1 {
      hide Rest, Swapped;
      LastPlace(s, n, a);
      LastPlace(s, n, b);
      assert a[0] == b[0];
      SwapKeepsDistinct(s, n - 1, a[0]);
      ShuffleIsInjective(Swapped(s, n - 1, a[0]), n - 1, Rest(a, n), Rest(b, n));
    }
  }

  lemma SwapFits<T>(s: seq<T>, t: seq<T>, n: nat, j: nat)
    requires 0 < n <= |s| == |t| && j < n && s[j] == t[n - 1]
    requires forall i :: n <= i < |s| ==> s[i] == t[i]
    ensures forall i :: n - 1 <= i < |s| ==> Swapped(s, n - 1, j)[i] == t[i]
  {
  }

  /** Every order of the first `n` elements comes from some draws. */
  lemma {:induction false} ShuffleIsSurjective<T>(s: seq<T>, n: nat, t: seq<T>) returns (draws: seq<nat>)
    requires n <= |s| && |t| == |s| && multiset(s) == multiset(t)
    requires forall i :: n <= i < |s| ==> s[i] == t[i]
    ensures LegalDraws(draws, n) && Shuffled(s, n, draws) == t
    decreases n
  {
    if n <= 1 {
      draws := [];
      SameButOne(s, t, n);
    } else {
      var j := PrefixHas(s, t, n);
      var s' := Swapped(s, n - 1, j);
      SwapKeepsElements(s, n - 1, j);
      SwapFits(s, t, n, j);
      hide LegalDraws, Swapped, Rest;
      var rest := ShuffleIsSurjective(s', n - 1, t);
      DrawFirst(j, rest, n);
      draws := [j] + rest;
    }
  }

  lemma PrefixesAgree<T>(s: seq<T>, t: seq<T>, n: nat)
    requires n <= |s| == |t| && multiset(s) == multiset(t)
    requires forall i :: n <= i < |s| ==> s[i] == t[i]
    ensures multiset(s[..n]) == multiset(t[..n])
  {
    assert s == s[..n] + s[n..] && t == t[..n] + t[n..];
    assert s[n..] == t[n..];
    assert multiset(s) == multiset(s[..n]) + multiset(s[n..]) && multiset(t) == multiset(t[..n]) + multiset(t[n..]);
    assert multiset(s[..n]) == multiset(s) - multiset(s[n..]);
    assert multiset(t[..n]) == multiset(t) - multiset(t[n..]);
  }

  lemma SameButOne<T>(s: seq<T>, t: seq<T>, n: nat)
    requires n <= 1 && n <= |s| == |t| && multiset(s) == multiset(t)
    requires forall i :: n <= i < |s| ==> s[i] == t[i]
    ensures s == t
  {
    PrefixesAgree(s, t, n);
    if n == 1 {
      assert s[..1] == [s[0]] && t[..1] == [t[0]];
      assert s[0] in multiset(s[..1]);
      assert s[0] in multiset(t[..1]);
    }
  }

  lemma PrefixHas<T>(s: seq<T>, t: seq<T>, n: nat) returns (j: nat)
    requires 0 < n <= |s| == |t| && multiset(s) == multiset(t)
    requires forall i :: n <= i < |s| ==> s[i] == t[i]
    ensures j < n && s[j] == t[n - 1]
  {
    PrefixesAgree(s, t, n);
    assert t[..n][n - 1] == t[n - 1];
    assert t[n - 1] in multiset(t[..n]);
    assert t[n - 1] in s[..n];
    j :| 0 <= j < n && s[..n][j] == t[n - 1];
  }

  class Sequence {
    var state: Word

    constructor (seed: Word)
      ensures state == seed
    {
      state := seed;
    }

    method Next() returns (z: Word)
      modifies this
      ensures state == WrappingAdd(old(state), GAMMA) && z == Mix(state)
    {
      hide XorShift, WrappingMul;
      state := WrappingAdd(state, GAMMA);
      z := state;
      z := WrappingMul(XorShift(z, 30), FACTOR_A);
      z := WrappingMul(XorShift(z, 27), FACTOR_B);
      z := XorShift(z, 31);
    }

    method Shuffle<T>(values: array<T>)
      modifies this, values
      ensures values[..] == Shuffled(old(values[..]), values.Length, Draws(old(state), values.Length))
      ensures state == StateAfter(old(state), if values.Length == 0 then 0 else values.Length - 1)
      ensures multiset(values[..]) == multiset(old(values[..]))
    {
      hide Mix, WrappingAdd;
      ghost var was, n := values[..], values.Length;
      var i := values.Length;
      while i > 1
        invariant 0 <= i <= n == values.Length
        invariant n > 0 ==> i > 0
        invariant Shuffled(values[..], i, Draws(state, i)) == Shuffled(was, n, Draws(old(state), n))
        invariant state == StateAfter(old(state), n - i)
      {
        ghost var s, before := values[..], state;
        var z := Next();
        var j := z % i;
        values[i - 1], values[j] := values[j], values[i - 1];
        assert values[..] == Swapped(s, i - 1, j);
        assert Rest(Draws(before, i), i) == Draws(state, i - 1);
        i := i - 1;
      }
      ShuffleIsPermutation(was, n, Draws(old(state), n));
    }
  }

  // ---------- the options ----------

  datatype Suite =
    | EcdheRsaAes128Gcm
    | EcdheEcdsaAes128Gcm
    | EcdheRsaAes256Gcm
    | EcdheEcdsaAes256Gcm
    | EcdheRsaChaCha20
    | EcdheEcdsaChaCha20

  datatype Signature =
    | EcdsaSecp256r1
    | EcdsaSecp384r1
    | RsaPssSha256
    | RsaPssSha384
    | RsaPkcs1Sha256
    | RsaPkcs1Sha384

  datatype Curve = X25519 | P256 | P384

  const REQUIRED := [EcdheRsaAes128Gcm, EcdheEcdsaAes128Gcm]
  const OPTIONAL := [EcdheRsaAes256Gcm, EcdheEcdsaAes256Gcm, EcdheRsaChaCha20, EcdheEcdsaChaCha20]
  const SIGNATURES := [EcdsaSecp256r1, EcdsaSecp384r1, RsaPssSha256, RsaPssSha384, RsaPkcs1Sha256, RsaPkcs1Sha384]
  const CURVES := [X25519, P256, P384]

  method ShuffleList<T>(sequence: Sequence, list: seq<T>) returns (shuffled: seq<T>)
    modifies sequence
    ensures multiset(shuffled) == multiset(list)
    ensures shuffled == Shuffled(list, |list|, Draws(old(sequence.state), |list|))
    ensures sequence.state == StateAfter(old(sequence.state), if list == [] then 0 else |list| - 1)
  {
    var values := new T[|list|](i requires 0 <= i < |list| => list[i]);
    assert values[..] == list;
    sequence.Shuffle(values);
    shuffled := values[..];
  }

  /** The optional suites whose draw came out odd, in order, after the required ones. */
  function Chosen(state: Word, n: nat): seq<Suite>
    requires n <= |OPTIONAL|
  {
    if n == 0 then REQUIRED
    else Chosen(state, n - 1) + if Mix(StateAfter(state, n)) % 2 == 1 then [OPTIONAL[n - 1]] else []
  }

  /** However the draws fall, a suite list has no duplicates, two to six entries and both required suites. */
  lemma {:induction false} ChosenIsSound(state: Word, n: nat)
    requires n <= |OPTIONAL|
    ensures Distinct(Chosen(state, n)) && 2 <= |Chosen(state, n)| <= 2 + n
    ensures REQUIRED <= Chosen(state, n)
    ensures forall x :: x in Chosen(state, n) ==> x in REQUIRED || exists i :: 0 <= i < n && x == OPTIONAL[i]
  {
    hide Mix;
    if n > 0 {
      ChosenIsSound(state, n - 1);
      var before := Chosen(state, n - 1);
      forall i | 0 <= i < |before|
        ensures before[i] != OPTIONAL[n - 1]
      {
        assert before[i] in before;
      }
    }
  }

  /** The whole configuration as a function of the seed, so a seed means the same everywhere. */
  function Configuration(seed: Word): (seq<Suite>, seq<Signature>, seq<Curve>) {
    var suites := Chosen(seed, |OPTIONAL|);
    var s1 := StateAfter(seed, |OPTIONAL|);
    var s2 := StateAfter(s1, if suites == [] then 0 else |suites| - 1);
    var s3 := StateAfter(s2, |SIGNATURES| - 1);
    (Shuffled(suites, |suites|, Draws(s1, |suites|)),
     Shuffled(SIGNATURES, |SIGNATURES|, Draws(s2, |SIGNATURES|)),
     Shuffled(CURVES, |CURVES|, Draws(s3, |CURVES|)))
  }

  lemma {:induction false} StatesAdd(seed: Word, m: nat, n: nat)
    ensures StateAfter(StateAfter(seed, m), n) == StateAfter(seed, m + n)
  {
    if n > 0 {
      StatesAdd(seed, m, n - 1);
    }
  }

  /** The draws of a shuffle that starts after `m` words are the next words, each modulo the places left. */
  lemma {:induction false} DrawsAreOutputs(seed: Word, m: nat, n: nat)
    ensures forall k :: 0 <= k < n - 1 ==> Draws(StateAfter(seed, m), n)[k] == Output(seed, m + k) % (n - k)
    decreases n
  {
    hide Mix, WrappingAdd;
    if n > 1 {
      var draws, rest := Draws(StateAfter(seed, m), n), Draws(StateAfter(seed, m + 1), n - 1);
      DrawsAreOutputs(seed, m + 1, n - 1);
      assert draws == [Output(seed, m) % n] + rest;
      forall k | 0 <= k < n - 1
        ensures draws[k] == Output(seed, m + k) % (n - k)
      {
        assert k > 0 ==> draws[k] == rest[k - 1] && m + 1 + (k - 1) == m + k && n - 1 - (k - 1) == n - k;
      }
    }
  }

  /** The suite, if the lowest bit of the word is set. */
  function IfOdd(word: Word, suite: Suite): seq<Suite> {
    if word % 2 == 1 then [suite] else []
  }

  /** The first four words decide on one suite each. */
  function Picked(seed: Word): seq<Suite> {
    [EcdheRsaAes128Gcm, EcdheEcdsaAes128Gcm]
    + IfOdd(Output(seed, 0), EcdheRsaAes256Gcm) + IfOdd(Output(seed, 1), EcdheEcdsaAes256Gcm)
    + IfOdd(Output(seed, 2), EcdheRsaChaCha20) + IfOdd(Output(seed, 3), EcdheEcdsaChaCha20)
  }

  lemma ChosenArePicked(seed: Word)
    ensures Chosen(seed, 4) == Picked(seed)
  {
    hide Mix, StateAfter;
    OneMoreChosen(seed, 0);
    OneMoreChosen(seed, 1);
    OneMoreChosen(seed, 2);
    OneMoreChosen(seed, 3);
    assert Chosen(seed, 0) == REQUIRED;
    hide Chosen;
  }

  lemma OneMoreChosen(seed: Word, n: nat)
    requires n < 4
    ensures Chosen(seed, n + 1) == Chosen(seed, n) + IfOdd(Output(seed, n), OPTIONAL[n])
  {
    hide Mix, StateAfter;
  }

  /** The order `t` of `s` comes from the words from `m` on, each modulo the places left. */
  ghost predicate ShuffledByWords<T>(s: seq<T>, t: seq<T>, seed: Word, m: nat) {
    exists draws: seq<nat> :: LegalDraws(draws, |s|) && t == Shuffled(s, |s|, draws)
      && forall k :: 0 <= k < |draws| ==> draws[k] == Output(seed, m + k) % (|s| - k)
  }

  lemma WordsShuffle<T>(s: seq<T>, seed: Word, m: nat)
    ensures ShuffledByWords(s, Shuffled(s, |s|, Draws(StateAfter(seed, m), |s|)), seed, m)
  {
    hide Mix, Shuffled;
    DrawsAreOutputs(seed, m, |s|);
  }

  /**
   Which word of the generator decides what: the first four the optional suites by their lowest bits,
   the next ones the order of the suites, then five the signatures and two the curves.
   */
  lemma ConfigurationReadsWords(seed: Word)
    ensures var (ciphers, signatures, curves), c := Configuration(seed), |Picked(seed)|;
            && ShuffledByWords(Picked(seed), ciphers, seed, 4)
            && ShuffledByWords(SIGNATURES, signatures, seed, 3 + c)
            && ShuffledByWords(CURVES, curves, seed, 8 + c)
  {
    hide Mix, WrappingAdd, Shuffled, Chosen, Picked, Draws, StateAfter, ShuffledByWords, Configuration, LegalDraws;
    var c := |Picked(seed)|;
    WhereShufflesStart(seed);
    WordsShuffle(Picked(seed), seed, 4);
    WordsShuffle(SIGNATURES, seed, 3 + c);
    WordsShuffle(CURVES, seed, 8 + c);
  }

  lemma WhereShufflesStart(seed: Word)
    ensures var suites := Picked(seed);
            var c := |suites|;
            && Configuration(seed).0 == Shuffled(suites, c, Draws(StateAfter(seed, 4), c))
            && Configuration(seed).1 == Shuffled(SIGNATURES, |SIGNATURES|, Draws(StateAfter(seed, 3 + c), |SIGNATURES|))
            && Configuration(seed).2 == Shuffled(CURVES, |CURVES|, Draws(StateAfter(seed, 8 + c), |CURVES|))
  {
    hide Mix, WrappingAdd, Shuffled, Chosen, Draws, StateAfter, LegalDraws;
    ChosenArePicked(seed);
    var c := |Picked(seed)|;
    hide Picked;
    ChosenIsSound(seed, 4);
    StatesAdd(seed, 4, c - 1);
    StatesAdd(seed, 3 + c, 5);
  }

  method Options(seed: Word) returns (ciphers: seq<Suite>, signatures: seq<Signature>, curves: seq<Curve>)
    ensures (ciphers, signatures, curves) == Configuration(seed)
    ensures multiset(ciphers) == multiset(Chosen(seed, |OPTIONAL|))
    ensures multiset(signatures) == multiset(SIGNATURES) && multiset(curves) == multiset(CURVES)
  {
    hide Mix, Shuffled, Draws;
    var sequence := new Sequence(seed);
    ciphers := REQUIRED;
    for i := 0 to |OPTIONAL|
      invariant ciphers == Chosen(seed, i) && sequence.state == StateAfter(seed, i)
    {
      var z := sequence.Next();
      if z % 2 == 1 {
        ciphers := ciphers + [OPTIONAL[i]];
      }
    }
    ciphers := ShuffleList(sequence, ciphers);
    signatures := ShuffleList(sequence, SIGNATURES);
    curves := ShuffleList(sequence, CURVES);
  }

  /** What a permutation of the chosen suites inherits: it is a sound suite list too. */
  lemma PermutedSuitesAreSound(seed: Word, ciphers: seq<Suite>)
    requires multiset(ciphers) == multiset(Chosen(seed, |OPTIONAL|))
    ensures 2 <= |ciphers| <= 6 && REQUIRED[0] in ciphers && REQUIRED[1] in ciphers
    ensures forall x :: multiset(ciphers)[x] <= 1
  {
    var chosen := Chosen(seed, |OPTIONAL|);
    ChosenIsSound(seed, |OPTIONAL|);
    assert |ciphers| == |multiset(ciphers)| == |chosen|;
    assert chosen[0] == REQUIRED[0] && chosen[1] == REQUIRED[1];
    assert chosen[0] in multiset(chosen) && chosen[1] in multiset(chosen);
    forall x
      ensures multiset(ciphers)[x] <= 1
    {
      CountOnce(chosen, x);
    }
  }

  lemma {:induction false} CountOnce<T>(s: seq<T>, x: T)
    requires Distinct(s)
    ensures multiset(s)[x] <= 1
    ensures x !in s ==> multiset(s)[x] == 0
  {
    if s != [] {
      assert s == [s[0]] + s[1..];
      CountOnce(s[1..], x);
    }
  }
}
