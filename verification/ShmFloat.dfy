/** How many chunks the shared-memory writer sends and how many the reader waits for. The
    writer cuts the message up; the reader computes `ceil((float)size / SHM_SMALL_MSG_SIZE)`,
    where the conversion to single precision rounds to nearest, ties to even (section 4.3.1 of
    IEEE 754-2008). Dividing by a power of two and taking the ceiling are exact. */
module ShmFloat {
  import opened Partition

  /** `SHM_SMALL_MSG_SIZE`. */
  const CHUNK: nat := 0x40_0000

  function Pow2(k: nat): (p: nat)
    ensures p > 0
  {
    if k == 0 then 1 else 2 * Pow2(k - 1)
  }

  lemma {:induction false} Pow2Sum(a: nat, b: nat)
    ensures Pow2(a + b) == Pow2(a) * Pow2(b)
  {
    if a > 0 { Pow2Sum(a - 1, b); }
  }

  lemma Pow2Values()
    ensures Pow2(22) == CHUNK && Pow2(23) == 0x80_0000 && Pow2(24) == 0x100_0000
  {
    assert Pow2(8) == 256;
    Pow2Sum(8, 8);
    Pow2Sum(16, 6);
    assert Pow2(6) == 64;
  }

  /** Exponent of the spacing of single-precision numbers around `n`. */
  function UlpExp(n: nat): nat {
    if n < 0x100_0000 then 0 else 1 + UlpExp(n / 2)
  }

  function Ulp(n: nat): nat {
    Pow2(UlpExp(n))
  }

  /** Whether rounding to nearest, ties to even, goes up. */
  predicate RoundsUp(n: nat) {
    var u, d := Ulp(n), n % Ulp(n);
    2 * d > u || (2 * d == u && (n / u) % 2 == 1)
  }

  /** `(float)n`, an integer for every `n`. */
  function ToFloat(n: nat): nat {
    if RoundsUp(n) then n - n % Ulp(n) + Ulp(n) else n - n % Ulp(n)
  }

  function CeilDiv(n: nat, c: nat): nat
    requires c > 0
  {
    n / c + if n % c == 0 then 0 else 1
  }

  function WriterChunks(n: nat): nat {
    CeilDiv(n, CHUNK)
  }

  function ReaderChunks(n: nat): nat {
    CeilDiv(ToFloat(n), CHUNK)
  }

  /** An integer with a 24-bit significand. */
  ghost predicate IsFloat(m: nat, sig: nat, exp: nat) {
    sig < 0x100_0000 && m == sig * Pow2(exp)
  }

  /** The spacing at `n`: `n` has exactly 24 significant digits above it. */
  lemma {:induction false} UlpBounds(n: nat)
    ensures n < 0x100_0000 * Ulp(n)
    ensures n >= 0x100_0000 ==> 0x80_0000 * Ulp(n) <= n
  {
    if n >= 0x100_0000 { UlpBounds(n / 2); }
  }

  /** A coarser power of two is a multiple of a finer one; a finer one is at most half. */
  lemma PowersOfTwo(exp: nat, j: nat)
    ensures exp >= j ==> Pow2(exp) == Pow2(exp - j) * Pow2(j)
    ensures exp < j ==> 2 * Pow2(exp) <= Pow2(j)
  {
    if exp >= j {
      Pow2Sum(exp - j, j);
    } else {
      Pow2Sum(j - exp - 1, exp);
      assert 1 * Pow2(exp) <= Pow2(j - exp - 1) * Pow2(exp);
    }
  }

  lemma CoarseFloat(n: nat, u: nat, m: nat, sig: nat, p: nat)
    requires u > 0 && m == sig * (p * u)
    ensures m <= n - n % u || m >= n - n % u + u
  {
    assert m == (sig * p) * u;
    MultipleOutside(n, u, sig * p);
  }

  lemma FineFloat(n: nat, u: nat, m: nat, sig: nat, p: nat)
    requires sig < 0x100_0000 && m == sig * p && 2 * p <= u && 0x80_0000 * u <= n && u > 0
    ensures m <= n - n % u
  {
    assert sig * p <= 0x100_0000 * p;
    MultipleOutside(n, u, 0x80_0000);
  }

  /** No single-precision number lies strictly between `n` rounded down and rounded up. */
  lemma NoFloatBetween(n: nat, m: nat, sig: nat, exp: nat)
    requires n >= 0x100_0000 && IsFloat(m, sig, exp)
    ensures m <= n - n % Ulp(n) || m >= n - n % Ulp(n) + Ulp(n)
  {
    PowersOfTwo(exp, UlpExp(n));
    if exp >= UlpExp(n) {
      CoarseFloat(n, Ulp(n), m, sig, Pow2(exp - UlpExp(n)));
    } else {
      UlpBounds(n);
      FineFloat(n, Ulp(n), m, sig, Pow2(exp));
    }
  }

  lemma MultipleOutside(n: nat, u: nat, t: nat)
    requires u > 0
    ensures t * u <= n - n % u || t * u >= n - n % u + u
  {
    var q := n / u;
    assert n == q * u + n % u;
    if t <= q {
      assert t * u <= q * u;
    } else {
      assert (q + 1) * u <= t * u;
      assert (q + 1) * u == q * u + u;
    }
  }

  function Distance(a: nat, b: nat): nat {
    if a <= b then b - a else a - b
  }

  /** `ToFloat` is the nearest single-precision number. */
  lemma ToFloatNearest(n: nat, m: nat, sig: nat, exp: nat)
    requires IsFloat(m, sig, exp)
    ensures Distance(ToFloat(n), n) <= Distance(m, n)
  {
    if n >= 0x100_0000 { NoFloatBetween(n, m, sig, exp); }
  }

  /** Half-way between two single-precision numbers the one with the even significand is taken. */
  lemma TiesToEven(n: nat)
    requires 2 * (n % Ulp(n)) == Ulp(n)
    ensures ToFloat(n) % Ulp(n) == 0 && ToFloat(n) / Ulp(n) % 2 == 0
  {
    var q, u := n / Ulp(n), Ulp(n);
    Rounded(n, u);
    DivUnique(ToFloat(n), if RoundsUp(n) then q + 1 else q, 0, u);
  }

  /** The sizes for which the reader counts right. Below 2^45 bytes the message must not exceed a
      whole number of chunks by half a float spacing or less; above, where the spacing is at least
      a chunk, it must round up by less than a chunk. */
  predicate CountSafe(n: nat) {
    var u := Ulp(n);
    if u < CHUNK then n % CHUNK == 0 || 2 * (n % CHUNK) > u
    else n % u == 0 || (RoundsUp(n) && u - n % u < CHUNK)
  }


  lemma Rounded(n: nat, u: nat)
    requires u > 0
    ensures n - n % u == (n / u) * u && n - n % u + u == (n / u + 1) * u
  {
    assert (n / u + 1) * u == (n / u) * u + u;
  }

  /** `ToFloat` yields a single-precision number. */
  lemma ToFloatIsFloat(n: nat) returns (sig: nat, exp: nat)
    ensures IsFloat(ToFloat(n), sig, exp)
  {
    UlpBounds(n);
    Rounded(n, Ulp(n));
    QuotientBound(n, Ulp(n));
    sig, exp := if RoundsUp(n) then n / Ulp(n) + 1 else n / Ulp(n), UlpExp(n);
    assert ToFloat(n) == sig * Pow2(exp);
    if sig == 0x100_0000 {
      sig, exp := 0x80_0000, exp + 1;
    }
  }

  lemma QuotientBound(n: nat, u: nat)
    requires u > 0 && n < 0x100_0000 * u
    ensures n / u < 0x100_0000
  {
    var q := n / u;
    assert n == q * u + n % u;
    assert q >= 0x100_0000 ==> q * u >= 0x100_0000 * u;
  }

  /** Spacing finer than half a chunk: `t` double spacings make a chunk. */
  lemma FineSpacing(n: nat, u: nat, t: nat)
    requires u == Ulp(n) && CHUNK == 2 * t * u
    ensures ReaderChunks(n) == WriterChunks(n) <==> n % CHUNK == 0 || 2 * (n % CHUNK) > u
  {
    var k, r, d := n / CHUNK, n % CHUNK, n % u;
    ModOfMod(n, u, 2 * t);
    assert r % u == d;
    FloorInChunk(r, u, 2 * t);
    assert ToFloat(n) == k * CHUNK + (r - d) || ToFloat(n) == k * CHUNK + (r - d + u);
    if r > 0 && r < u {
      SmallRemainder(n, u, t);
    }
    CeilOf(k, r);
    CeilOf(k, r - d);
    CeilOf(k, r - d + u);
  }

  /** `CeilDiv` of a number of whole chunks and at most one more. */
  lemma CeilOf(k: nat, r: nat)
    requires r <= CHUNK
    ensures CeilDiv(k * CHUNK + r, CHUNK) == if r == 0 then k else k + 1
  {
  }

  lemma ModOfMod(n: nat, u: nat, t: nat)
    requires u > 0 && t > 0
    ensures t * u > 0 && (n % (t * u)) % u == n % u
  {
    var c := t * u;
    var k, r := n / c, n % c;
    assert n == k * c + r;
    assert k * (t * u) == (k * t) * u;
    AddMultiple(r, k * t, u);
  }

  lemma AddMultiple(r: nat, m: nat, u: nat)
    requires u > 0
    ensures (m * u + r) % u == r % u && (m * u + r) / u == m + r / u
  {
    var q := r / u;
    assert m * u + r == (m + q) * u + r % u;
    DivUnique(m * u + r, m + q, r % u, u);
  }

  lemma DivUnique(n: nat, q: nat, d: nat, u: nat)
    requires u > 0 && d < u && n == q * u + d
    ensures n / u == q && n % u == d
  {
    var q' := n / u;
    assert n == q' * u + n % u;
    assert q' < q ==> (q' + 1) * u <= q * u;
    assert q' > q ==> (q + 1) * u <= q' * u;
  }

  /** A remainder of `t` spacings, rounded down or up, stays within the chunk. */
  lemma FloorInChunk(r: nat, u: nat, t: nat)
    requires u > 0 && r < t * u
    ensures r - r % u + u <= t * u
    ensures r - r % u == 0 <==> r < u
  {
    MultipleOutside(r, u, t);
  }

  /** A remainder below one spacing is rounded down exactly when it is at most half of it: the
      chunk boundary below is an even multiple of the spacing. */
  lemma SmallRemainder(n: nat, u: nat, t: nat)
    requires u == Ulp(n) && CHUNK == 2 * t * u && 0 < n % CHUNK < u
    ensures RoundsUp(n) <==> 2 * (n % CHUNK) > u
  {
    var k, r := n / CHUNK, n % CHUNK;
    EvenMultiple(k, t, u);
    AboveEven(n, u, k * t, r);
  }

  lemma EvenMultiple(k: nat, t: nat, u: nat)
    ensures k * (2 * t * u) == (2 * (k * t)) * u
  {
    assert 2 * t * u == 2 * (t * u);
    assert k * (2 * (t * u)) == 2 * (k * (t * u));
    assert k * (t * u) == (k * t) * u;
  }

  lemma AboveEven(n: nat, u: nat, m: nat, r: nat)
    requires u == Ulp(n) && r < u && n == (2 * m) * u + r
    ensures RoundsUp(n) <==> 2 * r > u
  {
    DivUnique(n, 2 * m, r, u);
  }

  /** Spacing of at least a chunk: a spacing is `t` chunks. */
  lemma CoarseSpacing(n: nat, u: nat, t: nat)
    requires u == Ulp(n) && u == t * CHUNK
    ensures ReaderChunks(n) == WriterChunks(n) <==> n % u == 0 || (RoundsUp(n) && u - n % u < CHUNK)
  {
    var m := FloorIsChunks(n, u, t);
    CoarseCount(n, m, n % u, t, ToFloat(n), RoundsUp(n));
  }

  lemma FloorIsChunks(n: nat, u: nat, t: nat) returns (m: nat)
    requires u == t * CHUNK && u > 0
    ensures n == m * CHUNK + n % u
  {
    FloorIsTimes(n, u);
    m := Regrouped(n / u, t, u);
  }

  lemma FloorIsTimes(n: nat, u: nat)
    requires u > 0
    ensures n == Times(n / u, u) + n % u
  {
    TimesIsProduct(n / u, u);
  }

  lemma {:induction false} Regrouped(q: nat, t: nat, u: nat) returns (m: nat)
    requires u == t * CHUNK
    ensures Times(q, u) == m * CHUNK
  {
    m := 0;
    if q > 0 {
      var before := Regrouped(q - 1, t, u);
      m := before + t;
    }
  }

  lemma CoarseCount(n: nat, m: nat, d: nat, t: nat, f: nat, up: bool)
    requires n == m * CHUNK + d && d < t * CHUNK && f == m * CHUNK + (if up then t * CHUNK else 0) && (up ==> d > 0)
    ensures CeilDiv(f, CHUNK) == CeilDiv(n, CHUNK) <==> d == 0 || (up && t * CHUNK - d < CHUNK)
  {
    CeilAbove(m, if up then t * CHUNK else 0);
    CeilAbove(m, d);
    TailCount(d, t);
  }

  lemma TailCount(d: nat, t: nat)
    requires d <= t * CHUNK
    ensures CeilDiv(t * CHUNK, CHUNK) == t
    ensures d > 0 ==> CeilDiv(d, CHUNK) >= 1 && (CeilDiv(d, CHUNK) == t <==> t * CHUNK - d < CHUNK)
  {
  }

  lemma CeilAbove(m: nat, d: nat)
    ensures CeilDiv(m * CHUNK + d, CHUNK) == m + CeilDiv(d, CHUNK)
  {
  }

  /** For every size, the two counts agree exactly on the safe sizes. */
  lemma ChunkCountsAgree(n: nat)
    ensures ReaderChunks(n) == WriterChunks(n) <==> CountSafe(n)
  {
    var j, u := UlpExp(n), Ulp(n);
    Pow2Values();
    PowersOfTwo(22, j);
    if j < 22 {
      PowersOfTwo(21, j);
      assert CHUNK == 2 * Pow2(21);
      assert 2 * (Pow2(21 - j) * u) == 2 * Pow2(21 - j) * u;
      PowersOfTwo(j, 22);
      FineSpacing(n, u, Pow2(21 - j));
    } else {
      PowersOfTwo(j, 22);
      assert 1 * CHUNK <= Pow2(j - 22) * CHUNK;
      CoarseSpacing(n, u, Pow2(j - 22));
    }
  }

  /** Every size up to 2^24 bytes is safe, and the bound is tight. */
  lemma SafeUpTo16MiB(n: nat)
    requires n <= 0x100_0000
    ensures CountSafe(n) && ReaderChunks(n) == WriterChunks(n)
    ensures !CountSafe(0x100_0001) && ReaderChunks(0x100_0001) == 4 && WriterChunks(0x100_0001) == 5
  {
    assert UlpExp(0x80_0000) == 0;
    ChunkCountsAgree(n);
  }

  /** Up to 2^45 bytes the reader can only count too few chunks, and then exactly one. */
  lemma UnsafeCountsOneLess(n: nat)
    requires !CountSafe(n) && Ulp(n) < CHUNK
    ensures ReaderChunks(n) == WriterChunks(n) - 1
  {
    ChunkCountsAgree(n);
  }
}
