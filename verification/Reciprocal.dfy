/** Division and divisibility by a constant, done by one multiplication with a
    rounded-up reciprocal. */
module Reciprocal {
  import opened Bits

  /** 1 + (N - 1) / size, the reciprocal scaled by `N` and rounded up. */
  function Mult(N: nat, size: nat): (d: nat)
    requires N > 0 && size > 0
  {
    CeilSlack(N, size);
    (N - 1) / size + 1
  }

  lemma CeilSlack(N: nat, size: nat)
    requires N > 0 && size > 0
    ensures var d := (N - 1) / size + 1; d >= 1 && N <= d * size < N + size
  {
    var k := (N - 1) / size;
    assert N - 1 == k * size + (N - 1) % size;
    MulSign(k, size);
    assert (k + 1) * size == k * size + size;
  }

  lemma Expand(q: int, z: int, t: int, d: int, N: int, r: int)
    requires d * z == N + r
    ensures (q * z + t) * d == q * N + (q * r + t * d)
    ensures (q * r + t * d) * z == r * (q * z + t) + t * N
  {
    assert q * z * d == q * (d * z) == q * N + q * r;
    assert t * d * z == t * (d * z) == t * N + t * r;
    assert q * r * z == r * (q * z);
  }

  lemma LessByFactor(a: int, b: int, z: nat)
    requires a * z < b * z
    ensures a < b
  {
    MulSign(a - b, z);
    assert a * z == b * z + (a - b) * z;
  }

  lemma MulLess(r: nat, z: nat, o: nat, N: nat)
    requires r < z && o * z <= N && N > 0
    ensures r * o < N
  {
    var k := z - 1 - r;
    MulSign(k, o);
    assert r * o == o * z - o - k * o;
  }

  /** With offset = q * size + t, the scaled product is q * N plus a rest below
      N, and the rest is below the multiplier exactly when t is zero. */
  lemma Slack(N: nat, z: nat, d: nat, r: nat, q: nat, t: nat)
    requires N > 0 && z > 0 && d * z == N + r && r < z && t < z && r * (q * z + t) < N
    ensures (q * z + t) * d == q * N + (q * r + t * d)
    ensures 0 <= q * r + t * d < N
    ensures q * r + t * d < d <==> t == 0
  {
    var o, x := q * z + t, q * r + t * d;
    Expand(q, z, t, d, N, r);
    MulSign(q, z);
    MulSign(z - t, N);
    assert N * z == (z - t) * N + t * N;
    LessByFactor(x, N, z);
    MulSign(q, r);
    MulSign(t, d);
    if t == 0 { LessByFactor(x, d, z); }
  }

  /** How much the rounding adds to the reciprocal, in units of 1 / size. */
  function Excess(N: nat, size: nat): (r: nat)
    requires N > 0 && size > 0
    ensures r < size
  {
    CeilSlack(N, size);
    Mult(N, size) * size - N
  }

  lemma Parts(N: nat, size: nat, offset: nat)
    requires N > 0 && size > 0 && Excess(N, size) * offset < N
    ensures var d, q, t := Mult(N, size), offset / size, offset % size;
      && offset * d / N == q && 0 <= offset * d % N
      && (offset * d % N < d <==> t == 0)
  {
    CeilSlack(N, size);
    var d, q, t, r := Mult(N, size), offset / size, offset % size, Excess(N, size);
    assert offset == q * size + t;
    assert q >= 0 by { MulSign(q, size); }
    Slack(N, size, d, r, q, t);
    DivUnique(offset * d, N, q, q * r + t * d);
  }

  /** The quotient is the high part of the product. */
  lemma QuotientOf(N: nat, size: nat, offset: nat)
    requires N > 0 && size > 0 && Excess(N, size) * offset < N
    ensures offset * Mult(N, size) / N == offset / size
  {
    Parts(N, size, offset);
  }

  /** Divisibility is a comparison of the low part of the product. */
  lemma DividesWhen(N: nat, size: nat, offset: nat)
    requires N > 0 && size > 0 && Excess(N, size) * offset < N
    ensures offset * Mult(N, size) % N < Mult(N, size) <==> offset % size == 0
  {
    Parts(N, size, offset);
  }

  /** Offsets up to N / size meet the condition, and all offsets if the size divides N. */
  lemma ExcessSmall(N: nat, size: nat, offset: nat)
    requires N > 0 && size > 0 && (offset * size <= N || N % size == 0)
    ensures Excess(N, size) * offset < N
  {
    var r := Excess(N, size);
    if N % size == 0 {
      NoExcess(N, size);
      assert r * offset == 0;
    } else {
      MulLess(r, size, offset, N);
    }
  }

  lemma NoExcess(N: nat, size: nat)
    requires N > 0 && size > 0 && N % size == 0
    ensures Excess(N, size) == 0 && Mult(N, size) * size == N
  {
    var k := N / size;
    assert N == k * size;
    assert k >= 1 by { MulSign(k, size); }
    assert N - 1 == (k - 1) * size + (size - 1) by { Spread(k, size); }
    DivUnique(N - 1, size, k - 1, size - 1);
  }

  lemma Spread(k: nat, size: nat)
    requires k > 0
    ensures k * size == (k - 1) * size + size
  {}
}
