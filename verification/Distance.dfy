/** Quantised vectors and their squared distance (internal/hnsw/dist.go). */
module Distance {

  type Byte = x: int | 0 <= x < 256

  /** VectorDim in internal/config/constants.go. */
  const DIM: nat := 14

  /** int32 arithmetic wraps modulo 2^32. */
  function Wrap32(x: int): (r: int)
    ensures -0x8000_0000 <= r < 0x8000_0000
    ensures -0x8000_0000 <= x < 0x8000_0000 ==> r == x
  {
    (x + 0x8000_0000) % 0x1_0000_0000 - 0x8000_0000
  }

  function Sq(d: int): (r: int)
    ensures r >= 0
  {
    d * d
  }

  lemma SmallSquare(d: int)
    requires -255 <= d <= 255
    ensures Sq(d) <= 65025
  {
    assert (255 - d) * (255 + d) >= 0;
  }

  /** Sum of the squared differences over the first k dimensions. */
  function SumSq(q: seq<int>, v: seq<int>, k: nat): int
    requires k <= |q| && k <= |v|
  {
    if k == 0 then 0 else SumSq(q, v, k - 1) + Sq(q[k - 1] - v[k - 1])
  }

  /** Squared distance of a query to a stored vector, in int32. */
  function Dist(q: seq<int>, v: seq<Byte>): int
    requires |q| == |v| == DIM
  {
    Wrap32(SumSq(q, v, |q|))
  }

  /** The unrolled form in which the source computes it. */
  function DistUnrolled(q: seq<int>, v: seq<int>): int
    requires |q| == |v| == DIM
  {
    var d0, d1, d2, d3, d4 := q[0] - v[0], q[1] - v[1], q[2] - v[2], q[3] - v[3], q[4] - v[4];
    var d5, d6, d7, d8, d9 := q[5] - v[5], q[6] - v[6], q[7] - v[7], q[8] - v[8], q[9] - v[9];
    var d10, d11, d12, d13 := q[10] - v[10], q[11] - v[11], q[12] - v[12], q[13] - v[13];
    Wrap32(Sq(d0) + Sq(d1) + Sq(d2) + Sq(d3) + Sq(d4) + Sq(d5) + Sq(d6)
           + Sq(d7) + Sq(d8) + Sq(d9) + Sq(d10) + Sq(d11) + Sq(d12) + Sq(d13))
  }

  lemma UnrolledIsSum(q: seq<int>, v: seq<Byte>)
    requires |q| == |v| == DIM
    ensures DistUnrolled(q, v) == Dist(q, v)
  {
    assert SumSq(q, v, 4) == Sq(q[0] - v[0]) + Sq(q[1] - v[1]) + Sq(q[2] - v[2]) + Sq(q[3] - v[3]) by {
      assert SumSq(q, v, 1) == Sq(q[0] - v[0]) && SumSq(q, v, 2) == SumSq(q, v, 1) + Sq(q[1] - v[1]);
    }
    assert SumSq(q, v, 6) == SumSq(q, v, 4) + Sq(q[4] - v[4]) + Sq(q[5] - v[5]);
    assert SumSq(q, v, 8) == SumSq(q, v, 6) + Sq(q[6] - v[6]) + Sq(q[7] - v[7]);
    assert SumSq(q, v, 10) == SumSq(q, v, 8) + Sq(q[8] - v[8]) + Sq(q[9] - v[9]);
    assert SumSq(q, v, 12) == SumSq(q, v, 10) + Sq(q[10] - v[10]) + Sq(q[11] - v[11]);
    assert SumSq(q, v, 14) == SumSq(q, v, 12) + Sq(q[12] - v[12]) + Sq(q[13] - v[13]);
  }

  /** The bytes of a vector in wider slots. */
  function AsInts(v: seq<Byte>): (q: seq<int>)
    ensures |q| == |v| && forall i :: 0 <= i < |v| ==> q[i] == v[i]
  {
    seq(|v|, i requires 0 <= i < |v| => v[i])
  }

  // ---------- Distances of byte vectors ----------

  lemma {:induction false} SumOfBytes(q: seq<Byte>, v: seq<Byte>, k: nat)
    requires k <= |q| == |v|
    ensures 0 <= SumSq(AsInts(q), v, k) <= 65025 * k
  {
    if k > 0 {
      SumOfBytes(q, v, k - 1);
      SmallSquare(AsInts(q)[k - 1] - v[k - 1]);
    }
  }

  /** Between byte vectors the int32 distance never wraps and stays below 910351. */
  lemma DistanceBound(q: seq<Byte>, v: seq<Byte>)
    requires |q| == |v| == DIM
    ensures Dist(AsInts(q), v) == SumSq(AsInts(q), v, DIM) && 0 <= Dist(AsInts(q), v) <= 910350
  {
    SumOfBytes(q, v, DIM);
  }

  lemma SquareIsZero(d: int)
    ensures Sq(d) == 0 <==> d == 0
  {
  }

  lemma {:induction false} SumIsZero(q: seq<Byte>, v: seq<Byte>, k: nat)
    requires k <= |q| == |v|
    ensures SumSq(AsInts(q), v, k) == 0 <==> forall i :: 0 <= i < k ==> q[i] == v[i]
  {
    if k > 0 {
      SumIsZero(q, v, k - 1);
      SumOfBytes(q, v, k - 1);
      SquareIsZero(AsInts(q)[k - 1] - v[k - 1]);
    }
  }

  /** Only equal vectors are at distance 0. */
  lemma ZeroDistance(q: seq<Byte>, v: seq<Byte>)
    requires |q| == |v| == DIM
    ensures Dist(AsInts(q), v) == 0 <==> q == v
  {
    DistanceBound(q, v);
    SumIsZero(q, v, DIM);
  }
}
