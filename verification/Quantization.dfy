/** Scaling of real vectors to bytes (internal/hnsw/quantize.go), and how far squared
    distances of scaled vectors move by it.  Arithmetic is exact. */
module Quantization {
  import opened Distance

  function QStd(x: real): Byte {
    if x <= 0.0 then 0
    else if x >= 1.0 then 255
    else
      assert 0.5 < x * 255.0 + 0.5 < 255.5;
      (x * 255.0 + 0.5).Floor
  }

  function QSentinel(x: real): Byte {
    if x <= -1.0 then 0
    else if x >= 1.0 then 255
    else
      assert 0.5 < (x + 1.0) * 127.5 + 0.5 < 255.5;
      ((x + 1.0) * 127.5 + 0.5).Floor
  }

  /** Dimensions 5 and 6 may hold -1 for a missing last transaction. */
  predicate MayBeMissing(i: nat) {
    i == 5 || i == 6
  }

  function Quantize(i: nat, x: real): Byte {
    if MayBeMissing(i) then QSentinel(x) else QStd(x)
  }

  function Quantized(v: seq<real>): (r: seq<Byte>)
    ensures |r| == |v| && forall i :: 0 <= i < |v| ==> r[i] == Quantize(i, v[i])
  {
    seq(|v|, i requires 0 <= i < |v| => Quantize(i, v[i]))
  }

  method QuantizeVector(v: seq<real>, out: array<Byte>)
    requires |v| == out.Length == DIM
    modifies out
    ensures out[..] == Quantized(v)
  {
    out[0] := QStd(v[0]);
    out[1] := QStd(v[1]);
    out[2] := QStd(v[2]);
    out[3] := QStd(v[3]);
    out[4] := QStd(v[4]);
    out[5] := QSentinel(v[5]);
    out[6] := QSentinel(v[6]);
    out[7] := QStd(v[7]);
    out[8] := QStd(v[8]);
    out[9] := QStd(v[9]);
    out[10] := QStd(v[10]);
    out[11] := QStd(v[11]);
    out[12] := QStd(v[12]);
    out[13] := QStd(v[13]);
  }

  /** The same bytes in wider slots. */
  method QuantizeQuery(v: seq<real>, out: array<int>)
    requires |v| == out.Length == DIM
    modifies out
    ensures out[..] == AsInts(Quantized(v))
  {
    out[0] := QStd(v[0]);
    out[1] := QStd(v[1]);
    out[2] := QStd(v[2]);
    out[3] := QStd(v[3]);
    out[4] := QStd(v[4]);
    out[5] := QSentinel(v[5]);
    out[6] := QSentinel(v[6]);
    out[7] := QStd(v[7]);
    out[8] := QStd(v[8]);
    out[9] := QStd(v[9]);
    out[10] := QStd(v[10]);
    out[11] := QStd(v[11]);
    out[12] := QStd(v[12]);
    out[13] := QStd(v[13]);
  }

  // ---------- Quantisation error ----------

  /** What the reference vectors hold. */
  predicate InRange(v: seq<real>) {
    && |v| == DIM
    && forall i :: 0 <= i < DIM ==> 0.0 <= v[i] <= 1.0 || (MayBeMissing(i) && v[i] == -1.0)
  }

  /** The unrounded value. */
  function Scaled(i: nat, x: real): real {
    if MayBeMissing(i) then (x + 1.0) * 127.5 else x * 255.0
  }

  /** Scaled values are rounded half up; what is out of range is clamped. */
  lemma RoundsHalfUp(i: nat, x: real)
    ensures x > 1.0 ==> Quantize(i, x) == 255
    ensures x < (if MayBeMissing(i) then -1.0 else 0.0) ==> Quantize(i, x) == 0
    ensures (if MayBeMissing(i) then -1.0 else 0.0) <= x <= 1.0 ==>
              Scaled(i, x) - 0.5 < Quantize(i, x) as real <= Scaled(i, x) + 0.5
  {
  }

  lemma RoundingError(i: nat, x: real)
    requires 0.0 <= x <= 1.0 || (MayBeMissing(i) && x == -1.0)
    ensures 0.0 <= Scaled(i, x) <= 255.0
    ensures -0.5 <= Quantize(i, x) as real - Scaled(i, x) <= 0.5
  {
  }

  function SqReal(d: real): real {
    d * d
  }

  /** Squared distance of the scaled vectors over the first k dimensions. */
  function ScaledSum(q: seq<real>, v: seq<real>, k: nat): real
    requires k <= |q| && k <= |v|
  {
    if k == 0 then 0.0 else ScaledSum(q, v, k - 1) + SqReal(Scaled(k - 1, q[k - 1]) - Scaled(k - 1, v[k - 1]))
  }

  function ScaledDistance(q: seq<real>, v: seq<real>): real
    requires |q| == |v|
  {
    ScaledSum(q, v, |q|)
  }

  lemma NonNegative(x: real, y: real)
    requires x >= 0.0 && y >= 0.0
    ensures x * y >= 0.0
  {
  }

  lemma SquaresClose(a: real, b: real)
    requires -255.0 <= a <= 255.0 && -255.0 <= b <= 255.0 && -1.0 <= a - b <= 1.0
    ensures -510.0 <= SqReal(a) - SqReal(b) <= 510.0
  {
    var s, e := a + b, a - b;
    NonNegative(510.0 - s, 1.0 + e);
    NonNegative(510.0 + s, 1.0 - e);
    NonNegative(510.0 - s, 1.0 - e);
    NonNegative(510.0 + s, 1.0 + e);
    Halves(s, e);
    Factored(a, b);
  }

  lemma Halves(s: real, e: real)
    requires (510.0 - s) * (1.0 + e) >= 0.0 && (510.0 + s) * (1.0 - e) >= 0.0
    requires (510.0 - s) * (1.0 - e) >= 0.0 && (510.0 + s) * (1.0 + e) >= 0.0
    ensures -510.0 <= s * e <= 510.0
  {
  }

  lemma Factored(a: real, b: real)
    ensures SqReal(a) - SqReal(b) == (a + b) * (a - b)
  {
  }

  lemma OneDimension(i: nat, x: real, y: real)
    requires 0.0 <= x <= 1.0 || (MayBeMissing(i) && x == -1.0)
    requires 0.0 <= y <= 1.0 || (MayBeMissing(i) && y == -1.0)
    ensures var d := Quantize(i, x) as int - Quantize(i, y) as int;
            -510.0 <= Sq(d) as real - SqReal(Scaled(i, x) - Scaled(i, y)) <= 510.0
  {
    RoundingError(i, x);
    RoundingError(i, y);
    hide Quantize, Scaled;
    var d := Quantize(i, x) as int - Quantize(i, y) as int;
    SquaresClose(d as real, Scaled(i, x) - Scaled(i, y));
    SquareAsReal(d);
  }

  lemma SquareAsReal(d: int)
    ensures Sq(d) as real == SqReal(d as real)
  {
  }

  lemma {:induction false} SumsClose(q: seq<real>, v: seq<real>, k: nat)
    requires InRange(q) && InRange(v) && k <= DIM
    ensures var s := SumSq(AsInts(Quantized(q)), Quantized(v), k) as real;
            -510.0 * k as real <= s - ScaledSum(q, v, k) <= 510.0 * k as real
  {
    hide Quantize, Scaled, Sq, SqReal, MayBeMissing;
    if k > 0 {
      SumsClose(q, v, k - 1);
      OneDimension(k - 1, q[k - 1], v[k - 1]);
    }
  }

  /** Quantising moves the squared distance, scaled to bytes, by at most 14 * 510. */
  lemma DistanceError(q: seq<real>, v: seq<real>)
    requires InRange(q) && InRange(v)
    ensures var d := Dist(AsInts(Quantized(q)), Quantized(v)) as real;
            -7140.0 <= d - ScaledDistance(q, v) <= 7140.0
  {
    SumsClose(q, v, DIM);
    DistanceBound(Quantized(q), Quantized(v));
  }

  /** So references whose scaled distances differ by more than twice that keep their order. */
  lemma OrderPreserved(q: seq<real>, a: seq<real>, b: seq<real>)
    requires InRange(q) && InRange(a) && InRange(b)
    requires ScaledDistance(q, a) + 14280.0 < ScaledDistance(q, b)
    ensures Dist(AsInts(Quantized(q)), Quantized(a)) < Dist(AsInts(Quantized(q)), Quantized(b))
  {
    DistanceError(q, a);
    DistanceError(q, b);
  }

  /** A missing value maps to 0 and a present one to 128 or more. */
  lemma SentinelGap(x: real)
    requires 0.0 <= x <= 1.0 || x == -1.0
    ensures QSentinel(x) == 0 <==> x == -1.0
    ensures QSentinel(x) >= 128 <==> x != -1.0
  {
  }

  lemma {:induction false} SumCovers(q: seq<int>, v: seq<Byte>, k: nat, j: nat)
    requires j <= k <= |q| == |v|
    ensures SumSq(q, v, j) <= SumSq(q, v, k)
    decreases k
  {
    if j < k {
      SumCovers(q, v, k - 1, j);
    }
  }

  /** A vector with a last transaction and one without are at least 2 * 128^2 apart. */
  lemma MissingIsFar(q: seq<real>, v: seq<real>)
    requires InRange(q) && InRange(v) && q[5] == q[6] == -1.0 && v[5] != -1.0 && v[6] != -1.0
    ensures Dist(AsInts(Quantized(q)), Quantized(v)) >= 2 * 128 * 128
    ensures Dist(AsInts(Quantized(v)), Quantized(q)) >= 2 * 128 * 128
  {
    MismatchIsFar(Quantized(q), Quantized(v));
    MismatchIsFar(Quantized(v), Quantized(q));
  }

  lemma MismatchIsFar(q: seq<Byte>, v: seq<Byte>)
    requires |q| == |v| == DIM
    requires (q[5] == q[6] == 0 && v[5] >= 128 && v[6] >= 128) || (v[5] == v[6] == 0 && q[5] >= 128 && q[6] >= 128)
    ensures Dist(AsInts(q), v) >= 2 * 128 * 128
  {
    DistanceBound(q, v);
    var w := AsInts(q);
    SumCovers(w, v, DIM, 7);
    SumCovers(w, v, 5, 0);
    FarSquare(w[5] - v[5]);
    FarSquare(w[6] - v[6]);
    assert SumSq(w, v, 6) == SumSq(w, v, 5) + Sq(w[5] - v[5]);
    assert SumSq(w, v, 7) == SumSq(w, v, 6) + Sq(w[6] - v[6]);
  }

  lemma FarSquare(d: int)
    requires d >= 128 || d <= -128
    ensures Sq(d) >= 128 * 128
  {
    assert (d - 128) * (d + 128) >= 0;
  }
}
