/** Little-endian encoding of the integers of the index file. */
module ByteCodec {
  import opened Distance
  import opened Quotients

  function Pow256(k: nat): (p: nat)
    ensures p > 0
  {
    if k == 0 then 1 else 256 * Pow256(k - 1)
  }

  /** The k low bytes of x, least significant first. */
  function Encode(x: nat, k: nat): (s: seq<Byte>)
    ensures |s| == k
  {
    if k == 0 then [] else [x % 256] + Encode(x / 256, k - 1)
  }

  function Decode(s: seq<Byte>): (x: nat)
    ensures x < Pow256(|s|)
  {
    if s == [] then 0 else s[0] + 256 * Decode(s[1..])
  }

  lemma {:induction false} DecodeEncode(x: nat, k: nat)
    requires x < Pow256(k)
    ensures Decode(Encode(x, k)) == x
  {
    if k > 0 {
      DecodeEncode(x / 256, k - 1);
      assert Encode(x, k)[1..] == Encode(x / 256, k - 1);
    }
  }

  lemma Powers()
    ensures Pow256(4) == 0x1_0000_0000 && Pow256(8) == 0x1_0000_0000_0000_0000
  {
    assert Pow256(2) == 65536;
    assert Pow256(4) == 65536 * 65536;
    assert Pow256(6) == 65536 * 65536 * 65536;
    assert Pow256(8) == 256 * (256 * Pow256(6));
  }

  predicate IsInt32(x: int) {
    -0x8000_0000 <= x < 0x8000_0000
  }

  /** The bit pattern of an int32. */
  function Unsigned(x: int): nat
    requires IsInt32(x)
  {
    if x < 0 then x + 0x1_0000_0000 else x
  }

  function Signed(u: nat): int {
    if u < 0x8000_0000 then u else u - 0x1_0000_0000
  }

  function EncodeInt32(x: int): (s: seq<Byte>)
    requires IsInt32(x)
    ensures |s| == 4
  {
    Encode(Unsigned(x), 4)
  }

  function DecodeInt32(s: seq<Byte>): int
    requires |s| == 4
  {
    Signed(Decode(s))
  }

  lemma DecodeEncodeInt32(x: int)
    requires IsInt32(x)
    ensures DecodeInt32(EncodeInt32(x)) == x
  {
    Powers();
    DecodeEncode(Unsigned(x), 4);
  }

  predicate AllInt32(s: seq<int>) {
    forall i :: 0 <= i < |s| ==> IsInt32(s[i])
  }

  /** The bytes behind an int32 slice. */
  function Int32Bytes(s: seq<int>): (b: seq<Byte>)
    requires AllInt32(s)
    ensures |b| == 4 * |s|
  {
    if s == [] then [] else EncodeInt32(s[0]) + Int32Bytes(s[1..])
  }

  /** A byte range seen as an int32 slice. */
  function AsInt32s(b: seq<Byte>): (s: seq<int>)
    requires |b| % 4 == 0
    ensures |s| == |b| / 4
    decreases |b|
  {
    if b == [] then [] else [DecodeInt32(b[..4])] + AsInt32s(b[4..])
  }

  lemma {:induction false} Int32sRoundTrip(s: seq<int>)
    requires AllInt32(s)
    ensures AsInt32s(Int32Bytes(s)) == s
  {
    if s != [] {
      var b := Int32Bytes(s);
      assert b[..4] == EncodeInt32(s[0]) && b[4..] == Int32Bytes(s[1..]);
      DecodeEncodeInt32(s[0]);
      Int32sRoundTrip(s[1..]);
    }
  }

  // ---------- Where each byte is ----------

  /** The k bytes of data from off on are those of x, least significant first. */
  ghost predicate LittleEndian(data: seq<Byte>, off: nat, x: nat, k: nat) {
    off + k <= |data| && forall i :: 0 <= i < k ==> data[off + i] == (x / Pow256(i)) % 256
  }

  /** Byte i of the encoding is the i-th base-256 digit. */
  lemma {:induction false} EncodeByte(x: nat, k: nat, i: nat)
    requires i < k
    ensures Encode(x, k)[i] == (x / Pow256(i)) % 256
    decreases k
  {
    if i > 0 {
      EncodeByte(x / 256, k - 1, i - 1);
      QuotientTwice(x, 256, Pow256(i - 1));
    }
  }

  lemma EncodedIn(data: seq<Byte>, off: nat, x: nat, k: nat)
    requires off + k <= |data| && data[off..off + k] == Encode(x, k)
    ensures LittleEndian(data, off, x, k)
  {
    forall i | 0 <= i < k ensures data[off + i] == (x / Pow256(i)) % 256 {
      EncodeByte(x, k, i);
      assert data[off..off + k][i] == data[off + i];
    }
  }

  /** A negative int32 is stored modulo 2^32. */
  lemma UnsignedIsModulo(x: int)
    requires IsInt32(x)
    ensures Unsigned(x) == x % 0x1_0000_0000
  {
  }

  lemma {:induction false} Int32At(s: seq<int>, i: nat)
    requires AllInt32(s) && i < |s|
    ensures Int32Bytes(s)[4 * i..4 * i + 4] == EncodeInt32(s[i])
    decreases s
  {
    if i > 0 {
      Int32At(s[1..], i - 1);
    }
  }
}
