/** The index file (internal/hnsw/persist.go): a 256-byte header area, then eight sections
    aligned to 16 bytes, in a fixed order. */
module Persistence {
  import opened Distance
  import opened GraphIndex
  import opened ByteCodec

  const HEADER_SIZE: nat := 256
  const ALIGNMENT: nat := 16
  const VERSION: nat := 1
  const U32: nat := 0x1_0000_0000
  const U64: nat := 0x1_0000_0000_0000_0000

  /** "RINHA26" and a zero byte. */
  const MAGIC: seq<Byte> := [82, 73, 78, 72, 65, 50, 54, 0]

  /** Where a section lies in the file. */
  datatype Span = Span(off: nat, len: nat)

  datatype Header = Header(magic: seq<Byte>, version: nat, n: nat, m: nat, m0: nat, entryPoint: nat, maxLayer: int,
                           spans: seq<Span>)

  // ---------- Header encoding ----------

  function SpanBytes(spans: seq<Span>): (b: seq<Byte>)
    ensures |b| == 16 * |spans|
  {
    if spans == [] then [] else Encode(spans[0].off, 8) + Encode(spans[0].len, 8) + SpanBytes(spans[1..])
  }

  function ParseSpans(b: seq<Byte>): (spans: seq<Span>)
    requires |b| % 16 == 0
    ensures 16 * |spans| == |b|
    decreases |b|
  {
    if b == [] then [] else [Span(Decode(b[..8]), Decode(b[8..16]))] + ParseSpans(b[16..])
  }

  /** The 160 bytes of the header structure: eight 4-byte fields' worth of scalars and
      magic, then eight offset and length pairs. */
  function HeaderBytes(h: Header): (b: seq<Byte>)
    requires |h.magic| == 8 && IsInt32(h.maxLayer) && |h.spans| == 8
    ensures |b| == 160
  {
    h.magic + Encode(h.version, 4) + Encode(h.n, 4) + Encode(h.m, 4) + Encode(h.m0, 4) + Encode(h.entryPoint, 4)
    + EncodeInt32(h.maxLayer) + SpanBytes(h.spans)
  }

  function ParseHeader(b: seq<Byte>): (h: Header)
    requires |b| == 160
    ensures |h.magic| == 8 && |h.spans| == 8
  {
    Header(b[..8], Decode(b[8..12]), Decode(b[12..16]), Decode(b[16..20]), Decode(b[20..24]), Decode(b[24..28]),
           DecodeInt32(b[28..32]), ParseSpans(b[32..160]))
  }

  ghost predicate HeaderOk(h: Header) {
    && |h.magic| == 8 && h.version < U32 && h.n < U32 && h.m < U32 && h.m0 < U32 && h.entryPoint < U32
    && IsInt32(h.maxLayer) && |h.spans| == 8
    && forall i :: 0 <= i < 8 ==> h.spans[i].off < U64 && h.spans[i].len < U64
  }

  lemma {:induction false} SpansRoundTrip(spans: seq<Span>)
    requires forall i :: 0 <= i < |spans| ==> spans[i].off < U64 && spans[i].len < U64
    ensures ParseSpans(SpanBytes(spans)) == spans
  {
    if spans != [] {
      var b := SpanBytes(spans);
      assert b[..8] == Encode(spans[0].off, 8) && b[8..16] == Encode(spans[0].len, 8);
      assert b[16..] == SpanBytes(spans[1..]);
      Powers();
      DecodeEncode(spans[0].off, 8);
      DecodeEncode(spans[0].len, 8);
      SpansRoundTrip(spans[1..]);
    }
  }

  /** Reading back the header structure. */
  lemma HeaderRoundTrip(h: Header)
    requires HeaderOk(h)
    ensures ParseHeader(HeaderBytes(h)) == h
  {
    var b := HeaderBytes(h);
    assert b[..8] == h.magic;
    assert b[8..12] == Encode(h.version, 4);
    assert b[12..16] == Encode(h.n, 4);
    assert b[16..20] == Encode(h.m, 4);
    assert b[20..24] == Encode(h.m0, 4);
    assert b[24..28] == Encode(h.entryPoint, 4);
    assert b[28..32] == EncodeInt32(h.maxLayer);
    assert b[32..160] == SpanBytes(h.spans);
    Powers();
    DecodeEncode(h.version, 4);
    DecodeEncode(h.n, 4);
    DecodeEncode(h.m, 4);
    DecodeEncode(h.m0, 4);
    DecodeEncode(h.entryPoint, 4);
    DecodeEncodeInt32(h.maxLayer);
    SpansRoundTrip(h.spans);
  }

  // ---------- Layout ----------

  function Align(pos: nat): (p: nat)
    ensures pos <= p < pos + ALIGNMENT && p % ALIGNMENT == 0
  {
    if pos % ALIGNMENT == 0 then pos else pos + (ALIGNMENT - pos % ALIGNMENT)
  }

  /** The position after the first k sections have been written. */
  ghost function EndOf(sections: seq<seq<Byte>>, k: nat): (p: nat)
    requires k <= |sections|
    ensures p >= HEADER_SIZE
  {
    if k == 0 then HEADER_SIZE else Align(EndOf(sections, k - 1)) + |sections[k - 1]|
  }

  /** Where section k starts. */
  ghost function StartOf(sections: seq<seq<Byte>>, k: nat): (p: nat)
    requires k < |sections|
    ensures p >= EndOf(sections, k)
  {
    Align(EndOf(sections, k))
  }

  /** The file after the first k sections have been written, its header area still zero. */
  ghost function Body(sections: seq<seq<Byte>>, k: nat): (b: seq<Byte>)
    requires k <= |sections|
    ensures |b| == EndOf(sections, k)
  {
    if k == 0 then Zeros(HEADER_SIZE)
    else
      var before := Body(sections, k - 1);
      before + Zeros(StartOf(sections, k - 1) - |before|) + sections[k - 1]
  }

  lemma {:induction false} EndsGrow(sections: seq<seq<Byte>>, j: nat, k: nat)
    requires j <= k <= |sections|
    ensures EndOf(sections, j) <= EndOf(sections, k)
    decreases k
  {
    hide Align;
    if j < k {
      EndsGrow(sections, j, k - 1);
    }
  }

  /** Sections are in order and apart, after the header, each starting on a multiple of
      16; the last one ends where the file ends. */
  lemma SectionsApart(sections: seq<seq<Byte>>, j: nat, k: nat)
    requires j < k <= |sections|
    ensures HEADER_SIZE <= StartOf(sections, j) && StartOf(sections, j) % ALIGNMENT == 0
    ensures StartOf(sections, j) + |sections[j]| <= EndOf(sections, k)
    ensures k < |sections| ==> StartOf(sections, j) + |sections[j]| <= StartOf(sections, k)
  {
    hide Align;
    EndsGrow(sections, j + 1, k);
  }

  lemma SliceOfLast<T>(a: seq<T>, b: seq<T>, c: seq<T>)
    ensures (a + b + c)[|a| + |b|..|a| + |b| + |c|] == c
  {
  }

  /** A section's bytes are found at its place in the file, however many follow. */
  lemma {:induction false} SectionInPlace(sections: seq<seq<Byte>>, j: nat, k: nat)
    requires j < k <= |sections|
    ensures StartOf(sections, j) + |sections[j]| <= |Body(sections, k)|
    ensures Body(sections, k)[StartOf(sections, j)..StartOf(sections, j) + |sections[j]|] == sections[j]
    decreases k
  {
    hide Align, StartOf, EndOf, Zeros;
    SectionsApart(sections, j, k);
    var a := Body(sections, k - 1);
    var pad := Zeros(StartOf(sections, k - 1) - |a|);
    if j < k - 1 {
      SectionInPlace(sections, j, k - 1);
      assert Body(sections, k) == a + (pad + sections[k - 1]);
      SliceOfPrefix(a, pad + sections[k - 1], StartOf(sections, j), StartOf(sections, j) + |sections[j]|);
    } else {
      SliceOfLast(a, pad, sections[j]);
    }
  }

  // ---------- The file ----------

  predicate Int32Sections(ix: Index) {
    AllInt32(ix.conn0) && AllInt32(ix.upperOff) && AllInt32(ix.upperNodes) && AllInt32(ix.upperConn)
  }

  /** The eight sections in file order. */
  function Sections(ix: Index): (s: seq<seq<Byte>>)
    requires Int32Sections(ix)
    ensures |s| == 8
  {
    [ix.vectors, ix.conn0Cnt, Int32Bytes(ix.conn0), ix.labels,
     Int32Bytes(ix.upperOff), Int32Bytes(ix.upperNodes), ix.upperCnt, Int32Bytes(ix.upperConn)]
  }

  /** Every field has a value of its Go type, and file positions do not overflow. */
  ghost predicate Fits(ix: Index) {
    && Int32Sections(ix) && ix.n < U32 && ix.entryPoint < U32 && IsInt32(ix.maxLayer)
    && EndOf(Sections(ix), 8) < 0x8000_0000_0000_0000
  }

  ghost function Spans(sections: seq<seq<Byte>>, k: nat): (s: seq<Span>)
    requires k <= |sections|
    ensures |s| == k && forall i :: 0 <= i < k ==> s[i] == Span(StartOf(sections, i), |sections[i]|)
  {
    seq(k, i requires 0 <= i < k => Span(StartOf(sections, i), |sections[i]|))
  }

  ghost function HeaderOf(ix: Index): (h: Header)
    requires Int32Sections(ix) && IsInt32(ix.maxLayer)
    ensures |h.magic| == 8 && |h.spans| == 8
  {
    Header(MAGIC, VERSION, ix.n, ix.m % U32, ix.m0 % U32, ix.entryPoint, ix.maxLayer, Spans(Sections(ix), 8))
  }

  /** The finished file. */
  ghost function Image(ix: Index): (b: seq<Byte>)
    requires Int32Sections(ix) && IsInt32(ix.maxLayer)
    ensures |b| == EndOf(Sections(ix), 8)
  {
    HeaderBytes(HeaderOf(ix)) + Body(Sections(ix), 8)[160..]
  }

  // ---------- Saving ----------

  function Overlay(data: seq<Byte>, pos: nat, buf: seq<Byte>): seq<Byte>
    requires pos <= |data|
  {
    data[..pos] + buf + (if pos + |buf| <= |data| then data[pos + |buf|..] else [])
  }

  class File {
    var data: seq<Byte>
    var pos: nat

    predicate Valid()
      reads this
    {
      pos <= |data|
    }

    constructor ()
      ensures Valid() && data == [] && pos == 0
    {
      data, pos := [], 0;
    }

    method Write(buf: seq<Byte>)
      requires Valid()
      modifies this
      ensures Valid() && pos == old(pos) + |buf|
      ensures data == Overlay(old(data), old(pos), buf)
    {
      data, pos := Overlay(data, pos, buf), pos + |buf|;
    }

    method SeekStart()
      requires Valid()
      modifies this`pos
      ensures Valid() && pos == 0
    {
      pos := 0;
    }

    ghost predicate Written(sections: seq<seq<Byte>>, k: nat)
      requires k <= |sections|
      reads this
    {
      data == Body(sections, k) && pos == |data|
    }
  }

  /** Pads to the next multiple of 16 and writes one section. */
  method WriteSection(f: File, pos: nat, buf: seq<Byte>, ghost sections: seq<seq<Byte>>, ghost k: nat)
      returns (span: Span, pos': nat)
    requires k < |sections| && f.Written(sections, k) && pos == f.pos && buf == sections[k]
    modifies f
    ensures f.Written(sections, k + 1) && pos' == f.pos
    ensures span == Span(StartOf(sections, k), |sections[k]|)
  {
    pos' := pos;
    var pad := pos % ALIGNMENT;
    if pad != 0 {
      var padBuf := Zeros(ALIGNMENT - pad);
      f.Write(padBuf);
      pos' := pos' + |padBuf|;
    }
    assert f.data == Body(sections, k) + Zeros(StartOf(sections, k) - |Body(sections, k)|);
    span := Span(pos', |buf|);
    f.Write(buf);
    pos' := pos' + |buf|;
  }

  /** Goes back to the start of the file and writes the header structure over its first
      160 bytes. */
  method WriteHeader(f: File, h: Header)
    requires f.Valid() && |f.data| >= HEADER_SIZE && |h.magic| == 8 && IsInt32(h.maxLayer) && |h.spans| == 8
    modifies f
    ensures f.data == HeaderBytes(h) + old(f.data)[160..]
  {
    hide HeaderBytes;
    f.SeekStart();
    f.Write(HeaderBytes(h));
  }

  lemma NothingWritten(sections: seq<seq<Byte>>)
    ensures Body(sections, 0) == Zeros(HEADER_SIZE)
  {
  }

  /** Writes the graph to a new file. */
  method Save(g: Graph) returns (f: File, written: nat)
    requires Fits(g.View())
    ensures fresh(f) && f.data == Image(g.View()) && written == |f.data|
  {
    hide Align, StartOf, EndOf, HeaderBytes, Int32Bytes;
    ghost var ix := g.View();
    ghost var S := Sections(ix);
    f := new File();
    f.Write(Zeros(HEADER_SIZE));
    var pos := HEADER_SIZE;
    var vectors, conn0Cnt, conn0, labels, upperOff, upperNodes, upperCnt, upperConn;
    NothingWritten(S);
    assert f.data == Zeros(HEADER_SIZE);
    hide Body, Zeros, Overlay;
    vectors, pos := WriteSection(f, pos, g.vectors, S, 0);
    conn0Cnt, pos := WriteSection(f, pos, g.conn0Cnt, S, 1);
    conn0, pos := WriteSection(f, pos, Int32Bytes(g.conn0), S, 2);
    labels, pos := WriteSection(f, pos, g.labels, S, 3);
    upperOff, pos := WriteSection(f, pos, Int32Bytes(g.upperOff), S, 4);
    upperNodes, pos := WriteSection(f, pos, Int32Bytes(g.upperNodes), S, 5);
    upperCnt, pos := WriteSection(f, pos, g.upperCnt, S, 6);
    upperConn, pos := WriteSection(f, pos, Int32Bytes(g.upperConn), S, 7);
    var h := Header(MAGIC, VERSION, g.n, g.m % U32, g.m0 % U32, g.entryPoint, g.maxLayer,
                    [vectors, conn0Cnt, conn0, labels, upperOff, upperNodes, upperCnt, upperConn]);
    assert h.spans == Spans(S, 8);
    WriteHeader(f, h);
    return f, pos;
  }

  // ---------- Loading ----------

  datatype Problem = TooSmall | BadMagic | BadVersion | OutOfBounds | BadLength | Misaligned | SizeMismatch
                   | Panics

  datatype Result<T> = Got(value: T) | Refused(why: Problem) {
    predicate IsFailure() {
      Refused?
    }

    function PropagateFailure<U>(): Result<U>
      requires IsFailure()
    {
      Refused(why)
    }

    function Extract(): T
      requires Got?
    {
      value
    }
  }

  /** View of a byte section; offset plus length wraps at 64 bits, and a slice expression
      whose end is before its start panics. */
  function BindBytes(data: seq<Byte>, s: Span): Result<seq<Byte>> {
    var end := (s.off + s.len) % U64;
    if end > |data| then Refused(OutOfBounds)
    else if s.off > end then Refused(Panics)
    else Got(data[s.off..end])
  }

  function BindInt32(data: seq<Byte>, s: Span): Result<seq<int>> {
    var end := (s.off + s.len) % U64;
    if end > |data| then Refused(OutOfBounds)
    else if s.len % 4 != 0 then Refused(BadLength)
    else if s.len == 0 then Got([])
    else if s.off % 4 != 0 then Refused(Misaligned)
    else if s.off > end || end - s.off != s.len then Refused(Panics)
    else Got(AsInt32s(data[s.off..end]))
  }

  /** Go's int from a product of two uint32 values. */
  function Wrap64(x: nat): int {
    if x % U64 < 0x8000_0000_0000_0000 then x % U64 else x % U64 - U64
  }

  lemma NoWrap(x: nat)
    requires x < 0x8000_0000_0000_0000
    ensures Wrap64(x) == x
  {
  }

  predicate SizesAgree(ix: Index) {
    && |ix.vectors| == ix.n * DIM && |ix.conn0| == Wrap64(ix.n * ix.m0) && |ix.conn0Cnt| == ix.n
    && |ix.labels| == (ix.n + 7) % U32 / 8
  }

  /** The graph a header describes, its buffers bound section by section. */
  function Bind(data: seq<Byte>, h: Header): Result<Index>
    requires |h.spans| == 8
  {
    var vectors :- BindBytes(data, h.spans[0]);
    var conn0Cnt :- BindBytes(data, h.spans[1]);
    var conn0 :- BindInt32(data, h.spans[2]);
    var labels :- BindBytes(data, h.spans[3]);
    var upperOff :- BindInt32(data, h.spans[4]);
    var upperNodes :- BindInt32(data, h.spans[5]);
    var upperCnt :- BindBytes(data, h.spans[6]);
    var upperConn :- BindInt32(data, h.spans[7]);
    Got(Index(h.n, h.m, h.m0, vectors, conn0, conn0Cnt, labels, upperOff, upperNodes, upperCnt, upperConn,
              h.entryPoint, h.maxLayer))
  }

  /** What loading a file yields. */
  function Parse(data: seq<Byte>): Result<Index> {
    if |data| < HEADER_SIZE then Refused(TooSmall) else
      var h := ParseHeader(data[..160]);
      if h.magic[..7] != MAGIC[..7] then Refused(BadMagic)
      else if h.version != VERSION then Refused(BadVersion)
      else
        var ix :- Bind(data, h);
        if SizesAgree(ix) then Got(ix) else Refused(SizeMismatch)
  }

  lemma BindSaved(data: seq<Byte>, s: Span, section: seq<Byte>)
    requires s.off + s.len <= |data| < U64 && data[s.off..s.off + s.len] == section
    ensures BindBytes(data, s) == Got(section)
    ensures s.off % 4 == 0 && |section| % 4 == 0 ==> BindInt32(data, s) == Got(AsInt32s(section))
  {
    hide AsInt32s;
    assert (s.off + s.len) % U64 == s.off + s.len;
  }

  /** The header is written over the first 160 bytes only, so every section is still in
      place in the finished file, on a multiple of 16 from byte 256 on. */
  lemma SectionInImage(ix: Index, j: nat)
    requires Fits(ix) && j < 8
    ensures HEADER_SIZE <= StartOf(Sections(ix), j) && StartOf(Sections(ix), j) % ALIGNMENT == 0
    ensures StartOf(Sections(ix), j) + |Sections(ix)[j]| <= |Image(ix)|
    ensures Image(ix)[StartOf(Sections(ix), j)..StartOf(Sections(ix), j) + |Sections(ix)[j]|] == Sections(ix)[j]
  {
    hide Align, StartOf, EndOf, Body, HeaderBytes, Sections;
    var S := Sections(ix);
    SectionsApart(S, j, 8);
    SectionInPlace(S, j, 8);
    AfterHeader(HeaderBytes(HeaderOf(ix)), Body(S, 8), StartOf(S, j), StartOf(S, j) + |S[j]|);
  }

  lemma AfterHeader(h: seq<Byte>, b: seq<Byte>, x: nat, y: nat)
    requires |h| == 160 <= x <= y <= |b|
    ensures (h + b[160..])[x..y] == b[x..y]
  {
  }

  /** The scalars of the header at their places. */
  lemma ScalarsAt(h: Header, data: seq<Byte>)
    requires |h.magic| == 8 && IsInt32(h.maxLayer) && |h.spans| == 8 && HeaderBytes(h) <= data
    ensures data[..8] == h.magic && LittleEndian(data, 8, h.version, 4)
    ensures LittleEndian(data, 12, h.n, 4) && LittleEndian(data, 16, h.m, 4) && LittleEndian(data, 20, h.m0, 4)
    ensures LittleEndian(data, 24, h.entryPoint, 4) && LittleEndian(data, 28, h.maxLayer % 0x1_0000_0000, 4)
  {
    var b := HeaderBytes(h);
    assert data[..8] == b[..8] == h.magic;
    assert forall x, y :: 0 <= x <= y <= 160 ==> data[x..y] == b[x..y];
    assert b[8..12] == Encode(h.version, 4) && b[12..16] == Encode(h.n, 4) && b[16..20] == Encode(h.m, 4);
    assert b[20..24] == Encode(h.m0, 4) && b[24..28] == Encode(h.entryPoint, 4) && b[28..32] == EncodeInt32(h.maxLayer);
    hide *;
    EncodedIn(data, 8, h.version, 4);
    EncodedIn(data, 12, h.n, 4);
    EncodedIn(data, 16, h.m, 4);
    EncodedIn(data, 20, h.m0, 4);
    EncodedIn(data, 24, h.entryPoint, 4);
    Int32In(data, 28, h.maxLayer);
  }

  lemma Int32In(data: seq<Byte>, off: nat, x: int)
    requires IsInt32(x) && off + 4 <= |data| && data[off..off + 4] == EncodeInt32(x)
    ensures LittleEndian(data, off, x % 0x1_0000_0000, 4)
  {
    UnsignedIsModulo(x);
    EncodedIn(data, off, Unsigned(x), 4);
  }

  lemma {:induction false} SpanAt(spans: seq<Span>, j: nat)
    requires j < |spans|
    ensures SpanBytes(spans)[16 * j..16 * j + 8] == Encode(spans[j].off, 8)
    ensures SpanBytes(spans)[16 * j + 8..16 * j + 16] == Encode(spans[j].len, 8)
    decreases spans
  {
    var head, tail := Encode(spans[0].off, 8) + Encode(spans[0].len, 8), SpanBytes(spans[1..]);
    assert SpanBytes(spans) == head + tail;
    if j > 0 {
      SpanAt(spans[1..], j - 1);
      assert forall x, y :: 16 <= x <= y <= |head + tail| ==> (head + tail)[x..y] == tail[x - 16..y - 16];
    }
  }

  /** Every header field lies where the format puts it: magic at 0, version at 8, node
      count at 12, M at 16, M0 at 20, entry point at 24, top layer at 28, and from 32 on
      where each section starts and how long it is; all least significant byte first. */
  lemma HeaderLayout(ix: Index)
    requires Fits(ix)
    ensures |Image(ix)| >= HEADER_SIZE && Image(ix)[..8] == MAGIC && LittleEndian(Image(ix), 8, VERSION, 4)
    ensures LittleEndian(Image(ix), 12, ix.n, 4)
    ensures LittleEndian(Image(ix), 16, ix.m % U32, 4) && LittleEndian(Image(ix), 20, ix.m0 % U32, 4)
    ensures LittleEndian(Image(ix), 24, ix.entryPoint, 4)
    ensures LittleEndian(Image(ix), 28, ix.maxLayer % 0x1_0000_0000, 4)
    ensures forall j :: 0 <= j < 8 ==> SpanStored(ix, j)
  {
    var h := HeaderOf(ix);
    assert HeaderBytes(h) <= Image(ix);
    ScalarsAt(h, Image(ix));
    forall j | 0 <= j < 8 ensures SpanStored(ix, j) {
      SpanAt(h.spans, j);
      SpanIn(h, Image(ix), j);
    }
  }

  /** Offset and length of section j in the header. */
  ghost predicate SpanStored(ix: Index, j: nat)
    requires Fits(ix) && j < 8
  {
    && LittleEndian(Image(ix), 32 + 16 * j, StartOf(Sections(ix), j), 8)
    && LittleEndian(Image(ix), 40 + 16 * j, |Sections(ix)[j]|, 8)
  }

  lemma SpanIn(h: Header, data: seq<Byte>, j: nat)
    requires |h.magic| == 8 && IsInt32(h.maxLayer) && |h.spans| == 8 && HeaderBytes(h) <= data && j < 8
    ensures LittleEndian(data, 32 + 16 * j, h.spans[j].off, 8) && LittleEndian(data, 40 + 16 * j, h.spans[j].len, 8)
  {
    assert data[32..160] == HeaderBytes(h)[32..160] == SpanBytes(h.spans);
    hide *;
    SpanAt(h.spans, j);
    var x := 16 * j;
    SliceOfSlice(data, 32, 160, x, x + 8);
    SliceOfSlice(data, 32, 160, x + 8, x + 16);
    EncodedIn(data, 32 + x, h.spans[j].off, 8);
    EncodedIn(data, 40 + x, h.spans[j].len, 8);
  }

  lemma SliceOfSlice<T>(s: seq<T>, a: nat, b: nat, x: nat, y: nat)
    requires a <= b <= |s| && x <= y <= b - a
    ensures s[a..b][x..y] == s[a + x..a + y]
  {
    assert forall k :: 0 <= k < b - a ==> s[a..b][k] == s[a + k];
    assert forall k :: 0 <= k < y - x ==> s[a..b][x..y][k] == s[a + x..a + y][k];
  }

  lemma Int32InSlice(data: seq<Byte>, off: nat, s: seq<int>, i: nat)
    requires AllInt32(s) && off + 4 * |s| <= |data| && data[off..off + 4 * |s|] == Int32Bytes(s) && i < |s|
    ensures LittleEndian(data, off + 4 * i, s[i] % 0x1_0000_0000, 4)
  {
    hide LittleEndian, Int32Bytes, EncodeInt32;
    Int32At(s, i);
    SliceOfSlice(data, off, off + 4 * |s|, 4 * i, 4 * i + 4);
    Int32In(data, off + 4 * i, s[i]);
  }

  /** The numbers of an int32 section, each in four bytes. */
  lemma Int32SectionLayout(ix: Index, j: nat, s: seq<int>, i: nat)
    requires Fits(ix) && j < 8 && AllInt32(s) && Sections(ix)[j] == Int32Bytes(s) && i < |s|
    ensures LittleEndian(Image(ix), StartOf(Sections(ix), j) + 4 * i, s[i] % 0x1_0000_0000, 4)
  {
    hide LittleEndian, Image, StartOf, EndOf, Sections, Int32Bytes, AllInt32;
    SectionInImage(ix, j);
    var data, off, section := Image(ix), StartOf(Sections(ix), j), Sections(ix)[j];
    assert |section| == 4 * |s| && data[off..off + 4 * |s|] == section;
    Int32InSlice(data, off, s, i);
  }

  /** The bytes of section j are b. */
  ghost predicate Holds(ix: Index, j: nat, b: seq<Byte>)
    requires Fits(ix) && j < 8
  {
    var start := StartOf(Sections(ix), j);
    start + |b| <= |Image(ix)| && Image(ix)[start..start + |b|] == b
  }

  /** Section j holds the numbers of s, each in four bytes. */
  ghost predicate HoldsInts(ix: Index, j: nat, s: seq<int>)
    requires Fits(ix) && j < 8
  {
    forall i :: 0 <= i < |s| ==> LittleEndian(Image(ix), StartOf(Sections(ix), j) + 4 * i, s[i] % 0x1_0000_0000, 4)
  }

  /** The sections by name and order. */
  lemma SectionLayout(ix: Index)
    requires Fits(ix)
    ensures Holds(ix, 0, ix.vectors) && Holds(ix, 1, ix.conn0Cnt) && HoldsInts(ix, 2, ix.conn0)
    ensures Holds(ix, 3, ix.labels) && HoldsInts(ix, 4, ix.upperOff) && HoldsInts(ix, 5, ix.upperNodes)
    ensures Holds(ix, 6, ix.upperCnt) && HoldsInts(ix, 7, ix.upperConn)
  {
    hide Image, StartOf, EndOf, Int32Bytes, Holds, HoldsInts;
    ByteSectionHolds(ix, 0, ix.vectors);
    ByteSectionHolds(ix, 1, ix.conn0Cnt);
    ByteSectionHolds(ix, 3, ix.labels);
    ByteSectionHolds(ix, 6, ix.upperCnt);
    IntSectionHolds(ix, 2, ix.conn0);
    IntSectionHolds(ix, 4, ix.upperOff);
    IntSectionHolds(ix, 5, ix.upperNodes);
    IntSectionHolds(ix, 7, ix.upperConn);
  }

  lemma ByteSectionHolds(ix: Index, j: nat, b: seq<Byte>)
    requires Fits(ix) && j < 8 && Sections(ix)[j] == b
    ensures Holds(ix, j, b)
  {
    hide Image, StartOf, EndOf, Sections;
    SectionInImage(ix, j);
  }

  lemma IntSectionHolds(ix: Index, j: nat, s: seq<int>)
    requires Fits(ix) && j < 8 && AllInt32(s) && Sections(ix)[j] == Int32Bytes(s)
    ensures HoldsInts(ix, j, s)
  {
    hide Image, StartOf, Int32Bytes, LittleEndian, Sections;
    forall i | 0 <= i < |s|
      ensures LittleEndian(Image(ix), StartOf(Sections(ix), j) + 4 * i, s[i] % 0x1_0000_0000, 4)
    {
      Int32SectionLayout(ix, j, s, i);
    }
  }

  /** The rest of the header area and the gaps before the sections are zero. */
  lemma GapsAreZero(ix: Index, j: nat, p: nat)
    requires Fits(ix) && j < 8
    requires 160 <= p < HEADER_SIZE || EndOf(Sections(ix), j) <= p < StartOf(Sections(ix), j)
    ensures p < |Image(ix)| && Image(ix)[p] == 0
  {
    hide StartOf, EndOf, Body, Sections, HeaderBytes;
    var S := Sections(ix);
    BodyIsZero(S, j, p);
    EndsAfterHeader(S, j);
    assert (HeaderBytes(HeaderOf(ix)) + Body(S, 8)[160..])[p] == Body(S, 8)[p];
  }

  lemma EndsAfterHeader(S: seq<seq<Byte>>, j: nat)
    requires j <= |S|
    ensures EndOf(S, j) >= HEADER_SIZE
  {
  }

  lemma BodyIsZero(S: seq<seq<Byte>>, j: nat, p: nat)
    requires |S| == 8 && j < 8 && (p < HEADER_SIZE || EndOf(S, j) <= p < StartOf(S, j))
    ensures p < |Body(S, 8)| && Body(S, 8)[p] == 0
  {
    if p < HEADER_SIZE {
      HeaderAreaIsZero(S, p);
      hide *;
      BodyGrows(S, 0, 8, p);
    } else {
      GapIsZero(S, j, p);
      hide *;
      BodyGrows(S, j + 1, 8, p);
    }
  }

  lemma HeaderAreaIsZero(S: seq<seq<Byte>>, p: nat)
    requires p < HEADER_SIZE
    ensures p < EndOf(S, 0) && p < |Body(S, 0)| && Body(S, 0)[p] == 0
  {
  }

  lemma GapIsZero(S: seq<seq<Byte>>, j: nat, p: nat)
    requires j < |S| && EndOf(S, j) <= p < StartOf(S, j)
    ensures p < EndOf(S, j + 1) && p < |Body(S, j + 1)| && Body(S, j + 1)[p] == 0
  {
  }

  lemma {:induction false} BodyGrows(S: seq<seq<Byte>>, j: nat, k: nat, p: nat)
    requires j <= k <= |S| && p < EndOf(S, j)
    ensures p < |Body(S, k)| && Body(S, k)[p] == Body(S, j)[p]
    decreases k
  {
    if j < k {
      BodyGrows(S, j, k - 1, p);
      hide EndOf, StartOf, Align;
    }
  }

  lemma SavedHeader(ix: Index)
    requires Fits(ix)
    ensures |Image(ix)| >= HEADER_SIZE && ParseHeader(Image(ix)[..160]) == HeaderOf(ix)
  {
    hide Align, StartOf, EndOf, Body, HeaderBytes, ParseHeader, Sections;
    var S := Sections(ix);
    forall i | 0 <= i < 8 ensures StartOf(S, i) + |S[i]| <= EndOf(S, 8) {
      SectionsApart(S, i, 8);
    }
    HeaderRoundTrip(HeaderOf(ix));
    assert Image(ix)[..160] == HeaderBytes(HeaderOf(ix));
  }

  /** Loading a saved index gives the same index exactly when its sizes agree and its
      degree bounds fit 32 bits; otherwise it is refused or comes back changed. */
  lemma LoadAfterSave(ix: Index)
    requires Fits(ix)
    ensures Parse(Image(ix)) == Got(ix) <==> ix.m < U32 && ix.m0 < U32 && SizesAgree(ix)
  {
    hide Align, StartOf, EndOf, Body, HeaderBytes, ParseHeader, BindBytes, BindInt32, Image,
         SizesAgree, Int32Bytes, AsInt32s;
    var data := Image(ix);
    var S := Sections(ix);
    SavedHeader(ix);
    var h := HeaderOf(ix);
    forall j | 0 <= j < 8
      ensures BindBytes(data, h.spans[j]) == Got(S[j])
      ensures |S[j]| % 4 == 0 ==> BindInt32(data, h.spans[j]) == Got(AsInt32s(S[j]))
    {
      SectionInImage(ix, j);
      BindSaved(data, h.spans[j], S[j]);
    }
    Int32sRoundTrip(ix.conn0);
    Int32sRoundTrip(ix.upperOff);
    Int32sRoundTrip(ix.upperNodes);
    Int32sRoundTrip(ix.upperConn);
  }

  lemma Conn0Fits(ix: Index)
    requires Fits(ix)
    ensures |ix.conn0| < 0x8000_0000_0000_0000
  {
    hide StartOf, EndOf;
    SectionsApart(Sections(ix), 2, 8);
  }

  lemma SizesOfWellFormed(ix: Index)
    requires ix.BaseSized() && ix.n < 0x8000_0000 && |ix.conn0| < 0x8000_0000_0000_0000
    ensures SizesAgree(ix)
  {
    hide Wrap64;
    NoWrap(|ix.conn0|);
    assert (ix.n + 7) % U32 == ix.n + 7;
  }

  /** Every well-formed index of fewer than 2^31 nodes passes all checks on loading. */
  lemma WellFormedSurvives(ix: Index)
    requires Fits(ix) && ix.WellFormed() && ix.m < U32 && ix.m0 < U32
    ensures Parse(Image(ix)) == Got(ix)
  {
    hide Parse, Image, Fits, SizesAgree;
    Conn0Fits(ix);
    SizesOfWellFormed(ix);
    LoadAfterSave(ix);
  }

  /** Reads the sections into a new graph. */
  method BindSections(data: seq<Byte>, h: Header) returns (r: Result<Graph>)
    requires |h.spans| == 8
    ensures match r
            case Got(g) => fresh(g) && Bind(data, h) == Got(g.View())
            case Refused(why) => Bind(data, h) == Refused(why)
  {
    hide BindBytes, BindInt32, Zeros, Unused;
    var vectors :- BindBytes(data, h.spans[0]);
    var conn0Cnt :- BindBytes(data, h.spans[1]);
    var conn0 :- BindInt32(data, h.spans[2]);
    var labels :- BindBytes(data, h.spans[3]);
    var upperOff :- BindInt32(data, h.spans[4]);
    var upperNodes :- BindInt32(data, h.spans[5]);
    var upperCnt :- BindBytes(data, h.spans[6]);
    var upperConn :- BindInt32(data, h.spans[7]);
    var g := new Graph(0, h.m, h.m0);
    g.Set(Index(h.n, h.m, h.m0, vectors, conn0, conn0Cnt, labels, upperOff, upperNodes, upperCnt, upperConn,
                h.entryPoint, h.maxLayer));
    return Got(g);
  }

  /** Loads a graph from the bytes of a file. */
  method LoadFromBytes(data: seq<Byte>) returns (r: Result<Graph>)
    ensures match r
            case Got(g) => fresh(g) && Parse(data) == Got(g.View())
            case Refused(why) => Parse(data) == Refused(why)
  {
    hide ParseHeader, Bind, SizesAgree;
    if |data| < HEADER_SIZE {
      return Refused(TooSmall);
    }
    var h := ParseHeader(data[..160]);
    if h.magic[..7] != MAGIC[..7] {
      return Refused(BadMagic);
    }
    if h.version != VERSION {
      return Refused(BadVersion);
    }
    var g :- BindSections(data, h);
    if !SizesAgree(g.View()) {
      return Refused(SizeMismatch);
    }
    return Got(g);
  }
}
