/** The strict request parser (internal/api/parse_strict.go): a cursor moved through the
    body, filling the request field by field.  Every reader stays in bounds, moves the
    cursor forward, and takes exactly one step of the payload language. */
module StrictParser {
  import opened Distance
  import opened PayloadGrammar
  import opened Calendar

  datatype Status = Good | BadPayload {
    predicate IsFailure() {
      BadPayload?
    }

    function PropagateFailure(): Status {
      this
    }
  }

  /** What the script yields from its i-th step on, at a position of the body. */
  ghost function RunAt(script: seq<Step>, i: nat, body: string, p: nat): Reading<seq<Value>>
    requires i <= |script| && p <= |body|
  {
    Run(script, i, body[p..])
  }

  /** The reader took the i-th step of a script, or found that it could not be taken. */
  ghost predicate Stepped(script: seq<Step>, i: nat, body: string, p: nat, st: Status, v: Value, p': nat)
    requires i < |script| && p <= |body|
  {
    if st.Good? then
      && p < p' <= |body|
      && RunAt(script, i, body, p) ==
           if v == Nothing then RunAt(script, i + 1, body, p') else Prepend(v, RunAt(script, i + 1, body, p'))
    else RunAt(script, i, body, p).Bad?
  }

  // ---------- Cursor primitives ----------

  method SkipSpaces(body: string, p: nat) returns (p': nat)
    requires p <= |body|
    ensures p <= p' <= |body| && body[p'..] == Skip(body[p..])
  {
    p' := p;
    while p' < |body|
      invariant p <= p' <= |body| && Skip(body[p'..]) == Skip(body[p..])
    {
      if !IsSpace(body[p']) {
        return;
      }
      assert body[p'..][1..] == body[p' + 1..];
      p' := p' + 1;
    }
  }

  method HasPrefix(body: string, s: string) returns (ok: bool)
    ensures ok <==> s <= body
  {
    if |body| < |s| {
      return false;
    }
    for i := 0 to |s|
      invariant s[..i] == body[..i]
    {
      if body[i] != s[i] {
        return false;
      }
    }
    assert s[..|s|] == s;
    return true;
  }

  method ExpectKeyAt(body: string, p: nat, key: string, ghost script: seq<Step>, ghost i: nat)
      returns (st: Status, p': nat)
    requires p <= |body| && i < |script| && script[i] == Key(key)
    ensures Stepped(script, i, body, p, st, Nothing, p')
  {
    p' := SkipSpaces(body, p);
    var found := HasPrefix(body[p'..], key);
    if !found {
      return BadPayload, 0;
    }
    assert body[p'..][|key|..] == body[p' + |key|..];
    p' := SkipSpaces(body, p' + |key|);
    if p' >= |body| || body[p'] != ':' {
      return BadPayload, 0;
    }
    assert body[p'..][1..] == body[p' + 1..];
    p' := SkipSpaces(body, p' + 1);
    return Good, p';
  }

  method ExpectByte(body: string, p: nat, want: char, ghost script: seq<Step>, ghost i: nat)
      returns (st: Status, p': nat)
    requires p <= |body| && i < |script| && script[i] == Punct(want)
    ensures Stepped(script, i, body, p, st, Nothing, p')
  {
    p' := SkipSpaces(body, p);
    if p' >= |body| || body[p'] != want {
      return BadPayload, 0;
    }
    assert body[p'..][1..] == body[p' + 1..];
    p' := SkipSpaces(body, p' + 1);
    return Good, p';
  }

  method ExpectComma(body: string, p: nat, ghost script: seq<Step>, ghost i: nat) returns (st: Status, p': nat)
    requires p <= |body| && i < |script| && script[i] == Punct(',')
    ensures Stepped(script, i, body, p, st, Nothing, p')
  {
    st, p' := ExpectByte(body, p, ',', script, i);
  }

  // ---------- Strings ----------

  ghost function Push<T>(xs: seq<T>, r: Reading<seq<T>>): Reading<seq<T>> {
    match r
    case Bad => Bad
    case Got(ys, rest) => Got(xs + ys, rest)
  }

  lemma PushNone<T>(r: Reading<seq<T>>)
    ensures Push([], r) == r
  {
    if r.Got? {
      assert [] + r.value == r.value;
    }
  }

  lemma PushOne<T>(xs: seq<T>, x: T, r: Reading<seq<T>>)
    ensures Push(xs, Push([x], r)) == Push(xs + [x], r)
  {
    if r.Got? {
      assert xs + ([x] + r.value) == (xs + [x]) + r.value;
    }
  }

  /** The text from start to the next quote. */
  method ScanQuoted(body: string, start: nat) returns (st: Status, i: nat)
    requires start <= |body|
    ensures if st.Good? then
              start <= i < |body| && ReadQuoted(body[start..]) == Got(body[start..i], body[i + 1..])
            else ReadQuoted(body[start..]).Bad?
  {
    i := start;
    assert body[start..start] == [];
    PushNone(ReadQuoted(body[start..]));
    while i < |body|
      invariant start <= i <= |body|
      invariant ReadQuoted(body[start..]) == Push(body[start..i], ReadQuoted(body[i..]))
    {
      assert body[i..][1..] == body[i + 1..];
      if body[i] == '\\' {
        return BadPayload, 0;
      }
      if body[i] == '"' {
        assert body[start..i] + [] == body[start..i];
        return Good, i;
      }
      assert body[start..i] + [body[i]] == body[start..i + 1];
      PushOne(body[start..i], body[i], ReadQuoted(body[i + 1..]));
      i := i + 1;
    }
    return BadPayload, 0;
  }

  /** A string and the spaces around it. */
  method StringAt(body: string, p: nat) returns (st: Status, s: string, p': nat)
    requires p <= |body|
    ensures var r := ReadString(Skip(body[p..]));
            if st.Good? then p < p' <= |body| && r.Got? && s == r.value && body[p'..] == Skip(r.rest) else r.Bad?
  {
    hide ReadQuoted;
    var start := SkipSpaces(body, p);
    if start >= |body| || body[start] != '"' {
      return BadPayload, "", 0;
    }
    start := start + 1;
    assert body[start - 1..][1..] == body[start..];
    var end;
    st, end := ScanQuoted(body, start);
    if st.BadPayload? {
      return BadPayload, "", 0;
    }
    p' := SkipSpaces(body, end + 1);
    return Good, body[start..end], p';
  }

  method ReadStringAt(body: string, p: nat, ghost script: seq<Step>, ghost i: nat)
      returns (st: Status, s: string, p': nat)
    requires p <= |body| && i < |script| && script[i] == StringStep
    ensures Stepped(script, i, body, p, st, Str(s), p')
  {
    hide ReadString, Skip;
    st, s, p' := StringAt(body, p);
  }

  /** The items of an array up to the closing bracket, which is not yet passed. */
  method ScanItems(body: string, from: nat) returns (st: Status, dst: seq<string>, p: nat)
    requires from <= |body|
    ensures if st.Good? then from <= p < |body| && ReadItems(body[from..]) == Got(dst, body[p + 1..])
            else ReadItems(body[from..]).Bad?
  {
    hide ReadString, Skip;
    p, dst := from, [];
    PushNone(ReadItems(body[from..]));
    while true
      invariant from <= p <= |body|
      invariant ReadItems(body[from..]) == Push(dst, ReadItems(body[p..]))
      decreases |body| - p
    {
      ghost var s := body[p..];
      p := SkipSpaces(body, p);
      if p >= |body| {
        return BadPayload, [], 0;
      }
      if body[p] == ']' {
        assert body[p..][1..] == body[p + 1..] && dst + [] == dst;
        return Good, dst, p;
      }
      ghost var t := body[p..];
      SkipTwice(s);
      var read, x;
      read, x, p := StringAt(body, p);
      if read.BadPayload? {
        return BadPayload, [], 0;
      }
      SkipTwice(ReadString(t).rest);
      p := SkipSpaces(body, p);
      if p >= |body| {
        return BadPayload, [], 0;
      }
      assert body[p..][1..] == body[p + 1..];
      PushOne(dst, x, ReadItems(body[p + 1..]));
      dst := dst + [x];
      if body[p] == ',' {
        p := p + 1;
      } else if body[p] == ']' {
        return Good, dst, p;
      } else {
        return BadPayload, [], 0;
      }
    }
  }

  method ReadStringArrayAt(body: string, p: nat, ghost script: seq<Step>, ghost i: nat)
      returns (st: Status, dst: seq<string>, p': nat)
    requires p <= |body| && i < |script| && script[i] == ArrayStep
    ensures Stepped(script, i, body, p, st, Strs(dst), p')
  {
    hide ReadItems;
    p' := SkipSpaces(body, p);
    if p' >= |body| || body[p'] != '[' {
      return BadPayload, [], 0;
    }
    p' := p' + 1;
    assert body[p' - 1..][1..] == body[p'..];
    st, dst, p' := ScanItems(body, p');
    if st.Good? {
      p' := SkipSpaces(body, p' + 1);
    }
  }

  // ---------- Numbers ----------

  ghost function Scale(k: nat): real {
    if k == 0 then 1.0 else Scale(k - 1) * 0.1
  }

  lemma NumberAppend(s: string, c: char)
    requires Digits(s) && IsDigit(c)
    ensures Digits(s + [c]) && NumberOf(s + [c]) == 10 * NumberOf(s) + DigitValue(c)
  {
    assert (s + [c])[..|s|] == s;
  }

  lemma FractionFront(c: char, tail: string)
    requires IsDigit(c) && Digits(tail)
    ensures Digits([c] + tail)
    ensures FractionOf([c] + tail) == DigitValue(c) as real / 10.0 + FractionOf(tail) / 10.0
  {
    assert ([c] + tail)[1..] == tail;
  }

  lemma NoFraction(s: string)
    requires s == []
    ensures Digits(s) && FractionOf(s) == 0.0
  {
  }

  /** One more digit adds its value at the next scale. */
  lemma {:induction false} FractionAppend(s: string, c: char)
    requires Digits(s) && IsDigit(c)
    ensures Digits(s + [c]) && FractionOf(s + [c]) == FractionOf(s) + DigitValue(c) as real * Scale(|s| + 1)
  {
    hide FractionOf, DigitValue;
    if s == [] {
      FractionFront(c, []);
      NoFraction([]);
      assert [c] + [] == [c] == s + [c];
    } else {
      FractionAppend(s[1..], c);
      FractionFront(s[0], s[1..] + [c]);
      FractionFront(s[0], s[1..]);
      assert [s[0]] + (s[1..] + [c]) == s + [c] && [s[0]] + s[1..] == s;
      Tenth(DigitValue(c) as real, Scale(|s|));
    }
  }

  lemma Tenth(d: real, z: real)
    ensures (d * z) / 10.0 == d * (z * 0.1)
  {
  }

  lemma {:induction false} RunReaches(s: string, k: nat)
    requires k <= |s| && Digits(s[..k]) && (k < |s| ==> !IsDigit(s[k]))
    ensures DigitRun(s) == k
  {
    if k > 0 {
      assert s[0] == s[..k][0] && s[1..][..k - 1] == s[..k][1..];
      RunReaches(s[1..], k - 1);
    }
  }

  /** The leading digits, accumulated in exact arithmetic. */
  method ScanWhole(body: string, from: nat) returns (n: real, p: nat)
    requires from <= |body|
    ensures p == from + DigitRun(body[from..]) <= |body| && n == NumberOf(body[from..][..p - from]) as real
  {
    p, n := from, 0.0;
    while p < |body| && IsDigit(body[p])
      invariant from <= p <= |body| && Digits(body[from..p]) && n == NumberOf(body[from..p]) as real
    {
      NumberAppend(body[from..p], body[p]);
      assert body[from..p] + [body[p]] == body[from..p + 1];
      n := n * 10.0 + DigitValue(body[p]) as real;
      p := p + 1;
    }
    assert body[from..][..p - from] == body[from..p];
    RunReaches(body[from..], p - from);
  }

  /** One more digit after the point. */
  lemma FractionStep(body: string, from: nat, p: nat, n: real, n0: real)
    requires from <= p < |body| && Digits(body[from..p]) && IsDigit(body[p]) && n == n0 + FractionOf(body[from..p])
    ensures Digits(body[from..p + 1])
    ensures n + DigitValue(body[p]) as real * Scale(p - from + 1) == n0 + FractionOf(body[from..p + 1])
  {
    hide FractionOf, Scale, DigitValue;
    FractionAppend(body[from..p], body[p]);
    assert body[from..p] + [body[p]] == body[from..p + 1];
  }

  /** The digits after the point, each weighted by a shrinking scale. */
  method ScanFraction(body: string, from: nat, n0: real) returns (n: real, p: nat)
    requires from <= |body|
    ensures p == from + DigitRun(body[from..]) <= |body| && n == n0 + FractionOf(body[from..][..p - from])
  {
    hide FractionOf, DigitValue, DigitRun;
    p, n := from, n0;
    NoFraction(body[from..from]);
    var scale := 0.1;
    while p < |body| && IsDigit(body[p])
      invariant from <= p <= |body| && Digits(body[from..p]) && n == n0 + FractionOf(body[from..p])
      invariant scale == Scale(p - from + 1)
    {
      FractionStep(body, from, p, n, n0);
      n := n + DigitValue(body[p]) as real * scale;
      scale := scale * 0.1;
      p := p + 1;
    }
    assert body[from..][..p - from] == body[from..p];
    RunReaches(body[from..], p - from);
  }

  /** Digits, then a point and perhaps more digits. */
  method ScanUnsigned(body: string, from: nat) returns (st: Status, n: real, p: nat)
    requires from <= |body|
    ensures var r := ReadUnsigned(body[from..]);
            if st.Good? then
              && from < p <= |body| && r.Got? && body[p..] == r.rest
              && n == NumberOf(r.value.0) as real + FractionOf(r.value.2)
            else r.Bad?
  {
    hide Digits, NumberOf, FractionOf, DigitRun;
    ghost var u := body[from..];
    LeadingDigit(u);
    if from >= |body| || !IsDigit(body[from]) {
      return BadPayload, 0.0, 0;
    }
    n, p := ScanWhole(body, from);
    assert u[p - from..] == body[p..];
    if p < |body| && body[p] == '.' {
      ghost var k := p - from;
      p := p + 1;
      ghost var v := body[p..];
      assert u[k + 1..] == v;
      ghost var start := p;
      n, p := ScanFraction(body, p, n);
      assert v[p - start..] == body[p..];
    } else {
      NoFraction([]);
    }
    st := Good;
  }

  /** A number with its sign. */
  method ScanReal(body: string, from: nat) returns (st: Status, x: real, p: nat)
    requires from <= |body|
    ensures var r := ReadReal(body[from..]);
            if st.Good? then from < p <= |body| && r == Got(x, body[p..]) else r.Bad?
  {
    hide Digits, NumberOf, FractionOf, ReadUnsigned;
    var sign := 1.0;
    p := from;
    if p < |body| && body[p] == '-' {
      sign := -1.0;
      p := p + 1;
      assert body[from..][1..] == body[p..];
    }
    var n;
    st, n, p := ScanUnsigned(body, p);
    if st.BadPayload? {
      return BadPayload, 0.0, 0;
    }
    x := sign * n;
  }

  method ReadFloat32At(body: string, p: nat, ghost script: seq<Step>, ghost i: nat)
      returns (st: Status, x: real, p': nat)
    requires p <= |body| && i < |script| && script[i] == RealStep
    ensures Stepped(script, i, body, p, st, Num(x), p')
  {
    hide ReadReal, Skip;
    p' := SkipSpaces(body, p);
    st, x, p' := ScanReal(body, p');
    if st.Good? {
      p' := SkipSpaces(body, p');
    }
  }

  lemma LeadingDigit(u: string)
    ensures DigitRun(u) > 0 <==> u != [] && IsDigit(u[0])
  {
  }

  lemma Wrap32Digit(n: int, d: int)
    ensures Wrap32(Wrap32(Wrap32(n) * 10) + d) == Wrap32(n * 10 + d)
  {
    var k := (n + 0x8000_0000) / 0x1_0000_0000;
    assert Wrap32(n) == n - 0x1_0000_0000 * k;
    var j := (Wrap32(n) * 10 + 0x8000_0000) / 0x1_0000_0000;
    assert Wrap32(Wrap32(n) * 10) == Wrap32(n) * 10 - 0x1_0000_0000 * j;
    Wrap32Periodic(n * 10 + d, -10 * k - j);
  }

  lemma Wrap32Periodic(x: int, k: int)
    ensures Wrap32(x + 0x1_0000_0000 * k) == Wrap32(x)
  {
  }

  /** Leading digits accumulated with int32 wrap-around. */
  method ScanInt(body: string, from: nat) returns (st: Status, n: int, p: nat)
    requires from <= |body|
    ensures var r := ReadInt(body[from..]);
            if st.Good? then from < p <= |body| && r == Got(n, body[p..]) else r.Bad?
  {
    hide DigitRun, Wrap32;
    LeadingDigit(body[from..]);
    if from >= |body| || !IsDigit(body[from]) {
      return BadPayload, 0, 0;
    }
    p, n := from, 0;
    while p < |body| && IsDigit(body[p])
      invariant from <= p <= |body| && Digits(body[from..p]) && n == Wrap32(NumberOf(body[from..p]))
    {
      NumberAppend(body[from..p], body[p]);
      assert body[from..p] + [body[p]] == body[from..p + 1];
      Wrap32Digit(NumberOf(body[from..p]), DigitValue(body[p]));
      n := Wrap32(Wrap32(n * 10) + DigitValue(body[p]));
      p := p + 1;
    }
    assert body[from..][..p - from] == body[from..p] && body[from..][p - from..] == body[p..];
    RunReaches(body[from..], p - from);
    st := Good;
  }

  method ReadInt32At(body: string, p: nat, ghost script: seq<Step>, ghost i: nat)
      returns (st: Status, n: int, p': nat)
    requires p <= |body| && i < |script| && script[i] == IntStep
    ensures Stepped(script, i, body, p, st, Int(n), p')
  {
    hide ReadInt, Skip;
    p' := SkipSpaces(body, p);
    st, n, p' := ScanInt(body, p');
    if st.Good? {
      p' := SkipSpaces(body, p');
    }
  }

  method ReadBoolAt(body: string, p: nat, ghost script: seq<Step>, ghost i: nat) returns (st: Status, b: bool, p': nat)
    requires p <= |body| && i < |script| && script[i] == BoolStep
    ensures Stepped(script, i, body, p, st, Flag(b), p')
  {
    hide Skip;
    p' := SkipSpaces(body, p);
    ghost var t := body[p'..];
    b := HasPrefix(body[p'..], "true");
    if b {
      assert t[4..] == body[p' + 4..];
      p' := SkipSpaces(body, p' + 4);
      return Good, true, p';
    }
    var no := HasPrefix(body[p'..], "false");
    if no {
      assert t[5..] == body[p' + 5..];
      p' := SkipSpaces(body, p' + 5);
      return Good, false, p';
    }
    return BadPayload, false, 0;
  }

  // ---------- Timestamps ----------

  method Atoi2(s: string) returns (n: int, ok: bool)
    ensures ok <==> |s| == 2 && Digits(s)
    ensures ok ==> n == NumberOf(s)
  {
    if |s| != 2 || !IsDigit(s[0]) || !IsDigit(s[1]) {
      return 0, false;
    }
    TwoDigits(s);
    return DigitValue(s[0]) * 10 + DigitValue(s[1]), true;
  }

  method Atoi4(s: string) returns (n: int, ok: bool)
    ensures ok <==> |s| == 4 && Digits(s)
    ensures ok ==> n == NumberOf(s)
  {
    if |s| != 4 {
      return 0, false;
    }
    n := 0;
    for i := 0 to 4
      invariant Digits(s[..i]) && n == NumberOf(s[..i])
    {
      if !IsDigit(s[i]) {
        return 0, false;
      }
      NumberAppend(s[..i], s[i]);
      assert s[..i] + [s[i]] == s[..i + 1];
      n := n * 10 + DigitValue(s[i]);
    }
    assert s[..4] == s;
    return n, true;
  }

  method ParseFixedUTC(s: string) returns (st: Status, at: Stamp)
    ensures st.Good? <==> HasStampForm(s) && ValidStamp(StampOf(s))
    ensures st.Good? ==> at == CalendarDate(StampOf(s)) && CarriedFrom(at, StampOf(s))
  {
    hide Digits, NumberOf, CarriedFrom, CalendarDate;
    if |s| != 20 || s[4] != '-' || s[7] != '-' || s[10] != 'T' || s[13] != ':' || s[16] != ':' || s[19] != 'Z' {
      return BadPayload, NO_TIME;
    }
    var year, ok := Atoi4(s[0..4]);
    if !ok {
      return BadPayload, NO_TIME;
    }
    var month, day, hour, minute, second;
    month, ok := Atoi2(s[5..7]);
    if !ok {
      return BadPayload, NO_TIME;
    }
    day, ok := Atoi2(s[8..10]);
    if !ok {
      return BadPayload, NO_TIME;
    }
    hour, ok := Atoi2(s[11..13]);
    if !ok {
      return BadPayload, NO_TIME;
    }
    minute, ok := Atoi2(s[14..16]);
    if !ok {
      return BadPayload, NO_TIME;
    }
    second, ok := Atoi2(s[17..19]);
    if !ok {
      return BadPayload, NO_TIME;
    }
    YearBound(s[0..4]);
    if month < 1 || month > 12 || day < 1 || day > 31 || hour > 23 || minute > 59 || second > 59 {
      return BadPayload, NO_TIME;
    }
    CalendarDateIsCarried(Stamp(year, month, day, hour, minute, second));
    return Good, CalendarDate(Stamp(year, month, day, hour, minute, second));
  }

  lemma YearBound(s: string)
    requires |s| == 4 && Digits(s)
    ensures NumberOf(s) <= 9999
  {
    FourDigits(s);
    TwoDigits(s[..2]);
    TwoDigits(s[2..]);
  }

  method ReadTimeAt(body: string, p: nat, ghost script: seq<Step>, ghost i: nat)
      returns (st: Status, at: Stamp, p': nat)
    requires p <= |body| && i < |script| && script[i] == TimeStep
    ensures Stepped(script, i, body, p, st, Time(at), p')
  {
    hide ReadString, HasStampForm, StampOf, Skip;
    var s;
    st, s, p' := StringAt(body, p);
    if st.BadPayload? {
      return BadPayload, NO_TIME, 0;
    }
    st, at := ParseFixedUTC(s);
  }

  // ---------- The request ----------

  lemma RunStarts(script: seq<Step>, body: string, p: nat)
    requires p <= |body|
    ensures RunAt(script, 0, body, p) == Run(script, 0, body[p..])
  {
  }

  lemma RunEnds(script: seq<Step>, body: string, p: nat)
    requires p <= |body|
    ensures RunAt(script, |script|, body, p) == Got([], body[p..])
  {
  }

  lemma Collected(x: Value, y: Value, z: Value, s: string)
    requires x != Nothing && y != Nothing && z != Nothing
    ensures Prepend(x, Got([], s)) == Got([x], s)
    ensures Prepend(x, Prepend(y, Got([], s))) == Got([x, y], s)
    ensures Prepend(x, Prepend(y, Prepend(z, Got([], s)))) == Got([x, y, z], s)
  {
    assert [x] + [] == [x] && [y] + [] == [y] && [z] + [] == [z];
    assert [x] + [y] == [x, y] && [y] + [z] == [y, z];
    assert [x] + [y, z] == [x, y, z];
  }

  /** The request being filled. */
  class RequestObject {
    var id: string
    var amount: real
    var installments: int
    var requestedAt: Stamp
    var customerAvg: real
    var txCount24h: int
    var knownMerchants: seq<string>
    var merchantID: string
    var mcc: string
    var merchantAvg: real
    var isOnline: bool
    var cardPresent: bool
    var kmFromHome: real
    var hasLast: bool
    var lastTimestamp: Stamp
    var lastKm: real

    function View(): Request
      reads this
    {
      Request(id, amount, installments, requestedAt, customerAvg, txCount24h, knownMerchants, merchantID,
              mcc, merchantAvg,
              isOnline, cardPresent, kmFromHome, hasLast, lastTimestamp, lastKm)
    }
  }

  /** The opening brace and the request id. */
  method ParseOpen(body: string, p: nat, r: RequestObject) returns (st: Status, p': nat)
    requires p <= |body|
    modifies r`id
    ensures if st.Good? then
              p <= p' <= |body|
              && Run(OPEN, 0, body[p..]) == Got([Str(r.id)], body[p'..])
            else Run(OPEN, 0, body[p..]).Bad?
  {
    hide Run, Read, Prepend, RunAt;
    RunStarts(OPEN, body, p);
    p' := p;
    p' :- ExpectByte(body, p', '{', OPEN, 0);
    p' :- ExpectKeyAt(body, p', "\"id\"", OPEN, 1);
    r.id, p' :- ReadStringAt(body, p', OPEN, 2);
    p' :- ExpectComma(body, p', OPEN, 3);
    RunEnds(OPEN, body, p');
    Collected(Str(r.id), Str(r.id), Str(r.id), body[p'..]);
    return Good, p';
  }

  lemma TransactionSteps()
    ensures |TRANSACTION| == 12
    ensures TRANSACTION[0] == Key("\"transaction\"")
    ensures TRANSACTION[1] == Punct('{') && TRANSACTION[2] == Key("\"amount\"")
    ensures TRANSACTION[3] == RealStep && TRANSACTION[4] == Punct(',') && TRANSACTION[5] == Key("\"installments\"")
    ensures TRANSACTION[6] == IntStep && TRANSACTION[7] == Punct(',') && TRANSACTION[8] == Key("\"requested_at\"")
    ensures TRANSACTION[9] == TimeStep && TRANSACTION[10] == Punct('}') && TRANSACTION[11] == Punct(',')
  {
  }

  /** The transaction object. */
  method ParseTransaction(body: string, p: nat, r: RequestObject) returns (st: Status, p': nat)
    requires p <= |body|
    modifies r`amount, r`installments, r`requestedAt
    ensures if st.Good? then
              p <= p' <= |body|
              && Run(TRANSACTION, 0, body[p..])
                 == Got([Num(r.amount), Int(r.installments), Time(r.requestedAt)], body[p'..])
            else Run(TRANSACTION, 0, body[p..]).Bad?
  {
    hide Run, Read, Prepend, RunAt;
    TransactionSteps();
    hide TRANSACTION;
    RunStarts(TRANSACTION, body, p);
    p' := p;
    p' :- ExpectKeyAt(body, p', "\"transaction\"", TRANSACTION, 0);
    p' :- ExpectByte(body, p', '{', TRANSACTION, 1);
    p' :- ExpectKeyAt(body, p', "\"amount\"", TRANSACTION, 2);
    r.amount, p' :- ReadFloat32At(body, p', TRANSACTION, 3);
    p' :- ExpectComma(body, p', TRANSACTION, 4);
    p' :- ExpectKeyAt(body, p', "\"installments\"", TRANSACTION, 5);
    r.installments, p' :- ReadInt32At(body, p', TRANSACTION, 6);
    p' :- ExpectComma(body, p', TRANSACTION, 7);
    p' :- ExpectKeyAt(body, p', "\"requested_at\"", TRANSACTION, 8);
    r.requestedAt, p' :- ReadTimeAt(body, p', TRANSACTION, 9);
    p' :- ExpectByte(body, p', '}', TRANSACTION, 10);
    p' :- ExpectComma(body, p', TRANSACTION, 11);
    RunEnds(TRANSACTION, body, p');
    Collected(Num(r.amount), Int(r.installments), Time(r.requestedAt), body[p'..]);
    return Good, p';
  }

  lemma CustomerSteps()
    ensures |CUSTOMER| == 12
    ensures CUSTOMER[0] == Key("\"customer\"") && CUSTOMER[1] == Punct('{') && CUSTOMER[2] == Key("\"avg_amount\"")
    ensures CUSTOMER[3] == RealStep && CUSTOMER[4] == Punct(',') && CUSTOMER[5] == Key("\"tx_count_24h\"")
    ensures CUSTOMER[6] == IntStep && CUSTOMER[7] == Punct(',') && CUSTOMER[8] == Key("\"known_merchants\"")
    ensures CUSTOMER[9] == ArrayStep && CUSTOMER[10] == Punct('}') && CUSTOMER[11] == Punct(',')
  {
  }

  /** The customer object. */
  method ParseCustomer(body: string, p: nat, r: RequestObject) returns (st: Status, p': nat)
    requires p <= |body|
    modifies r`customerAvg, r`txCount24h, r`knownMerchants
    ensures if st.Good? then
              p <= p' <= |body|
              && Run(CUSTOMER, 0, body[p..])
                 == Got([Num(r.customerAvg), Int(r.txCount24h), Strs(r.knownMerchants)], body[p'..])
            else Run(CUSTOMER, 0, body[p..]).Bad?
  {
    hide Run, Read, Prepend, RunAt;
    CustomerSteps();
    hide CUSTOMER;
    RunStarts(CUSTOMER, body, p);
    p' := p;
    p' :- ExpectKeyAt(body, p', "\"customer\"", CUSTOMER, 0);
    p' :- ExpectByte(body, p', '{', CUSTOMER, 1);
    p' :- ExpectKeyAt(body, p', "\"avg_amount\"", CUSTOMER, 2);
    r.customerAvg, p' :- ReadFloat32At(body, p', CUSTOMER, 3);
    p' :- ExpectComma(body, p', CUSTOMER, 4);
    p' :- ExpectKeyAt(body, p', "\"tx_count_24h\"", CUSTOMER, 5);
    r.txCount24h, p' :- ReadInt32At(body, p', CUSTOMER, 6);
    p' :- ExpectComma(body, p', CUSTOMER, 7);
    p' :- ExpectKeyAt(body, p', "\"known_merchants\"", CUSTOMER, 8);
    r.knownMerchants, p' :- ReadStringArrayAt(body, p', CUSTOMER, 9);
    p' :- ExpectByte(body, p', '}', CUSTOMER, 10);
    p' :- ExpectComma(body, p', CUSTOMER, 11);
    RunEnds(CUSTOMER, body, p');
    Collected(Num(r.customerAvg), Int(r.txCount24h), Strs(r.knownMerchants), body[p'..]);
    return Good, p';
  }

  lemma MerchantSteps()
    ensures |MERCHANT| == 12
    ensures MERCHANT[0] == Key("\"merchant\"") && MERCHANT[1] == Punct('{') && MERCHANT[2] == Key("\"id\"")
    ensures MERCHANT[3] == StringStep && MERCHANT[4] == Punct(',') && MERCHANT[5] == Key("\"mcc\"")
    ensures MERCHANT[6] == StringStep && MERCHANT[7] == Punct(',') && MERCHANT[8] == Key("\"avg_amount\"")
    ensures MERCHANT[9] == RealStep && MERCHANT[10] == Punct('}') && MERCHANT[11] == Punct(',')
  {
  }

  /** The merchant object. */
  method ParseMerchant(body: string, p: nat, r: RequestObject) returns (st: Status, p': nat)
    requires p <= |body|
    modifies r`merchantID, r`mcc, r`merchantAvg
    ensures if st.Good? then
              p <= p' <= |body|
              && Run(MERCHANT, 0, body[p..]) == Got([Str(r.merchantID), Str(r.mcc), Num(r.merchantAvg)], body[p'..])
            else Run(MERCHANT, 0, body[p..]).Bad?
  {
    hide Run, Read, Prepend, RunAt;
    MerchantSteps();
    hide MERCHANT;
    RunStarts(MERCHANT, body, p);
    p' := p;
    p' :- ExpectKeyAt(body, p', "\"merchant\"", MERCHANT, 0);
    p' :- ExpectByte(body, p', '{', MERCHANT, 1);
    p' :- ExpectKeyAt(body, p', "\"id\"", MERCHANT, 2);
    r.merchantID, p' :- ReadStringAt(body, p', MERCHANT, 3);
    p' :- ExpectComma(body, p', MERCHANT, 4);
    p' :- ExpectKeyAt(body, p', "\"mcc\"", MERCHANT, 5);
    r.mcc, p' :- ReadStringAt(body, p', MERCHANT, 6);
    p' :- ExpectComma(body, p', MERCHANT, 7);
    p' :- ExpectKeyAt(body, p', "\"avg_amount\"", MERCHANT, 8);
    r.merchantAvg, p' :- ReadFloat32At(body, p', MERCHANT, 9);
    p' :- ExpectByte(body, p', '}', MERCHANT, 10);
    p' :- ExpectComma(body, p', MERCHANT, 11);
    RunEnds(MERCHANT, body, p');
    Collected(Str(r.merchantID), Str(r.mcc), Num(r.merchantAvg), body[p'..]);
    return Good, p';
  }

  lemma TerminalSteps()
    ensures |TERMINAL| == 13
    ensures TERMINAL[0] == Key("\"terminal\"") && TERMINAL[1] == Punct('{') && TERMINAL[2] == Key("\"is_online\"")
    ensures TERMINAL[3] == BoolStep && TERMINAL[4] == Punct(',') && TERMINAL[5] == Key("\"card_present\"")
    ensures TERMINAL[6] == BoolStep && TERMINAL[7] == Punct(',') && TERMINAL[8] == Key("\"km_from_home\"")
    ensures TERMINAL[9] == RealStep && TERMINAL[10] == Punct('}') && TERMINAL[11] == Punct(',')
    ensures TERMINAL[12] == Key("\"last_transaction\"")
  {
  }

  /** The terminal object, and the key of the last transaction. */
  method ParseTerminal(body: string, p: nat, r: RequestObject) returns (st: Status, p': nat)
    requires p <= |body|
    modifies r`isOnline, r`cardPresent, r`kmFromHome
    ensures if st.Good? then
              p <= p' <= |body|
              && Run(TERMINAL, 0, body[p..])
                 == Got([Flag(r.isOnline), Flag(r.cardPresent), Num(r.kmFromHome)], body[p'..])
            else Run(TERMINAL, 0, body[p..]).Bad?
  {
    hide Run, Read, Prepend, RunAt;
    TerminalSteps();
    hide TERMINAL;
    RunStarts(TERMINAL, body, p);
    p' := p;
    p' :- ExpectKeyAt(body, p', "\"terminal\"", TERMINAL, 0);
    p' :- ExpectByte(body, p', '{', TERMINAL, 1);
    p' :- ExpectKeyAt(body, p', "\"is_online\"", TERMINAL, 2);
    r.isOnline, p' :- ReadBoolAt(body, p', TERMINAL, 3);
    p' :- ExpectComma(body, p', TERMINAL, 4);
    p' :- ExpectKeyAt(body, p', "\"card_present\"", TERMINAL, 5);
    r.cardPresent, p' :- ReadBoolAt(body, p', TERMINAL, 6);
    p' :- ExpectComma(body, p', TERMINAL, 7);
    p' :- ExpectKeyAt(body, p', "\"km_from_home\"", TERMINAL, 8);
    r.kmFromHome, p' :- ReadFloat32At(body, p', TERMINAL, 9);
    p' :- ExpectByte(body, p', '}', TERMINAL, 10);
    p' :- ExpectComma(body, p', TERMINAL, 11);
    p' :- ExpectKeyAt(body, p', "\"last_transaction\"", TERMINAL, 12);
    RunEnds(TERMINAL, body, p');
    Collected(Flag(r.isOnline), Flag(r.cardPresent), Num(r.kmFromHome), body[p'..]);
    return Good, p';
  }

  lemma LastObjectSteps()
    ensures |LAST| == 7
    ensures LAST[0] == Punct('{') && LAST[1] == Key("\"timestamp\"") && LAST[2] == TimeStep
    ensures LAST[3] == Punct(',') && LAST[4] == Key("\"km_from_current\"") && LAST[5] == RealStep
    ensures LAST[6] == Punct('}')
  {
  }

  /** The last transaction when it is an object. */
  method ParseLastObject(body: string, p: nat, r: RequestObject) returns (st: Status, p': nat)
    requires p <= |body|
    modifies r`lastTimestamp, r`lastKm
    ensures if st.Good? then
              p <= p' <= |body|
              && Run(LAST, 0, body[p..]) == Got([Time(r.lastTimestamp), Num(r.lastKm)], body[p'..])
            else Run(LAST, 0, body[p..]).Bad?
  {
    hide Run, Read, Prepend, RunAt;
    LastObjectSteps();
    hide LAST;
    RunStarts(LAST, body, p);
    p' := p;
    p' :- ExpectByte(body, p', '{', LAST, 0);
    p' :- ExpectKeyAt(body, p', "\"timestamp\"", LAST, 1);
    r.lastTimestamp, p' :- ReadTimeAt(body, p', LAST, 2);
    p' :- ExpectComma(body, p', LAST, 3);
    p' :- ExpectKeyAt(body, p', "\"km_from_current\"", LAST, 4);
    r.lastKm, p' :- ReadFloat32At(body, p', LAST, 5);
    p' :- ExpectByte(body, p', '}', LAST, 6);
    RunEnds(LAST, body, p');
    Collected(Time(r.lastTimestamp), Num(r.lastKm), Num(r.lastKm), body[p'..]);
    return Good, p';
  }

  /** Null or an object, then the closing brace; what follows is not looked at. */
  method ParseLast(body: string, p: nat, r: RequestObject) returns (st: Status)
    requires p <= |body|
    modifies r`hasLast, r`lastTimestamp, r`lastKm
    ensures st.Good? <==> ReadLast(body[p..]).Got?
    ensures st.Good? ==>
              ReadLast(body[p..]).value == (r.hasLast, if r.hasLast then [Time(r.lastTimestamp), Num(r.lastKm)] else [])
    ensures !r.hasLast ==> r.lastTimestamp == old(r.lastTimestamp) && r.lastKm == old(r.lastKm)
  {
    hide Run, Read, Skip;
    var at := SkipSpaces(body, p);
    var isNull := HasPrefix(body[at..], "null");
    if isNull {
      r.hasLast := false;
      assert body[at..][4..] == body[at + 4..];
      at := at + 4;
    } else {
      r.hasLast := true;
      at :- ParseLastObject(body, at, r);
    }
    at :- ExpectByte(body, at, '}', CLOSE, 0);
    RunEnds(CLOSE, body, at);
    return Good;
  }

  /** The values the objects' fields were read from. */
  ghost function ObjectsOf(q: Request): seq<seq<Value>> {
    [[Str(q.id)],
     [Num(q.amount), Int(q.installments), Time(q.requestedAt)],
     [Num(q.customerAvg), Int(q.txCount24h), Strs(q.knownMerchants)],
     [Str(q.merchantID), Str(q.mcc), Num(q.merchantAvg)],
     [Flag(q.isOnline), Flag(q.cardPresent), Num(q.kmFromHome)]]
  }

  ghost function LastOf(q: Request): seq<Value> {
    if q.hasLast then [Time(q.lastTimestamp), Num(q.lastKm)] else []
  }

  lemma FieldsGiveBack(q: Request, before: Request)
    requires !q.hasLast ==> q.lastTimestamp == before.lastTimestamp && q.lastKm == before.lastKm
    ensures RequestOf(Fields(ObjectsOf(q), q.hasLast, LastOf(q)), before) == q
  {
  }

  /** Everything before the last transaction. */
  method ParseObjects(body: string, r: RequestObject) returns (st: Status, p: nat)
    modifies r`id, r`amount, r`installments, r`requestedAt, r`customerAvg, r`txCount24h, r`knownMerchants
    modifies r`merchantID, r`mcc, r`merchantAvg, r`isOnline, r`cardPresent, r`kmFromHome
    ensures if st.Good? then p <= |body| && ReadObjects(body) == Got(ObjectsOf(r.View()), body[p..])
                else ReadObjects(body).Bad?
  {
    hide Run, Skip, Stepped, OPEN, TRANSACTION, CUSTOMER, MERCHANT, TERMINAL;
    p := SkipSpaces(body, 0);
    assert body[0..] == body;
    p :- ParseOpen(body, p, r);
    p :- ParseTransaction(body, p, r);
    p :- ParseCustomer(body, p, r);
    p :- ParseMerchant(body, p, r);
    p :- ParseTerminal(body, p, r);
    return Good, p;
  }

  /** Accepts exactly the payload language, and on success leaves the request it stands
      for; details of an earlier last transaction survive a null one. */
  method ParseStrictRequest(body: string, r: RequestObject) returns (st: Status)
    modifies r
    ensures st.Good? <==> ReadPayload(body).Got?
    ensures st.Good? ==> r.View() == RequestOf(ReadPayload(body).value, old(r.View()))
  {
    hide ReadObjects, ReadLast, RequestOf;
    var p :- ParseObjects(body, r);
    :- ParseLast(body, p, r);
    FieldsGiveBack(r.View(), old(r.View()));
    return Good;
  }
}
