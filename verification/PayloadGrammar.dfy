/** The payload language of the strict request parser (internal/api/parse_strict.go), read
    from the front of a text.  Bytes are written as characters. */
module PayloadGrammar {
  import opened Distance
  import opened Quotients

  // ---------- Values ----------

  datatype Stamp = Stamp(year: int, month: int, day: int, hour: int, minute: int, second: int)

  /** What one step of the payload yields; punctuation and keys yield nothing. */
  datatype Value = Nothing | Str(text: string) | Num(amount: real) | Int(n: int) | Flag(b: bool) | Time(at: Stamp)
                 | Strs(items: seq<string>)

  /** The steps a payload is made of.  Key names include their quotes. */
  datatype Step = Punct(c: char) | Key(name: string) | StringStep | ArrayStep | RealStep | IntStep | BoolStep | TimeStep

  datatype Reading<T> = Got(value: T, rest: string) | Bad

  // ---------- Characters and numbers ----------

  predicate IsSpace(c: char) {
    c == ' ' || c == '\n' || c == '\r' || c == '\t'
  }

  predicate IsDigit(c: char) {
    '0' <= c <= '9'
  }

  predicate Spaces(s: string) {
    forall i :: 0 <= i < |s| ==> IsSpace(s[i])
  }

  predicate Digits(s: string) {
    forall i :: 0 <= i < |s| ==> IsDigit(s[i])
  }

  function DigitValue(c: char): (d: int)
    requires IsDigit(c)
    ensures 0 <= d <= 9
  {
    c as int - '0' as int
  }

  function NumberOf(s: string): (n: nat)
    requires Digits(s)
  {
    if s == [] then 0 else 10 * NumberOf(s[..|s| - 1]) + DigitValue(s[|s| - 1])
  }

  /** The value of the digits after a decimal point. */
  function FractionOf(s: string): (f: real)
    requires Digits(s)
    ensures 0.0 <= f < 1.0
  {
    if s == [] then 0.0 else (DigitValue(s[0]) as real + FractionOf(s[1..])) / 10.0
  }

  function DecimalOf(neg: bool, whole: string, frac: string): real
    requires Digits(whole) && Digits(frac)
  {
    var v := NumberOf(whole) as real + FractionOf(frac);
    if neg then -v else v
  }

  function Pow10(k: nat): (p: nat)
    ensures p > 0
  {
    if k == 0 then 1 else 10 * Pow10(k - 1)
  }

  /** The i-th character is the i-th decimal digit, most significant first. */
  lemma {:induction false} NumberDigit(s: string, i: nat)
    requires Digits(s) && i < |s|
    ensures (NumberOf(s) / Pow10(|s| - 1 - i)) % 10 == DigitValue(s[i])
    decreases |s|
  {
    var front := s[..|s| - 1];
    if i < |s| - 1 {
      NumberDigit(front, i);
      QuotientTwice(NumberOf(s), 10, Pow10(|s| - 2 - i));
      assert NumberOf(s) / 10 == NumberOf(front);
    }
  }

  lemma {:induction false} NumberBelow(s: string)
    requires Digits(s)
    ensures NumberOf(s) < Pow10(|s|)
    decreases |s|
  {
    if s != [] {
      NumberBelow(s[..|s| - 1]);
    }
  }

  // ---------- Reading ----------

  function Skip(s: string): (t: string)
    ensures |t| <= |s| && (t == [] || !IsSpace(t[0]))
  {
    if s != [] && IsSpace(s[0]) then Skip(s[1..]) else s
  }

  lemma SkipTwice(s: string)
    ensures Skip(Skip(s)) == Skip(s)
  {
  }

  function DigitRun(s: string): (k: nat)
    ensures k <= |s| && Digits(s[..k]) && (k < |s| ==> !IsDigit(s[k]))
  {
    if s != [] && IsDigit(s[0]) then 1 + DigitRun(s[1..]) else 0
  }

  /** The text up to the next quote, unless a backslash comes first. */
  function ReadQuoted(s: string): (r: Reading<string>)
    ensures r.Got? ==> |r.rest| < |s|
  {
    if s == [] || s[0] == '\\' then Bad
    else if s[0] == '"' then Got([], s[1..])
    else
      match ReadQuoted(s[1..])
      case Bad => Bad
      case Got(x, rest) => Got([s[0]] + x, rest)
  }

  function ReadString(t: string): (r: Reading<string>)
    ensures r.Got? ==> |r.rest| < |t|
  {
    if t == [] || t[0] != '"' then Bad else ReadQuoted(t[1..])
  }

  /** The items after an opening bracket, up to the closing one. */
  function ReadItems(s: string): (r: Reading<seq<string>>)
    ensures r.Got? ==> |r.rest| < |s|
    decreases |s|
  {
    var t := Skip(s);
    if t == [] then Bad
    else if t[0] == ']' then Got([], t[1..])
    else
      match ReadString(t)
      case Bad => Bad
      case Got(x, after) =>
        var u := Skip(after);
        if u == [] then Bad
        else if u[0] == ']' then Got([x], u[1..])
        else if u[0] != ',' then Bad
        else
          match ReadItems(u[1..])
          case Bad => Bad
          case Got(xs, rest) => Got([x] + xs, rest)
  }

  /** Digits, then a point and perhaps more digits. */
  function ReadUnsigned(u: string): (r: Reading<(string, bool, string)>)
    ensures r.Got? ==> |r.rest| < |u| && Digits(r.value.0) && Digits(r.value.2)
  {
    var k := DigitRun(u);
    if k == 0 then Bad
    else if k < |u| && u[k] == '.' then
      var v := u[k + 1..];
      var f := DigitRun(v);
      Got((u[..k], true, v[..f]), v[f..])
    else Got((u[..k], false, []), u[k..])
  }

  function ReadReal(t: string): (r: Reading<real>)
    ensures r.Got? ==> |r.rest| < |t|
  {
    var neg := t != [] && t[0] == '-';
    match ReadUnsigned(if neg then t[1..] else t)
    case Bad => Bad
    case Got(parts, rest) => Got(DecimalOf(neg, parts.0, parts.2), rest)
  }

  /** An int32 accumulated digit by digit: the decimal value, wrapped. */
  function ReadInt(t: string): (r: Reading<int>)
    ensures r.Got? ==> |r.rest| < |t|
  {
    var k := DigitRun(t);
    if k == 0 then Bad else Got(Wrap32(NumberOf(t[..k])), t[k..])
  }

  function ReadBool(t: string): (r: Reading<bool>)
    ensures r.Got? ==> |r.rest| < |t|
  {
    if "true" <= t then Got(true, t[4..])
    else if "false" <= t then Got(false, t[5..])
    else Bad
  }

  // ---------- Timestamps ----------

  predicate ValidStamp(at: Stamp) {
    && 0 <= at.year <= 9999 && 1 <= at.month <= 12 && 1 <= at.day <= 31
    && 0 <= at.hour <= 23 && 0 <= at.minute <= 59 && 0 <= at.second <= 59
  }

  function DaysIn(year: int, month: int): (d: int)
    requires 1 <= month <= 12
    ensures 28 <= d <= 31
  {
    if month == 2 then
      if year % 4 == 0 && (year % 100 != 0 || year % 400 == 0) then 29 else 28
    else if month == 4 || month == 6 || month == 9 || month == 11 then 30
    else 31
  }

  /** A day of the calendar. */
  predicate IsDate(at: Stamp) {
    ValidStamp(at) && at.day <= DaysIn(at.year, at.month)
  }

  /** time.Date: days beyond the end of a month run into the next one. */
  function CalendarDate(at: Stamp): (d: Stamp)
    requires ValidStamp(at)
    ensures IsDate(d) && (d == at <==> IsDate(at))
  {
    var days := DaysIn(at.year, at.month);
    if at.day <= days then at else at.(month := at.month + 1, day := at.day - days)
  }

  function DigitChar(d: int): (c: char)
    requires 0 <= d <= 9
    ensures IsDigit(c) && DigitValue(c) == d
  {
    ('0' as int + d) as char
  }

  function Two(v: int): (s: string)
    requires 0 <= v <= 99
    ensures |s| == 2
  {
    [DigitChar(v / 10), DigitChar(v % 10)]
  }

  /** YYYY-MM-DDTHH:MM:SSZ */
  function StampText(at: Stamp): (s: string)
    requires ValidStamp(at)
    ensures |s| == 20
  {
    Two(at.year / 100) + Two(at.year % 100) + "-" + Two(at.month) + "-" + Two(at.day) + "T"
    + Two(at.hour) + ":" + Two(at.minute) + ":" + Two(at.second) + "Z"
  }

  predicate HasStampForm(x: string) {
    && |x| == 20 && x[4] == '-' && x[7] == '-' && x[10] == 'T' && x[13] == ':' && x[16] == ':' && x[19] == 'Z'
    && Digits(x[0..4]) && Digits(x[5..7]) && Digits(x[8..10])
    && Digits(x[11..13]) && Digits(x[14..16]) && Digits(x[17..19])
  }

  function StampOf(x: string): Stamp
    requires HasStampForm(x)
  {
    Stamp(NumberOf(x[0..4]), NumberOf(x[5..7]), NumberOf(x[8..10]),
          NumberOf(x[11..13]), NumberOf(x[14..16]), NumberOf(x[17..19]))
  }

  function ReadTime(t: string): (r: Reading<Stamp>)
    ensures r.Got? ==> |r.rest| < |t|
  {
    match ReadString(t)
    case Bad => Bad
    case Got(x, rest) => if HasStampForm(x) && ValidStamp(StampOf(x)) then Got(CalendarDate(StampOf(x)), rest) else Bad
  }

  lemma TwoDigits(x: string)
    requires |x| == 2 && Digits(x)
    ensures NumberOf(x) == 10 * DigitValue(x[0]) + DigitValue(x[1])
  {
    assert x[..1][..0] == [] && NumberOf(x[..1]) == 10 * NumberOf(x[..1][..0]) + DigitValue(x[0]);
  }

  lemma FourDigits(x: string)
    requires |x| == 4 && Digits(x)
    ensures NumberOf(x) == 100 * NumberOf(x[..2]) + NumberOf(x[2..])
  {
    TwoDigits(x[2..]);
    assert x[..3][..2] == x[..2];
    assert NumberOf(x[..3]) == 10 * NumberOf(x[..2]) + DigitValue(x[2]);
  }

  lemma TwoIs(x: string, v: int)
    requires |x| == 2 && 0 <= v <= 99
    ensures x == Two(v) <==> Digits(x) && NumberOf(x) == v
  {
    if Digits(x) {
      TwoDigits(x);
      assert x == [DigitChar(DigitValue(x[0])), DigitChar(DigitValue(x[1]))];
    } else {
      assert Digits(Two(v));
    }
  }

  lemma FourIs(x: string, v: int)
    requires |x| == 4 && 0 <= v <= 9999
    ensures x == Two(v / 100) + Two(v % 100) <==> Digits(x) && NumberOf(x) == v
  {
    TwoIs(x[..2], v / 100);
    TwoIs(x[2..], v % 100);
    assert x == x[..2] + x[2..];
    if Digits(x) {
      FourDigits(x);
      TwoDigits(x[..2]);
      TwoDigits(x[2..]);
    }
  }

  /** The timestamp form is exactly the text of its valid value. */
  lemma StampIsItsText(x: string, at: Stamp)
    requires ValidStamp(at)
    ensures x == StampText(at) <==> HasStampForm(x) && StampOf(x) == at
  {
    if |x| == 20 {
      FourIs(x[0..4], at.year);
      TwoIs(x[5..7], at.month);
      TwoIs(x[8..10], at.day);
      TwoIs(x[11..13], at.hour);
      TwoIs(x[14..16], at.minute);
      TwoIs(x[17..19], at.second);
      assert x == x[0..4] + [x[4]] + x[5..7] + [x[7]] + x[8..10] + [x[10]] + x[11..13] + [x[13]] + x[14..16] + [x[16]]
                + x[17..19] + [x[19]];
      var s := StampText(at);
      assert s[0..4] == Two(at.year / 100) + Two(at.year % 100) && s[5..7] == Two(at.month) && s[8..10] == Two(at.day)
        && s[11..13] == Two(at.hour) && s[14..16] == Two(at.minute) && s[17..19] == Two(at.second);
    }
  }

  // ---------- Steps ----------

  /** One step at the front of a text without leading spaces. */
  function Core(step: Step, t: string): (r: Reading<Value>)
    ensures r.Got? ==> |r.rest| < |t|
  {
    match step
    case Punct(c) => if t == [] || t[0] != c then Bad else Got(Nothing, t[1..])
    case Key(name) =>
      if !(name <= t) then Bad
      else
        var u := Skip(t[|name|..]);
        if u == [] || u[0] != ':' then Bad else Got(Nothing, u[1..])
    case StringStep => (match ReadString(t) case Bad => Bad case Got(x, rest) => Got(Str(x), rest))
    case ArrayStep =>
      if t == [] || t[0] != '[' then Bad
      else (match ReadItems(t[1..]) case Bad => Bad case Got(xs, rest) => Got(Strs(xs), rest))
    case RealStep => (match ReadReal(t) case Bad => Bad case Got(x, rest) => Got(Num(x), rest))
    case IntStep => (match ReadInt(t) case Bad => Bad case Got(n, rest) => Got(Int(n), rest))
    case BoolStep => (match ReadBool(t) case Bad => Bad case Got(b, rest) => Got(Flag(b), rest))
    case TimeStep => (match ReadTime(t) case Bad => Bad case Got(at, rest) => Got(Time(at), rest))
  }

  /** One step with the spaces around it. */
  function Read(step: Step, s: string): Reading<Value> {
    match Core(step, Skip(s))
    case Bad => Bad
    case Got(v, rest) => Got(v, Skip(rest))
  }

  function Prepend(v: Value, r: Reading<seq<Value>>): (q: Reading<seq<Value>>)
    ensures q.Bad? <==> r.Bad?
  {
    match r
    case Bad => Bad
    case Got(vs, rest) => if v == Nothing then r else Got([v] + vs, rest)
  }

  /** The steps of a script from the i-th on, in order. */
  function Run(script: seq<Step>, i: nat, s: string): Reading<seq<Value>>
    requires i <= |script|
    decreases |script| - i
  {
    if i == |script| then Got([], s)
    else
      match Read(script[i], s)
      case Bad => Bad
      case Got(v, rest) => Prepend(v, Run(script, i + 1, rest))
  }

  // ---------- The request ----------

  const OPEN: seq<Step> := [Punct('{'), Key("\"id\""), StringStep, Punct(',')]
  const TRANSACTION: seq<Step> :=
    [Key("\"transaction\""), Punct('{'), Key("\"amount\""), RealStep, Punct(','), Key("\"installments\""), IntStep,
     Punct(','), Key("\"requested_at\""), TimeStep, Punct('}'), Punct(',')]
  const CUSTOMER: seq<Step> :=
    [Key("\"customer\""), Punct('{'), Key("\"avg_amount\""), RealStep, Punct(','), Key("\"tx_count_24h\""), IntStep,
     Punct(','), Key("\"known_merchants\""), ArrayStep, Punct('}'), Punct(',')]
  const MERCHANT: seq<Step> :=
    [Key("\"merchant\""), Punct('{'), Key("\"id\""), StringStep, Punct(','), Key("\"mcc\""), StringStep,
     Punct(','), Key("\"avg_amount\""), RealStep, Punct('}'), Punct(',')]
  const TERMINAL: seq<Step> :=
    [Key("\"terminal\""), Punct('{'), Key("\"is_online\""), BoolStep, Punct(','), Key("\"card_present\""), BoolStep,
     Punct(','), Key("\"km_from_home\""), RealStep, Punct('}'), Punct(','), Key("\"last_transaction\"")]
  const LAST: seq<Step> :=
    [Punct('{'), Key("\"timestamp\""), TimeStep, Punct(','), Key("\"km_from_current\""), RealStep, Punct('}')]
  const CLOSE: seq<Step> := [Punct('}')]

  /** The values of a payload, object by object; the last transaction may be absent. */
  datatype Fields = Fields(objects: seq<seq<Value>>, hasLast: bool, last: seq<Value>)

  /** Null or an object for the last transaction, then the closing brace. */
  function ReadLast(s: string): Reading<(bool, seq<Value>)> {
    var t := Skip(s);
    if "null" <= t then
      match Run(CLOSE, 0, t[4..])
      case Bad => Bad
      case Got(_, rest) => Got((false, []), rest)
    else
      match Run(LAST, 0, t)
      case Bad => Bad
      case Got(vs, after) =>
        match Run(CLOSE, 0, after)
        case Bad => Bad
        case Got(_, rest) => Got((true, vs), rest)
  }

  /** The five objects before the last transaction. */
  function ReadObjects(s: string): Reading<seq<seq<Value>>> {
    match Run(OPEN, 0, Skip(s))
    case Bad => Bad
    case Got(open, s1) =>
      match Run(TRANSACTION, 0, s1)
      case Bad => Bad
      case Got(transaction, s2) =>
        match Run(CUSTOMER, 0, s2)
        case Bad => Bad
        case Got(customer, s3) =>
          match Run(MERCHANT, 0, s3)
          case Bad => Bad
          case Got(merchant, s4) =>
            match Run(TERMINAL, 0, s4)
            case Bad => Bad
            case Got(terminal, rest) => Got([open, transaction, customer, merchant, terminal], rest)
  }

  function ReadPayload(s: string): Reading<Fields> {
    match ReadObjects(s)
    case Bad => Bad
    case Got(objects, after) =>
      match ReadLast(after)
      case Bad => Bad
      case Got(last, rest) => Got(Fields(objects, last.0, last.1), rest)
  }

  // ---------- Requests ----------

  datatype Request = Request(
    id: string, amount: real, installments: int, requestedAt: Stamp,
    customerAvg: real, txCount24h: int, knownMerchants: seq<string>,
    merchantID: string, mcc: string, merchantAvg: real,
    isOnline: bool, cardPresent: bool, kmFromHome: real,
    hasLast: bool, lastTimestamp: Stamp, lastKm: real)

  function ValueAt(f: Fields, o: nat, k: nat): Value {
    if o < |f.objects| && k < |f.objects[o]| then f.objects[o][k] else Nothing
  }

  function LastAt(f: Fields, k: nat): Value {
    if k < |f.last| then f.last[k] else Nothing
  }

  function AsText(v: Value): string {
    if v.Str? then v.text else []
  }

  function AsReal(v: Value): real {
    if v.Num? then v.amount else 0.0
  }

  function AsInt(v: Value): int {
    if v.Int? then v.n else 0
  }

  function AsFlag(v: Value): bool {
    v.Flag? && v.b
  }

  const NO_TIME: Stamp := Stamp(1, 1, 1, 0, 0, 0)

  function AsTime(v: Value): Stamp {
    if v.Time? then v.at else NO_TIME
  }

  function AsItems(v: Value): seq<string> {
    if v.Strs? then v.items else []
  }

  /** The request a payload stands for.  A null last transaction leaves the details of an
      earlier one in place. */
  function RequestOf(f: Fields, before: Request): Request {
    Request(
      AsText(ValueAt(f, 0, 0)), AsReal(ValueAt(f, 1, 0)), AsInt(ValueAt(f, 1, 1)), AsTime(ValueAt(f, 1, 2)),
      AsReal(ValueAt(f, 2, 0)), AsInt(ValueAt(f, 2, 1)), AsItems(ValueAt(f, 2, 2)),
      AsText(ValueAt(f, 3, 0)), AsText(ValueAt(f, 3, 1)), AsReal(ValueAt(f, 3, 2)),
      AsFlag(ValueAt(f, 4, 0)), AsFlag(ValueAt(f, 4, 1)), AsReal(ValueAt(f, 4, 2)),
      f.hasLast,
      if f.hasLast then AsTime(LastAt(f, 0)) else before.lastTimestamp,
      if f.hasLast then AsReal(LastAt(f, 1)) else before.lastKm)
  }
}
