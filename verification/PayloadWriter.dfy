/** Every printable request has a printed payload, so the strict parser's round trip covers
    all of them; and exactly which printed integers come back unchanged. */
module PayloadWriter {
  import opened Distance
  import opened PayloadGrammar
  import opened PayloadPrinter
  import opened PayloadRoundTrip
  import opened StrictParser

  // ---------- Numbers ----------

  function DecimalText(v: nat): (s: string)
    ensures s != [] && Digits(s)
  {
    if v < 10 then [DigitChar(v)] else DecimalText(v / 10) + [DigitChar(v % 10)]
  }

  lemma {:induction false} DecimalTextIs(v: nat)
    ensures NumberOf(DecimalText(v)) == v
  {
    if v < 10 {
      NumberAppend([], DigitChar(v));
      assert [] + [DigitChar(v)] == [DigitChar(v)];
    } else {
      DecimalTextIs(v / 10);
      NumberAppend(DecimalText(v / 10), DigitChar(v % 10));
    }
  }

  /** A printed integer, leading zeros or not, is read back unchanged exactly when it is
      below 2^31. */
  lemma IntegerExactness(digits: string)
    requires FormOk(IntStep, IntForm(digits))
    ensures FormValue(IntStep, IntForm(digits)) == Int(NumberOf(digits)) <==> NumberOf(digits) < 0x8000_0000
  {
  }

  /** A printed stamp is read back unchanged exactly when it is a day of the calendar. */
  lemma StampExactness(at: Stamp)
    requires FormOk(TimeStep, TimeForm(at))
    ensures FormValue(TimeStep, TimeForm(at)) == Time(at) <==> at.day <= DaysIn(at.year, at.month)
  {
  }

  /** The real numbers with a finite decimal expansion. */
  ghost predicate IsDecimal(x: real) {
    exists m: nat, j: nat :: IsScaled(x, m, j)
  }

  ghost predicate IsScaled(x: real, m: nat, j: nat) {
    x == m as real * Scale(j) || x == -(m as real * Scale(j))
  }

  lemma {:induction false} ScaleIsPower(k: nat)
    ensures Scale(k) * Pow10(k) as real == 1.0
  {
    if k > 0 {
      ScaleIsPower(k - 1);
      assert Scale(k) * Pow10(k) as real == (Scale(k - 1) * 0.1) * (10.0 * Pow10(k - 1) as real);
    }
  }

  ghost function Shrunk(n: nat, k: nat): real {
    n as real * Scale(k)
  }

  /** The digits after the point stand for their number divided by a power of ten. */
  lemma {:induction false} FractionIsNumber(s: string)
    requires Digits(s)
    ensures FractionOf(s) == Shrunk(NumberOf(s), |s|)
    decreases |s|
  {
    if s == [] {
      NoFraction(s);
    } else {
      hide *;
      var front, last := s[..|s| - 1], s[|s| - 1];
      DigitsParts(s);
      assert s == front + [last];
      FractionIsNumber(front);
      FractionAppend(front, last);
      NumberAppend(front, last);
      ShrunkStep(NumberOf(front), DigitValue(last), |front|);
    }
  }

  lemma DigitsParts(s: string)
    requires Digits(s) && s != []
    ensures Digits(s[..|s| - 1]) && IsDigit(s[|s| - 1])
  {
  }

  lemma ShrunkStep(a: nat, d: nat, k: nat)
    ensures Shrunk(10 * a + d, k + 1) == Shrunk(a, k) + d as real * Scale(k + 1)
  {
    ScaleStep(k);
    Tenfold(a as real, d as real, Scale(k), (10 * a + d) as real, Scale(k + 1));
  }

  lemma ScaleStep(k: nat)
    ensures Scale(k + 1) == Scale(k) * 0.1
  {
  }

  lemma Tenfold(a: real, d: real, z: real, n: real, sc: real)
    requires sc == z * 0.1 && n == 10.0 * a + d
    ensures a * z + d * sc == n * sc
  {
    assert n * sc == (10.0 * a) * (z * 0.1) + d * sc;
  }

  /** m divided by 10 to the j, written with j digits after the point. */
  lemma {:induction false} DecimalPrints(m: nat, j: nat) returns (whole: string, frac: string)
    ensures Digits(whole) && whole != [] && Digits(frac) && |frac| == j
    ensures NumberOf(whole) as real + FractionOf(frac) == m as real * Scale(j)
    decreases j
  {
    hide FractionOf, NumberOf, DigitChar, DecimalText;
    if j == 0 {
      whole, frac := DecimalText(m), [];
      DecimalTextIs(m);
      NoFraction([]);
    } else {
      hide Scale;
      var d := DigitChar(m % 10);
      var front;
      whole, front := DecimalPrints(m / 10, j - 1);
      frac := front + [d];
      FractionAppend(front, d);
      LastDigit(m, j);
    }
  }

  lemma LastDigit(m: nat, j: nat)
    requires j > 0
    ensures (m / 10) as real * Scale(j - 1) + (m % 10) as real * Scale(j) == m as real * Scale(j)
  {
    var q, r, z := (m / 10) as real, (m % 10) as real, Scale(j - 1);
    assert m as real == 10.0 * q + r;
    assert q * z == (10.0 * q) * (z * 0.1);
  }

  // ---------- Values ----------

  ghost predicate Printable(step: Step, v: Value) {
    match step
    case Punct(_) => v == Nothing
    case Key(_) => v == Nothing
    case StringStep => v.Str? && Clean(v.text)
    case ArrayStep => v.Strs? && forall i :: 0 <= i < |v.items| ==> Clean(v.items[i])
    case RealStep => v.Num? && IsDecimal(v.amount)
    case IntStep => v.Int? && 0 <= v.n < 0x8000_0000
    case BoolStep => v.Flag?
    case TimeStep => v.Time? && IsDate(v.at)
  }

  lemma {:induction false} ItemsPrint(xs: seq<string>) returns (items: Items)
    requires forall i :: 0 <= i < |xs| ==> Clean(xs[i])
    ensures ItemsOk(items) && ItemsValue(items) == xs
  {
    if xs == [] {
      items := End("");
    } else if |xs| == 1 {
      items := Last("", xs[0], "");
      assert xs == [xs[0]];
    } else {
      var next := ItemsPrint(xs[1..]);
      items := More("", xs[0], "", next);
    }
  }

  lemma ValuePrints(step: Step, v: Value) returns (f: Form)
    requires Printable(step, v)
    ensures FormOk(step, f) && FormValue(step, f) == v
  {
    hide Clean, Digits, NumberOf, FractionOf, ValidStamp, DecimalText, Wrap32, Scale;
    match step {
      case Punct(c) => f := PunctForm(c);
      case Key(name) => f := KeyForm(name, "");
      case StringStep => f := StringForm(v.text);
      case ArrayStep =>
        var items := ItemsPrint(v.items);
        f := ArrayForm(items);
      case RealStep =>
        var m: nat, j: nat :| IsScaled(v.amount, m, j);
        var whole, frac := DecimalPrints(m, j);
        f := RealForm(v.amount != m as real * Scale(j), whole, true, frac);
      case IntStep =>
        f := IntForm(DecimalText(v.n));
        DecimalTextIs(v.n);
      case BoolStep => f := BoolForm(v.b);
      case TimeStep => f := TimeForm(v.at);
    }
  }

  // ---------- Scripts and requests ----------

  /** The values are those of the script's steps from the i-th on, in order. */
  ghost predicate PrintableFrom(script: seq<Step>, i: nat, vs: seq<Value>)
    requires i <= |script|
    decreases |script| - i
  {
    if i == |script| then vs == []
    else if script[i].Punct? || script[i].Key? then PrintableFrom(script, i + 1, vs)
    else vs != [] && Printable(script[i], vs[0]) && PrintableFrom(script, i + 1, vs[1..])
  }

  lemma {:induction false} ScriptPrints(script: seq<Step>, i: nat, vs: seq<Value>, front: seq<Piece>)
      returns (ps: seq<Piece>)
    requires i <= |script| && PrintableFrom(script, i, vs)
    requires |front| == i && forall j :: 0 <= j < i ==>
               Spaces(front[j].pre) && FormOk(script[j], front[j].form) && Spaces(front[j].post)
    ensures PiecesOk(script, ps) && ps[..i] == front && ValuesFrom(script, ps, i) == vs
    decreases |script| - i
  {
    if i == |script| {
      ps := front;
    } else {
      var plain := script[i].Punct? || script[i].Key?;
      var v := if plain then Nothing else vs[0];
      assert Printable(script[i], v) && (v == Nothing <==> plain);
      hide Printable, FormOk, FormValue;
      var f := ValuePrints(script[i], v);
      ps := ScriptPrints(script, i + 1, if plain then vs else vs[1..], front + [Piece("", f, "")]);
      assert ps[i] == ps[..i + 1][i] == Piece("", f, "");
      assert ps[..i] == ps[..i + 1][..i];
    }
  }

  /** Quote- and backslash-free strings, non-negative int32 integers, finite decimals, and
      calendar dates. */
  ghost predicate PrintableRequest(q: Request) {
    && Clean(q.id) && Clean(q.merchantID) && Clean(q.mcc)
    && (forall i :: 0 <= i < |q.knownMerchants| ==> Clean(q.knownMerchants[i]))
    && IsDecimal(q.amount) && IsDecimal(q.customerAvg) && IsDecimal(q.merchantAvg) && IsDecimal(q.kmFromHome)
    && 0 <= q.installments < 0x8000_0000 && 0 <= q.txCount24h < 0x8000_0000 && IsDate(q.requestedAt)
    && (q.hasLast ==> IsDate(q.lastTimestamp) && IsDecimal(q.lastKm))
  }

  /** Printable values at exactly the steps that are not punctuation or keys. */
  lemma {:induction false} ValuesAt(script: seq<Step>, i: nat, at: seq<nat>, vs: seq<Value>)
    requires i <= |script| && |at| == |vs|
    requires forall j :: 0 <= j < |at| ==> i <= at[j] < |script| && Printable(script[at[j]], vs[j])
    requires forall j, k :: 0 <= j < k < |at| ==> at[j] < at[k]
    requires forall k :: i <= k < |script| ==> (k in at <==> !(script[k].Punct? || script[k].Key?))
    ensures PrintableFrom(script, i, vs)
    decreases |script| - i
  {
    hide Printable;
    if i < |script| {
      if i in at {
        assert at[0] == i;
        ValuesAt(script, i + 1, at[1..], vs[1..]);
      } else {
        ValuesAt(script, i + 1, at, vs);
      }
    }
  }

  lemma OpenPrintable(q: Request)
    requires PrintableRequest(q)
    ensures PrintableFrom(OPEN, 0, ObjectsOf(q)[0]) && PrintableFrom(CLOSE, 0, [])
  {
    hide Clean, IsDecimal, IsDate, PrintableFrom;
    ValuesAt(OPEN, 0, [2], ObjectsOf(q)[0]);
    ValuesAt(CLOSE, 0, [], []);
  }

  lemma TransactionPrintable(q: Request)
    requires PrintableRequest(q)
    ensures PrintableFrom(TRANSACTION, 0, ObjectsOf(q)[1])
  {
    hide Clean, IsDecimal, IsDate, PrintableFrom;
    ValuesAt(TRANSACTION, 0, [3, 6, 9], ObjectsOf(q)[1]);
  }

  lemma CustomerPrintable(q: Request)
    requires PrintableRequest(q)
    ensures PrintableFrom(CUSTOMER, 0, ObjectsOf(q)[2])
  {
    hide Clean, IsDecimal, IsDate, PrintableFrom;
    ValuesAt(CUSTOMER, 0, [3, 6, 9], ObjectsOf(q)[2]);
  }

  lemma MerchantPrintable(q: Request)
    requires PrintableRequest(q)
    ensures PrintableFrom(MERCHANT, 0, ObjectsOf(q)[3])
  {
    hide Clean, IsDecimal, IsDate, PrintableFrom;
    ValuesAt(MERCHANT, 0, [3, 6, 9], ObjectsOf(q)[3]);
  }

  lemma TerminalPrintable(q: Request)
    requires PrintableRequest(q)
    ensures PrintableFrom(TERMINAL, 0, ObjectsOf(q)[4])
  {
    hide Clean, IsDecimal, IsDate, PrintableFrom;
    ValuesAt(TERMINAL, 0, [3, 6, 9], ObjectsOf(q)[4]);
  }

  lemma LastPrintable(q: Request)
    requires PrintableRequest(q) && q.hasLast
    ensures PrintableFrom(LAST, 0, LastOf(q))
  {
    hide Clean, IsDecimal, IsDate, PrintableFrom;
    ValuesAt(LAST, 0, [2, 5], LastOf(q));
  }

  /** Every printable request has a printed payload that is accepted and read back as that
      request; only the details behind a null last transaction are not in it. */
  lemma RequestRoundTrip(q: Request, before: Request, rest: string) returns (d: Document)
    requires PrintableRequest(q)
    requires !q.hasLast ==> q.lastTimestamp == before.lastTimestamp && q.lastKm == before.lastKm
    ensures DocumentOk(d) && ReadPayload(DocumentText(d, rest)).Got?
    ensures RequestOf(ReadPayload(DocumentText(d, rest)).value, before) == q
  {
    hide PrintableRequest, PrintableFrom, PiecesOk, ValuesFrom, RequestOf, ReadPayload, DocumentText;
    OpenPrintable(q);
    TransactionPrintable(q);
    CustomerPrintable(q);
    MerchantPrintable(q);
    TerminalPrintable(q);
    var objects := ObjectsOf(q);
    var open := ScriptPrints(OPEN, 0, objects[0], []);
    var transaction := ScriptPrints(TRANSACTION, 0, objects[1], []);
    var customer := ScriptPrints(CUSTOMER, 0, objects[2], []);
    var merchant := ScriptPrints(MERCHANT, 0, objects[3], []);
    var terminal := ScriptPrints(TERMINAL, 0, objects[4], []);
    var close := ScriptPrints(CLOSE, 0, [], []);
    var last := NullForm("");
    if q.hasLast {
      LastPrintable(q);
      var ps := ScriptPrints(LAST, 0, LastOf(q), []);
      last := ObjectForm(ps);
    }
    d := Document(open, transaction, customer, merchant, terminal, last, close);
    assert DocumentFields(d) == Fields(objects, q.hasLast, LastOf(q));
    PrintedIsRead(d, rest);
    FieldsGiveBack(q, before);
  }
}
