/** Printed payloads, and the proof that the payload language of the strict parser is
    exactly the set of printed payloads, each read back as the values printed. */
module PayloadPrinter {
  import opened Distance
  import opened PayloadGrammar

  // ---------- Printing one step ----------

  /** The inside of an array after its opening bracket.  A comma may follow the last item. */
  datatype Items = End(gap: string) | Last(pre: string, x: string, post: string)
                 | More(pre: string, x: string, post: string, next: Items)

  /** How one step is written. */
  datatype Form = PunctForm(c: char) | KeyForm(name: string, gap: string) | StringForm(x: string)
                | ArrayForm(items: Items) | RealForm(neg: bool, whole: string, point: bool, frac: string)
                | IntForm(digits: string) | BoolForm(b: bool) | TimeForm(at: Stamp)

  function Quoted(x: string): string {
    "\"" + x + "\""
  }

  function ItemsText(items: Items): string {
    match items
    case End(gap) => gap + "]"
    case Last(pre, x, post) => pre + (Quoted(x) + (post + "]"))
    case More(pre, x, post, next) => pre + (Quoted(x) + (post + ("," + ItemsText(next))))
  }

  function ItemsValue(items: Items): seq<string> {
    match items
    case End(_) => []
    case Last(_, x, _) => [x]
    case More(_, x, _, next) => [x] + ItemsValue(next)
  }

  /** No quotes or backslashes. */
  predicate Clean(x: string) {
    forall i :: 0 <= i < |x| ==> x[i] != '"' && x[i] != '\\'
  }

  predicate ItemsOk(items: Items) {
    match items
    case End(gap) => Spaces(gap)
    case Last(pre, x, post) => Spaces(pre) && Clean(x) && Spaces(post)
    case More(pre, x, post, next) => Spaces(pre) && Clean(x) && Spaces(post) && ItemsOk(next)
  }

  /** A number's digits, with a fraction after a point, and what follows not more of it. */
  predicate PartsOk(whole: string, point: bool, frac: string, rest: string) {
    && Digits(whole) && whole != [] && Digits(frac) && (!point ==> frac == [])
    && (rest == [] || (!IsDigit(rest[0]) && (point || rest[0] != '.')))
  }

  function PartsText(whole: string, point: bool, frac: string): string {
    whole + (if point then "." + frac else "")
  }

  /** A legal way of writing the step. */
  predicate FormOk(step: Step, f: Form) {
    match step
    case Punct(c) => f == PunctForm(c)
    case Key(name) => f.KeyForm? && f.name == name && Spaces(f.gap)
    case StringStep => f.StringForm? && Clean(f.x)
    case ArrayStep => f.ArrayForm? && ItemsOk(f.items)
    case RealStep => f.RealForm? && PartsOk(f.whole, f.point, f.frac, [])
    case IntStep => f.IntForm? && Digits(f.digits) && f.digits != []
    case BoolStep => f.BoolForm?
    case TimeStep => f.TimeForm? && ValidStamp(f.at)
  }

  function RealText(neg: bool, whole: string, point: bool, frac: string): string {
    (if neg then "-" else "") + PartsText(whole, point, frac)
  }

  function FormText(step: Step, f: Form): string
    requires FormOk(step, f)
  {
    match f
    case PunctForm(c) => [c]
    case KeyForm(name, gap) => name + (gap + ":")
    case StringForm(x) => Quoted(x)
    case ArrayForm(items) => "[" + ItemsText(items)
    case RealForm(neg, whole, point, frac) => RealText(neg, whole, point, frac)
    case IntForm(digits) => digits
    case BoolForm(b) => if b then "true" else "false"
    case TimeForm(at) => Quoted(StampText(at))
  }

  function FormValue(step: Step, f: Form): Value
    requires FormOk(step, f)
  {
    match f
    case PunctForm(_) => Nothing
    case KeyForm(_, _) => Nothing
    case StringForm(x) => Str(x)
    case ArrayForm(items) => Strs(ItemsValue(items))
    case RealForm(neg, whole, _, frac) => Num(DecimalOf(neg, whole, frac))
    case IntForm(digits) => Int(Wrap32(NumberOf(digits)))
    case BoolForm(b) => Flag(b)
    case TimeForm(at) => Time(CalendarDate(at))
  }

  /** A number must not be followed by more of itself. */
  predicate Delimited(f: Form, rest: string) {
    match f
    case IntForm(_) => rest == [] || !IsDigit(rest[0])
    case RealForm(_, _, point, _) => rest == [] || (!IsDigit(rest[0]) && (point || rest[0] != '.'))
    case _ => true
  }

  // ---------- Spaces, strings, digits ----------

  lemma {:induction false} SkipSpacesFirst(w: string, t: string)
    requires Spaces(w)
    ensures Skip(w + t) == Skip(t)
  {
    if w == [] {
      assert w + t == t;
    } else {
      assert (w + t)[1..] == w[1..] + t;
      SkipSpacesFirst(w[1..], t);
    }
  }

  lemma {:induction false} SkipSplits(s: string) returns (w: string)
    ensures Spaces(w) && s == w + Skip(s)
  {
    if s != [] && IsSpace(s[0]) {
      var u := SkipSplits(s[1..]);
      w := [s[0]] + u;
    } else {
      w := [];
    }
  }

  lemma {:induction false} QuotedReads(x: string, rest: string)
    requires Clean(x)
    ensures ReadQuoted(x + ("\"" + rest)) == Got(x, rest)
  {
    var s := x + ("\"" + rest);
    if x == [] {
      assert s == "\"" + rest && s[1..] == rest;
    } else {
      assert s[1..] == x[1..] + ("\"" + rest);
      QuotedReads(x[1..], rest);
      assert [x[0]] + x[1..] == x;
    }
  }

  lemma {:induction false} QuotedFrom(s: string)
    requires ReadQuoted(s).Got?
    ensures Clean(ReadQuoted(s).value) && s == ReadQuoted(s).value + ("\"" + ReadQuoted(s).rest)
  {
    if s[0] == '"' {
      assert s == "\"" + s[1..];
    } else {
      QuotedFrom(s[1..]);
      var x, rest := ReadQuoted(s[1..]).value, ReadQuoted(s[1..]).rest;
      assert s == [s[0]] + s[1..] && [s[0]] + (x + ("\"" + rest)) == ([s[0]] + x) + ("\"" + rest);
    }
  }

  lemma StringReads(x: string, rest: string)
    requires Clean(x)
    ensures ReadString(Quoted(x) + rest) == Got(x, rest)
  {
    assert (Quoted(x) + rest)[1..] == x + ("\"" + rest);
    QuotedReads(x, rest);
  }

  lemma StringFrom(t: string)
    requires ReadString(t).Got?
    ensures Clean(ReadString(t).value) && t == Quoted(ReadString(t).value) + ReadString(t).rest
  {
    QuotedFrom(t[1..]);
    assert t == "\"" + t[1..];
  }

  lemma {:induction false} RunOfDigits(ds: string, rest: string)
    requires Digits(ds) && (rest == [] || !IsDigit(rest[0]))
    ensures DigitRun(ds + rest) == |ds|
  {
    if ds == [] {
      assert ds + rest == rest;
    } else {
      assert (ds + rest)[1..] == ds[1..] + rest;
      RunOfDigits(ds[1..], rest);
    }
  }

  // ---------- One step ----------

  lemma Assoc(a: string, b: string, c: string)
    ensures (a + b) + c == a + (b + c)
  {
  }

  lemma Assoc4(a: string, b: string, c: string, d: string, rest: string)
    ensures (a + (b + (c + d))) + rest == a + (b + (c + (d + rest)))
  {
    Assoc(a, b + (c + d), rest);
    Assoc(b, c + d, rest);
    Assoc(c, d, rest);
  }

  lemma First(c: char, rest: string)
    ensures ([c] + rest)[0] == c && ([c] + rest)[1..] == rest
    ensures !IsSpace(c) ==> Skip([c] + rest) == [c] + rest
  {
  }

  lemma ItemReads(pre: string, x: string, post: string, c: char, rest: string)
    requires Spaces(pre) && Clean(x) && Spaces(post) && !IsSpace(c)
    ensures var after := post + ([c] + rest);
            var s := pre + (Quoted(x) + after);
            Skip(s) == Quoted(x) + after && Skip(s)[0] == '"' && ReadString(Skip(s)) == Got(x, after)
            && Skip(after) == [c] + rest && Skip(after)[0] == c && Skip(after)[1..] == rest
  {
    hide Spaces, Clean, ReadString;
    var after := post + ([c] + rest);
    assert Quoted(x) + after == ['"'] + ((x + "\"") + after);
    First('"', (x + "\"") + after);
    SkipSpacesFirst(pre, Quoted(x) + after);
    StringReads(x, after);
    First(c, rest);
    SkipSpacesFirst(post, [c] + rest);
  }

  lemma {:induction false} ItemsRead(items: Items, rest: string)
    requires ItemsOk(items)
    ensures ReadItems(ItemsText(items) + rest) == Got(ItemsValue(items), rest)
  {
    hide Spaces, Clean, ReadString, Quoted, Skip;
    match items {
      case End(gap) =>
        Assoc(gap, "]", rest);
        SkipSpacesFirst(gap, "]" + rest);
        First(']', rest);
      case Last(pre, x, post) =>
        Assoc4(pre, Quoted(x), post, "]", rest);
        ItemReads(pre, x, post, ']', rest);
      case More(pre, x, post, next) =>
        Assoc4(pre, Quoted(x), post, "," + ItemsText(next), rest);
        Assoc(",", ItemsText(next), rest);
        ItemReads(pre, x, post, ',', ItemsText(next) + rest);
        ItemsRead(next, rest);
    }
  }

  lemma {:induction false} ItemsFrom(s: string) returns (items: Items)
    requires ReadItems(s).Got?
    ensures ItemsOk(items) && ItemsValue(items) == ReadItems(s).value && s == ItemsText(items) + ReadItems(s).rest
    decreases |s|
  {
    hide Spaces, Clean, ReadString, Quoted, Skip;
    var pre := SkipSplits(s);
    var t := Skip(s);
    if t[0] == ']' {
      items := End(pre);
      Assoc(pre, "]", t[1..]);
    } else {
      StringFrom(t);
      var x, after := ReadString(t).value, ReadString(t).rest;
      var post := SkipSplits(after);
      var u := Skip(after);
      if u[0] == ']' {
        items := Last(pre, x, post);
        Assoc4(pre, Quoted(x), post, "]", u[1..]);
      } else {
        var next := ItemsFrom(u[1..]);
        var rest := ReadItems(u[1..]).rest;
        items := More(pre, x, post, next);
        Assoc4(pre, Quoted(x), post, "," + ItemsText(next), rest);
        Assoc(",", ItemsText(next), rest);
      }
    }
  }

  // ---------- Numbers ----------

  lemma UnsignedReads(whole: string, point: bool, frac: string, rest: string)
    requires PartsOk(whole, point, frac, rest)
    ensures ReadUnsigned(PartsText(whole, point, frac) + rest) == Got((whole, point, frac), rest)
  {
    hide Digits, DigitRun;
    var u := PartsText(whole, point, frac) + rest;
    if point {
      assert u == whole + ("." + (frac + rest));
      RunOfDigits(whole, "." + (frac + rest));
      RunOfDigits(frac, rest);
      assert u[..|whole|] == whole && u[|whole| + 1..] == frac + rest;
      assert (frac + rest)[..|frac|] == frac && (frac + rest)[|frac|..] == rest;
    } else {
      assert u == whole + rest;
      RunOfDigits(whole, rest);
      assert u[..|whole|] == whole && u[|whole|..] == rest;
    }
  }

  lemma UnsignedFrom(u: string)
    requires ReadUnsigned(u).Got?
    ensures var r := ReadUnsigned(u);
            && PartsOk(r.value.0, r.value.1, r.value.2, r.rest)
            && u == PartsText(r.value.0, r.value.1, r.value.2) + r.rest
  {
    hide Digits, PartsText;
    var k := DigitRun(u);
    if k < |u| && u[k] == '.' {
      PointParts(u, k, DigitRun(u[k + 1..]));
    } else {
      NoPointParts(u, k);
    }
  }

  lemma PointParts(u: string, k: nat, f: nat)
    requires k < |u| && u[k] == '.' && k + 1 + f <= |u|
    ensures u == PartsText(u[..k], true, u[k + 1..][..f]) + u[k + 1..][f..]
  {
  }

  lemma NoPointParts(u: string, k: nat)
    requires k <= |u|
    ensures u == PartsText(u[..k], false, []) + u[k..]
  {
  }

  lemma RealReads(neg: bool, whole: string, point: bool, frac: string, rest: string)
    requires PartsOk(whole, point, frac, rest)
    ensures ReadReal(RealText(neg, whole, point, frac) + rest) == Got(DecimalOf(neg, whole, frac), rest)
  {
    hide DecimalOf, ReadUnsigned;
    var t := RealText(neg, whole, point, frac) + rest;
    var u := PartsText(whole, point, frac) + rest;
    UnsignedReads(whole, point, frac, rest);
    if neg {
      assert t == "-" + u && t[1..] == u;
    } else {
      assert t == u;
      assert u[0] == whole[0] && IsDigit(u[0]);
    }
  }

  lemma RealFrom(t: string) returns (neg: bool, whole: string, point: bool, frac: string)
    requires ReadReal(t).Got?
    ensures PartsOk(whole, point, frac, ReadReal(t).rest)
    ensures ReadReal(t).value == DecimalOf(neg, whole, frac)
    ensures t == RealText(neg, whole, point, frac) + ReadReal(t).rest
  {
    hide DecimalOf, ReadUnsigned, PartsText, PartsOk, Digits;
    neg := t != [] && t[0] == '-';
    var u := if neg then t[1..] else t;
    UnsignedFrom(u);
    var r := ReadUnsigned(u);
    whole, point, frac := r.value.0, r.value.1, r.value.2;
    if neg {
      assert t == "-" + u;
      Assoc("-", PartsText(whole, point, frac), r.rest);
    } else {
      assert "" + PartsText(whole, point, frac) == PartsText(whole, point, frac);
    }
  }

  // ---------- One step ----------

  lemma KeyReads(name: string, gap: string, rest: string)
    requires Spaces(gap)
    ensures Core(Key(name), (name + (gap + ":")) + rest) == Got(Nothing, rest)
  {
    hide Spaces, Skip;
    var t := (name + (gap + ":")) + rest;
    Assoc(name, gap + ":", rest);
    Assoc(gap, ":", rest);
    assert name <= t && t[|name|..] == gap + (":" + rest);
    First(':', rest);
    SkipSpacesFirst(gap, ":" + rest);
  }

  lemma KeyFrom(name: string, t: string) returns (gap: string)
    requires Core(Key(name), t).Got?
    ensures Spaces(gap) && t == (name + (gap + ":")) + Core(Key(name), t).rest
  {
    hide Spaces, Skip;
    var rest := Core(Key(name), t).rest;
    var u := t[|name|..];
    gap := SkipSplits(u);
    assert Skip(u) == ":" + rest && t == name + u;
    Assoc(name, gap + ":", rest);
    Assoc(gap, ":", rest);
  }

  lemma CleanStamp(at: Stamp)
    requires ValidStamp(at)
    ensures Clean(StampText(at))
  {
    var s := StampText(at);
    StampIsItsText(s, at);
    assert forall i :: 0 <= i < 4 ==> IsDigit(s[0..4][i]);
    assert forall i :: 0 <= i < 2 ==> IsDigit(s[5..7][i]) && IsDigit(s[8..10][i]) && IsDigit(s[11..13][i])
                                      && IsDigit(s[14..16][i]) && IsDigit(s[17..19][i]);
    forall i | 0 <= i < |s| ensures s[i] != '"' && s[i] != '\\' {
      assert IsDigit(s[i]) || s[i] in "-T:Z";
    }
  }

  lemma TimeReads(at: Stamp, rest: string)
    requires ValidStamp(at)
    ensures ReadTime(Quoted(StampText(at)) + rest) == Got(CalendarDate(at), rest)
  {
    hide StampText, HasStampForm, StampOf, ReadString;
    StampIsItsText(StampText(at), at);
    CleanStamp(at);
    StringReads(StampText(at), rest);
  }

  lemma TimeFrom(t: string) returns (at: Stamp)
    requires ReadTime(t).Got?
    ensures ValidStamp(at) && ReadTime(t).value == CalendarDate(at) && t == Quoted(StampText(at)) + ReadTime(t).rest
  {
    hide StampText, HasStampForm, ReadString;
    StringFrom(t);
    at := StampOf(ReadString(t).value);
    StampIsItsText(ReadString(t).value, at);
  }

  lemma BoolReads(b: bool, rest: string)
    ensures ReadBool((if b then "true" else "false") + rest) == Got(b, rest)
  {
    var t := (if b then "true" else "false") + rest;
    if b {
      assert "true" <= t && t[4..] == rest;
    } else {
      assert t[0] == 'f' && "false" <= t && t[5..] == rest;
    }
  }

  lemma IntReads(digits: string, rest: string)
    requires Digits(digits) && digits != [] && (rest == [] || !IsDigit(rest[0]))
    ensures ReadInt(digits + rest) == Got(Wrap32(NumberOf(digits)), rest)
  {
    hide Digits, DigitRun, Wrap32, NumberOf;
    RunOfDigits(digits, rest);
    assert (digits + rest)[..|digits|] == digits && (digits + rest)[|digits|..] == rest;
  }

  /** A written step followed by anything that does not extend it is read back. */
  lemma FormReads(step: Step, f: Form, rest: string)
    requires FormOk(step, f) && Delimited(f, rest)
    ensures Core(step, FormText(step, f) + rest) == Got(FormValue(step, f), rest)
  {
    hide Digits, Spaces, Clean, ValidStamp, ReadString, ReadReal, ReadInt, ReadBool, ReadTime, ReadItems,
         ItemsOk, ItemsText,
      Wrap32, NumberOf, DecimalOf, Quoted, StampText, RealText, Skip;
    match step {
      case Punct(c) => First(c, rest);
      case Key(name) => KeyReads(name, f.gap, rest);
      case StringStep => StringReads(f.x, rest);
      case ArrayStep =>
        Assoc("[", ItemsText(f.items), rest);
        First('[', ItemsText(f.items) + rest);
        ItemsRead(f.items, rest);
      case RealStep => RealReads(f.neg, f.whole, f.point, f.frac, rest);
      case IntStep => IntReads(f.digits, rest);
      case BoolStep => BoolReads(f.b, rest);
      case TimeStep => TimeReads(f.at, rest);
    }
  }

  /** Whatever a step reads was written in one of its forms. */
  lemma FormFrom(step: Step, t: string) returns (f: Form)
    requires Core(step, t).Got?
    ensures FormOk(step, f) && Delimited(f, Core(step, t).rest)
    ensures t == FormText(step, f) + Core(step, t).rest && FormValue(step, f) == Core(step, t).value
  {
    hide Digits, Spaces, Clean, ValidStamp, ReadString, ReadReal, ReadTime, ReadItems,
         ItemsOk, ItemsText,
      Wrap32, NumberOf, DecimalOf, Quoted, StampText, RealText, Skip;
    match step {
      case Punct(c) =>
        f := PunctForm(c);
        assert t == [c] + t[1..];
      case Key(name) =>
        var gap := KeyFrom(name, t);
        f := KeyForm(name, gap);
      case StringStep =>
        StringFrom(t);
        f := StringForm(ReadString(t).value);
      case ArrayStep =>
        var items := ItemsFrom(t[1..]);
        f := ArrayForm(items);
        assert t == "[" + t[1..];
        Assoc("[", ItemsText(items), Core(step, t).rest);
      case RealStep =>
        var neg, whole, point, frac := RealFrom(t);
        f := RealForm(neg, whole, point, frac);
      case IntStep =>
        f := IntForm(t[..DigitRun(t)]);
      case BoolStep =>
        f := BoolForm("true" <= t);
      case TimeStep =>
        var at := TimeFrom(t);
        f := TimeForm(at);
    }
  }
}
